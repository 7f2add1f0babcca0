/** A table that is filled to the brim while a stale copy sits behind a newer one: growing brings the
    stale copy back. First as calls on a table, then as packets to a name server. */
module Growth {
  import opened Options
  import opened Hash
  import opened SlotTable
  import opened NameService
  import opened Registry
  import opened LookupReplies
  import opened Examples

  // ----- Calls on a table -----

  /** One key for each home slot of a table of one growth step. */
  predicate OneEach(keys: seq<nat>) { |keys| == GROWTH && forall j :: 0 <= j < GROWTH ==> Home(GROWTH, keys[j]) == j }

  /** The keys from position j on are put. */
  function Filled<T>(s: Slots<T>, keys: seq<nat>, items: seq<T>, j: nat): Slots<T>
    requires |keys| == |items|
    decreases |keys| - j
  {
    if j >= |keys| then s else Filled(Put(s, keys[j], items[j]), keys, items, j + 1)
  }

  /** The first key and `key` are put, the first is removed, `key` is put again, and then all others are. */
  function Brimful<T>(keys: seq<nat>, items: seq<T>, key: nat, first: T, later: T): Slots<T>
    requires OneEach(keys) && |items| == GROWTH
  {
    Filled(Put(Remove(Put(Put([], keys[0], items[0]), key, first), keys[0]), key, later), keys, items, 2)
  }

  /** Two copies of the key in the first slots, the other slots taken up to slot j. */
  ghost predicate Filling<T>(s: Slots<T>, keys: seq<nat>, key: nat, first: T, later: T, j: nat) {
    && |s| == |keys| == GROWTH && 2 <= j <= GROWTH && s[0] == Live(key, later) && s[1] == Live(key, first)
    && (forall i :: 2 <= i < j ==> s[i].Live? && s[i].key == keys[i])
    && forall i :: j <= i < GROWTH ==> s[i].Never?
  }

  lemma FillsNext<T>(s: Slots<T>, keys: seq<nat>, key: nat, first: T, later: T, j: nat, item: T)
    requires OneEach(keys) && Filling(s, keys, key, first, later, j) && j < GROWTH
    ensures Filling(Put(s, keys[j], item), keys, key, first, later, j + 1)
  {
    FullIsAllLive(s);
    assert s[j].Never?;
    assert Probe(GROWTH, keys[j], 0) == j;
    assert ClaimFrom(s, keys[j], 0) == Some(j);
    assert Put(s, keys[j], item) == s[j := Live(keys[j], item)];
  }

  lemma {:induction false} FillsUp<T>(s: Slots<T>, keys: seq<nat>, items: seq<T>, key: nat, first: T, later: T, j: nat)
    requires OneEach(keys) && |items| == GROWTH && Filling(s, keys, key, first, later, j)
    ensures Filling(Filled(s, keys, items, j), keys, key, first, later, GROWTH)
    decreases GROWTH - j
  {
    if j < GROWTH {
      FillsNext(s, keys, key, first, later, j, items[j]);
      FillsUp(Put(s, keys[j], items[j]), keys, items, key, first, later, j + 1);
    }
  }

  /** The newer copy goes to the first slot, the older one stays in the second. */
  lemma FillStarts<T>(keys: seq<nat>, a: T, key: nat, first: T, later: T)
    requires OneEach(keys) && key != keys[0] && Home(GROWTH, key) == 0
    ensures Filling(Put(Remove(Put(Put([], keys[0], a), key, first), keys[0]), key, later), keys, key, first, later, 2)
  {
    var k := keys[0];
    FirstPut(k, a);
    SecondPut(k, key, a, first);
    var s2 := Put(Put([], k, a), key, first);
    assert Probe(GROWTH, k, 0) == 0 && FindFrom(s2, k, 0) == Some(0);
    var s3 := Remove(s2, k);
    assert s3 == s2[0 := Tomb];
    FullIsAllLive(s3);
    assert s3[0].Tomb?;
    assert Probe(GROWTH, key, 0) == 0 && ClaimFrom(s3, key, 0) == Some(0);
    assert Put(s3, key, later) == s3[0 := Live(key, later)];
  }

  lemma {:induction false} LastAt<T>(s: Slots<T>, i: nat, p: nat, k: nat)
    requires i <= p < |s| && s[p].Holds(k) && forall q :: p < q < |s| ==> !s[q].Holds(k)
    ensures LastFrom(s, i, k) == Some(s[p].item)
    decreases |s| - i
  {
    if i < p {
      LastAt(s, i + 1, p, k);
    } else {
      NoneAfter(s, p + 1, k);
    }
  }

  lemma {:induction false} NoneAfter<T>(s: Slots<T>, i: nat, k: nat)
    requires i <= |s| && forall q :: i <= q < |s| ==> !s[q].Holds(k)
    ensures LastFrom(s, i, k) == None
    decreases |s| - i
  {
    if i < |s| {
      NoneAfter(s, i + 1, k);
    }
  }

  /** A table filled like that finds the newer item and, when it grows, keeps the older one. */
  lemma FilledAnswers<T>(s: Slots<T>, keys: seq<nat>, key: nat, first: T, later: T)
    requires OneEach(keys) && Home(GROWTH, key) == 0 && Filling(s, keys, key, first, later, GROWTH)
    ensures NoGaps(s) && Full(s) && Get(s, key) == Some(later) && LastFrom(s, 0, key) == Some(first)
  {
    FullIsAllLive(s);
    assert Probe(GROWTH, key, 0) == 0 && FindFrom(s, key, 0) == Some(0);
    forall q | 1 < q < |s|
      ensures !s[q].Holds(key)
    {
      assert s[q].key == keys[q] && Home(GROWTH, keys[q]) == q;
    }
    LastAt(s, 0, 1, key);
  }

  /** A full table in which a growth changes an answer: putting any other key brings the older item of
      `key` back, and putting `key` itself hands the older item back instead of the newer one. */
  lemma GrowthExample<T>(keys: seq<nat>, items: seq<T>, key: nat, first: T, later: T, k: nat, item: T)
    requires OneEach(keys) && |items| == GROWTH && key != keys[0] && Home(GROWTH, key) == 0 && k != key
    ensures var s := Brimful(keys, items, key, first, later);
            && NoGaps(s) && Full(s) && Get(s, key) == Some(later) && LastFrom(s, 0, key) == Some(first)
            && Get(Put(s, k, item), key) == Some(first)
            && (first != later ==> Previous(s, key) != Get(s, key))
  {
    var t := Put(Remove(Put(Put([], keys[0], items[0]), key, first), keys[0]), key, later);
    var s := Brimful(keys, items, key, first, later);
    FillStarts(keys, items[0], key, first, later);
    FillsUp(t, keys, items, key, first, later, 2);
    FilledAnswers(s, keys, key, first, later);
    PutAnswer(s, k, item, key);
    PutReplacesBinding(s, key);
  }

  /** With the numbers below 256 as keys, and 256 for the one that comes back. */
  lemma NumbersExample<T>(items: seq<T>, first: T, later: T, item: T)
    requires |items| == GROWTH
    ensures var keys := seq(GROWTH, j => j);
            OneEach(keys) &&
            var s := Brimful(keys, items, 256, first, later);
            Get(s, 256) == Some(later) && Get(Put(s, 0, item), 256) == Some(first)
  {
    GrowthExample(seq(GROWTH, j => j), items, 256, first, later, 0, item);
  }

  // ----- Packets to a name server -----

  /** A port for each home slot: 81 undoes the hash modulo 256. */
  function PortOf(j: nat): (p: u32)
    requires j < GROWTH
  {
    if j == 0 then 256 else 81 * j % 256
  }

  const STALE: u32 := 512

  lemma Residue(x: int, j: nat)
    requires j < 256
    ensures (j + 256 * x) % 256 == j
  {
  }

  lemma PortHome(j: nat)
    requires j < GROWTH
    ensures Home(GROWTH, HashU32(PortOf(j))) == j
  {
    var p := PortOf(j);
    var h: nat, n: nat := HashU32(p), p * 2654435761 / 0x1_0000_0000;
    assert h == p * 2654435761 - 0x1_0000_0000 * n;
    if j == 0 {
      Residue(2654435761 - 0x100_0000 * n, 0);
    } else {
      var m := 81 * j / 256;
      assert p == 81 * j - 256 * m;
      assert 81 * 2654435761 == 256 * 839880065 + 1;
      Residue(839880065 * j - 2654435761 * m - 0x100_0000 * n, j);
    }
  }

  function Keys(): (keys: seq<nat>)
    ensures |keys| == GROWTH
  {
    seq(GROWTH, j requires 0 <= j < GROWTH => HashU32(PortOf(j)))
  }

  lemma KeysAreOneEach()
    ensures OneEach(Keys()) && HashU32(STALE) != Keys()[0] && Home(GROWTH, HashU32(STALE)) == 0
  {
    forall j | 0 <= j < GROWTH
      ensures Home(GROWTH, Keys()[j]) == j
    {
      PortHome(j);
    }
    var n := 512 * 2654435761 / 0x1_0000_0000;
    assert HashU32(STALE) == 512 * 2654435761 - 0x1_0000_0000 * n;
    Residue(2 * 2654435761 - 0x100_0000 * n, 0);
    if HashU32(STALE) == HashU32(PortOf(0)) {
      HashU32Injective(STALE, PortOf(0));
    }
  }

  function Offers(n: u32): (servers: seq<Server>)
    ensures |servers| == GROWTH
  {
    seq(GROWTH, j requires 0 <= j < GROWTH => Server(1, 0, n, PortOf(j)))
  }

  function Joins(srv: Server): Packet { Packet(Addr(srv.node, srv.port), NewServer(srv)) }

  function JoinsFrom(n: u32, j: nat): seq<Packet>
    decreases GROWTH - j
  {
    if j >= GROWTH then [] else [Joins(Offers(n)[j])] + JoinsFrom(n, j + 1)
  }

  /** Two services of the same port, one after the other. */
  function Former(n: u32): Server { Server(1, 0, n, STALE) }
  function Latter(n: u32): Server { Server(2, 0, n, STALE) }

  /** The same run as packets: the latter service replaces the former behind a tombstone, and then
      the table fills up. */
  function GrowthRun(n: u32): seq<Packet> {
    var a := Offers(n)[0];
    [Joins(a)] + ([Joins(Former(n))] + ([Packet(Addr(n, a.port), DelServer(a))]
                                        + ([Joins(Latter(n))] + JoinsFrom(n, 2))))
  }

  lemma JoinServes(s: State, n: u32, j: nat)
    requires Invariant(s) && j < GROWTH
    ensures var p := Joins(Offers(n)[j]);
            var t := Handle(s, p.from, p.msg).state;
            && Invariant(t) && t.local == s.local
            && Services(t.nodes, n) == Put(Services(s.nodes, n), Keys()[j], Offers(n)[j])
            && Serve(s, JoinsFrom(n, j)) == Serve(t, JoinsFrom(n, j + 1))
  {
    Registers(s, Offers(n)[j]);
    ServeFirst(s, Joins(Offers(n)[j]), JoinsFrom(n, j + 1));
  }

  lemma {:induction false} JoinsServe(s: State, n: u32, j: nat)
    requires Invariant(s)
    ensures var t := Serve(s, JoinsFrom(n, j));
            && Invariant(t) && t.local == s.local
            && Services(t.nodes, n) == Filled(Services(s.nodes, n), Keys(), Offers(n), j)
    decreases GROWTH - j
  {
    if j < GROWTH {
      var p := Joins(Offers(n)[j]);
      JoinServes(s, n, j);
      JoinsServe(Handle(s, p.from, p.msg).state, n, j + 1);
    }
  }

  lemma GrowthRunState(local: u32, n: u32)
    ensures var t := Serve(State(local, [], []), GrowthRun(n));
            && OneEach(Keys()) && Invariant(t) && t.local == local
            && Services(t.nodes, n) == Brimful(Keys(), Offers(n), HashU32(STALE), Former(n), Latter(n))
  {
    var s, a := State(local, [], []), Offers(n)[0];
    var p, q, u := Joins(a), Joins(Former(n)), Joins(Latter(n));
    var r := Packet(Addr(n, a.port), DelServer(a));
    var s1 := Handle(s, p.from, p.msg).state;
    var s2 := Handle(s1, q.from, q.msg).state;
    var s3 := Handle(s2, r.from, r.msg).state;
    KeysAreOneEach();
    FreshServer(local);
    ServeFirst(s, p, [q] + ([r] + ([u] + JoinsFrom(n, 2))));
    ServeFirst(s1, q, [r] + ([u] + JoinsFrom(n, 2)));
    ServeFirst(s2, r, [u] + JoinsFrom(n, 2));
    ServeFirst(s3, u, JoinsFrom(n, 2));
    Registers(s, a);
    Registers(s1, Former(n));
    Leaves(s2, a);
    Registers(s3, Latter(n));
    JoinsServe(Handle(s3, u.from, u.msg).state, n, 2);
  }

  lemma GrowthTable(local: u32, n: u32, k: nat, srv: Server)
    requires k != HashU32(STALE)
    ensures var t := Serve(State(local, [], []), GrowthRun(n));
            var services, h := Services(t.nodes, n), HashU32(STALE);
            && Invariant(t) && t.local == local && Full(services)
            && Get(services, h) == Some(Latter(n)) && LastFrom(services, 0, h) == Some(Former(n))
            && Get(Put(services, k, srv), h) == Some(Former(n))
  {
    GrowthRunState(local, n);
    KeysAreOneEach();
    GrowthExample(Keys(), Offers(n), HashU32(STALE), Former(n), Latter(n), k, srv);
  }

  /** In that reachable state any registration at another port of the node, local or not, brings the
      former service back in the place of the latter. */
  lemma GrowthPacketExample(local: u32, n: u32, srv: Server)
    requires srv.node == n && srv.service != 0 && srv.port != 0 && srv.port != STALE
    ensures var t := Serve(State(local, [], []), GrowthRun(n));
            var from := Addr(n, srv.port);
            var r := Handle(t, from, NewServer(srv));
            && Invariant(t) && t.local == local
            && Registered(t, Latter(n)) && !Registered(t, Former(n))
            && Registered(r.state, Former(n)) && !Registered(r.state, Latter(n))
            && !Tame(t, from, NewServer(srv))
  {
    var t, from := Serve(State(local, [], []), GrowthRun(n)), Addr(n, srv.port);
    var h, k := HashU32(STALE), HashU32(srv.port);
    if h == k {
      HashU32Injective(STALE, srv.port);
    }
    GrowthTable(local, n, k, srv);
    Registers(t, srv);
    assert Accepted(t, from, srv) && Claimed(t, from, srv) == srv;
    assert LastFrom(Services(t.nodes, n), 0, h) != Get(Services(t.nodes, n), h);
  }
}
