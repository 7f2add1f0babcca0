/** Reachable runs in which the name server's promises fail: a service that is announced again behind
    a tombstone is there twice, and one removal leaves the other record. */
module Examples {
  import opened Options
  import opened Hash
  import opened SlotTable
  import opened NameService
  import opened Registry
  import opened LookupReplies
  import opened Observer
  import opened Silence

  /** Two ports whose hashes share the last slot of a table of one growth step. */
  const PORT1: u32 := 16559
  const PORT2: u32 := 16815

  lemma PortsCollide()
    ensures HashU32(PORT1) != HashU32(PORT2)
    ensures Home(GROWTH, HashU32(PORT1)) == Home(GROWTH, HashU32(PORT2)) == GROWTH - 1
  {
    assert HashU32(PORT1) == 16559 * 2654435761 % 0x1_0000_0000;
    assert HashU32(PORT2) == 16815 * 2654435761 % 0x1_0000_0000;
  }

  /** Two services of node n at those ports. */
  predicate Colliding(n: u32, a: Server, b: Server) {
    a.node == b.node == n && a.port == PORT1 && b.port == PORT2 && a.service != 0 && b.service != 0
  }

  /** Both register, the first leaves, and the second is announced again. */
  function Collision(a: Server, b: Server): seq<Packet> {
    var atA, atB := Addr(a.node, a.port), Addr(b.node, b.port);
    [Packet(atA, NewServer(a)), Packet(atB, NewServer(b)), Packet(atA, DelServer(a)), Packet(atB, NewServer(b))]
  }

  /** A service registers, or leaves, at its own address. */
  lemma Registers(s: State, srv: Server)
    requires Invariant(s) && srv.service != 0 && srv.port != 0
    ensures var t := Handle(s, Addr(srv.node, srv.port), NewServer(srv)).state;
            && Invariant(t) && t.local == s.local && t.lookups == s.lookups
            && Services(t.nodes, srv.node) == Put(Services(s.nodes, srv.node), HashU32(srv.port), srv)
  {
    HandleKeepsInvariant(s, Addr(srv.node, srv.port), NewServer(srv));
  }

  lemma Leaves(s: State, srv: Server)
    requires Invariant(s)
    ensures var t := Handle(s, Addr(srv.node, srv.port), DelServer(srv)).state;
            && Invariant(t) && t.local == s.local && t.lookups == s.lookups
            && Services(t.nodes, srv.node) == Remove(Services(s.nodes, srv.node), HashU32(srv.port))
  {
    HandleKeepsInvariant(s, Addr(srv.node, srv.port), DelServer(srv));
  }

  lemma ServeFirst(s: State, p: Packet, rest: seq<Packet>)
    ensures Serve(s, [p] + rest) == Serve(Handle(s, p.from, p.msg).state, rest)
  {
    assert ([p] + rest)[0] == p && ([p] + rest)[1..] == rest;
  }

  lemma ServeFour(s: State, p: Packet, q: Packet, r: Packet, u: Packet)
    ensures var s1 := Handle(s, p.from, p.msg).state;
            var s2 := Handle(s1, q.from, q.msg).state;
            var s3 := Handle(s2, r.from, r.msg).state;
            Serve(s, [p, q, r, u]) == Handle(s3, u.from, u.msg).state
  {
    var s1 := Handle(s, p.from, p.msg).state;
    var s2 := Handle(s1, q.from, q.msg).state;
    var s3 := Handle(s2, r.from, r.msg).state;
    assert [p, q, r, u] == [p] + [q, r, u] && [q, r, u] == [q] + [r, u] && [r, u] == [r] + [u] && [u] == [u] + [];
    ServeFirst(s, p, [q, r, u]);
    ServeFirst(s1, q, [r, u]);
    ServeFirst(s2, r, [u]);
    ServeFirst(s3, u, []);
  }

  /** The table then holds the second service twice. */
  lemma CollisionState(s: State, n: u32, a: Server, b: Server)
    requires Invariant(s) && Services(s.nodes, n) == [] && Colliding(n, a, b)
    ensures var t := Serve(s, Collision(a, b));
            && Invariant(t) && t.local == s.local && t.lookups == s.lookups
            && Services(t.nodes, n) == Twice(HashU32(PORT2), b)
  {
    var p, q := Packet(Addr(n, a.port), NewServer(a)), Packet(Addr(n, b.port), NewServer(b));
    var r := Packet(Addr(n, a.port), DelServer(a));
    var s1 := Handle(s, p.from, p.msg).state;
    var s2 := Handle(s1, q.from, q.msg).state;
    var s3 := Handle(s2, r.from, r.msg).state;
    ServeFour(s, p, q, r, q);
    Registers(s, a);
    Registers(s1, b);
    Leaves(s2, a);
    Registers(s3, b);
    PortsCollide();
    ThirdPut(HashU32(PORT1), HashU32(PORT2), a, b);
  }

  /** The state of a fresh name server after that. */
  function Collided(local: u32, a: Server, b: Server): State { Serve(State(local, [], []), Collision(a, b)) }

  lemma CollidedState(local: u32, n: u32, a: Server, b: Server)
    requires Colliding(n, a, b)
    ensures var t := Collided(local, a, b);
            Invariant(t) && t.local == local && Services(t.nodes, n) == Twice(HashU32(PORT2), b)
  {
    FreshServer(local);
    CollisionState(State(local, [], []), n, a, b);
  }

  /** BYE passes a record by, and the node's service is still registered. */
  lemma ByeExample(local: u32, n: u32, port: u32, a: Server, b: Server)
    requires Colliding(n, a, b)
    ensures var t := Handle(Collided(local, a, b), Addr(n, port), Bye(n)).state;
            Registered(t, b) && View(t, n) != map[]
  {
    var s := Collided(local, a, b);
    var from, h := Addr(n, port), HashU32(PORT2);
    CollidedState(local, n, a, b);
    PortsCollide();
    TwiceIsSplit(h, b);
    HandleKeepsInvariant(s, from, Bye(n));
    KnownKeeps(s, n);
    DrainIsSweep(Known(s, n), n, 0);
    TwiceAnswers(h, b);
    SweptAnswers(Twice(h, b), h, b, 0);
    OnlyAnswers(Sweep(Twice(h, b), 0), h, b);
    var t := Handle(s, from, Bye(n)).state;
    ServicesFiled(t.nodes, n);
    RegisteredView(t, b);
    GetRefines(Services(t.nodes, n), h);
  }

  /** A table that stores nothing else. */
  ghost predicate Only(s: Slots<Server>, key: nat, item: Server) {
    forall p :: 0 <= p < |s| && s[p].Live? ==> s[p] == Live(key, item)
  }

  lemma OnlyAnswers(s: Slots<Server>, key: nat, item: Server)
    requires NoGaps(s) && Only(s, key, item) && !Bare(s)
    ensures Get(s, key) == Some(item)
  {
    GetIsTop(s, key);
    HasStack(s, key);
    var p :| 0 <= p < |s| && s[p].Live?;
    assert s[p].Holds(key);
  }

  lemma {:induction false} SweptAnswers(s: Slots<Server>, key: nat, item: Server, i: nat)
    requires NoGaps(s) && Only(s, key, item)
    ensures NoGaps(Sweep(s, i)) && Only(Sweep(s, i), key, item)
    decreases |s| - i
  {
    var p := Next(s, i);
    if p.Some? {
      RemovePops(s, key);
      assert s[p.value].key == key;
      SweptAnswers(Remove(s, key), key, item, p.value + 1);
    }
  }

  /** A lookup of every service is told of the service twice. */
  lemma ReplyExample(local: u32, n: u32, a: Server, b: Server, l: Lookup)
    requires Colliding(n, a, b) && l.service == 0 && l.instance == 0
    ensures var s := Collided(local, a, b);
            && Items(Services(s.nodes, n)) == [b, b] && Registered(s, b)
            && !NoDuplicates(Found(s, l)) && !ExactReply(s, l)
  {
    var s, h := Collided(local, a, b), HashU32(PORT2);
    CollidedState(local, n, a, b);
    PortsCollide();
    TwiceListed(h, b);
    TwiceAnswers(h, b);
    QueryAgreesWithNotifications(l, b);
    SelectTwice(Twice(h, b), Selection(l), 0, 0, GROWTH - 1);
    NodeRecords(s, 0);
    NodeIsListed(s, n);
    var i :| 0 <= i < |Items(s.nodes)| && Items(s.nodes)[i].id == n;
    QueryTwice(Items(s.nodes), Selection(l), i);
  }

  /** A local client that closes its port is still registered, and is told of its own end. */
  lemma SilenceExample(local: u32, a: Server, b: Server)
    requires Colliding(local, a, b) && local != BROADCAST.node
    ensures var r := Handle(Collided(local, a, b), Addr(local, PORT2), DelClient(local, PORT2));
            Registered(r.state, b) && !Closed(r.state, PORT2) && !NotTo(r.sent, Addr(local, PORT2))
  {
    var s, h := Collided(local, a, b), HashU32(PORT2);
    CollidedState(local, local, a, b);
    TwiceAnswers(h, b);
    DelClientCloses(s, PORT2);
    HandleKeepsInvariant(s, Addr(local, PORT2), DelClient(local, PORT2));
  }

  /** A client that has looked up every service is told that the service is gone; it is not. */
  lemma ObserverExample(s: State, n: u32, a: Server, b: Server, l: Lookup, view: set<Server>)
    requires Invariant(s) && Services(s.nodes, n) == [] && Colliding(n, a, b)
    requires l in s.lookups && l.service == 0 && l.instance == 0
    ensures var t := Serve(s, Collision(a, b));
            var r := Handle(t, Addr(n, PORT2), DelServer(b));
            && Invariant(t) && l in r.state.lookups && Registered(r.state, b) && Matches(l, b)
            && b !in Hear(view, r.sent, l) && !Covers(r.state, l, Hear(view, r.sent, l))
  {
    var t, h := Serve(s, Collision(a, b)), HashU32(PORT2);
    CollisionState(s, n, a, b);
    TwiceAnswers(h, b);
    Leaves(t, b);
    KnownKeeps(t, n);
    var r := Handle(t, Addr(n, PORT2), DelServer(b));
    assert r.sent == Removal(Known(t, n), b);
    HearRemoval(view, Known(t, n), b, l);
  }
}
