/** Two name servers joined by reliable first-in first-out channels: what B believes about A's
    services, once the packets in flight are applied, against what A has registered; and exactly
    which steps keep the two together. */
module Replication {
  import opened Options
  import opened Hash
  import opened SlotTable
  import opened NameService
  import opened Registry
  import Observer

  type Services' = map<nat, Server>

  /** `heard`: A has handled a HELLO from B. */
  datatype Pair = Pair(a: State, b: State, ab: seq<Msg>, ba: seq<Msg>, heard: bool)

  /** A packet reaches A or B from elsewhere, or the next packet of a channel is delivered. */
  datatype Event = AtA(from: Addr, msg: Msg) | AtB(from: Addr, msg: Msg) | AToB | BToA

  function Reaching(e: Sent, node: u32): seq<Msg> {
    if e.to == BROADCAST || e.to == Addr(node, CTRL) then [e.msg] else []
  }

  /** The packets, in order, that reach the name server of another node. */
  function ToNode(sent: seq<Sent>, node: u32): seq<Msg>
    decreases |sent|
  {
    if sent == [] then [] else Reaching(sent[0], node) + ToNode(sent[1..], node)
  }

  function Advance(p: Pair, e: Event): Pair {
    match e
    case AtA(from, msg) =>
      var r := Handle(p.a, from, msg);
      p.(a := r.state, ab := p.ab + ToNode(r.sent, p.b.local))
    case AtB(from, msg) =>
      var r := Handle(p.b, from, msg);
      p.(b := r.state, ba := p.ba + ToNode(r.sent, p.a.local))
    case AToB =>
      if p.ab == [] then p
      else
        var r := Handle(p.b, Addr(p.a.local, CTRL), p.ab[0]);
        p.(b := r.state, ab := p.ab[1..], ba := p.ba + ToNode(r.sent, p.a.local))
    case BToA =>
      if p.ba == [] then p
      else
        var r := Handle(p.a, Addr(p.b.local, CTRL), p.ba[0]);
        Pair(r.state, p.b, p.ab + ToNode(r.sent, p.b.local), p.ba[1..], p.heard || p.ba[0].Hello?)
  }

  /** The services of a name server's own node. */
  function Own(s: State): Slots<Server> { Services(s.nodes, s.local) }

  // ----- What a stream of packets from node a makes of a copy of its registry -----

  function Apply(v: Services', a: u32, msg: Msg): Services' {
    match msg
    case NewServer(srv) => if srv.node == a && srv.service != 0 && srv.port != 0 then v[HashU32(srv.port) := srv] else v
    case DelServer(srv) => if srv.node == a then Without(v, srv.port) else v
    case DelClient(node, port) => if node == a then Without(v, port) else v
    case Bye(_) => map[]
    case _ => v
  }

  function Replay(v: Services', a: u32, msgs: seq<Msg>): Services'
    decreases |msgs|
  {
    if msgs == [] then v else Replay(Apply(v, a, msgs[0]), a, msgs[1..])
  }

  ghost predicate Within(v: Services', w: Services') { forall k :: k in v ==> k in w && v[k] == w[k] }

  lemma ReceiverApplies(b: State, a: u32, msg: Msg, v: Services')
    requires b.local != a
    ensures ViewStep(b, v, a, Addr(a, CTRL), msg) == Apply(v, a, msg)
  {
  }

  lemma {:induction false} ReplayConcat(v: Services', a: u32, m: seq<Msg>, n: seq<Msg>)
    ensures Replay(v, a, m + n) == Replay(Replay(v, a, m), a, n)
    decreases |m|
  {
    if m == [] {
      assert m + n == n;
    } else {
      assert (m + n)[1..] == m[1..] + n;
      ReplayConcat(Apply(v, a, m[0]), a, m[1..], n);
    }
  }

  // ----- What A's packets to B say about A's registry -----

  lemma ToNodeFirst(e: Sent, rest: seq<Sent>, node: u32)
    ensures ToNode([e] + rest, node) == Reaching(e, node) + ToNode(rest, node)
  {
    assert ([e] + rest)[1..] == rest;
  }

  lemma Regroup<T>(x: seq<T>, y: seq<T>, z: seq<T>)
    ensures x + (y + z) == (x + y) + z
  {
  }

  lemma {:induction false} ToNodeConcat(x: seq<Sent>, y: seq<Sent>, node: u32)
    ensures ToNode(x + y, node) == ToNode(x, node) + ToNode(y, node)
    decreases |x|
  {
    if x == [] {
      assert x + y == y;
    } else {
      ToNodeConcat(x[1..], y, node);
      ToNodeFirst(x[0], x[1..] + y, node);
      ToNodeFirst(x[0], x[1..], node);
      assert x + y == [x[0]] + (x[1..] + y) && x == [x[0]] + x[1..];
      Regroup(Reaching(x[0], node), ToNode(x[1..], node), ToNode(y, node));
    }
  }

  lemma {:induction false} StaysLocal(sent: seq<Sent>, local: u32, node: u32)
    requires local != node && local != BROADCAST.node
    requires forall i :: 0 <= i < |sent| ==> sent[i].to.node == local
    ensures ToNode(sent, node) == []
    decreases |sent|
  {
    if sent != [] {
      StaysLocal(sent[1..], local, node);
    }
  }

  lemma {:induction false} NoticesAreLocal(lookups: seq<Lookup>, srv: Server, msg: Msg, local: u32)
    requires forall i :: 0 <= i < |lookups| ==> lookups[i].who.node == local
    ensures forall i :: 0 <= i < |Notices(lookups, srv, msg)| ==> Notices(lookups, srv, msg)[i].to.node == local
  {
    if lookups != [] {
      NoticesAreLocal(lookups[..|lookups|-1], srv, msg, local);
    }
  }

  /** The two names, and that they are distinct and ordinary. */
  predicate Names(s: State, node: u32) { s.local != node && s.local != BROADCAST.node }

  lemma NoticesStay(s: State, srv: Server, msg: Msg, node: u32)
    requires Invariant(s) && Names(s, node)
    ensures ToNode(Notices(s.lookups, srv, msg), node) == []
  {
    NoticesAreLocal(s.lookups, srv, msg, s.local);
    StaysLocal(Notices(s.lookups, srv, msg), s.local, node);
  }

  lemma RemovalToNode(s: State, srv: Server, node: u32)
    requires Invariant(s) && Names(s, node)
    ensures ToNode(Removal(s, srv), node) == if srv.node == s.local then [DelServer(srv)] else []
  {
    NoticesStay(s, srv, DelServer(srv), node);
    var own := if srv.node == s.local then [Sent(BROADCAST, DelServer(srv), None)] else [];
    ToNodeConcat(own, Notices(s.lookups, srv, DelServer(srv)), node);
    assert srv.node == s.local ==> own[1..] == [];
  }

  function Dels(servers: seq<Server>): seq<Msg> {
    if servers == [] then [] else [DelServer(servers[0])] + Dels(servers[1..])
  }

  function News(servers: seq<Server>): seq<Msg> {
    if servers == [] then [] else [NewServer(servers[0])] + News(servers[1..])
  }

  lemma {:induction false} RemovalsToNode(s: State, servers: seq<Server>, id: u32, node: u32)
    requires Invariant(s) && Names(s, node) && forall i :: 0 <= i < |servers| ==> servers[i].node == id
    ensures ToNode(Removals(s, servers), node) == if id == s.local then Dels(servers) else []
  {
    if servers != [] {
      RemovalToNode(s, servers[0], node);
      ToNodeConcat(Removal(s, servers[0]), Removals(s, servers[1..]), node);
      RemovalsToNode(s, servers[1..], id, node);
    }
  }

  lemma {:induction false} AnnounceToNode(servers: seq<Server>, to: Addr, node: u32)
    ensures ToNode(Announce(servers, to, None), node) == if to == BROADCAST || to == Addr(node, CTRL) then
            News(servers) else []
    decreases |servers|
  {
    if servers != [] {
      assert Announce(servers, to, None)[1..] == Announce(servers[1..], to, None);
      AnnounceToNode(servers[1..], to, node);
    }
  }

  lemma TellStays(s: State, msg: Msg, node: u32)
    requires Invariant(s) && Names(s, node)
    ensures ToNode(Tell(s, msg).sent, node) == []
  {
    KnownKeeps(s, s.local);
    var servers := Items(Services(s.nodes, s.local));
    forall i | 0 <= i < |servers|
      ensures servers[i].node == s.local
    {
      assert servers[i] in servers;
      Observer.ItemsOfNode(s, s.local, servers[i]);
    }
    StaysLocal(Tell(s, msg).sent, s.local, node);
  }

  // ----- Replaying announcements and removals -----

  /** Announcing a table from slot i on leaves of every port the record at the highest index. */
  lemma {:induction false} ReplayNews(v: Services', a: u32, services: Slots<Server>, i: nat, k: nat)
    requires Filed(a, services) && i <= |services|
    ensures var w, last := Replay(v, a, News(ItemsFrom(services, i))), LastFrom(services, i, k);
            && (k in w <==> last.Some? || k in v)
            && (k in w ==> w[k] == if last.Some? then last.value else v[k])
    decreases |services| - i
  {
    if i < |services| {
      var rest := ItemsFrom(services, i + 1);
      if services[i].Live? {
        var x := services[i].item;
        assert FiledIn(a)(services[i].key, x);
        assert News([x] + rest)[0] == NewServer(x) && News([x] + rest)[1..] == News(rest) by {
          assert ([x] + rest)[1..] == rest;
        }
        ReplayNews(Apply(v, a, NewServer(x)), a, services, i + 1, k);
      } else {
        assert [] + rest == rest;
        ReplayNews(v, a, services, i + 1, k);
      }
    }
  }

  lemma {:induction false} ReplayDels(v: Services', a: u32, servers: seq<Server>)
    requires forall i :: 0 <= i < |servers| ==> servers[i].node == a
    ensures forall k :: k in Replay(v, a, Dels(servers)) ==>
                        k in v && forall i :: 0 <= i < |servers| ==> k != HashU32(servers[i].port)
    decreases |servers|
  {
    if servers != [] {
      assert Dels(servers)[1..] == Dels(servers[1..]);
      ReplayDels(Apply(v, a, DelServer(servers[0])), a, servers[1..]);
      assert forall i :: 1 <= i < |servers| ==> servers[i] == servers[1..][i-1];
    }
  }

  lemma ReplayOne(v: Services', a: u32, msg: Msg)
    ensures Replay(v, a, [msg]) == Apply(v, a, msg)
  {
    assert [msg][1..] == [];
  }

  lemma HelloToNode(s: State, from: Addr, node: u32)
    requires Invariant(s)
    ensures ToNode(OnHello(s, from, Hello).sent, node) ==
            if from == BROADCAST || from == Addr(node, CTRL) then [Hello] + News(Items(Services(s.nodes, s.local)))
              else []
  {
    var servers := Items(Services(s.nodes, s.local));
    KnownKeeps(s, s.local);
    AnnounceToNode(servers, from, node);
    ToNodeFirst(Sent(from, Hello, None), Announce(servers, from, None), node);
  }

  lemma SameKeys(v: Services', w: Services')
    requires forall k: nat :: k in v <==> k in w
    ensures Within(v, w) <==> v == w
  {
  }

  lemma LooksEqual(v: Services', w: Services')
    ensures v == w <==> forall k: nat :: Look(v, k) == Look(w, k)
  {
    if forall k: nat :: Look(v, k) == Look(w, k) {
      SameLooks(v, w);
    }
  }

  lemma OwnLook(s: State, k: nat)
    requires Invariant(s)
    ensures Look(View(s, s.local), k) == Get(Own(s), k)
  {
    ServicesFiled(s.nodes, s.local);
    GetRefines(Own(s), k);
  }

  /** Every binding of v is what the own table answers. */
  ghost predicate PartOf(v: Services', s: State) { forall k: nat :: k in v ==> Get(Own(s), k) == Some(v[k]) }

  lemma WithinIsPart(s: State, v: Services')
    requires Invariant(s)
    ensures Within(v, View(s, s.local)) <==> PartOf(v, s)
  {
    forall k: nat
      ensures Look(View(s, s.local), k) == Get(Own(s), k)
    {
      OwnLook(s, k);
    }
  }

  /** A port's binding once everything has been announced. */
  lemma AnnouncedKey(s: State, v: Services', k: nat)
    requires Invariant(s) && PartOf(v, s)
    ensures Look(Replay(v, s.local, News(Items(Own(s)))), k) == LastFrom(Own(s), 0, k)
    ensures LastFrom(Own(s), 0, k).Some? <==> Get(Own(s), k).Some?
  {
    ServicesFiled(s.nodes, s.local);
    ReplayNews(v, s.local, Own(s), 0, k);
    GetIsTop(Own(s), k);
    LastInStack(Own(s), k);
  }

  /** Announcing everything brings any part of the registry up to the whole if and only if the
      table is settled; otherwise it does not even leave a part of it. */
  lemma AnnouncementCompletes(s: State, v: Services')
    requires Invariant(s) && Within(v, View(s, s.local))
    ensures var w := Replay(v, s.local, [Hello] + News(Items(Own(s))));
            && (w == View(s, s.local) <==> Settled(Own(s)))
            && (Within(w, View(s, s.local)) <==> Settled(Own(s)))
  {
    var w := Replay(v, s.local, News(Items(Own(s))));
    assert ([Hello] + News(Items(Own(s))))[1..] == News(Items(Own(s)));
    WithinIsPart(s, v);
    forall k: nat
      ensures Look(w, k) == LastFrom(Own(s), 0, k) && Look(View(s, s.local), k) == Get(Own(s), k)
      ensures Look(w, k).Some? <==> Look(View(s, s.local), k).Some?
    {
      AnnouncedKey(s, v, k);
      OwnLook(s, k);
    }
    LooksEqual(w, View(s, s.local));
    SameLookKeys(w, View(s, s.local));
  }

  lemma SameLookKeys(v: Services', w: Services')
    requires forall k: nat :: Look(v, k).Some? <==> Look(w, k).Some?
    ensures Within(v, w) <==> v == w
  {
    forall k: nat
      ensures k in v <==> k in w
    {
      assert Look(v, k).Some? <==> Look(w, k).Some?;
    }
    SameKeys(v, w);
  }

  lemma NewServerToNode(s: State, from: Addr, srv: Server, node: u32)
    requires Invariant(s) && Names(s, node) && Accepted(s, from, srv)
    ensures var c := Claimed(s, from, srv);
            ToNode(OnNewServer(s, from, srv).sent, node) == if c.node == s.local then [NewServer(c)] else []
  {
    var c := Claimed(s, from, srv);
    NoticesStay(s, c, NewServer(c), node);
    var own := if c.node == s.local then [Sent(BROADCAST, NewServer(c), None)] else [];
    ToNodeConcat(own, Notices(s.lookups, c, NewServer(c)), node);
    assert c.node == s.local ==> own[1..] == [];
  }

  // ----- What a step of A tells B -----

  lemma UnregisterToNode(s: State, id: u32, port: u32, node: u32)
    requires Invariant(s) && Names(s, node)
    ensures var gone := Get(Services(s.nodes, id), HashU32(port));
            && (gone.Some? ==> HashU32(gone.value.port) == HashU32(port) && gone.value.node == id)
            && ToNode(Unregister(s, id, port).sent, node) ==
               if id == s.local && gone.Some? then [DelServer(gone.value)] else []
  {
    var gone := Get(Services(s.nodes, id), HashU32(port));
    if gone.Some? {
      Observer.LiveIsRegistered(s, id, port);
      RemovalToNode(s, gone.value, node);
    }
  }

  /** Unregistering, replayed on part of the registry: the port goes. */
  lemma UnregisterSpeaks(s: State, id: u32, port: u32, node: u32, v: Services')
    requires Invariant(s) && Names(s, node) && PartOf(v, s)
    ensures Replay(v, s.local, ToNode(Unregister(s, id, port).sent, node)) ==
            if id == s.local then Without(v, port) else v
  {
    var gone := Get(Services(s.nodes, id), HashU32(port));
    UnregisterToNode(s, id, port, node);
    if id == s.local {
      if gone.Some? {
        ReplayOne(v, s.local, DelServer(gone.value));
      } else {
        assert HashU32(port) !in v;
        assert Without(v, port) == v;
      }
    }
  }

  lemma DrainToNode(s: State, id: u32, node: u32)
    requires Invariant(s) && Names(s, node)
    ensures ToNode(Drain(s, id, 0).sent, node) == if id == s.local then Dels(Taken(Own(s), 0)) else []
  {
    var gone := Taken(Services(s.nodes, id), 0);
    DrainSends(s, id, 0);
    forall i | 0 <= i < |gone|
      ensures gone[i].node == id
    {
      TakenOfNode(s, id, gone[i]);
    }
    RemovalsToNode(s, gone, id, node);
  }

  /** BYE of the own node, replayed on part of the registry: everything goes, also what is left behind. */
  lemma DrainSpeaks(s: State, id: u32, node: u32, v: Services')
    requires Invariant(s) && Names(s, node) && PartOf(v, s)
    ensures Replay(v, s.local, ToNode(Drain(s, id, 0).sent, node)) == if id == s.local then map[] else v
  {
    DrainToNode(s, id, node);
    if id == s.local {
      var gone := Taken(Own(s), 0);
      forall i | 0 <= i < |gone|
        ensures gone[i].node == id
      {
        TakenOfNode(s, id, gone[i]);
      }
      ReplayDels(v, id, gone);
      ServicesFiled(s.nodes, id);
      forall k | k in v
        ensures exists i :: 0 <= i < |gone| && k == HashU32(gone[i].port)
      {
        AnswersTaken(Own(s), 0, k);
        Observer.AnswerIsRegistered(s, id, k);
      }
    }
  }

  lemma ThenTellSpeaks(first: Step, msg: Msg, node: u32)
    requires Invariant(first.state) && Names(first.state, node)
    ensures ToNode(Then(first, Tell(first.state, msg)).sent, node) == ToNode(first.sent, node)
  {
    TellStays(first.state, msg, node);
    ToNodeConcat(first.sent, Tell(first.state, msg).sent, node);
    assert ToNode(first.sent, node) + [] == ToNode(first.sent, node);
  }

  lemma ByeSpeaks(s: State, from: Addr, node: u32, v: Services')
    requires Invariant(s) && Names(s, node) && PartOf(v, s)
    ensures Replay(v, s.local, ToNode(OnBye(s, from).sent, node)) == if from.node == s.local then map[] else v
  {
    var t := Known(s, from.node);
    KnownKeeps(s, from.node);
    DrainKeeps(t, from.node, 0);
    DrainSpeaks(t, from.node, node, v);
    ThenTellSpeaks(Drain(t, from.node, 0), Bye(from.node), node);
  }

  lemma CloseSpeaks(s: State, id: u32, port: u32, node: u32, v: Services')
    requires Invariant(s) && Names(s, node) && PartOf(v, s)
    ensures Replay(v, s.local, ToNode(Close(s, id, port).sent, node)) == if id == s.local then Without(v, port) else v
  {
    var t := ClientGone(s, id, port);
    ClientGoneKeeps(s, id, port);
    UnregisterKeeps(t, id, port);
    UnregisterSpeaks(t, id, port, node, v);
    ThenTellSpeaks(Unregister(t, id, port), DelClient(id, port), node);
  }

  lemma NewServerSpeaks(s: State, from: Addr, srv: Server, node: u32, v: Services')
    requires Invariant(s) && Names(s, node)
    ensures Replay(v, s.local, ToNode(OnNewServer(s, from, srv).sent, node)) ==
            ViewStep(s, v, s.local, from, NewServer(srv))
  {
    if Accepted(s, from, srv) {
      NewServerToNode(s, from, srv, node);
      ReplayOne(v, s.local, NewServer(Claimed(s, from, srv)));
    }
  }

  lemma DelServerSpeaks(s: State, from: Addr, srv: Server, node: u32, v: Services')
    requires Invariant(s) && Names(s, node) && PartOf(v, s)
    ensures Replay(v, s.local, ToNode(OnDelServer(s, from, srv).sent, node)) ==
            ViewStep(s, v, s.local, from, DelServer(srv))
  {
    var c := Claimed(s, from, srv);
    if from.node == c.node {
      var t := Known(s, c.node);
      KnownKeeps(s, c.node);
      UnregisterSpeaks(t, c.node, c.port, node, v);
      assert ViewStep(s, v, s.local, from, DelServer(srv)) == if c.node == s.local then Without(v, c.port) else v;
    }
  }

  /** The packets a step other than HELLO sends to a peer, replayed on any part of the own registry,
      do to it exactly what the packet asked for, whatever the step did to the table. */
  lemma Speaks(s: State, from: Addr, msg: Msg, node: u32, v: Services')
    requires Invariant(s) && Names(s, node) && !msg.Hello? && PartOf(v, s)
    ensures Replay(v, s.local, ToNode(Handle(s, from, msg).sent, node)) == ViewStep(s, v, s.local, from, msg)
  {
    match msg
    case Bye(_) => ByeSpeaks(s, from, node, v);
    case DelClient(id, port) =>
      if MayClose(s, from, id, port) {
        CloseSpeaks(s, id, port, node, v);
      }
    case NewServer(srv) => NewServerSpeaks(s, from, srv, node, v);
    case DelServer(srv) => DelServerSpeaks(s, from, srv, node, v);
    case NewLookup(service, instance) => StaysLocal(OnNewLookup(s, from, service, instance).sent, s.local, node);
    case _ =>
  }

  // ----- When a packet in flight decides a port -----

  /** The packet sets or clears k whatever was there. */
  predicate Rewrites(msg: Msg, a: u32, k: nat) {
    match msg
    case NewServer(srv) => srv.node == a && srv.service != 0 && srv.port != 0 && k == HashU32(srv.port)
    case DelServer(srv) => srv.node == a && k == HashU32(srv.port)
    case DelClient(node, port) => node == a && k == HashU32(port)
    case Bye(_) => true
    case _ => false
  }

  predicate Overwritten(msgs: seq<Msg>, a: u32, k: nat)
    decreases |msgs|
  {
    msgs != [] && (Rewrites(msgs[0], a, k) || Overwritten(msgs[1..], a, k))
  }

  /** A port some packet rewrites is what the packets make of it; any other stays. */
  lemma {:induction false} ReplayKey(u: Services', v: Services', a: u32, msgs: seq<Msg>, k: nat)
    ensures if Overwritten(msgs, a, k) || Look(u, k) == Look(v, k) then Look(Replay(u, a, msgs), k) ==
            Look(Replay(v, a, msgs), k)
            else Look(Replay(u, a, msgs), k) == Look(u, k)
    ensures !Overwritten(msgs, a, k) ==> Look(Replay(u, a, msgs), k) == Look(u, k)
    decreases |msgs|
  {
    if msgs != [] {
      ReplayKey(Apply(u, a, msgs[0]), Apply(v, a, msgs[0]), a, msgs[1..], k);
    }
  }

  // ----- The guards -----

  /** B's copy of A's services once everything in flight from A has arrived. */
  ghost function Copy(p: Pair): Services' { Replay(View(p.b, p.a.local), p.a.local, p.ab) }

  /** A's own registry. */
  ghost function Whole(p: Pair): Services' { View(p.a, p.a.local) }

  ghost predicate WellFormed(p: Pair) {
    Invariant(p.a) && Invariant(p.b) && Names(p.a, p.b.local) && Names(p.b, p.a.local)
  }

  /** Outside the channels neither of the two nodes speaks to the other. */
  predicate Outside(e: Event, a: u32, b: u32) {
    match e
    case AtA(from, _) => from.node != b
    case AtB(from, _) => from.node != a
    case _ => true
  }

  /** The growth a registration makes changes no answer that B has been told of. */
  ghost predicate GrowsWell(p: Pair, from: Addr, msg: Msg) {
    msg.NewServer? && Accepted(p.a, from, msg.server) && Full(Own(p.a)) ==>
      forall k :: k in Copy(p) && k != HashU32(Claimed(p.a, from, msg.server).port) ==>
                  LastFrom(Own(p.a), 0, k) == Get(Own(p.a), k)
  }

  /** A packet at A: a table that is announced to B is settled, and what the own node asks for is
      tame; as long as the copy need only be part of the registry, removals may be anything. */
  ghost predicate AllowedAtA(p: Pair, from: Addr, msg: Msg, whole: bool) {
    if msg.Hello? then from == BROADCAST || from == Addr(p.b.local, CTRL) ==> Settled(Own(p.a))
    else from.node == p.a.local ==> if whole then Tame(p.a, from, msg) else GrowsWell(p, from, msg)
  }

  /** A packet of A delivered to B: for each port, a packet behind it rewrites the port, or B's answer
      becomes what the packet says; for a part, no answer, or A's own, will do. */
  ghost predicate AllowedAtB(p: Pair, msg: Msg, rest: seq<Msg>, whole: bool) {
    var from := Addr(p.a.local, CTRL);
    forall k: nat ::
      Overwritten(rest, p.a.local, k) ||
      if whole then Heeded(p.b, from, msg, k)
      else Answer(p.b, from, msg, k).None? || Answer(p.b, from, msg, k) == Get(Own(p.a), k)
  }

  ghost predicate AllowedFor(p: Pair, e: Event, whole: bool) {
    match e
    case AtA(from, msg) => AllowedAtA(p, from, msg, whole)
    case AtB(_, _) => true
    case AToB => p.ab != [] ==> AllowedAtB(p, p.ab[0], p.ab[1..], whole)
    case BToA => p.ba != [] ==> AllowedAtA(p, Addr(p.b.local, CTRL), p.ba[0], whole)
  }

  /** The copy is part of A's registry, or all of it. */
  ghost predicate Agrees(p: Pair, whole: bool) {
    if whole then Copy(p) == Whole(p) else Within(Copy(p), Whole(p))
  }

  // ----- One step, exactly -----

  lemma WithinLooks(v: Services', w: Services')
    ensures Within(v, w) <==> forall k: nat :: Look(v, k).None? || Look(v, k) == Look(w, k)
  {
    if forall k: nat :: Look(v, k).None? || Look(v, k) == Look(w, k) {
      forall k | k in v
        ensures k in w && v[k] == w[k]
      {
        assert Look(v, k) == Look(w, k);
      }
    }
  }

  /** What a packet of the own node makes of the whole registry and of a part of it. */
  lemma OwnStep(p: Pair, from: Addr, msg: Msg, whole: bool)
    requires WellFormed(p) && Agrees(p, whole) && !msg.Hello?
    ensures var w := View(Handle(p.a, from, msg).state, p.a.local);
            var v := ViewStep(p.a, Copy(p), p.a.local, from, msg);
            (if whole then v == w else Within(v, w)) <==> AllowedAtA(p, from, msg, whole)
  {
    if from.node != p.a.local {
      HandleKeepsInvariant(p.a, from, msg);
      PacketChangesOnlyItsNode(p.a, from, msg, p.a.local);
    } else if whole {
      StepAnswers(p.a, from, msg);
    } else {
      OwnPartStep(p, from, msg);
    }
  }

  lemma OwnPartStep(p: Pair, from: Addr, msg: Msg)
    requires WellFormed(p) && Agrees(p, false) && !msg.Hello? && from.node == p.a.local
    ensures Within(ViewStep(p.a, Copy(p), p.a.local, from, msg), View(Handle(p.a, from, msg).state, p.a.local)) <==>
            GrowsWell(p, from, msg)
  {
    var t := Handle(p.a, from, msg).state;
    HandleKeepsInvariant(p.a, from, msg);
    forall k: nat
      ensures Look(View(t, p.a.local), k) == Answer(p.a, from, msg, k)
      ensures k in Copy(p) ==> Some(Copy(p)[k]) == Get(Own(p.a), k)
    {
      AnswerIs(p.a, from, msg, k);
      OwnLook(t, k);
      OwnLook(p.a, k);
    }
    PartAnswers(p.a, Copy(p), View(t, p.a.local), from, msg);
  }

  /** The same, for any part v of the registry and the answers w after the step. */
  lemma PartAnswers(s: State, v: Services', w: Services', from: Addr, msg: Msg)
    requires Invariant(s) && !msg.Hello? && from.node == s.local
    requires forall k: nat :: Look(w, k) == Answer(s, from, msg, k)
    requires forall k: nat :: k in v ==> Some(v[k]) == Get(Own(s), k)
    ensures Within(ViewStep(s, v, s.local, from, msg), w) <==>
            (msg.NewServer? && Accepted(s, from, msg.server) && Full(Own(s)) ==>
               forall k :: k in v && k != HashU32(Claimed(s, from, msg.server).port) ==>
                           LastFrom(Own(s), 0, k) == Get(Own(s), k))
  {
    if msg.NewServer? && Accepted(s, from, msg.server) {
      PartRegisters(s, v, w, from, msg.server);
    } else {
      var u := ViewStep(s, v, s.local, from, msg);
      forall k | k in u
        ensures k in w && u[k] == w[k]
      {
        PartRemains(s, v, from, msg, k);
        assert Look(w, k) == Answer(s, from, msg, k);
      }
    }
  }

  lemma PartRemains(s: State, v: Services', from: Addr, msg: Msg, k: nat)
    requires from.node == s.local && (msg.NewServer? ==> !Accepted(s, from, msg.server))
    requires k in ViewStep(s, v, s.local, from, msg)
    ensures k in v && ViewStep(s, v, s.local, from, msg)[k] == v[k] && Answer(s, from, msg, k) == Get(Own(s), k)
  {
  }

  lemma PartRegisters(s: State, v: Services', w: Services', from: Addr, srv: Server)
    requires from.node == s.local && Accepted(s, from, srv)
    requires forall k: nat :: Look(w, k) == Answer(s, from, NewServer(srv), k)
    requires forall k: nat :: k in v ==> Some(v[k]) == Get(Own(s), k)
    ensures var c := Claimed(s, from, srv);
            Within(v[HashU32(c.port) := c], w) <==>
            (Full(Own(s)) ==> forall k :: k in v && k != HashU32(c.port) ==> LastFrom(Own(s), 0, k) == Get(Own(s), k))
  {
    var c := Claimed(s, from, srv);
    var h, u := HashU32(c.port), v[HashU32(c.port) := c];
    assert Look(w, h) == Some(c);
    forall k | k in v && k != h
      ensures (k in w && w[k] == u[k]) <==> (Full(Own(s)) ==> LastFrom(Own(s), 0, k) == Get(Own(s), k))
    {
      assert Look(w, k) == Answer(s, from, NewServer(srv), k);
    }
  }

  /** A packet at A keeps the copy part of the registry, or all of it, exactly when it is allowed. */
  lemma PacketAtA(p: Pair, from: Addr, msg: Msg, ba: seq<Msg>, heard: bool, whole: bool)
    requires WellFormed(p) && Agrees(p, whole)
    ensures var r := Handle(p.a, from, msg);
            var q := Pair(r.state, p.b, p.ab + ToNode(r.sent, p.b.local), ba, heard);
            WellFormed(q) && q.a.local == p.a.local && (Agrees(q, whole) <==> AllowedAtA(p, from, msg, whole))
  {
    var r := Handle(p.a, from, msg);
    HandleKeepsInvariant(p.a, from, msg);
    ReplayConcat(View(p.b, p.a.local), p.a.local, p.ab, ToNode(r.sent, p.b.local));
    if msg.Hello? {
      KnownKeeps(p.a, p.a.local);
      HelloSpeaks(p.a, from, p.b.local, Copy(p));
    } else {
      WithinIsPart(p.a, Copy(p));
      Speaks(p.a, from, msg, p.b.local, Copy(p));
      OwnStep(p, from, msg, whole);
    }
  }

  /** A HELLO that is answered to a peer makes its copy the whole registry, or not even a part of it. */
  lemma HelloSpeaks(s: State, from: Addr, node: u32, v: Services')
    requires Invariant(s) && Within(v, View(s, s.local))
    ensures var w := Replay(v, s.local, ToNode(OnHello(s, from, Hello).sent, node));
            if from == BROADCAST || from == Addr(node, CTRL)
            then (w == View(s, s.local) <==> Settled(Own(s))) && (Within(w, View(s, s.local)) <==> Settled(Own(s)))
            else w == v
  {
    HelloToNode(s, from, node);
    if from == BROADCAST || from == Addr(node, CTRL) {
      var msgs := [Hello] + News(Items(Own(s)));
      assert ToNode(OnHello(s, from, Hello).sent, node) == msgs;
      AnnouncementCompletes(s, v);
    }
  }

  /** Delivering a packet of A keeps the copy part of the registry, or all of it, exactly when allowed. */
  lemma PacketAtB(p: Pair, msg: Msg, rest: seq<Msg>, ba: seq<Msg>, whole: bool)
    requires WellFormed(p) && Agrees(p, whole) && p.ab == [msg] + rest
    ensures var r := Handle(p.b, Addr(p.a.local, CTRL), msg);
            var q := Pair(p.a, r.state, rest, ba, p.heard);
            WellFormed(q) && q.b.local == p.b.local && (Agrees(q, whole) <==> AllowedAtB(p, msg, rest, whole))
  {
    var from, a := Addr(p.a.local, CTRL), p.a.local;
    var t := Handle(p.b, from, msg).state;
    HandleKeepsInvariant(p.b, from, msg);
    ReceiverApplies(p.b, a, msg, View(p.b, a));
    assert p.ab[0] == msg && p.ab[1..] == rest;
    var u, v := View(t, a), ViewStep(p.b, View(p.b, a), a, from, msg);
    assert Copy(p) == Replay(v, a, rest);
    forall k: nat
      ensures Look(u, k) == Answer(p.b, from, msg, k) && Look(Whole(p), k) == Get(Own(p.a), k)
      ensures if Overwritten(rest, a, k) then Look(Replay(u, a, rest), k) == Look(Copy(p), k)
              else Look(Replay(u, a, rest), k) == Look(u, k) && Look(Copy(p), k) == Look(v, k)
    {
      AnswerIs(p.b, from, msg, k);
      ServicesFiled(t.nodes, a);
      GetRefines(Services(t.nodes, a), k);
      OwnLook(p.a, k);
      ReplayKey(u, v, a, rest, k);
      ReplayKey(v, u, a, rest, k);
    }
    if whole {
      LooksEqual(Replay(u, a, rest), Copy(p));
    } else {
      WithinLooks(Replay(u, a, rest), Whole(p));
      WithinLooks(Copy(p), Whole(p));
    }
  }

  /** One step, whatever it is, keeps the copy part of A's registry, or all of it, if and only if it
      passes the test; the tests look only at the tables before the step and at what is in flight. */
  lemma StepExact(p: Pair, e: Event, whole: bool)
    requires WellFormed(p) && Agrees(p, whole) && Outside(e, p.a.local, p.b.local)
    ensures var q := Advance(p, e);
            && WellFormed(q) && q.a.local == p.a.local && q.b.local == p.b.local
            && (Agrees(q, whole) <==> AllowedFor(p, e, whole))
  {
    match e
    case AtA(from, msg) => PacketAtA(p, from, msg, p.ba, p.heard, whole);
    case AtB(from, msg) =>
      HandleKeepsInvariant(p.b, from, msg);
      PacketChangesOnlyItsNode(p.b, from, msg, p.a.local);
    case AToB =>
      if p.ab != [] {
        var r := Handle(p.b, Addr(p.a.local, CTRL), p.ab[0]);
        PacketAtB(p, p.ab[0], p.ab[1..], p.ba + ToNode(r.sent, p.a.local), whole);
      }
    case BToA =>
      if p.ba != [] {
        PacketAtA(p, Addr(p.b.local, CTRL), p.ba[0], p.ba[1..], p.heard || p.ba[0].Hello?, whole);
      }
  }

  // ----- Every reachable state -----

  /** The copy never holds a server A does not have, and lacks none once A has heard B's HELLO. */
  ghost predicate InStep(p: Pair) { Within(Copy(p), Whole(p)) && (p.heard ==> Copy(p) == Whole(p)) }

  ghost predicate Allowed(p: Pair, e: Event) { AllowedFor(p, e, p.heard) }

  /** A step keeps the two servers in step if and only if it is allowed. */
  lemma StepKeeps(p: Pair, e: Event)
    requires WellFormed(p) && InStep(p) && Outside(e, p.a.local, p.b.local)
    ensures var q := Advance(p, e);
            && WellFormed(q) && q.a.local == p.a.local && q.b.local == p.b.local
            && (InStep(q) <==> Allowed(p, e))
  {
    StepExact(p, e, p.heard);
    if e.BToA? && p.ba != [] && p.ba[0].Hello? && !p.heard {
      KnownKeeps(p.a, p.a.local);
      HelloSpeaks(p.a, Addr(p.b.local, CTRL), p.b.local, Copy(p));
      ReplayConcat(View(p.b, p.a.local), p.a.local, p.ab,
                   ToNode(OnHello(p.a, Addr(p.b.local, CTRL), Hello).sent, p.b.local));
    }
  }

  function RunPair(p: Pair, events: seq<Event>): Pair
    decreases |events|
  {
    if events == [] then p else RunPair(Advance(p, events[0]), events[1..])
  }

  predicate AllOutside(events: seq<Event>, a: u32, b: u32) {
    forall i :: 0 <= i < |events| ==> Outside(events[i], a, b)
  }

  ghost predicate AllowedRun(p: Pair, events: seq<Event>)
    decreases |events|
  {
    events == [] || (Allowed(p, events[0]) && AllowedRun(Advance(p, events[0]), events[1..]))
  }

  /** In step in every state of the run. */
  ghost predicate InStepAlong(p: Pair, events: seq<Event>)
    decreases |events|
  {
    InStep(p) && (events == [] || InStepAlong(Advance(p, events[0]), events[1..]))
  }

  /** Replication, over every interleaving: two servers that are in step stay in step throughout a run
      if and only if each of its steps is allowed. */
  lemma {:induction false} ReplicationRun(p: Pair, events: seq<Event>)
    requires WellFormed(p) && InStep(p) && AllOutside(events, p.a.local, p.b.local)
    ensures InStepAlong(p, events) <==> AllowedRun(p, events)
    ensures var q := RunPair(p, events);
            && WellFormed(q) && q.a.local == p.a.local && q.b.local == p.b.local
            && (InStepAlong(p, events) ==> InStep(q))
    decreases |events|
  {
    if events != [] {
      var q := Advance(p, events[0]);
      StepKeeps(p, events[0]);
      if InStep(q) {
        ReplicationRun(q, events[1..]);
      } else {
        RunWellFormed(q, events[1..]);
      }
    }
  }

  lemma {:induction false} RunWellFormed(p: Pair, events: seq<Event>)
    requires WellFormed(p)
    ensures var q := RunPair(p, events); WellFormed(q) && q.a.local == p.a.local && q.b.local == p.b.local
    decreases |events|
  {
    if events != [] {
      AdvanceWellFormed(p, events[0]);
      RunWellFormed(Advance(p, events[0]), events[1..]);
    }
  }

  lemma AdvanceWellFormed(p: Pair, e: Event)
    requires WellFormed(p)
    ensures var q := Advance(p, e); WellFormed(q) && q.a.local == p.a.local && q.b.local == p.b.local
  {
    match e
    case AtA(from, msg) => HandleKeepsInvariant(p.a, from, msg);
    case AtB(from, msg) => HandleKeepsInvariant(p.b, from, msg);
    case AToB =>
      if p.ab != [] {
        HandleKeepsInvariant(p.b, Addr(p.a.local, CTRL), p.ab[0]);
      }
    case BToA =>
      if p.ba != [] {
        HandleKeepsInvariant(p.a, Addr(p.b.local, CTRL), p.ba[0]);
      }
  }

  ghost predicate PartRun(p: Pair, events: seq<Event>)
    decreases |events|
  {
    events == [] || (AllowedFor(p, events[0], false) && PartRun(Advance(p, events[0]), events[1..]))
  }

  ghost predicate PartAlong(p: Pair, events: seq<Event>)
    decreases |events|
  {
    Agrees(p, false) && (events == [] || PartAlong(Advance(p, events[0]), events[1..]))
  }

  /** The half that asks only for a part, under its own, smaller tests: B never believes in a server A
      does not have throughout a run if and only if each of its steps passes them. */
  lemma {:induction false} PartRunExact(p: Pair, events: seq<Event>)
    requires WellFormed(p) && Agrees(p, false) && AllOutside(events, p.a.local, p.b.local)
    ensures PartAlong(p, events) <==> PartRun(p, events)
    decreases |events|
  {
    if events != [] {
      StepExact(p, events[0], false);
      if Agrees(Advance(p, events[0]), false) {
        PartRunExact(Advance(p, events[0]), events[1..]);
      }
    }
  }

  /** Whatever keeps the copy whole keeps it a part. */
  lemma WholeIsPart(p: Pair, e: Event)
    requires WellFormed(p) && Agrees(p, true) && Outside(e, p.a.local, p.b.local) && AllowedFor(p, e, true)
    ensures AllowedFor(p, e, false)
  {
    StepExact(p, e, true);
    StepExact(p, e, false);
  }

  /** A peer that starts afresh and says HELLO to a name server with any history: the two are in step
      throughout if and only if each step is allowed; and once A has heard the HELLO and nothing is
      in flight from A, B's copy is A's registry. */
  lemma FreshPeer(a: State, local: u32, events: seq<Event>)
    requires Invariant(a) && a.local != BROADCAST.node && local != a.local && local != BROADCAST.node
    requires AllOutside(events, a.local, local)
    ensures var p := Pair(a, State(local, [], []), [], [Hello], false);
            && (InStepAlong(p, events) <==> AllowedRun(p, events))
            && (PartAlong(p, events) <==> PartRun(p, events))
            && var q := RunPair(p, events);
               AllowedRun(p, events) && q.heard && q.ab == [] ==> View(q.b, a.local) == View(q.a, a.local)
  {
    var p := Pair(a, State(local, [], []), [], [Hello], false);
    FreshServer(local);
    NothingStored<Server>([]);
    assert Copy(p) == map[];
    ReplicationRun(p, events);
    PartRunExact(p, events);
  }

  // ----- HELLO is never the last word -----

  predicate HelloAbroad(p: Pair) { Hello in p.ab || Hello in p.ba }

  /** A name server returns every HELLO to where it came from. */
  lemma HelloReturned(s: State, from: Addr, node: u32)
    requires from == Addr(node, CTRL)
    ensures Hello in ToNode(OnHello(s, from, Hello).sent, node)
  {
    var sent := OnHello(s, from, Hello).sent;
    assert sent[0] == Sent(from, Hello, None);
    assert Reaching(sent[0], node) == [Hello];
  }

  lemma HelloStays(p: Pair, e: Event)
    requires HelloAbroad(p)
    ensures HelloAbroad(Advance(p, e))
  {
    match e
    case AToB =>
      if p.ab != [] {
        assert p.ab == [p.ab[0]] + p.ab[1..];
        if p.ab[0].Hello? {
          HelloReturned(p.b, Addr(p.a.local, CTRL), p.a.local);
        }
      }
    case BToA =>
      if p.ba != [] {
        assert p.ba == [p.ba[0]] + p.ba[1..];
        if p.ba[0].Hello? {
          HelloReturned(p.a, Addr(p.b.local, CTRL), p.b.local);
        }
      }
    case _ =>
  }

  /** Two name servers one of which has said HELLO never come to rest: over every run a HELLO is in
      flight, and whoever receives it returns it and announces all its services again. */
  lemma {:induction false} HelloForever(p: Pair, events: seq<Event>)
    requires HelloAbroad(p)
    ensures HelloAbroad(RunPair(p, events))
    decreases |events|
  {
    if events != [] {
      HelloStays(p, events[0]);
      HelloForever(Advance(p, events[0]), events[1..]);
    }
  }
}
