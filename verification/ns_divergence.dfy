/** A reachable run of two name servers after which B keeps a service A has dropped: A announces its
    services again when it hears B's HELLO, and one of them lands behind a tombstone of B's. */
module Divergence {
  import opened Options
  import opened Hash
  import opened SlotTable
  import opened NameService
  import opened Registry
  import opened Replication
  import opened Examples

  /** A's own table, B's table of A's services, and what is in flight from A to B. */
  ghost predicate Snap(p: Pair, ta: Slots<Server>, tb: Slots<Server>, ab: seq<Msg>) {
    WellFormed(p) && Own(p.a) == ta && Services(p.b.nodes, p.a.local) == tb && p.ab == ab
  }

  /** The same two servers, and the same packet next from B to A. */
  predicate Same(p: Pair, q: Pair) {
    q.a.local == p.a.local && q.b.local == p.b.local && (p.ba != [] ==> q.ba != [] && q.ba[0] == p.ba[0])
  }

  predicate Proper(srv: Server, node: u32) { srv.node == node && srv.service != 0 && srv.port != 0 }

  lemma Offer(p: Pair, srv: Server, ta: Slots<Server>, tb: Slots<Server>, ab: seq<Msg>)
    requires Snap(p, ta, tb, ab) && Proper(srv, p.a.local)
    ensures var q := Advance(p, AtA(Addr(srv.node, srv.port), NewServer(srv)));
            Same(p, q) && q.heard == p.heard && Snap(q, Put(ta, HashU32(srv.port), srv), tb, ab + [NewServer(srv)])
  {
    var from := Addr(srv.node, srv.port);
    Registers(p.a, srv);
    NewServerToNode(p.a, from, srv, p.b.local);
  }

  lemma Withdraw(p: Pair, srv: Server, ta: Slots<Server>, tb: Slots<Server>, ab: seq<Msg>)
    requires Snap(p, ta, tb, ab) && Proper(srv, p.a.local) && Get(ta, HashU32(srv.port)) == Some(srv)
    ensures var q := Advance(p, AtA(Addr(srv.node, srv.port), DelServer(srv)));
            Same(p, q) && q.heard == p.heard && Snap(q, Remove(ta, HashU32(srv.port)), tb, ab + [DelServer(srv)])
  {
    Leaves(p.a, srv);
    var t := Known(p.a, srv.node);
    KnownKeeps(p.a, srv.node);
    assert Handle(p.a, Addr(srv.node, srv.port), DelServer(srv)).sent == Removal(t, srv);
    RemovalToNode(t, srv, p.b.local);
  }

  /** B takes A's word for what is A's. */
  lemma Deliver(p: Pair, msg: Msg, ta: Slots<Server>, tb: Slots<Server>, rest: seq<Msg>)
    requires Snap(p, ta, tb, [msg] + rest)
    requires msg.Hello? || (msg.NewServer? && Proper(msg.server, p.a.local))
             || (msg.DelServer? && msg.server.node == p.a.local)
    ensures var q := Advance(p, AToB);
            var srv := if msg.NewServer? || msg.DelServer? then msg.server else END;
            var tb' := if msg.NewServer? then Put(tb, HashU32(srv.port), srv)
                       else if msg.DelServer? then Remove(tb, HashU32(srv.port)) else tb;
            Same(p, q) && q.heard == p.heard && Snap(q, ta, tb', rest)
  {
    HandleKeepsInvariant(p.b, Addr(p.a.local, CTRL), msg);
    assert ([msg] + rest)[0] == msg && ([msg] + rest)[1..] == rest;
  }

  /** A hears B's HELLO and announces all it has. */
  lemma Answer(p: Pair, ta: Slots<Server>, tb: Slots<Server>, ab: seq<Msg>)
    requires Snap(p, ta, tb, ab) && p.ba != [] && p.ba[0] == Hello
    ensures var q := Advance(p, BToA);
            q.heard && q.a.local == p.a.local && q.b.local == p.b.local
              && Snap(q, ta, tb, ab + ([Hello] + News(Items(ta))))
  {
    HandleKeepsInvariant(p.a, Addr(p.b.local, CTRL), Hello);
    HelloToNode(p.a, Addr(p.b.local, CTRL), p.b.local);
  }

  lemma {:induction false} RunLast(p: Pair, events: seq<Event>, e: Event)
    ensures RunPair(p, events + [e]) == Advance(RunPair(p, events), e)
    decreases |events|
  {
    if events == [] {
      assert ([] + [e])[1..] == [];
      assert RunPair(Advance(p, e), []) == Advance(p, e);
    } else {
      assert (events + [e])[1..] == events[1..] + [e];
      RunLast(Advance(p, events[0]), events[1..], e);
    }
  }

  /** Until A hears the HELLO: both services have come to B, and the first has left again. */
  lemma Prelude(p0: Pair, a: Server, b: Server) returns (events: seq<Event>)
    requires Snap(p0, [], [], []) && Colliding(p0.a.local, a, b)
    ensures var k1, k2 := HashU32(PORT1), HashU32(PORT2);
            var table := Remove(Put(Put([], k1, a), k2, b), k1);
            Snap(RunPair(p0, events), table, table, []) && Same(p0, RunPair(p0, events))
  {
    var k1, k2 := HashU32(PORT1), HashU32(PORT2);
    var t1 := Put([], k1, a);
    var t2 := Put(t1, k2, b);
    var t3 := Remove(t2, k1);
    PortsCollide();
    var e1, e2, e5 := AtA(Addr(a.node, a.port), NewServer(a)), AtA(Addr(b.node, b.port), NewServer(b)),
      AtA(Addr(a.node, a.port), DelServer(a));
    var p1 := Advance(p0, e1);
    Offer(p0, a, [], [], []);
    var p2 := Advance(p1, e2);
    Offer(p1, b, t1, [], [NewServer(a)]);
    var p3 := Advance(p2, AToB);
    Deliver(p2, NewServer(a), t2, [], [NewServer(b)]);
    var p4 := Advance(p3, AToB);
    assert [NewServer(b)] + [] == [NewServer(b)];
    Deliver(p3, NewServer(b), t2, t1, []);
    var p5 := Advance(p4, e5);
    FirstStays(k1, k2, a, b);
    Withdraw(p4, a, t2, t2, []);
    assert [DelServer(a)] + [] == [] + [DelServer(a)];
    Deliver(p5, DelServer(a), t3, t2, []);
    events := RunSix(p0, e1, e2, AToB, AToB, e5, AToB);
  }

  lemma FirstStays(k1: nat, k2: nat, a: Server, b: Server)
    requires k1 != k2
    ensures Get(Put(Put([], k1, a), k2, b), k1) == Some(a)
  {
    NothingStored<Server>([]);
    FirstPutIsClean(k1, a);
    PutAnswer([], k1, a, k1);
    FirstPut(k1, a);
    FullIsAllLive(Put([], k1, a));
    assert !Put([], k1, a)[After(Home(GROWTH, k1))].Live?;
    PutAnswer(Put([], k1, a), k2, b, k1);
  }

  lemma RunSix(p: Pair, e1: Event, e2: Event, e3: Event, e4: Event, e5: Event, e6: Event) returns (events: seq<Event>)
    ensures RunPair(p, events) == Advance(Advance(Advance(Advance(Advance(Advance(p, e1), e2), e3), e4), e5), e6)
  {
    assert RunPair(p, []) == p;
    RunLast(p, [], e1);
    RunLast(p, [e1], e2);
    assert [] + [e1] == [e1];
    RunLast(p, [e1] + [e2], e3);
    RunLast(p, [e1] + [e2] + [e3], e4);
    RunLast(p, [e1] + [e2] + [e3] + [e4], e5);
    RunLast(p, [e1] + [e2] + [e3] + [e4] + [e5], e6);
    events := [e1] + [e2] + [e3] + [e4] + [e5] + [e6];
  }

  /** A answers the HELLO: the second service is announced again, and lands behind B's tombstone. */
  lemma Announced(p0: Pair, a: Server, b: Server) returns (q: Pair)
    requires Colliding(p0.a.local, a, b) && p0.ba != [] && p0.ba[0] == Hello
    requires var k1, k2 := HashU32(PORT1), HashU32(PORT2);
             var table := Remove(Put(Put([], k1, a), k2, b), k1);
             Snap(p0, table, table, [])
    ensures q == Advance(Advance(Advance(p0, BToA), AToB), AToB)
    ensures var k1, k2 := HashU32(PORT1), HashU32(PORT2);
            && q.heard && q.a.local == p0.a.local
            && Snap(q, Remove(Put(Put([], k1, a), k2, b), k1), Twice(k2, b), [])
  {
    var k1, k2 := HashU32(PORT1), HashU32(PORT2);
    var t3 := Remove(Put(Put([], k1, a), k2, b), k1);
    PortsCollide();
    OneLeft(k1, k2, a, b);
    ThirdPut(k1, k2, a, b);
    var p1 := Advance(p0, BToA);
    Answer(p0, t3, t3, []);
    assert [] + ([Hello] + News([b])) == [Hello] + [NewServer(b)] by {
      assert [b][1..] == [];
    }
    var p2 := Advance(p1, AToB);
    Deliver(p1, Hello, t3, t3, [NewServer(b)]);
    q := Advance(p2, AToB);
    assert [NewServer(b)] + [] == [NewServer(b)];
    Deliver(p2, NewServer(b), t3, t3, []);
  }

  /** Then it leaves: B keeps it. */
  lemma Sequel(p3: Pair, a: Server, b: Server) returns (q: Pair)
    requires Colliding(p3.a.local, a, b) && p3.heard
    requires var k1, k2 := HashU32(PORT1), HashU32(PORT2);
             Snap(p3, Remove(Put(Put([], k1, a), k2, b), k1), Twice(k2, b), [])
    ensures q == Advance(Advance(p3, AtA(Addr(b.node, b.port), DelServer(b))), AToB)
    ensures q.ab == [] && q.heard && WellFormed(q) && q.a.local == p3.a.local
    ensures Bare(Own(q.a)) && Get(Services(q.b.nodes, q.a.local), HashU32(PORT2)) == Some(b)
  {
    var k1, k2 := HashU32(PORT1), HashU32(PORT2);
    var t3 := Remove(Put(Put([], k1, a), k2, b), k1);
    PortsCollide();
    OneLeft(k1, k2, a, b);
    TwiceAnswers(k2, b);
    var p4 := Advance(p3, AtA(Addr(b.node, b.port), DelServer(b)));
    Withdraw(p3, b, t3, Twice(k2, b), []);
    assert [DelServer(b)] + [] == [] + [DelServer(b)];
    q := Advance(p4, AToB);
    Deliver(p4, DelServer(b), Remove(t3, k2), Twice(k2, b), []);
  }

  // ----- Nothing in the channels mends it -----

  predicate Deliveries(events: seq<Event>) { forall i :: 0 <= i < |events| ==> events[i].AToB? || events[i].BToA? }

  predicate OnlyHello(msgs: seq<Msg>) { forall i :: 0 <= i < |msgs| ==> msgs[i].Hello? }

  /** What A hears from B makes it tell B nothing but HELLO when it has no services of its own. */
  lemma NothingToSay(p: Pair, msg: Msg)
    requires WellFormed(p) && Bare(Own(p.a))
    ensures var r := Handle(p.a, Addr(p.b.local, CTRL), msg);
            OnlyHello(ToNode(r.sent, p.b.local)) && Own(r.state) == Own(p.a)
  {
    var s, from, node := p.a, Addr(p.b.local, CTRL), p.b.local;
    HandleKeepsInvariant(s, from, msg);
    PacketChangesOnlyItsNode(s, from, msg, s.local);
    match msg
    case Hello =>
      HelloToNode(s, from, node);
      BareListsNothing(Own(s), 0);
    case Bye(_) =>
      var t := Known(s, node);
      KnownKeeps(s, node);
      DrainKeeps(t, node, 0);
      DrainToNode(t, node, node);
      ThenTellSpeaks(Drain(t, node, 0), Bye(node), node);
    case DelClient(id, port) =>
      if MayClose(s, from, id, port) {
        var t := ClientGone(s, id, port);
        ClientGoneKeeps(s, id, port);
        UnregisterKeeps(t, id, port);
        UnregisterToNode(t, id, port, node);
        ThenTellSpeaks(Unregister(t, id, port), msg, node);
      }
    case NewServer(srv) =>
      if Accepted(s, from, srv) {
        NewServerToNode(s, from, srv, node);
      }
    case DelServer(srv) =>
      var c := Claimed(s, from, srv);
      if from.node == c.node {
        KnownKeeps(s, c.node);
        UnregisterToNode(Known(s, c.node), c.node, c.port, node);
      }
    case _ =>
  }

  lemma {:induction false} BareListsNothing(services: Slots<Server>, i: nat)
    requires Bare(services) && i <= |services|
    ensures ItemsFrom(services, i) == []
    decreases |services| - i
  {
    if i < |services| {
      BareListsNothing(services, i + 1);
    }
  }

  /** However many packets are delivered, B keeps what it has. */
  lemma {:induction false} DeliveriesMendNothing(p: Pair, events: seq<Event>)
    requires WellFormed(p) && Bare(Own(p.a)) && OnlyHello(p.ab) && Deliveries(events)
    ensures Services(RunPair(p, events).b.nodes, p.a.local) == Services(p.b.nodes, p.a.local)
    ensures Own(RunPair(p, events).a) == Own(p.a)
    decreases |events|
  {
    if events != [] {
      var q := Advance(p, events[0]);
      AdvanceWellFormed(p, events[0]);
      if events[0].AToB? && p.ab != [] {
        assert p.ab[0].Hello?;
        KnownKeeps(p.b, p.b.local);
      } else if events[0].BToA? && p.ba != [] {
        NothingToSay(p, p.ba[0]);
      }
      assert OnlyHello(q.ab) && Own(q.a) == Own(p.a);
      assert Services(q.b.nodes, p.a.local) == Services(p.b.nodes, p.a.local);
      DeliveriesMendNothing(q, events[1..]);
    }
  }

  /** From two fresh servers, B's HELLO on its way: nothing is in flight from A to B, A has heard the
      HELLO, and B still answers with a service A does not have. The HELLOs that are still exchanged,
      and whatever else is delivered, never change that. */
  lemma DivergenceExample(na: u32, nb: u32, a: Server, b: Server) returns (events: seq<Event>)
    requires na != nb && na != BROADCAST.node && nb != BROADCAST.node && Colliding(na, a, b)
    ensures var q := RunPair(Pair(State(na, [], []), State(nb, [], []), [], [Hello], false), events);
            && q.a.local == na && q.ab == [] && q.heard
            && View(q.a, na) == map[] && Get(Services(q.b.nodes, na), HashU32(PORT2)) == Some(b)
            && !Within(Copy(q), View(q.a, na))
            && forall more | Deliveries(more) ::
                 Get(Services(RunPair(q, more).b.nodes, na), HashU32(PORT2)) == Some(b)
  {
    var p := Pair(State(na, [], []), State(nb, [], []), [], [Hello], false);
    FreshServer(na);
    FreshServer(nb);
    var first := Prelude(p, a, b);
    var p0, e := RunPair(p, first), AtA(Addr(b.node, b.port), DelServer(b));
    var p3 := Announced(p0, a, b);
    var q := Sequel(p3, a, b);
    RunLast(p, first, BToA);
    RunLast(p, first + [BToA], AToB);
    RunLast(p, first + [BToA] + [AToB], AToB);
    RunLast(p, first + [BToA] + [AToB] + [AToB], e);
    RunLast(p, first + [BToA] + [AToB] + [AToB] + [e], AToB);
    events := first + [BToA] + [AToB] + [AToB] + [e] + [AToB];
    ServicesFiled(q.b.nodes, na);
    GetRefines(Services(q.b.nodes, na), HashU32(PORT2));
    BareIsEmpty(Own(q.a));
    assert HashU32(PORT2) in Copy(q);
    forall more | Deliveries(more)
      ensures Services(RunPair(q, more).b.nodes, na) == Services(q.b.nodes, na)
    {
      DeliveriesMendNothing(q, more);
    }
  }
}
