/** A closed local port hears nothing more: no lookup, no server, and no packet addressed to it. */
module Silence {
  import opened Options
  import opened Hash
  import opened SlotTable
  import opened NameService
  import opened Registry

  /** No lookup and no server of the local port is left. */
  ghost predicate Closed(s: State, port: u32) {
    && (forall i :: 0 <= i < |s.lookups| ==> s.lookups[i].who != Addr(s.local, port))
    && Get(Services(s.nodes, s.local), HashU32(port)).None?
  }

  ghost predicate NotTo(sent: seq<Sent>, to: Addr) { forall e :: e in sent ==> e.to != to }

  lemma {:induction false} NoticesNotTo(lookups: seq<Lookup>, srv: Server, msg: Msg, to: Addr)
    requires forall i :: 0 <= i < |lookups| ==> lookups[i].who != to
    ensures NotTo(Notices(lookups, srv, msg), to)
  {
    if lookups != [] {
      NoticesNotTo(lookups[..|lookups|-1], srv, msg, to);
    }
  }

  lemma RemovalNotTo(s: State, srv: Server, port: u32)
    requires forall i :: 0 <= i < |s.lookups| ==> s.lookups[i].who != Addr(s.local, port)
    requires s.local != BROADCAST.node
    ensures NotTo(Removal(s, srv), Addr(s.local, port))
  {
    NoticesNotTo(s.lookups, srv, DelServer(srv), Addr(s.local, port));
  }

  /** A port without an answer has no record anywhere in its table. */
  lemma NoRecord(s: State, port: u32)
    requires Invariant(s)
    ensures var services := Services(s.nodes, s.local);
            Get(services, HashU32(port)).None? <==>
            forall p :: 0 <= p < |services| && services[p].Live? ==> services[p].item.port != port
  {
    var services := Services(s.nodes, s.local);
    ServicesFiled(s.nodes, s.local);
    GetIsTop(services, HashU32(port));
    HasStack(services, HashU32(port));
    forall p | 0 <= p < |services| && services[p].Live?
      ensures services[p].item.port == port <==> services[p].Holds(HashU32(port))
    {
      assert FiledIn(s.local)(services[p].key, services[p].item);
      if services[p].key == HashU32(port) {
        HashU32Injective(services[p].item.port, port);
      }
    }
  }

  /** Local servers are told at their own ports: a port is told exactly when it has a record. */
  lemma TellNotTo(s: State, msg: Msg, port: u32)
    requires Invariant(s)
    ensures NotTo(Tell(s, msg).sent, Addr(s.local, port)) <==> Get(Services(s.nodes, s.local), HashU32(port)).None?
  {
    KnownKeeps(s, s.local);
    var services := Services(s.nodes, s.local);
    var servers := Items(services);
    var sent := Forward(servers, msg);
    ServicesFiled(s.nodes, s.local);
    ItemsMembers(services, 0);
    NoRecord(s, port);
    assert Tell(s, msg).sent == sent;
    forall i | 0 <= i < |servers|
      ensures servers[i].node == s.local
      ensures exists p :: 0 <= p < |services| && services[p].Live? && services[p].item == servers[i]
    {
      assert servers[i] in servers;
      var p :| 0 <= p < |services| && services[p].Live? && services[p].item == servers[i];
      assert FiledIn(s.local)(services[p].key, services[p].item);
    }
    if p :| 0 <= p < |services| && services[p].Live? && services[p].item.port == port {
      assert services[p].item in servers;
      var i :| 0 <= i < |servers| && servers[i] == services[p].item;
      assert sent[i] in sent;
    }
  }

  /** What a step leads to leaves the port closed and has sent it nothing. */
  ghost predicate Quiet(r: Step, local: u32, port: u32) {
    r.state.local == local && Closed(r.state, port) && NotTo(r.sent, Addr(local, port))
  }

  lemma ThenTellQuiet(first: Step, msg: Msg, local: u32, port: u32)
    requires Invariant(first.state) && Quiet(first, local, port)
    ensures Quiet(Then(first, Tell(first.state, msg)), local, port)
  {
    TellNotTo(first.state, msg, port);
    KnownKeeps(first.state, local);
  }

  /** The state from which DEL_CLIENT tells the local servers: no lookup of the port is left, and a
      record only if there were two. */
  lemma ClientUnregistered(s: State, port: u32)
    requires Invariant(s) && s.local != BROADCAST.node
    ensures var t := ClientGone(s, s.local, port);
            var first := Unregister(t, s.local, port);
            && Invariant(first.state) && first.state.local == s.local
            && NotTo(first.sent, Addr(s.local, port))
            && (forall i :: 0 <= i < |first.state.lookups| ==> first.state.lookups[i].who != Addr(s.local, port))
            && (Get(Services(first.state.nodes, s.local), HashU32(port)).None? <==>
                |Stack(Services(s.nodes, s.local), HashU32(port))| <= 1)
  {
    var t := ClientGone(s, s.local, port);
    var services := Services(s.nodes, s.local);
    ClientGoneKeeps(s, s.local, port);
    WithoutClientKeeps(s.lookups, Addr(s.local, port));
    forall i | 0 <= i < |t.lookups|
      ensures t.lookups[i].who != Addr(s.local, port)
    {
      assert t.lookups[i] in t.lookups;
    }
    UnregisterKeeps(t, s.local, port);
    ServicesFiled(s.nodes, s.local);
    UnregisterServices(t, s.local, port, s.local);
    RemoveAnswer(services, HashU32(port), HashU32(port));
    if Get(services, HashU32(port)).Some? {
      RemovalNotTo(t, Get(services, HashU32(port)).value, port);
    }
  }

  /** A local client's DEL_CLIENT leaves no lookup and no server of the port, and is itself not sent
      there, if and only if the port has at most one record. */
  lemma DelClientCloses(s: State, port: u32)
    requires Invariant(s) && s.local != BROADCAST.node
    ensures var r := Handle(s, Addr(s.local, port), DelClient(s.local, port));
            var single := |Stack(Services(s.nodes, s.local), HashU32(port))| <= 1;
            (Closed(r.state, port) <==> single) && (NotTo(r.sent, Addr(s.local, port)) <==> single)
  {
    var first := Unregister(ClientGone(s, s.local, port), s.local, port);
    ClientUnregistered(s, port);
    var msg := DelClient(s.local, port);
    TellNotTo(first.state, msg, port);
    KnownKeeps(first.state, s.local);
    NotToBoth(first.sent, Tell(first.state, msg).sent, Addr(s.local, port));
  }

  lemma NotToBoth(a: seq<Sent>, b: seq<Sent>, to: Addr)
    ensures NotTo(a + b, to) <==> NotTo(a, to) && NotTo(b, to)
  {
    assert forall e :: e in a + b <==> e in a || e in b;
  }

  lemma UnregisterQuiet(s: State, id: u32, port: u32, closed: u32)
    requires Invariant(s) && Closed(s, closed) && s.local != BROADCAST.node
    ensures Quiet(Unregister(s, id, port), s.local, closed)
  {
    var services := Services(s.nodes, id);
    UnregisterKeeps(s, id, port);
    UnregisterServices(s, id, port, s.local);
    ServicesFiled(s.nodes, id);
    RemoveAnswer(services, HashU32(port), HashU32(closed));
    GetIsTop(services, HashU32(closed));
    var srv := Get(services, HashU32(port));
    if srv.Some? {
      RemovalNotTo(s, srv.value, closed);
    }
  }

  lemma {:induction false} DrainQuiet(s: State, id: u32, i: nat, closed: u32)
    requires Invariant(s) && Closed(s, closed) && s.local != BROADCAST.node
    ensures Quiet(Drain(s, id, i), s.local, closed)
    decreases |Services(s.nodes, id)| - i
  {
    var next := Next(Services(s.nodes, id), i);
    if next.Some? {
      var port := Services(s.nodes, id)[next.value].item.port;
      var first := Unregister(s, id, port);
      UnregisterServices(s, id, port, id);
      UnregisterKeeps(s, id, port);
      UnregisterQuiet(s, id, port, closed);
      DrainQuiet(first.state, id, next.value + 1, closed);
      DrainTakes(s, id, i, next.value);
      NotToBoth(first.sent, Drain(first.state, id, next.value + 1).sent, Addr(s.local, closed));
    }
  }

  lemma ByeQuiet(s: State, from: Addr, closed: u32)
    requires Invariant(s) && Closed(s, closed) && s.local != BROADCAST.node
    ensures Quiet(OnBye(s, from), s.local, closed)
  {
    var t := Known(s, from.node);
    KnownKeeps(s, from.node);
    DrainKeeps(t, from.node, 0);
    DrainQuiet(t, from.node, 0, closed);
    ThenTellQuiet(Drain(t, from.node, 0), Bye(from.node), s.local, closed);
  }

  lemma CloseQuiet(s: State, node: u32, port: u32, closed: u32)
    requires Invariant(s) && Closed(s, closed) && s.local != BROADCAST.node
    ensures Quiet(Close(s, node, port), s.local, closed)
  {
    var t := ClientGone(s, node, port);
    ClientGoneKeeps(s, node, port);
    WithoutClientKeeps(s.lookups, Addr(node, port));
    forall i | 0 <= i < |t.lookups|
      ensures t.lookups[i].who != Addr(s.local, closed)
    {
      assert t.lookups[i] in s.lookups;
    }
    UnregisterKeeps(t, node, port);
    UnregisterQuiet(t, node, port, closed);
    ThenTellQuiet(Unregister(t, node, port), DelClient(node, port), s.local, closed);
  }

  /** A growth brings no record back. */
  lemma NewServerQuiet(s: State, from: Addr, srv: Server, closed: u32)
    requires Invariant(s) && Closed(s, closed) && s.local != BROADCAST.node && from != Addr(s.local, closed)
    ensures Quiet(OnNewServer(s, from, srv), s.local, closed)
  {
    HandleKeepsInvariant(s, from, NewServer(srv));
    var c := Claimed(s, from, srv);
    var services, h := Services(s.nodes, s.local), HashU32(closed);
    NoticesNotTo(s.lookups, c, NewServer(c), Addr(s.local, closed));
    ServicesFiled(s.nodes, s.local);
    PutAnswer(services, HashU32(c.port), c, h);
    GetIsTop(services, h);
    LastInStack(services, h);
    if HashU32(c.port) == h {
      HashU32Injective(c.port, closed);
    }
  }

  lemma DelLookupQuiet(s: State, from: Addr, service: u32, instance: Instance, closed: u32)
    requires Closed(s, closed)
    ensures Quiet(OnDelLookup(s, from, service, instance), s.local, closed)
  {
    WithoutLookupKeeps(s.lookups, from, service, instance);
    var lookups := WithoutLookup(s.lookups, from, service, instance);
    forall i | 0 <= i < |lookups|
      ensures lookups[i].who != Addr(s.local, closed)
    {
      assert lookups[i] in s.lookups;
    }
  }

  /** Packets from anyone else keep a closed port closed and send it nothing. */
  lemma OthersStayQuiet(s: State, from: Addr, msg: Msg, closed: u32)
    requires Invariant(s) && Closed(s, closed)
    requires s.local != BROADCAST.node && from != Addr(s.local, closed)
    ensures Quiet(Handle(s, from, msg), s.local, closed)
  {
    match msg
    case Hello => KnownKeeps(s, s.local);
    case Bye(_) => ByeQuiet(s, from, closed);
    case DelClient(node, port) => CloseQuiet(s, node, port, closed);
    case NewServer(srv) => NewServerQuiet(s, from, srv, closed);
    case DelServer(srv) =>
      var c := Claimed(s, from, srv);
      KnownKeeps(s, c.node);
      UnregisterQuiet(Known(s, c.node), c.node, c.port, closed);
    case NewLookup(_, _) =>
    case DelLookup(service, instance) => DelLookupQuiet(s, from, service, instance, closed);
    case Other =>
  }

  /** Everything sent during a run. */
  function SentDuring(s: State, packets: seq<Packet>): seq<Sent>
    decreases |packets|
  {
    if packets == [] then []
    else
      var r := Handle(s, packets[0].from, packets[0].msg);
      r.sent + SentDuring(r.state, packets[1..])
  }

  lemma {:induction false} StaysQuiet(s: State, packets: seq<Packet>, closed: u32)
    requires Invariant(s) && Closed(s, closed) && s.local != BROADCAST.node
    requires forall i :: 0 <= i < |packets| ==> packets[i].from != Addr(s.local, closed)
    ensures Closed(Serve(s, packets), closed) && NotTo(SentDuring(s, packets), Addr(s.local, closed))
    decreases |packets|
  {
    if packets != [] {
      var p := packets[0];
      var r := Handle(s, p.from, p.msg);
      OthersStayQuiet(s, p.from, p.msg, closed);
      HandleKeepsInvariant(s, p.from, p.msg);
      StaysQuiet(r.state, packets[1..], closed);
      NotToBoth(r.sent, SentDuring(r.state, packets[1..]), Addr(s.local, closed));
    }
  }

  /** After a local client's DEL_CLIENT, over every run in which no new packet comes from that port,
      nothing is sent to it and neither lookup nor server of it exists, if and only if the port had
      at most one record. */
  lemma SilenceAfterClose(s: State, port: u32, packets: seq<Packet>)
    requires Invariant(s) && s.local != BROADCAST.node
    requires forall i :: 0 <= i < |packets| ==> packets[i].from != Addr(s.local, port)
    ensures var run := [Packet(Addr(s.local, port), DelClient(s.local, port))] + packets;
            Closed(Serve(s, run), port) && NotTo(SentDuring(s, run), Addr(s.local, port)) <==>
            |Stack(Services(s.nodes, s.local), HashU32(port))| <= 1
  {
    var closing := Packet(Addr(s.local, port), DelClient(s.local, port));
    var run, r := [closing] + packets, Handle(s, closing.from, closing.msg);
    assert run[0] == closing && run[1..] == packets;
    DelClientCloses(s, port);
    HandleKeepsInvariant(s, closing.from, closing.msg);
    NotToBoth(r.sent, SentDuring(r.state, packets), Addr(s.local, port));
    if Closed(r.state, port) {
      StaysQuiet(r.state, packets, port);
    }
  }
}
