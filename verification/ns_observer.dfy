/** What a local observer learns from the reply to its lookup and the notifications that follow. */
module Observer {
  import opened Options
  import opened Hash
  import opened SlotTable
  import opened NameService
  import opened Registry
  import opened LookupReplies

  /** What the observer of lookup l makes of one packet: it hears those sent to its address for l. */
  function HearOne(view: set<Server>, e: Sent, l: Lookup): set<Server> {
    if e.to != l.who || e.about != Some(l) then view
    else match e.msg
      case NewServer(srv) => if srv == END then view else view + {srv}
      case DelServer(srv) => view - {srv}
      case _ => view
  }

  function Hear(view: set<Server>, sent: seq<Sent>, l: Lookup): set<Server>
    decreases |sent|
  {
    if sent == [] then view else Hear(HearOne(view, sent[0], l), sent[1..], l)
  }

  lemma {:induction false} HearConcat(view: set<Server>, a: seq<Sent>, b: seq<Sent>, l: Lookup)
    ensures Hear(view, a + b, l) == Hear(Hear(view, a, l), b, l)
    decreases |a|
  {
    if a == [] {
      assert a + b == b;
    } else {
      assert (a + b)[1..] == a[1..] + b;
      HearConcat(HearOne(view, a[0], l), a[1..], b, l);
    }
  }

  lemma {:induction false} HearNothing(view: set<Server>, sent: seq<Sent>, l: Lookup)
    requires forall e :: e in sent ==> e.about != Some(l)
    ensures Hear(view, sent, l) == view
    decreases |sent|
  {
    if sent != [] {
      assert sent[0] in sent;
      HearNothing(view, sent[1..], l);
    }
  }

  /** A live lookup hears of a server exactly when it matches. */
  lemma {:induction false} HearNotices(view: set<Server>, lookups: seq<Lookup>, srv: Server, msg: Msg, l: Lookup)
    requires msg == NewServer(srv) || msg == DelServer(srv)
    requires srv != END
    ensures Hear(view, Notices(lookups, srv, msg), l) ==
            if l in lookups && Matches(l, srv) then HearOne(view, Sent(l.who, msg, Some(l)), l) else view
    decreases |lookups|
  {
    if lookups != [] {
      var n := |lookups| - 1;
      var k := lookups[n];
      HearNotices(view, lookups[..n], srv, msg, l);
      assert lookups == lookups[..n] + [k];
      if Matches(k, srv) {
        var e := Sent(k.who, msg, Some(k));
        var before := Hear(view, Notices(lookups[..n], srv, msg), l);
        HearConcat(view, Notices(lookups[..n], srv, msg), [e], l);
        assert [e][1..] == [] && Hear(before, [e], l) == Hear(HearOne(before, e, l), [], l);
        assert (view + {srv}) + {srv} == view + {srv} && (view - {srv}) - {srv} == view - {srv};
      } else {
        assert Notices(lookups, srv, msg) == Notices(lookups[..n], srv, msg);
      }
    }
  }

  lemma HearRemoval(view: set<Server>, s: State, srv: Server, l: Lookup)
    requires l in s.lookups && srv != END
    ensures Hear(view, Removal(s, srv), l) == if Matches(l, srv) then view - {srv} else view
  {
    var own := if srv.node == s.local then [Sent(BROADCAST, DelServer(srv), None)] else [];
    HearNothing(view, own, l);
    HearConcat(view, own, Notices(s.lookups, srv, DelServer(srv)), l);
    HearNotices(view, s.lookups, srv, DelServer(srv), l);
  }

  lemma {:induction false} HearRemovals(view: set<Server>, s: State, servers: seq<Server>, l: Lookup)
    requires l in s.lookups && END !in servers
    ensures forall x :: x in Hear(view, Removals(s, servers), l) <==> x in view && !(x in servers && Matches(l, x))
    decreases |servers|
  {
    if servers != [] {
      HearRemoval(view, s, servers[0], l);
      var rest := Hear(view, Removal(s, servers[0]), l);
      HearConcat(view, Removal(s, servers[0]), Removals(s, servers[1..]), l);
      HearRemovals(rest, s, servers[1..], l);
      assert servers == [servers[0]] + servers[1..];
    }
  }

  lemma {:induction false} HearAnnounce(view: set<Server>, servers: seq<Server>, to: Addr, l: Lookup)
    requires to == l.who
    ensures forall x :: x in Hear(view, Announce(servers, to, Some(l)), l) <==> x in view || (x in servers && x != END)
    decreases |servers|
  {
    if servers != [] {
      var sent := Announce(servers, to, Some(l));
      assert sent[1..] == Announce(servers[1..], to, Some(l));
      HearAnnounce(HearOne(view, sent[0], l), servers[1..], to, l);
      assert servers == [servers[0]] + servers[1..];
    }
  }

  /** The view misses no registered server that matches. */
  ghost predicate Covers(s: State, l: Lookup, view: set<Server>) {
    forall x :: Registered(s, x) && Matches(l, x) ==> x in view
  }

  /** The view is exactly the registered servers that match. */
  ghost predicate Exact(s: State, l: Lookup, view: set<Server>) {
    forall x :: x in view <==> Registered(s, x) && Matches(l, x)
  }

  /** The packet replaces, unannounced, a server that l has heard of by another one. */
  ghost predicate Swaps(s: State, from: Addr, msg: Msg, l: Lookup) {
    msg.NewServer? &&
    exists k: nat ::
      var live := Get(Services(s.nodes, from.node), k);
      live.Some? && Matches(l, live.value) && Answer(s, from, msg, k) != live
  }

  /** The packet makes l believe in a server that is not registered: it swaps one, or asks for the
      reply to l while a table holds a matching record that is not the one found first. */
  ghost predicate Misleads(s: State, from: Addr, msg: Msg, l: Lookup) {
    Swaps(s, from, msg, l) ||
    (msg.NewLookup? && from.node == s.local && l == Lookup(msg.service, msg.instance, from)
     && exists x :: x in Found(s, l) && !Registered(s, x))
  }

  /** No answer that l is concerned with comes up unannounced: where the packet does not have the
      effect it says, what is answered instead does not match l. */
  ghost predicate TameFor(s: State, from: Addr, msg: Msg, l: Lookup) {
    forall k: nat ::
      Heeded(s, from, msg, k) ||
      (var x := Answer(s, from, msg, k); x.Some? ==> !Matches(l, x.value))
  }

  /** A live entry of a table is the registered server of its address. */
  lemma LiveIsRegistered(s: State, id: u32, port: u32)
    requires Invariant(s) && Get(Services(s.nodes, id), HashU32(port)).Some?
    ensures var srv := Get(Services(s.nodes, id), HashU32(port)).value;
            Registered(s, srv) && srv.node == id && srv.port == port && srv != END
  {
    var services := Services(s.nodes, id);
    var srv := Get(services, HashU32(port)).value;
    ServicesFiled(s.nodes, id);
    assert FiledIn(id)(HashU32(port), srv);
    HashU32Injective(srv.port, port);
  }

  lemma AnswerIsRegistered(s: State, id: u32, k: nat)
    requires Invariant(s) && Get(Services(s.nodes, id), k).Some?
    ensures var srv := Get(Services(s.nodes, id), k).value;
            Registered(s, srv) && srv.node == id && k == HashU32(srv.port)
  {
    var services := Services(s.nodes, id);
    ServicesFiled(s.nodes, id);
    var p := Find(services, k).value;
    assert FiledIn(id)(services[p].key, services[p].item);
  }

  /** The records of a node's table: all its own, none all zero, and every registered one among them. */
  lemma ItemsOfNode(s: State, id: u32, x: Server)
    requires Invariant(s)
    ensures x in Items(Services(s.nodes, id)) ==> x.node == id && x != END
    ensures x.node == id && Registered(s, x) ==> x in Items(Services(s.nodes, id))
  {
    var services := Services(s.nodes, id);
    ItemsMembers(services, 0);
    ServicesFiled(s.nodes, id);
    if p :| 0 <= p < |services| && services[p].Live? && services[p].item == x {
      assert FiledIn(id)(services[p].key, x);
    }
  }

  lemma RegisteredThen(s: State, from: Addr, msg: Msg, x: Server)
    requires Invariant(s)
    ensures Invariant(Handle(s, from, msg).state)
    ensures Registered(Handle(s, from, msg).state, x) <==>
            if x.node == from.node then Answer(s, from, msg, HashU32(x.port)) == Some(x) else Registered(s, x)
  {
    HandleKeepsInvariant(s, from, msg);
    AnswerIs(s, from, msg, HashU32(x.port));
    if x.node != from.node {
      PacketChangesOnlyItsNode(s, from, msg, x.node);
    }
  }

  /** What is answered after the packet is registered then, and under its own port. */
  lemma AnswerThen(s: State, from: Addr, msg: Msg, k: nat)
    requires Invariant(s) && Answer(s, from, msg, k).Some?
    ensures var x := Answer(s, from, msg, k).value;
            x.node == from.node && HashU32(x.port) == k && Registered(Handle(s, from, msg).state, x)
  {
    HandleKeepsInvariant(s, from, msg);
    AnswerIs(s, from, msg, k);
    AnswerIsRegistered(Handle(s, from, msg).state, from.node, k);
  }

  lemma HearNewServer(s: State, from: Addr, srv: Server, l: Lookup, view: set<Server>)
    requires Accepted(s, from, srv) && l in s.lookups
    ensures var c := Claimed(s, from, srv);
            Hear(view, OnNewServer(s, from, srv).sent, l) == if Matches(l, c) then view + {c} else view
  {
    var c := Claimed(s, from, srv);
    var own := if c.node == s.local then [Sent(BROADCAST, NewServer(c), None)] else [];
    HearNothing(view, own, l);
    HearConcat(view, own, Notices(s.lookups, c, NewServer(c)), l);
    HearNotices(view, s.lookups, c, NewServer(c), l);
  }

  // ----- Packets that remove -----

  /** The packet asks for the removal of k from its sender's node. */
  predicate Removes(s: State, from: Addr, msg: Msg, k: nat) {
    match msg
    case DelServer(srv) =>
      var c := Claimed(s, from, srv);
      c.node == from.node && k == HashU32(c.port)
    case DelClient(node, port) => MayClose(s, from, node, port) && k == HashU32(port)
    case Bye(_) => true
    case _ => false
  }

  lemma RemovalHeeded(s: State, from: Addr, msg: Msg, k: nat)
    requires Invariant(s) && !msg.NewServer?
    ensures Heeded(s, from, msg, k) <==> (Removes(s, from, msg, k) ==> Answer(s, from, msg, k).None?)
    ensures !Removes(s, from, msg, k) ==> Answer(s, from, msg, k) == Get(Services(s.nodes, from.node), k)
  {
    ServicesFiled(s.nodes, from.node);
    GetRefines(Services(s.nodes, from.node), k);
  }

  /** `heard` is the view without what the packet asks to remove. */
  ghost predicate Unheard(s: State, from: Addr, msg: Msg, l: Lookup, view: set<Server>, heard: set<Server>) {
    && heard <= view
    && (forall x :: x in view && x.node != from.node ==> x in heard)
    && forall k: nat ::
         var x := Get(Services(s.nodes, from.node), k);
         x.Some? ==> if Removes(s, from, msg, k) then Matches(l, x.value) ==> x.value !in heard
                     else x.value in view ==> x.value in heard
  }

  lemma UnheardCovers(s: State, from: Addr, msg: Msg, l: Lookup, view: set<Server>, heard: set<Server>)
    requires Invariant(s) && !msg.NewServer? && Unheard(s, from, msg, l, view, heard)
    requires Covers(s, l, view) && TameFor(s, from, msg, l)
    ensures Covers(Handle(s, from, msg).state, l, heard)
  {
    forall x | Registered(Handle(s, from, msg).state, x) && Matches(l, x)
      ensures x in heard
    {
      RegisteredThen(s, from, msg, x);
      if x.node == from.node {
        var k := HashU32(x.port);
        assert Heeded(s, from, msg, k);
        RemovalHeeded(s, from, msg, k);
        assert Get(Services(s.nodes, from.node), k) == Some(x);
      }
    }
  }

  lemma UnheardMisses(s: State, from: Addr, msg: Msg, l: Lookup, view: set<Server>, heard: set<Server>)
    requires Invariant(s) && !msg.NewServer? && Unheard(s, from, msg, l, view, heard)
    requires Exact(s, l, view) && !TameFor(s, from, msg, l)
    ensures !Covers(Handle(s, from, msg).state, l, heard)
  {
    var k: nat :| !Heeded(s, from, msg, k) && Answer(s, from, msg, k).Some?
      && Matches(l, Answer(s, from, msg, k).value);
    var x := Answer(s, from, msg, k).value;
    AnswerThen(s, from, msg, k);
    RemovalHeeded(s, from, msg, k);
    assert x in heard ==> Get(Services(s.nodes, from.node), k) == Some(x);
  }

  lemma UnheardExact(s: State, from: Addr, msg: Msg, l: Lookup, view: set<Server>, heard: set<Server>)
    requires Invariant(s) && !msg.NewServer? && Unheard(s, from, msg, l, view, heard)
    requires Exact(s, l, view) && TameFor(s, from, msg, l)
    ensures Exact(Handle(s, from, msg).state, l, heard)
  {
    UnheardCovers(s, from, msg, l, view, heard);
    forall x | x in heard
      ensures Registered(Handle(s, from, msg).state, x) && Matches(l, x)
    {
      RegisteredThen(s, from, msg, x);
      if x.node == from.node {
        var k := HashU32(x.port);
        RemovalHeeded(s, from, msg, k);
        assert Get(Services(s.nodes, from.node), k) == Some(x);
      }
    }
  }

  /** What one step makes of the views of a lookup, in terms of the guards on the packet. */
  ghost predicate Told(s: State, from: Addr, msg: Msg, l: Lookup, view: set<Server>, heard: set<Server>) {
    var t := Handle(s, from, msg).state;
    && (Covers(s, l, view) && TameFor(s, from, msg, l) ==> Covers(t, l, heard))
    && (Exact(s, l, view) ==>
          && (Covers(t, l, heard) <==> TameFor(s, from, msg, l))
          && (Exact(t, l, heard) <==> TameFor(s, from, msg, l) && !Misleads(s, from, msg, l)))
  }

  lemma UnheardTold(s: State, from: Addr, msg: Msg, l: Lookup, view: set<Server>, heard: set<Server>)
    requires Invariant(s) && !msg.NewServer? && !msg.NewLookup? && Unheard(s, from, msg, l, view, heard)
    ensures Told(s, from, msg, l, view, heard)
  {
    if Covers(s, l, view) && TameFor(s, from, msg, l) {
      UnheardCovers(s, from, msg, l, view, heard);
    }
    if Exact(s, l, view) {
      if TameFor(s, from, msg, l) {
        UnheardExact(s, from, msg, l, view, heard);
      } else {
        UnheardMisses(s, from, msg, l, view, heard);
      }
    }
  }

  /** What is heard of a removal, on any state t with the same tables. */
  lemma UnregisterHeard(s: State, t: State, from: Addr, msg: Msg, port: u32, l: Lookup, view: set<Server>)
    requires Invariant(s) && Invariant(t) && l in t.lookups && Services(t.nodes, from.node) ==
             Services(s.nodes, from.node)
    requires forall k: nat :: Removes(s, from, msg, k) <==> k == HashU32(port)
    ensures Unheard(s, from, msg, l, view, Hear(view, Unregister(t, from.node, port).sent, l))
  {
    var services := Services(s.nodes, from.node);
    if Get(services, HashU32(port)).Some? {
      LiveIsRegistered(t, from.node, port);
      HearRemoval(view, t, Get(services, HashU32(port)).value, l);
    }
    forall k: nat | Get(services, k).Some?
      ensures HashU32(Get(services, k).value.port) == k
    {
      AnswerIsRegistered(s, from.node, k);
    }
  }

  lemma DrainHeard(s: State, t: State, from: Addr, l: Lookup, view: set<Server>)
    requires Invariant(s) && Invariant(t) && l in t.lookups && Services(t.nodes, from.node) ==
             Services(s.nodes, from.node)
    ensures Unheard(s, from, Bye(from.node), l, view, Hear(view, Drain(t, from.node, 0).sent, l))
  {
    var services := Services(s.nodes, from.node);
    var gone := Taken(services, 0);
    DrainSends(t, from.node, 0);
    forall x | x in gone
      ensures x.node == from.node && x != END
    {
      TakenOfNode(t, from.node, x);
    }
    HearRemovals(view, t, gone, l);
    ServicesFiled(s.nodes, from.node);
    forall k: nat | Get(services, k).Some?
      ensures Get(services, k).value in gone
    {
      AnswersTaken(services, 0, k);
    }
  }

  /** The packets of BYE and DEL_CLIENT to the local servers concern no lookup. */
  lemma TellUnheard(first: Step, msg: Msg, l: Lookup, view: set<Server>)
    ensures Hear(view, Then(first, Tell(first.state, msg)).sent, l) == Hear(view, first.sent, l)
  {
    var told := Tell(first.state, msg);
    HearConcat(view, first.sent, told.sent, l);
    HearNothing(Hear(view, first.sent, l), told.sent, l);
  }

  lemma DeletionTold(s: State, from: Addr, msg: Msg, l: Lookup, view: set<Server>)
    requires Invariant(s) && l in s.lookups && l in Handle(s, from, msg).state.lookups
    requires msg.Bye? || msg.DelClient? || msg.DelServer?
    ensures Told(s, from, msg, l, view, Hear(view, Handle(s, from, msg).sent, l))
  {
    var heard := Hear(view, Handle(s, from, msg).sent, l);
    match msg {
      case Bye(_) =>
        var t := Known(s, from.node);
        KnownKeeps(s, from.node);
        DrainHeard(s, t, from, l, view);
        TellUnheard(Drain(t, from.node, 0), Bye(from.node), l, view);
      case DelClient(node, port) =>
        if MayClose(s, from, node, port) {
          var t := ClientGone(s, node, port);
          ClientGoneKeeps(s, node, port);
          WithoutClientKeeps(s.lookups, Addr(node, port));
          UnregisterKeeps(t, node, port);
          UnregisterHeard(s, t, from, msg, port, l, view);
          TellUnheard(Unregister(t, node, port), msg, l, view);
        }
      case DelServer(srv) =>
        var c := Claimed(s, from, srv);
        if from.node == c.node {
          KnownKeeps(s, c.node);
          UnregisterHeard(s, Known(s, c.node), from, msg, c.port, l, view);
        }
    }
    UnheardTold(s, from, msg, l, view, heard);
  }

  // ----- Packets that register -----

  lemma NewServerTold(s: State, from: Addr, srv: Server, l: Lookup, view: set<Server>)
    requires Invariant(s) && l in s.lookups && Accepted(s, from, srv)
    ensures Told(s, from, NewServer(srv), l, view, Hear(view, OnNewServer(s, from, srv).sent, l))
  {
    var msg, heard := NewServer(srv), Hear(view, OnNewServer(s, from, srv).sent, l);
    HearNewServer(s, from, srv, l, view);
    if Covers(s, l, view) && TameFor(s, from, msg, l) {
      NewServerCovers(s, from, srv, l, view, heard);
    }
    if Exact(s, l, view) {
      if !TameFor(s, from, msg, l) {
        NewServerMisses(s, from, srv, l, view, heard);
      } else if Swaps(s, from, msg, l) {
        NewServerSwaps(s, from, srv, l, view, heard);
      } else {
        NewServerExact(s, from, srv, l, view, heard);
      }
    }
  }

  /** What a lookup knows after a registration. */
  ghost predicate Added(s: State, from: Addr, srv: Server, l: Lookup, view: set<Server>, heard: set<Server>) {
    var c := Claimed(s, from, srv);
    Accepted(s, from, srv) && heard == if Matches(l, c) then view + {c} else view
  }

  lemma RegistrationHeeded(s: State, from: Addr, srv: Server, k: nat)
    requires Invariant(s) && Accepted(s, from, srv)
    ensures var c := Claimed(s, from, srv);
            Heeded(s, from, NewServer(srv), k) <==>
            k == HashU32(c.port) || Answer(s, from, NewServer(srv), k) == Get(Services(s.nodes, from.node), k)
  {
    ServicesFiled(s.nodes, from.node);
    GetRefines(Services(s.nodes, from.node), k);
  }

  lemma NewServerCovers(s: State, from: Addr, srv: Server, l: Lookup, view: set<Server>, heard: set<Server>)
    requires Invariant(s) && Added(s, from, srv, l, view, heard)
    requires Covers(s, l, view) && TameFor(s, from, NewServer(srv), l)
    ensures Covers(Handle(s, from, NewServer(srv)).state, l, heard)
  {
    forall x | Registered(Handle(s, from, NewServer(srv)).state, x) && Matches(l, x)
      ensures x in heard
    {
      RegisteredThen(s, from, NewServer(srv), x);
      if x.node == from.node {
        assert Heeded(s, from, NewServer(srv), HashU32(x.port));
        RegistrationHeeded(s, from, srv, HashU32(x.port));
      }
    }
  }

  lemma NewServerMisses(s: State, from: Addr, srv: Server, l: Lookup, view: set<Server>, heard: set<Server>)
    requires Invariant(s) && Added(s, from, srv, l, view, heard)
    requires Exact(s, l, view) && !TameFor(s, from, NewServer(srv), l)
    ensures !Covers(Handle(s, from, NewServer(srv)).state, l, heard)
  {
    var msg := NewServer(srv);
    var k: nat :| !Heeded(s, from, msg, k) && Answer(s, from, msg, k).Some?
      && Matches(l, Answer(s, from, msg, k).value);
    var x := Answer(s, from, msg, k).value;
    AnswerThen(s, from, msg, k);
    RegistrationHeeded(s, from, srv, k);
    assert x != Claimed(s, from, srv) && (x in heard ==> x in view);
    assert x in view ==> Get(Services(s.nodes, from.node), k) == Some(x);
  }

  lemma NewServerSwaps(s: State, from: Addr, srv: Server, l: Lookup, view: set<Server>, heard: set<Server>)
    requires Invariant(s) && Added(s, from, srv, l, view, heard)
    requires Exact(s, l, view) && Swaps(s, from, NewServer(srv), l)
    ensures !Exact(Handle(s, from, NewServer(srv)).state, l, heard)
  {
    var services := Services(s.nodes, from.node);
    var k: nat :| Get(services, k).Some? && Matches(l, Get(services, k).value)
                  && Answer(s, from, NewServer(srv), k) != Get(services, k);
    var x := Get(services, k).value;
    AnswerIsRegistered(s, from.node, k);
    RegisteredThen(s, from, NewServer(srv), x);
    assert x in heard;
  }

  lemma NewServerExact(s: State, from: Addr, srv: Server, l: Lookup, view: set<Server>, heard: set<Server>)
    requires Invariant(s) && Added(s, from, srv, l, view, heard)
    requires Exact(s, l, view) && TameFor(s, from, NewServer(srv), l) && !Swaps(s, from, NewServer(srv), l)
    ensures Exact(Handle(s, from, NewServer(srv)).state, l, heard)
  {
    NewServerCovers(s, from, srv, l, view, heard);
    forall x | x in heard
      ensures Registered(Handle(s, from, NewServer(srv)).state, x) && Matches(l, x)
    {
      RegisteredThen(s, from, NewServer(srv), x);
    }
  }

  lemma NewLookupHeard(s: State, from: Addr, service: u32, instance: Instance, l: Lookup, view: set<Server>)
    requires Invariant(s) && from.node == s.local
    ensures var r := OnNewLookup(s, from, service, instance);
            if l == Lookup(service, instance, from) then forall x :: x in Hear(view, r.sent, l) <==>
              x in view || x in Found(s, l)
            else Hear(view, r.sent, l) == view
  {
    var k := Lookup(service, instance, from);
    var found := Found(s, k);
    LookupReply(s, from, service, instance);
    if l == k {
      HearAnnounce(view, found + [END], from, k);
    } else {
      HearNothing(view, Announce(found + [END], from, Some(k)), l);
    }
  }

  /** A lookup that is registered again is answered again. */
  lemma AskedAgain(s: State, from: Addr, service: u32, instance: Instance, l: Lookup, view: set<Server>)
    requires Invariant(s)
    ensures var r := OnNewLookup(s, from, service, instance);
            && (Covers(s, l, view) ==> Covers(r.state, l, Hear(view, r.sent, l)))
            && (Exact(s, l, view) ==> (Exact(r.state, l, Hear(view, r.sent, l)) <==>
                                       !Misleads(s, from, NewLookup(service, instance), l)))
  {
    if from.node == s.local {
      NewLookupHeard(s, from, service, instance, l, view);
      if l == Lookup(service, instance, from) {
        forall x
          ensures x in Found(s, l) ==> Matches(l, x)
        {
          FoundMembers(s, l, x);
        }
      }
    }
  }

  /** A packet that changes no table and concerns no lookup. */
  lemma QuietTold(s: State, from: Addr, msg: Msg, l: Lookup, view: set<Server>)
    requires Invariant(s) && forall k: nat :: !Removes(s, from, msg, k)
    requires !msg.NewServer? && !msg.NewLookup?
    ensures Told(s, from, msg, l, view, view)
  {
    UnheardTold(s, from, msg, l, view, view);
  }

  /** One packet, seen by a lookup that is live before and after it, whatever it looks up: nothing
      registered is missed if the packet is tame for the lookup. Of an exact view that is the exact
      condition, and it stays exact if and only if, besides, the packet does not mislead. */
  lemma ObserverStep(s: State, from: Addr, msg: Msg, l: Lookup, view: set<Server>)
    requires Invariant(s) && l in s.lookups && l in Handle(s, from, msg).state.lookups
    ensures var r := Handle(s, from, msg);
            var heard := Hear(view, r.sent, l);
            && (Covers(s, l, view) && TameFor(s, from, msg, l) ==> Covers(r.state, l, heard))
            && (Exact(s, l, view) ==>
                  && (Covers(r.state, l, heard) <==> TameFor(s, from, msg, l))
                  && (Exact(r.state, l, heard) <==> TameFor(s, from, msg, l) && !Misleads(s, from, msg, l)))
  {
    match msg
    case Hello =>
      HearNothing(view, Handle(s, from, msg).sent, l);
      QuietTold(s, from, msg, l, view);
    case NewServer(srv) =>
      if Accepted(s, from, srv) {
        NewServerTold(s, from, srv, l, view);
      } else {
        AllHeeded(s, from, msg, l);
      }
    case NewLookup(service, instance) =>
      AllHeeded(s, from, msg, l);
      AskedAgain(s, from, service, instance, l, view);
    case DelLookup(_, _) => QuietTold(s, from, msg, l, view);
    case Other => QuietTold(s, from, msg, l, view);
    case _ => DeletionTold(s, from, msg, l, view);
  }

  /** Packets that leave every table alone are tame for every lookup, and swap nothing. */
  lemma AllHeeded(s: State, from: Addr, msg: Msg, l: Lookup)
    requires Invariant(s) && (msg.NewLookup? || (msg.NewServer? && !Accepted(s, from, msg.server)))
    ensures TameFor(s, from, msg, l) && !Swaps(s, from, msg, l)
  {
    ServicesFiled(s.nodes, from.node);
    forall k: nat
      ensures Heeded(s, from, msg, k)
    {
      GetRefines(Services(s.nodes, from.node), k);
    }
  }

  /** A lookup of every service matches every server. */
  predicate Wildcard(l: Lookup) { l.service == 0 && l.instance == 0 }

  /** For such a lookup, tame is what it says. */
  lemma TameForAll(s: State, from: Addr, msg: Msg, l: Lookup)
    requires Invariant(s)
    ensures Tame(s, from, msg) ==> TameFor(s, from, msg, l)
    ensures Wildcard(l) ==> (Tame(s, from, msg) <==> TameFor(s, from, msg, l))
  {
    TameIsHeeded(s, from, msg);
    if Wildcard(l) && TameFor(s, from, msg, l) {
      AllUnanswered(s, from, msg, l);
    }
  }

  lemma AllUnanswered(s: State, from: Addr, msg: Msg, l: Lookup)
    requires Invariant(s) && Wildcard(l) && TameFor(s, from, msg, l)
    ensures forall k: nat :: Heeded(s, from, msg, k)
  {
    forall k: nat
      ensures Heeded(s, from, msg, k)
    {
      if Answer(s, from, msg, k).None? {
        Unanswered(s, from, msg, k);
      } else {
        assert Matches(l, Answer(s, from, msg, k).value);
      }
    }
  }

  /** No answer is lost. */
  lemma Unanswered(s: State, from: Addr, msg: Msg, k: nat)
    requires Invariant(s) && Answer(s, from, msg, k).None?
    ensures Heeded(s, from, msg, k)
  {
    var services := Services(s.nodes, from.node);
    if msg.NewServer? {
      ServicesFiled(s.nodes, from.node);
      GetRefines(services, k);
      GetIsTop(services, k);
      LastInStack(services, k);
    } else {
      RemovalHeeded(s, from, msg, k);
    }
  }

  /** For a client that looked up every service, and knows exactly what is registered: it misses
      nothing after a packet if and only if the packet is tame, and knows exactly what is registered
      if and only if it does not mislead either. */
  lemma WildcardStep(s: State, from: Addr, msg: Msg, l: Lookup, view: set<Server>)
    requires Invariant(s) && Wildcard(l) && Exact(s, l, view)
    requires l in s.lookups && l in Handle(s, from, msg).state.lookups
    ensures var r := Handle(s, from, msg);
            && (Covers(r.state, l, Hear(view, r.sent, l)) <==> Tame(s, from, msg))
            && (Exact(r.state, l, Hear(view, r.sent, l)) <==> Tame(s, from, msg) && !Misleads(s, from, msg, l))
  {
    ObserverStep(s, from, msg, l, view);
    TameForAll(s, from, msg, l);
  }

  /** The state in which a client has looked a service up and a local port has offered it. */
  function Offered(local: u32, l: Lookup, srv: Server): State {
    Serve(State(local, [], []), [Packet(l.who, NewLookup(l.service, l.instance)),
                                 Packet(Addr(local, srv.port), NewServer(srv))])
  }

  lemma OfferedState(local: u32, l: Lookup, srv: Server)
    requires l.who.node == local == srv.node && srv.service != 0 && srv.port != 0
    ensures var s := Offered(local, l, srv);
            && Invariant(s) && Tidy(s) && s.local == local && l in s.lookups
            && Services(s.nodes, local) == Put([], HashU32(srv.port), srv)
  {
    var s0 := State(local, [], []);
    var p, q := Packet(l.who, NewLookup(l.service, l.instance)), Packet(Addr(local, srv.port), NewServer(srv));
    FreshServer(local);
    HandleKeepsInvariant(s0, p.from, p.msg);
    HandleViews(s0, p.from, p.msg);
    var s1 := Handle(s0, p.from, p.msg).state;
    assert Services(s1.nodes, local) == [];
    assert Claimed(s1, q.from, srv) == srv;
    HandleKeepsInvariant(s1, q.from, q.msg);
    HandleViews(s1, q.from, q.msg);
    assert [p, q][1..] == [q] && [q][1..] == [];
    assert Serve(s1, [q]) == Serve(Handle(s1, q.from, q.msg).state, []);
    assert Serve(s0, [p, q]) == Serve(s1, [q]);
  }

  /** The port then offers another service: a clean run after which the client still believes in
      the first one. */
  lemma SwapExample(local: u32, l: Lookup, srv: Server, other: Server, view: set<Server>)
    requires l.who.node == local == srv.node == other.node && srv.service != 0 && srv.port == other.port != 0
    requires Matches(l, srv) && other != srv && other.service != 0
    requires Exact(Offered(local, l, srv), l, view)
    ensures var r := Handle(Offered(local, l, srv), Addr(local, srv.port), NewServer(other));
            Invariant(r.state) && Tidy(r.state) && srv in Hear(view, r.sent, l) && !Registered(r.state, srv)
  {
    var s, from, msg := Offered(local, l, srv), Addr(local, srv.port), NewServer(other);
    OfferedState(local, l, srv);
    FirstPutIsClean(HashU32(srv.port), srv);
    GetRefines(Services(s.nodes, local), HashU32(srv.port));
    assert Claimed(s, from, other) == other;
    assert Registered(s, srv);
    RegisteredThen(s, from, msg, srv);
    HearNewServer(s, from, other, l, view);
    HandleKeepsInvariant(s, from, msg);
    HandleViews(s, from, msg);
  }

  /** The view of a lookup starts empty when it is registered, and forgets everything when it is dropped. */
  function Watch(s: State, view: set<Server>, from: Addr, msg: Msg, l: Lookup): set<Server> {
    var r := Handle(s, from, msg);
    if l !in r.state.lookups then {} else Hear(if l in s.lookups then view else {}, r.sent, l)
  }

  function WatchRun(s: State, view: set<Server>, packets: seq<Packet>, l: Lookup): set<Server>
    decreases |packets|
  {
    if packets == [] then view
    else
      var p := packets[0];
      WatchRun(Handle(s, p.from, p.msg).state, Watch(s, view, p.from, p.msg, l), packets[1..], l)
  }

  /** The first reply to a lookup covers what is registered, and is exact unless it misleads. */
  lemma FirstReply(s: State, from: Addr, service: u32, instance: Instance, l: Lookup)
    requires Invariant(s) && from.node == s.local && l == Lookup(service, instance, from)
    ensures var r := OnNewLookup(s, from, service, instance);
            && Covers(r.state, l, Hear({}, r.sent, l))
            && (Exact(r.state, l, Hear({}, r.sent, l)) <==> !Misleads(s, from, NewLookup(service, instance), l))
  {
    NewLookupHeard(s, from, service, instance, l, {});
    forall x
      ensures Registered(s, x) && Matches(l, x) ==> x in Found(s, l)
      ensures x in Found(s, l) ==> Matches(l, x)
    {
      FoundMembers(s, l, x);
    }
  }

  /** A packet that is tame for the lookup if that lives through it. */
  ghost predicate Bearable(s: State, from: Addr, msg: Msg, l: Lookup) {
    l in s.lookups && l in Handle(s, from, msg).state.lookups ==> TameFor(s, from, msg, l)
  }

  /** And that does not mislead it if it is live afterwards. */
  ghost predicate Honest(s: State, from: Addr, msg: Msg, l: Lookup) {
    Bearable(s, from, msg, l) && (l in Handle(s, from, msg).state.lookups ==> !Misleads(s, from, msg, l))
  }

  lemma WatchStep(s: State, view: set<Server>, from: Addr, msg: Msg, l: Lookup)
    requires Invariant(s)
    ensures var t := Handle(s, from, msg).state;
            var w := Watch(s, view, from, msg, l);
            && ((l in s.lookups ==> Covers(s, l, view)) && Bearable(s, from, msg, l) ==>
                (l in t.lookups ==> Covers(t, l, w)))
            && ((l in s.lookups ==> Exact(s, l, view)) ==>
                  ((l in t.lookups ==> Exact(t, l, w)) <==> Honest(s, from, msg, l)))
  {
    var r := Handle(s, from, msg);
    if l in r.state.lookups {
      if l in s.lookups {
        ObserverStep(s, from, msg, l, view);
      } else {
        BornHere(s, from, msg, l);
        FirstReply(s, from, msg.service, msg.instance, l);
      }
    }
  }

  /** A lookup appears only through its own NEW_LOOKUP. */
  lemma BornHere(s: State, from: Addr, msg: Msg, l: Lookup)
    requires Invariant(s) && l !in s.lookups && l in Handle(s, from, msg).state.lookups
    ensures msg.NewLookup? && from.node == s.local && l == Lookup(msg.service, msg.instance, from)
  {
    match msg
    case Bye(_) =>
      KnownKeeps(s, from.node);
      DrainKeeps(Known(s, from.node), from.node, 0);
    case DelClient(node, port) =>
      ClientGoneKeeps(s, node, port);
      WithoutClientKeeps(s.lookups, Addr(node, port));
      UnregisterKeeps(ClientGone(s, node, port), node, port);
    case DelServer(srv) =>
      var c := Claimed(s, from, srv);
      KnownKeeps(s, c.node);
      UnregisterKeeps(Known(s, c.node), c.node, c.port);
    case DelLookup(service, instance) => WithoutLookupKeeps(s.lookups, from, service, instance);
    case _ =>
  }

  ghost predicate BearableRun(s: State, packets: seq<Packet>, l: Lookup)
    decreases |packets|
  {
    packets == [] ||
    var p := packets[0];
    Bearable(s, p.from, p.msg, l) && BearableRun(Handle(s, p.from, p.msg).state, packets[1..], l)
  }

  ghost predicate HonestRun(s: State, packets: seq<Packet>, l: Lookup)
    decreases |packets|
  {
    packets == [] ||
    var p := packets[0];
    Honest(s, p.from, p.msg, l) && HonestRun(Handle(s, p.from, p.msg).state, packets[1..], l)
  }

  /** The view is exact in every state of the run in which the lookup is live. */
  ghost predicate ExactAlong(s: State, view: set<Server>, packets: seq<Packet>, l: Lookup)
    decreases |packets|
  {
    && (l in s.lookups ==> Exact(s, l, view))
    && (packets == [] ||
        var p := packets[0];
        ExactAlong(Handle(s, p.from, p.msg).state, Watch(s, view, p.from, p.msg, l), packets[1..], l))
  }

  /** Over any run of packets that are tame for a lookup while it is live, what it has been told
      covers every registered server it matches. */
  lemma {:induction false} ObserverRun(s: State, view: set<Server>, packets: seq<Packet>, l: Lookup)
    requires Invariant(s) && BearableRun(s, packets, l)
    requires l in s.lookups ==> Covers(s, l, view)
    ensures var t := Serve(s, packets);
            l in t.lookups ==> Covers(t, l, WatchRun(s, view, packets, l))
    decreases |packets|
  {
    if packets != [] {
      var p := packets[0];
      HandleKeepsInvariant(s, p.from, p.msg);
      WatchStep(s, view, p.from, p.msg, l);
      ObserverRun(Handle(s, p.from, p.msg).state, Watch(s, view, p.from, p.msg, l), packets[1..], l);
    }
  }

  /** Over any run at all: a lookup knows exactly what is registered, whenever it is live, if and only
      if every packet is honest with it. */
  lemma {:induction false} ExactRun(s: State, view: set<Server>, packets: seq<Packet>, l: Lookup)
    requires Invariant(s) && (l in s.lookups ==> Exact(s, l, view))
    ensures ExactAlong(s, view, packets, l) <==> HonestRun(s, packets, l)
    decreases |packets|
  {
    if packets != [] {
      var p := packets[0];
      var t, w := Handle(s, p.from, p.msg).state, Watch(s, view, p.from, p.msg, l);
      HandleKeepsInvariant(s, p.from, p.msg);
      WatchStep(s, view, p.from, p.msg, l);
      if Honest(s, p.from, p.msg, l) {
        ExactRun(t, w, packets[1..], l);
      }
    }
  }
}
