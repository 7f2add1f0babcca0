/** What every control packet keeps, and what it does to each node's registry. */
module Registry {
  import opened Options
  import opened Hash
  import opened SlotTable
  import opened NameService

  // ----- The invariant of every run -----

  /** A server of node `id` is filed under its own port, and has a nonzero service and port. */
  function FiledIn(id: u32): (nat, Server) -> bool {
    (key: nat, srv: Server) => key == HashU32(srv.port) && srv.node == id && srv.service != 0 && srv.port != 0
  }

  ghost predicate Filed(id: u32, services: Slots<Server>) { NoGaps(services) && All(services, FiledIn(id)) }

  ghost predicate NodesOk(nodes: Slots<Node>) {
    && Valid(nodes)
    && forall k :: k in Abs(nodes) ==> k == HashU32(Abs(nodes)[k].id) && Filed(Abs(nodes)[k].id, Abs(nodes)[k].services)
  }

  ghost predicate Invariant(s: State) {
    && NodesOk(s.nodes)
    && forall i :: 0 <= i < |s.lookups| ==> s.lookups[i].who.node == s.local
  }

  /** Every service table is free of duplicate keys. */
  ghost predicate Tidy(s: State) { forall id: u32 :: Unique(Services(s.nodes, id)) }

  /** The servers registered for a node, by hashed port. */
  ghost function View(s: State, id: u32): map<nat, Server> { Abs(Services(s.nodes, id)) }

  lemma EmptyTable(id: u32)
    ensures Filed(id, []) && Unique<Server>([]) && Abs<Server>([]) == map[]
  {
    NothingStored<Server>([]);
  }

  lemma ServicesFiled(nodes: Slots<Node>, id: u32)
    requires NodesOk(nodes)
    ensures Filed(id, Services(nodes, id))
  {
    GetRefines(nodes, HashU32(id));
    EmptyTable(id);
    if HashU32(id) in Abs(nodes) {
      HashU32Injective(Abs(nodes)[HashU32(id)].id, id);
    }
  }

  /** node_get adds at most an empty record. */
  lemma WithNodeKeeps(nodes: Slots<Node>, id: u32)
    requires NodesOk(nodes)
    ensures NodesOk(WithNode(nodes, id)) && Get(WithNode(nodes, id), HashU32(id)).Some?
    ensures forall m: u32 :: Services(WithNode(nodes, id), m) == Services(nodes, m)
  {
    var h := HashU32(id);
    GetRefines(nodes, h);
    if Get(nodes, h).None? {
      var r := WithNode(nodes, id);
      PutRefines(nodes, h, Node(id, []));
      EmptyTable(id);
      forall m: u32
        ensures Services(r, m) == Services(nodes, m)
      {
        GetRefines(nodes, HashU32(m));
        GetRefines(r, HashU32(m));
      }
    }
  }

  lemma SetServicesKeeps(nodes: Slots<Node>, id: u32, services: Slots<Server>)
    requires NodesOk(nodes) && Get(nodes, HashU32(id)).Some? && Filed(id, services)
    ensures NodesOk(SetServices(nodes, id, services))
  {
    var p := Find(nodes, HashU32(id)).value;
    WriteThrough(nodes, p, Node(id, services));
  }

  /** There is one record per node id, however the table got there. */
  lemma OneRecordPerNode(nodes: Slots<Node>, p: nat, q: nat)
    requires NodesOk(nodes) && p < |nodes| && q < |nodes| && nodes[p].Live? && nodes[q].Live?
    requires nodes[p].item.id == nodes[q].item.id
    ensures p == q
  {
    SlotIsMapped(nodes, p);
    SlotIsMapped(nodes, q);
    if p != q {
      TwoCopies(nodes, p, q);
    }
  }

  /** The table has one record of node `id`, and this is it. */
  ghost predicate OnlyRecord(nodes: Slots<Node>, id: u32, node: Node) {
    exists p :: 0 <= p < |nodes| && nodes[p] == Live(HashU32(id), node) && node.id == id &&
      forall q :: 0 <= q < |nodes| && nodes[q].Live? && nodes[q].item.id == id ==> q == p
  }

  /** What node_get means to its callers: `node` is now the only record of `id`, the one there was if
      there was one and an empty one otherwise, and every other node is as before. */
  ghost predicate NodeGot(was: Slots<Node>, now: Slots<Node>, id: u32, node: Node) {
    && NodesOk(now) && OnlyRecord(now, id, node)
    && (if Get(was, HashU32(id)).Some? then now == was else node.services == [])
    && forall m: u32 :: m != id ==> Get(now, HashU32(m)) == Get(was, HashU32(m))
  }

  lemma NodeGetRecord(nodes: Slots<Node>, id: u32)
    requires NodesOk(nodes)
    ensures var mi := Get(nodes, HashU32(id));
            NodeGot(nodes, WithNode(nodes, id), id, if mi.Some? then mi.value else Node(id, []))
  {
    var h, r := HashU32(id), WithNode(nodes, id);
    WithNodeKeeps(nodes, id);
    GetRefines(nodes, h);
    if Get(nodes, h).None? {
      PutRefines(nodes, h, Node(id, []));
    }
    GetRefines(r, h);
    var p := Find(r, h).value;
    HashU32Injective(Abs(r)[h].id, id);
    forall q | 0 <= q < |r| && r[q].Live? && r[q].item.id == id
      ensures q == p
    {
      OneRecordPerNode(r, p, q);
    }
    assert r[p] == Live(h, Get(r, h).value);
    forall m: u32 | m != id
      ensures Get(r, HashU32(m)) == Get(nodes, HashU32(m))
    {
      GetRefines(r, HashU32(m));
      GetRefines(nodes, HashU32(m));
      if HashU32(m) == h {
        HashU32Injective(m, id);
      }
    }
  }

  lemma RemoveFiled(id: u32, services: Slots<Server>, key: nat)
    requires Filed(id, services)
    ensures Filed(id, Remove(services, key))
  {
    RemovePops(services, key);
  }

  lemma UnregisterKeeps(s: State, id: u32, port: u32)
    requires Invariant(s)
    ensures Invariant(Unregister(s, id, port).state)
    ensures Unregister(s, id, port).state.lookups == s.lookups && Unregister(s, id, port).state.local == s.local
  {
    var services := Services(s.nodes, id);
    if Get(services, HashU32(port)).Some? {
      ServicesFiled(s.nodes, id);
      RemoveFiled(id, services, HashU32(port));
      SetServicesKeeps(s.nodes, id, Remove(services, HashU32(port)));
    }
  }

  lemma {:induction false} DrainKeeps(s: State, id: u32, i: nat)
    requires Invariant(s)
    ensures Invariant(Drain(s, id, i).state)
    ensures Drain(s, id, i).state.lookups == s.lookups && Drain(s, id, i).state.local == s.local
    ensures forall m: u32 :: m != id ==> Services(Drain(s, id, i).state.nodes, m) == Services(s.nodes, m)
    decreases |Services(s.nodes, id)| - i
  {
    var services := Services(s.nodes, id);
    var p := Next(services, i);
    if p.Some? {
      var port := services[p.value].item.port;
      UnregisterKeeps(s, id, port);
      forall m: u32 { UnregisterServices(s, id, port, m); }
      DrainKeeps(Unregister(s, id, port).state, id, p.value + 1);
    }
  }

  lemma {:induction false} WithoutClientKeeps(lookups: seq<Lookup>, who: Addr)
    ensures forall l :: l in WithoutClient(lookups, who) <==> l in lookups && l.who != who
  {
    if lookups != [] {
      var n := |lookups| - 1;
      WithoutClientKeeps(lookups[..n], who);
      assert lookups == lookups[..n] + [lookups[n]];
    }
  }

  lemma {:induction false} WithoutLookupKeeps(lookups: seq<Lookup>, from: Addr, service: u32, instance: Instance)
    ensures forall l :: l in WithoutLookup(lookups, from, service, instance) <==>
            l in lookups && !Dropped(l, from, service, instance)
  {
    if lookups != [] {
      var n := |lookups| - 1;
      WithoutLookupKeeps(lookups[..n], from, service, instance);
      assert lookups == lookups[..n] + [lookups[n]];
    }
  }

  lemma PutFiled(id: u32, services: Slots<Server>, srv: Server)
    requires Filed(id, services) && srv.node == id && srv.service != 0 && srv.port != 0
    ensures Filed(id, Put(services, HashU32(srv.port), srv))
  {
    PutAlways(services, HashU32(srv.port), srv, FiledIn(id));
  }

  lemma RegisterKeeps(s: State, from: Addr, srv: Server)
    requires Invariant(s)
    ensures Invariant(OnNewServer(s, from, srv).state)
    ensures forall m: u32 :: Services(OnNewServer(s, from, srv).state.nodes, m) ==
                             var c := Claimed(s, from, srv);
                             if Accepted(s, from, srv) && m == c.node then Put(Services(s.nodes, m), HashU32(c.port), c)
                             else Services(s.nodes, m)
  {
    if Accepted(s, from, srv) {
      var c := Claimed(s, from, srv);
      WithNodeKeeps(s.nodes, c.node);
      ServicesFiled(s.nodes, c.node);
      PutFiled(c.node, Services(s.nodes, c.node), c);
      var nodes := WithNode(s.nodes, c.node);
      var services := Put(Services(nodes, c.node), HashU32(c.port), c);
      SetServicesKeeps(nodes, c.node, services);
      forall m: u32 { ServicesAfterSet(nodes, c.node, services, m); }
    }
  }

  lemma KnownKeeps(s: State, id: u32)
    requires Invariant(s)
    ensures Invariant(Known(s, id))
    ensures forall m: u32 :: Services(Known(s, id).nodes, m) == Services(s.nodes, m)
  {
    WithNodeKeeps(s.nodes, id);
  }

  lemma ClientGoneKeeps(s: State, node: u32, port: u32)
    requires Invariant(s)
    ensures Invariant(ClientGone(s, node, port))
    ensures forall m: u32 :: Services(ClientGone(s, node, port).nodes, m) == Services(s.nodes, m)
  {
    WithNodeKeeps(s.nodes, node);
    WithoutClientKeeps(s.lookups, Addr(node, port));
    var lookups := ClientGone(s, node, port).lookups;
    forall i | 0 <= i < |lookups|
      ensures lookups[i].who.node == s.local
    {
      assert lookups[i] in s.lookups;
    }
  }

  lemma DelLookupKeeps(s: State, from: Addr, service: u32, instance: Instance)
    requires Invariant(s)
    ensures Invariant(OnDelLookup(s, from, service, instance).state)
  {
    WithoutLookupKeeps(s.lookups, from, service, instance);
    var lookups := WithoutLookup(s.lookups, from, service, instance);
    forall i | 0 <= i < |lookups|
      ensures lookups[i].who.node == s.local
    {
      assert lookups[i] in s.lookups;
    }
  }

  /** The service table of node m after a packet. */
  function ServicesStep(s: State, m: u32, from: Addr, msg: Msg): Slots<Server> {
    var services := Services(s.nodes, m);
    match msg
    case NewServer(srv) =>
      var c := Claimed(s, from, srv);
      if Accepted(s, from, srv) && c.node == m then Put(services, HashU32(c.port), c) else services
    case DelServer(srv) =>
      var c := Claimed(s, from, srv);
      if from.node == c.node == m then Remove(services, HashU32(c.port)) else services
    case DelClient(node, port) =>
      if MayClose(s, from, node, port) && node == m then Remove(services, HashU32(port)) else services
    case Bye(_) => if from.node == m then Services(Drain(Known(s, m), m, 0).state.nodes, m) else services
    case _ => services
  }

  lemma ByeServices(s: State, from: Addr)
    requires Invariant(s)
    ensures Invariant(OnBye(s, from).state) && OnBye(s, from).state.local == s.local
    ensures forall m: u32 :: Services(OnBye(s, from).state.nodes, m) == ServicesStep(s, m, from, Bye(from.node))
  {
    KnownKeeps(s, from.node);
    DrainKeeps(Known(s, from.node), from.node, 0);
    WithNodeKeeps(Drain(Known(s, from.node), from.node, 0).state.nodes, s.local);
  }

  lemma DelClientServices(s: State, from: Addr, node: u32, port: u32)
    requires Invariant(s)
    ensures Invariant(OnDelClient(s, from, node, port).state) && OnDelClient(s, from, node, port).state.local == s.local
    ensures forall m: u32 ::
              Services(OnDelClient(s, from, node, port).state.nodes, m) ==
              ServicesStep(s, m, from, DelClient(node, port))
  {
    if MayClose(s, from, node, port) {
      var t := ClientGone(s, node, port);
      ClientGoneKeeps(s, node, port);
      UnregisterKeeps(t, node, port);
      forall m: u32 { UnregisterServices(t, node, port, m); }
      WithNodeKeeps(Unregister(t, node, port).state.nodes, s.local);
    }
  }

  lemma DelServerServices(s: State, from: Addr, srv: Server)
    requires Invariant(s)
    ensures Invariant(OnDelServer(s, from, srv).state) && OnDelServer(s, from, srv).state.local == s.local
    ensures forall m: u32 ::
              Services(OnDelServer(s, from, srv).state.nodes, m) == ServicesStep(s, m, from, DelServer(srv))
  {
    var c := Claimed(s, from, srv);
    if from.node == c.node {
      KnownKeeps(s, c.node);
      UnregisterKeeps(Known(s, c.node), c.node, c.port);
      forall m: u32 { UnregisterServices(Known(s, c.node), c.node, c.port, m); }
    }
  }

  /** Every control packet, from anyone, keeps the invariant. */
  lemma HandleKeepsInvariant(s: State, from: Addr, msg: Msg)
    requires Invariant(s)
    ensures Invariant(Handle(s, from, msg).state) && Handle(s, from, msg).state.local == s.local
    ensures forall m: u32 :: Services(Handle(s, from, msg).state.nodes, m) == ServicesStep(s, m, from, msg)
  {
    match msg
    case Hello => WithNodeKeeps(s.nodes, s.local);
    case Bye(_) => ByeServices(s, from);
    case DelClient(node, port) => DelClientServices(s, from, node, port);
    case NewServer(srv) => RegisterKeeps(s, from, srv);
    case DelServer(srv) => DelServerServices(s, from, srv);
    case NewLookup(_, _) =>
    case DelLookup(service, instance) => DelLookupKeeps(s, from, service, instance);
    case Other =>
  }

  /** A packet from one node leaves the entries of every other node alone. */
  lemma PacketChangesOnlyItsNode(s: State, from: Addr, msg: Msg, m: u32)
    requires Invariant(s) && m != from.node
    ensures Services(Handle(s, from, msg).state.nodes, m) == Services(s.nodes, m)
  {
    HandleKeepsInvariant(s, from, msg);
  }

  // ----- Draining a node -----

  /** The packets sent when the given servers are removed one after the other. */
  function Removals(s: State, servers: seq<Server>): seq<Sent> {
    if servers == [] then [] else Removal(s, servers[0]) + Removals(s, servers[1..])
  }

  /** One round of the loop: the entry met at p is removed by its key. */
  lemma DrainOnce(s: State, id: u32, i: nat) returns (p: nat, t: State)
    requires Invariant(s) && Next(Services(s.nodes, id), i).Some?
    ensures var services := Services(s.nodes, id);
            && Next(services, i) == Some(p) && Get(services, services[p].key).Some?
            && Invariant(t) && t.local == s.local && t.lookups == s.lookups
            && Services(t.nodes, id) == Remove(services, services[p].key)
            && Drain(s, id, i).state == Drain(t, id, p + 1).state
            && Drain(s, id, i).sent == Removal(s, Get(services, services[p].key).value) + Drain(t, id, p + 1).sent
  {
    var services := Services(s.nodes, id);
    p := Next(services, i).value;
    ServicesFiled(s.nodes, id);
    assert FiledIn(id)(services[p].key, services[p].item);
    FirstFound(services, p);
    var port := services[p].item.port;
    t := Unregister(s, id, port).state;
    UnregisterServices(s, id, port, id);
    UnregisterKeeps(s, id, port);
    DrainTakes(s, id, i, p);
  }

  /** The loop sends the packets of what it removes. */
  lemma {:induction false} DrainSends(s: State, id: u32, i: nat)
    requires Invariant(s)
    ensures Drain(s, id, i).sent == Removals(s, Taken(Services(s.nodes, id), i))
    decreases |Services(s.nodes, id)| - i
  {
    var services := Services(s.nodes, id);
    if Next(services, i).Some? {
      var p, t := DrainOnce(s, id, i);
      DrainSends(t, id, p + 1);
      var x, rest := Get(services, services[p].key).value, Taken(Services(t.nodes, id), p + 1);
      TakenFirst(services, i, p);
      RemovalsOf(s, t, rest);
      RemovalsFirst(s, x, rest);
      assert Taken(services, i) == [x] + rest;
    }
  }

  lemma RemovalsFirst(s: State, srv: Server, rest: seq<Server>)
    ensures Removals(s, [srv] + rest) == Removal(s, srv) + Removals(s, rest)
  {
    assert ([srv] + rest)[1..] == rest;
  }

  /** What is removed are records of the node. */
  lemma TakenOfNode(s: State, id: u32, x: Server)
    requires Invariant(s) && x in Taken(Services(s.nodes, id), 0)
    ensures x.node == id && x != END
  {
    var services := Services(s.nodes, id);
    ServicesFiled(s.nodes, id);
    TakenStored(services, 0, x);
    var p :| 0 <= p < |services| && services[p].Live? && services[p].item == x;
    assert FiledIn(id)(services[p].key, services[p].item);
  }

  /** On the node's table the loop is the one that removes by key under its own iterator. */
  lemma {:induction false} DrainIsSweep(s: State, id: u32, i: nat)
    requires Invariant(s)
    ensures Services(Drain(s, id, i).state.nodes, id) == Sweep(Services(s.nodes, id), i)
    decreases |Services(s.nodes, id)| - i
  {
    if Next(Services(s.nodes, id), i).Some? {
      var p, t := DrainOnce(s, id, i);
      DrainIsSweep(t, id, p + 1);
    }
  }

  /** The BYE loop deletes under its own iterator. It leaves nothing behind if and only if no port
      has a record on both sides of its home slot; it then visits every record exactly once, in
      table order. */
  lemma DrainVisitsAll(s: State, id: u32)
    requires Invariant(s)
    ensures Bare(Services(Drain(s, id, 0).state.nodes, id)) <==> !Split(Services(s.nodes, id))
    ensures !Split(Services(s.nodes, id)) ==> Drain(s, id, 0).sent == Removals(s, Items(Services(s.nodes, id)))
  {
    ServicesFiled(s.nodes, id);
    DrainIsSweep(s, id, 0);
    SweepEmpties(Services(s.nodes, id));
    DrainSends(s, id, 0);
    if !Split(Services(s.nodes, id)) {
      TakenUnsplit(Services(s.nodes, id), 0);
    }
  }

  lemma {:induction false} RemovalsOf(s: State, t: State, servers: seq<Server>)
    requires s.local == t.local && s.lookups == t.lookups
    ensures Removals(s, servers) == Removals(t, servers)
  {
    if servers != [] {
      RemovalsOf(s, t, servers[1..]);
    }
  }

  // ----- The effect of a packet on each node's registry -----

  /** The packet does not register a live port behind a tombstone of its table. */
  predicate Clean(s: State, from: Addr, msg: Msg) {
    msg.NewServer? && Accepted(s, from, msg.server) ==>
      var c := Claimed(s, from, msg.server);
      !Behind(Services(s.nodes, c.node), HashU32(c.port))
  }

  function Without(m: map<nat, Server>, port: u32): map<nat, Server> { m - {HashU32(port)} }

  /** What the packet makes of a registry `v` of node `id`. */
  function ViewStep(s: State, v: map<nat, Server>, id: u32, from: Addr, msg: Msg): map<nat, Server> {
    match msg
    case NewServer(srv) =>
      var c := Claimed(s, from, srv);
      if Accepted(s, from, srv) && c.node == id then v[HashU32(c.port) := c] else v
    case DelServer(srv) =>
      var c := Claimed(s, from, srv);
      if from.node == c.node == id then Without(v, c.port) else v
    case DelClient(node, port) =>
      if MayClose(s, from, node, port) && node == id then Without(v, port) else v
    case Bye(_) => if from.node == id then map[] else v
    case _ => v
  }

  lemma StepView(s: State, from: Addr, msg: Msg, m: u32)
    requires Invariant(s) && Tidy(s)
    ensures Unique(ServicesStep(s, m, from, msg)) <==>
            Clean(s, from, msg) || (msg.NewServer? && Claimed(s, from, msg.server).node != m)
    ensures Unique(ServicesStep(s, m, from, msg)) ==>
              Abs(ServicesStep(s, m, from, msg)) == ViewStep(s, View(s, m), m, from, msg)
  {
    var services := Services(s.nodes, m);
    ServicesFiled(s.nodes, m);
    match msg
    case NewServer(srv) =>
      var c := Claimed(s, from, srv);
      PutRefines(services, HashU32(c.port), c);
    case DelServer(srv) => RemoveRefines(services, HashU32(Claimed(s, from, srv).port));
    case DelClient(_, port) => RemoveRefines(services, HashU32(port));
    case Bye(_) =>
      if from.node == m {
        KnownKeeps(s, m);
        DrainVisitsAll(Known(s, m), m);
        UniqueNotSplit(services);
        NothingStored(ServicesStep(s, m, from, msg));
      }
    case _ =>
  }

  /** A clean packet changes each node's registry as `ViewStep` says; an unclean one leaves duplicates. */
  lemma HandleViews(s: State, from: Addr, msg: Msg)
    requires Invariant(s) && Tidy(s)
    ensures Tidy(Handle(s, from, msg).state) <==> Clean(s, from, msg)
    ensures Clean(s, from, msg) ==>
              forall m: u32 :: View(Handle(s, from, msg).state, m) == ViewStep(s, View(s, m), m, from, msg)
  {
    HandleKeepsInvariant(s, from, msg);
    forall m: u32 { StepView(s, from, msg, m); }
    if !Clean(s, from, msg) {
      StepView(s, from, msg, Claimed(s, from, msg.server).node);
    }
  }

  /** What an unclean registration costs: once the server is deleted again, the one it had replaced is back. */
  lemma UncleanServerSurvives(s: State, from: Addr, srv: Server)
    requires Invariant(s) && Tidy(s) && !Clean(s, from, NewServer(srv))
    ensures var c := Claimed(s, from, srv);
            var t := Handle(Handle(s, from, NewServer(srv)).state, from, DelServer(srv)).state;
            && HashU32(c.port) in View(s, c.node)
            && Get(Services(t.nodes, c.node), HashU32(c.port)) == Some(View(s, c.node)[HashU32(c.port)])
  {
    var c := Claimed(s, from, srv);
    HandleKeepsInvariant(s, from, NewServer(srv));
    HandleKeepsInvariant(Handle(s, from, NewServer(srv)).state, from, DelServer(srv));
    ServicesFiled(s.nodes, c.node);
    StaleCopySurvivesRemove(Services(s.nodes, c.node), HashU32(c.port), c);
  }

  // ----- What a packet does to the answers, duplicates or not -----

  /** The packet changes every node's answers as `ViewStep` says: a table that grows is settled but
      for the port put, a port that is deleted has one record, and no record of a node that says BYE
      is split. */
  ghost predicate Tame(s: State, from: Addr, msg: Msg) {
    var services := Services(s.nodes, from.node);
    match msg
    case NewServer(srv) =>
      Accepted(s, from, srv) && Full(services) ==> SettledBut(services, HashU32(Claimed(s, from, srv).port))
    case DelServer(srv) =>
      var c := Claimed(s, from, srv);
      c.node == from.node ==> |Stack(services, HashU32(c.port))| <= 1
    case DelClient(node, port) => MayClose(s, from, node, port) ==> |Stack(services, HashU32(port))| <= 1
    case Bye(_) => !Split(services)
    case _ => true
  }

  lemma BareIsEmpty(services: Slots<Server>)
    ensures Bare(services) <==> Abs(services) == map[]
  {
    if Bare(services) {
      NothingStored(services);
    } else {
      var p :| 0 <= p < |services| && services[p].Live?;
      assert Has(services, services[p].key);
      assert services[p].key in Abs(services);
    }
  }

  lemma ByeAnswers(s: State, from: Addr)
    requires Invariant(s)
    ensures View(OnBye(s, from).state, from.node) == map[] <==> !Split(Services(s.nodes, from.node))
  {
    var m := from.node;
    HandleKeepsInvariant(s, from, Bye(m));
    KnownKeeps(s, m);
    DrainVisitsAll(Known(s, m), m);
    BareIsEmpty(Services(Drain(Known(s, m), m, 0).state.nodes, m));
  }

  /** The answers of the sender's own node change as `ViewStep` says exactly when the packet is tame. */
  lemma StepAnswers(s: State, from: Addr, msg: Msg)
    requires Invariant(s)
    ensures View(Handle(s, from, msg).state, from.node) == ViewStep(s, View(s, from.node), from.node, from, msg) <==>
            Tame(s, from, msg)
  {
    var services := Services(s.nodes, from.node);
    HandleKeepsInvariant(s, from, msg);
    ServicesFiled(s.nodes, from.node);
    match msg
    case NewServer(srv) =>
      var c := Claimed(s, from, srv);
      PutAnswers(services, HashU32(c.port), c);
    case DelServer(srv) => RemoveAnswers(services, HashU32(Claimed(s, from, srv).port));
    case DelClient(_, port) => RemoveAnswers(services, HashU32(port));
    case Bye(_) => ByeAnswers(s, from);
    case _ =>
  }

  /** In every state of the invariant, with duplicates or without: every node answers after a packet
      as its registry, updated by the packet, would, if and only if the packet is tame. */
  lemma HandleAnswers(s: State, from: Addr, msg: Msg)
    requires Invariant(s)
    ensures (forall m: u32 :: View(Handle(s, from, msg).state, m) == ViewStep(s, View(s, m), m, from, msg)) <==>
            Tame(s, from, msg)
  {
    StepAnswers(s, from, msg);
    forall m: u32 | m != from.node
      ensures View(Handle(s, from, msg).state, m) == ViewStep(s, View(s, m), m, from, msg)
    {
      PacketChangesOnlyItsNode(s, from, msg, m);
    }
  }

  // ----- Single answers -----

  /** What is left of a key when it is removed once. */
  function Second(services: Slots<Server>, k: nat): Option<Server> {
    if |Stack(services, k)| <= 1 then None else Some(Stack(services, k)[1])
  }

  /** What node from.node answers for k after the packet, read off its table before it. */
  function Answer(s: State, from: Addr, msg: Msg, k: nat): Option<Server> {
    var services := Services(s.nodes, from.node);
    match msg
    case NewServer(srv) =>
      var c := Claimed(s, from, srv);
      if !Accepted(s, from, srv) then Get(services, k)
      else if k == HashU32(c.port) then Some(c)
      else if Full(services) then LastFrom(services, 0, k)
      else Get(services, k)
    case DelServer(srv) =>
      var c := Claimed(s, from, srv);
      if c.node == from.node && k == HashU32(c.port) then Second(services, k) else Get(services, k)
    case DelClient(node, port) =>
      if MayClose(s, from, node, port) && k == HashU32(port) then Second(services, k) else Get(services, k)
    case Bye(_) => Get(Sweep(services, 0), k)
    case _ => Get(services, k)
  }

  lemma AnswerIs(s: State, from: Addr, msg: Msg, k: nat)
    requires Invariant(s)
    ensures Get(Services(Handle(s, from, msg).state.nodes, from.node), k) == Answer(s, from, msg, k)
  {
    var services := Services(s.nodes, from.node);
    HandleKeepsInvariant(s, from, msg);
    ServicesFiled(s.nodes, from.node);
    match msg
    case NewServer(srv) => PutAnswer(services, HashU32(Claimed(s, from, srv).port), Claimed(s, from, srv), k);
    case DelServer(srv) => RemoveAnswer(services, HashU32(Claimed(s, from, srv).port), k);
    case DelClient(_, port) => RemoveAnswer(services, HashU32(port), k);
    case Bye(_) =>
      KnownKeeps(s, from.node);
      DrainIsSweep(Known(s, from.node), from.node, 0);
    case _ =>
  }

  function Look(v: map<nat, Server>, k: nat): Option<Server> { if k in v then Some(v[k]) else None }

  /** The packet does to the answer for k what it says. */
  ghost predicate Heeded(s: State, from: Addr, msg: Msg, k: nat) {
    Answer(s, from, msg, k) == Look(ViewStep(s, View(s, from.node), from.node, from, msg), k)
  }

  lemma SameLooks(v: map<nat, Server>, w: map<nat, Server>)
    requires forall k: nat :: Look(v, k) == Look(w, k)
    ensures v == w
  {
    forall k: nat
      ensures (k in v <==> k in w) && (k in v ==> v[k] == w[k])
    {
      assert Look(v, k) == Look(w, k);
    }
  }

  /** A packet is tame when every answer heeds it. */
  lemma TameIsHeeded(s: State, from: Addr, msg: Msg)
    requires Invariant(s)
    ensures Tame(s, from, msg) <==> forall k: nat :: Heeded(s, from, msg, k)
  {
    var v, w := View(Handle(s, from, msg).state, from.node), ViewStep(s, View(s, from.node), from.node, from, msg);
    HandleKeepsInvariant(s, from, msg);
    StepAnswers(s, from, msg);
    forall k: nat
      ensures Look(v, k) == Answer(s, from, msg, k)
    {
      AnswerIs(s, from, msg, k);
      ServicesFiled(Handle(s, from, msg).state.nodes, from.node);
      GetRefines(Services(Handle(s, from, msg).state.nodes, from.node), k);
    }
    if forall k: nat :: Heeded(s, from, msg, k) {
      forall k: nat
        ensures Look(v, k) == Look(w, k)
      {
        assert Heeded(s, from, msg, k);
      }
      SameLooks(v, w);
    }
  }

  lemma UniqueNotSplit(services: Slots<Server>)
    requires Unique(services)
    ensures !Split(services)
  {
    if b, a :| SplitAt(services, b, a) {
      TwoCopies(services, b, a);
    }
  }

  /** Without duplicates every packet is tame. */
  lemma TidyIsTame(s: State, from: Addr, msg: Msg)
    requires Invariant(s) && Tidy(s)
    ensures Tame(s, from, msg)
  {
    var services := Services(s.nodes, from.node);
    ServicesFiled(s.nodes, from.node);
    UniqueIsSettled(services);
    UniqueNotSplit(services);
    match msg
    case DelServer(srv) => assert |Stack(services, HashU32(Claimed(s, from, srv).port))| <= 1;
    case DelClient(_, port) => assert |Stack(services, HashU32(port))| <= 1;
    case _ =>
  }

  /** A local packet other than BYE changes what is answered for another local port if and only if it
      makes the table grow and the port's record at the highest index is not the one found first. */
  lemma LocalPacketChangesOnlyItsPort(s: State, from: Addr, msg: Msg, port: u32)
    requires Invariant(s) && from.node == s.local && !msg.Bye? && port != from.port
    ensures var services, h := Services(s.nodes, s.local), HashU32(port);
            Get(Services(Handle(s, from, msg).state.nodes, s.local), h) == Get(services, h) <==>
            (msg.NewServer? && Accepted(s, from, msg.server) && Full(services) ==>
             LastFrom(services, 0, h) == Get(services, h))
  {
    var services, h := Services(s.nodes, s.local), HashU32(port);
    HandleKeepsInvariant(s, from, msg);
    ServicesFiled(s.nodes, s.local);
    if h == HashU32(from.port) {
      HashU32Injective(port, from.port);
    }
    match msg
    case NewServer(srv) => PutAnswer(services, HashU32(from.port), Claimed(s, from, srv), h);
    case DelServer(_) => RemoveAnswer(services, HashU32(from.port), h);
    case DelClient(_, _) => RemoveAnswer(services, HashU32(from.port), h);
    case _ =>
  }

  // ----- Whole runs -----

  datatype Packet = Packet(from: Addr, msg: Msg)

  function Serve(s: State, packets: seq<Packet>): State
    decreases |packets|
  {
    if packets == [] then s else Serve(Handle(s, packets[0].from, packets[0].msg).state, packets[1..])
  }

  predicate CleanServe(s: State, packets: seq<Packet>)
    decreases |packets|
  {
    packets == [] ||
    (Clean(s, packets[0].from, packets[0].msg) && CleanServe(Handle(s, packets[0].from, packets[0].msg).state,
                                                             packets[1..]))
  }

  ghost predicate TameServe(s: State, packets: seq<Packet>)
    decreases |packets|
  {
    packets == [] ||
    (Tame(s, packets[0].from, packets[0].msg) && TameServe(Handle(s, packets[0].from, packets[0].msg).state,
                                                           packets[1..]))
  }

  /** The invariant holds after any run from a fresh name server; after a clean run no service
      table holds a key twice. */
  lemma {:induction false} RunKeeps(s: State, packets: seq<Packet>)
    requires Invariant(s)
    ensures Invariant(Serve(s, packets)) && Serve(s, packets).local == s.local
    ensures Tidy(s) && CleanServe(s, packets) ==> Tidy(Serve(s, packets))
    decreases |packets|
  {
    if packets != [] {
      var p := packets[0];
      HandleKeepsInvariant(s, p.from, p.msg);
      if Tidy(s) {
        HandleViews(s, p.from, p.msg);
      }
      RunKeeps(Handle(s, p.from, p.msg).state, packets[1..]);
    }
  }

  lemma FreshServer(local: u32)
    ensures Invariant(State(local, [], [])) && Tidy(State(local, [], []))
  {
    NothingStored<Node>([]);
    forall id: u32
      ensures Unique(Services([], id))
    {
      EmptyTable(id);
    }
  }

  /** Over any run, whatever a table answers for a port is a server of that node and port with a
      nonzero service, and every lookup is local. */
  lemma RegistryOverRuns(local: u32, packets: seq<Packet>, id: u32, port: u32)
    ensures var s := Serve(State(local, [], []), packets);
            && (forall i :: 0 <= i < |s.lookups| ==> s.lookups[i].who.node == local)
            && var srv := Get(Services(s.nodes, id), HashU32(port));
               srv.Some? ==> srv.value.node == id && srv.value.port == port && srv.value.service != 0 && port != 0
  {
    FreshServer(local);
    RunKeeps(State(local, [], []), packets);
    var s := Serve(State(local, [], []), packets);
    ServicesFiled(s.nodes, id);
    var srv := Get(Services(s.nodes, id), HashU32(port));
    if srv.Some? {
      assert FiledIn(id)(HashU32(port), srv.value);
      HashU32Injective(srv.value.port, port);
    }
  }
}
