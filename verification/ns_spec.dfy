/** src/ns.c as a transition function: what one control packet does to the registry and the
    lookups, and which packets it sends. `NameServer.Context` is proved to compute it. */
module NameService {
  import opened Options
  import opened Hash
  import opened SlotTable

  type Instance = bv32

  const CTRL: u32 := 0xffff_fffe
  const BROADCAST: Addr := Addr(0xffff_ffff, CTRL)

  datatype Addr = Addr(node: u32, port: u32)

  /** struct server, and the record NEW_SERVER and DEL_SERVER packets carry. */
  datatype Server = Server(service: u32, instance: Instance, node: u32, port: u32)

  /** The record that ends a lookup reply. */
  const END: Server := Server(0, 0, 0, 0)

  datatype Lookup = Lookup(service: u32, instance: Instance, who: Addr)

  datatype Filter = Filter(service: u32, instance: Instance, ifilter: Instance)

  datatype Node = Node(id: u32, services: Slots<Server>)

  datatype Msg =
    | Hello
    | Bye(node: u32)
    | DelClient(node: u32, port: u32)
    | NewServer(server: Server)
    | DelServer(server: Server)
    | NewLookup(service: u32, instance: Instance)
    | DelLookup(service: u32, instance: Instance)
    | Other  // EXIT, PING, RESUME_TX, unknown commands and short packets

  /** A packet handed to sendto; `about` records the lookup it was sent for. */
  datatype Sent = Sent(to: Addr, msg: Msg, about: Option<Lookup>)

  datatype State = State(local: u32, nodes: Slots<Node>, lookups: seq<Lookup>)

  datatype Step = Step(state: State, sent: seq<Sent>)

  // ----- Nodes and their service tables -----

  /** node_get: the table with a record for `id`, created when absent. */
  function WithNode(nodes: Slots<Node>, id: u32): Slots<Node> {
    if Get(nodes, HashU32(id)).Some? then nodes else Put(nodes, HashU32(id), Node(id, []))
  }

  /** The service table of a node; empty when the node has no record. */
  function Services(nodes: Slots<Node>, id: u32): Slots<Server> {
    var n := Get(nodes, HashU32(id));
    if n.Some? then n.value.services else []
  }

  /** Writing through the record node_get returned. */
  function SetServices(nodes: Slots<Node>, id: u32, services: Slots<Server>): Slots<Node> {
    var p := Find(nodes, HashU32(id));
    if p.None? then nodes else nodes[p.value := Live(HashU32(id), Node(id, services))]
  }

  lemma ServicesAfterSet(nodes: Slots<Node>, id: u32, services: Slots<Server>, m: u32)
    requires Get(nodes, HashU32(id)).Some?
    ensures Services(SetServices(nodes, id, services), m) == if m == id then services else Services(nodes, m)
    ensures Get(SetServices(nodes, id, services), HashU32(m)).Some? <==> Get(nodes, HashU32(m)).Some?
  {
    var p := Find(nodes, HashU32(id)).value;
    FindStays(nodes, p, Node(id, services), HashU32(m), 0);
    if HashU32(m) == HashU32(id) {
      HashU32Injective(m, id);
    }
  }

  // ----- Matching -----

  /** The instance test of server_match: an instance without a filter must match in every bit. */
  predicate InstanceMatch(i: Instance, want: Instance, ifilter: Instance) {
    i & (if ifilter == 0 && want != 0 then 0xffff_ffff else ifilter) == want
  }

  /** server_match */
  predicate ServerMatch(srv: Server, f: Filter) {
    !(f.service != 0 && srv.service != f.service) && InstanceMatch(srv.instance, f.instance, f.ifilter)
  }

  /** The test the notification loops of server_del and NEW_SERVER apply to each lookup. */
  predicate Matches(l: Lookup, srv: Server) {
    && (l.service == 0 || l.service == srv.service)
    && (l.instance == 0 || l.instance == srv.instance)
  }

  lemma Masks(i: Instance)
    ensures i & 0 == 0
    ensures i & 0xffff_ffff == i
  {
  }

  lemma UnfilteredMatch(i: Instance, want: Instance)
    ensures InstanceMatch(i, want, 0) <==> want == 0 || want == i
  {
    Masks(i);
    if want == 0 {
      assert i & 0 == want;
    } else {
      assert InstanceMatch(i, want, 0) <==> i & 0xffff_ffff == want;
    }
  }

  /** The initial query of a lookup selects the servers the later notifications do. */
  lemma QueryAgreesWithNotifications(l: Lookup, srv: Server)
    ensures ServerMatch(srv, Filter(l.service, l.instance, 0)) <==> Matches(l, srv)
  {
    UnfilteredMatch(srv.instance, l.instance);
  }

  /** One packet per matching lookup, in list order. */
  function Notices(lookups: seq<Lookup>, srv: Server, msg: Msg): seq<Sent> {
    if lookups == [] then []
    else
      var l := lookups[|lookups|-1];
      Notices(lookups[..|lookups|-1], srv, msg) + if Matches(l, srv) then [Sent(l.who, msg, Some(l))] else []
  }

  /** One packet to each server of a node, in table order. */
  function Forward(servers: seq<Server>, msg: Msg): seq<Sent> {
    seq(|servers|, i requires 0 <= i < |servers| => Sent(Addr(servers[i].node, servers[i].port), msg, None))
  }

  lemma ForwardOneMore(servers: seq<Server>, srv: Server, msg: Msg, to: Addr, about: Option<Lookup>)
    ensures Forward(servers + [srv], msg) == Forward(servers, msg) + [Sent(Addr(srv.node, srv.port), msg, None)]
    ensures Announce(servers + [srv], to, about) == Announce(servers, to, about) + [Sent(to, NewServer(srv), about)]
  {
  }

  function Announce(servers: seq<Server>, to: Addr, about: Option<Lookup>): seq<Sent> {
    seq(|servers|, i requires 0 <= i < |servers| => Sent(to, NewServer(servers[i]), about))
  }

  // ----- Registration -----

  /** The packets server_del sends for a server it removed. */
  function Removal(s: State, srv: Server): seq<Sent> {
    (if srv.node == s.local then [Sent(BROADCAST, DelServer(srv), None)] else [])
    + Notices(s.lookups, srv, DelServer(srv))
  }

  /** server_del on the record of node `id`. */
  function Unregister(s: State, id: u32, port: u32): Step {
    var services := Services(s.nodes, id);
    var srv := Get(services, HashU32(port));
    if srv.None? then Step(s, [])
    else Step(s.(nodes := SetServices(s.nodes, id, Remove(services, HashU32(port)))), Removal(s, srv.value))
  }

  lemma UnregisterServices(s: State, id: u32, port: u32, m: u32)
    ensures Services(Unregister(s, id, port).state.nodes, m) ==
            if m == id then Remove(Services(s.nodes, id), HashU32(port)) else Services(s.nodes, m)
  {
    if Get(Services(s.nodes, id), HashU32(port)).Some? {
      ServicesAfterSet(s.nodes, id, Remove(Services(s.nodes, id), HashU32(port)), m);
    }
  }

  /** The loop of ctrl_cmd_bye over a node's services from slot i on, deleting as it goes. */
  function Drain(s: State, id: u32, i: nat): Step
    decreases |Services(s.nodes, id)| - i
  {
    var services := Services(s.nodes, id);
    var p := Next(services, i);
    if p.None? then Step(s, [])
    else
      var first := Unregister(s, id, services[p.value].item.port);
      UnregisterServices(s, id, services[p.value].item.port, id);
      Then(first, Drain(first.state, id, p.value + 1))
  }

  /** After `sent`, draining node `id` from slot i on completes `goal`. */
  ghost predicate Remaining(s: State, id: u32, i: nat, sent: seq<Sent>, goal: Step) {
    Drain(s, id, i).state == goal.state && sent + Drain(s, id, i).sent == goal.sent
  }

  lemma DrainStart(s: State, id: u32)
    ensures Remaining(s, id, 0, [], Drain(s, id, 0))
  {
    assert [] + Drain(s, id, 0).sent == Drain(s, id, 0).sent;
  }

  lemma DrainRound(s: State, id: u32, i: nat, p: nat, sent: seq<Sent>, goal: Step)
    requires Remaining(s, id, i, sent, goal) && Next(Services(s.nodes, id), i) == Some(p)
    ensures var first := Unregister(s, id, Services(s.nodes, id)[p].item.port);
            && |Services(first.state.nodes, id)| == |Services(s.nodes, id)|
            && Remaining(first.state, id, p + 1, sent + first.sent, goal)
  {
    var first := Unregister(s, id, Services(s.nodes, id)[p].item.port);
    var rest := Drain(first.state, id, p + 1);
    UnregisterServices(s, id, Services(s.nodes, id)[p].item.port, id);
    DrainTakes(s, id, i, p);
    assert sent + (first.sent + rest.sent) == (sent + first.sent) + rest.sent;
  }

  lemma DrainTakes(s: State, id: u32, i: nat, p: nat)
    requires Next(Services(s.nodes, id), i) == Some(p)
    ensures var first := Unregister(s, id, Services(s.nodes, id)[p].item.port);
            Drain(s, id, i) == Then(first, Drain(first.state, id, p + 1))
  {
  }

  lemma DrainDone(s: State, id: u32, i: nat, sent: seq<Sent>, goal: Step)
    requires Remaining(s, id, i, sent, goal) && Next(Services(s.nodes, id), i).None?
    ensures s == goal.state && sent == goal.sent
  {
  }

  // ----- The packet handlers -----

  function OnHello(s: State, from: Addr, msg: Msg): Step {
    var nodes := WithNode(s.nodes, s.local);
    Step(s.(nodes := nodes), [Sent(from, msg, None)] + Announce(Items(Services(nodes, s.local)), from, None))
  }

  function Known(s: State, id: u32): State { s.(nodes := WithNode(s.nodes, id)) }

  /** The end of BYE and DEL_CLIENT: every server of the local node is told. */
  function Tell(s: State, msg: Msg): Step {
    var t := Known(s, s.local);
    Step(t, Forward(Items(Services(t.nodes, s.local)), msg))
  }

  function Then(first: Step, second: Step): Step { Step(second.state, first.sent + second.sent) }

  function OnBye(s: State, from: Addr): Step {
    var drained := Drain(Known(s, from.node), from.node, 0);
    Then(drained, Tell(drained.state, Bye(from.node)))
  }

  function WithoutClient(lookups: seq<Lookup>, who: Addr): seq<Lookup> {
    if lookups == [] then []
    else
      var l := lookups[|lookups|-1];
      WithoutClient(lookups[..|lookups|-1], who) + if l.who == who then [] else [l]
  }

  /** DEL_CLIENT is refused when it speaks for another node, or for another local port. */
  predicate MayClose(s: State, from: Addr, node: u32, port: u32) {
    from.node == node && (from.node == s.local ==> from.port == port)
  }

  function ClientGone(s: State, node: u32, port: u32): State {
    s.(lookups := WithoutClient(s.lookups, Addr(node, port)), nodes := WithNode(s.nodes, node))
  }

  function Close(s: State, node: u32, port: u32): Step {
    var deleted := Unregister(ClientGone(s, node, port), node, port);
    Then(deleted, Tell(deleted.state, DelClient(node, port)))
  }

  function OnDelClient(s: State, from: Addr, node: u32, port: u32): Step {
    if !MayClose(s, from, node, port) then Step(s, []) else Close(s, node, port)
  }

  /** Local servers are registered under the address the packet came from. */
  function Claimed(s: State, from: Addr, srv: Server): Server {
    if from.node == s.local then srv.(node := from.node, port := from.port) else srv
  }

  /** NEW_SERVER is refused when it speaks for another node or names service or port 0. */
  predicate Accepted(s: State, from: Addr, srv: Server) {
    var c := Claimed(s, from, srv);
    from.node == c.node && c.service != 0 && c.port != 0
  }

  function OnNewServer(s: State, from: Addr, srv: Server): Step {
    if !Accepted(s, from, srv) then Step(s, [])
    else
      var c := Claimed(s, from, srv);
      var nodes := WithNode(s.nodes, c.node);
      var services := Put(Services(nodes, c.node), HashU32(c.port), c);
      Step(s.(nodes := SetServices(nodes, c.node, services)),
           (if c.node == s.local then [Sent(BROADCAST, NewServer(c), None)] else [])
             + Notices(s.lookups, c, NewServer(c)))
  }

  function OnDelServer(s: State, from: Addr, srv: Server): Step {
    var c := Claimed(s, from, srv);
    if from.node != c.node then Step(s, [])
    else Unregister(Known(s, c.node), c.node, c.port)
  }

  function Select(servers: seq<Server>, f: Filter): seq<Server> {
    if servers == [] then []
    else
      var srv := servers[|servers|-1];
      Select(servers[..|servers|-1], f) + if ServerMatch(srv, f) then [srv] else []
  }

  /** server_query: the nested walk over all nodes and their services. */
  function Query(nodes: seq<Node>, f: Filter): seq<Server> {
    if nodes == [] then []
    else Query(nodes[..|nodes|-1], f) + Select(Items(nodes[|nodes|-1].services), f)
  }

  function OnNewLookup(s: State, from: Addr, service: u32, instance: Instance): Step {
    if from.node != s.local then Step(s, [])
    else
      var l := Lookup(service, instance, from);
      Step(s.(lookups := s.lookups + [l]),
           Announce(Query(Items(s.nodes), Filter(service, instance, 0)) + [END], from, Some(l)))
  }

  /** DEL_LOOKUP's test; a lookup for instance 0 goes whatever instance is named. */
  predicate Dropped(l: Lookup, from: Addr, service: u32, instance: Instance) {
    l.who == from && l.service == service && (l.instance == 0 || l.instance == instance)
  }

  function WithoutLookup(lookups: seq<Lookup>, from: Addr, service: u32, instance: Instance): seq<Lookup> {
    if lookups == [] then []
    else
      var l := lookups[|lookups|-1];
      WithoutLookup(lookups[..|lookups|-1], from, service, instance) + if Dropped(l, from, service, instance) then []
        else [l]
  }

  function OnDelLookup(s: State, from: Addr, service: u32, instance: Instance): Step {
    Step(s.(lookups := WithoutLookup(s.lookups, from, service, instance)), [])
  }

  /** The dispatch of ctrl_port_fn. */
  function Handle(s: State, from: Addr, msg: Msg): Step {
    match msg
    case Hello => OnHello(s, from, msg)
    case Bye(_) => OnBye(s, from)
    case DelClient(node, port) => OnDelClient(s, from, node, port)
    case NewServer(srv) => OnNewServer(s, from, srv)
    case DelServer(srv) => OnDelServer(s, from, srv)
    case NewLookup(service, instance) => OnNewLookup(s, from, service, instance)
    case DelLookup(service, instance) => OnDelLookup(s, from, service, instance)
    case Other => Step(s, [])
  }
}
