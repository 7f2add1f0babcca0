/** The whole effect of every control packet, spelled out: what becomes of each node's table and of the
    list of lookups, and every packet that is sent, with its receiver, its contents and its place. */
module Effects {
  import opened Options
  import opened Hash
  import opened SlotTable
  import opened NameService
  import opened Registry
  import opened LookupReplies

  ghost predicate Increasing(at: seq<nat>) { forall j, k :: 0 <= j < k < |at| ==> at[j] < at[k] }

  lemma IncreasingFirst(i: nat, at: seq<nat>)
    requires Increasing(at) && forall j :: 0 <= j < |at| ==> i < at[j]
    ensures Increasing([i] + at)
  {
    var more := [i] + at;
    forall j, k | 0 <= j < k < |more|
      ensures more[j] < more[k]
    {
      assert more[k] == at[k-1] && (j > 0 ==> more[j] == at[j-1]);
    }
  }

  // ----- Which nodes are known -----

  /** Afterwards there is a node record for id; every other node has one if it had one before. */
  ghost predicate Recorded(s: State, t: State, id: u32) {
    forall m: u32 :: Get(t.nodes, HashU32(m)).Some? <==> m == id || Get(s.nodes, HashU32(m)).Some?
  }

  /** The same for two nodes. */
  ghost predicate BothRecorded(s: State, t: State, id: u32, other: u32) {
    forall m: u32 :: Get(t.nodes, HashU32(m)).Some? <==> m == id || m == other || Get(s.nodes, HashU32(m)).Some?
  }

  lemma KnownIsRecorded(s: State, id: u32)
    requires Invariant(s)
    ensures Recorded(s, Known(s, id), id)
  {
    NodeGetRecord(s.nodes, id);
    WithNodeKeeps(s.nodes, id);
  }

  lemma UnregisterRecords(s: State, id: u32, port: u32)
    ensures forall m: u32 :: Get(Unregister(s, id, port).state.nodes, HashU32(m)).Some? <==>
                             Get(s.nodes, HashU32(m)).Some?
  {
    if Get(Services(s.nodes, id), HashU32(port)).Some? {
      forall m: u32 { ServicesAfterSet(s.nodes, id, Remove(Services(s.nodes, id), HashU32(port)), m); }
    }
  }

  lemma {:induction false} DrainRecords(s: State, id: u32, i: nat)
    ensures forall m: u32 :: Get(Drain(s, id, i).state.nodes, HashU32(m)).Some? <==> Get(s.nodes, HashU32(m)).Some?
    decreases |Services(s.nodes, id)| - i
  {
    var p := Next(Services(s.nodes, id), i);
    if p.Some? {
      var port := Services(s.nodes, id)[p.value].item.port;
      UnregisterRecords(s, id, port);
      UnregisterServices(s, id, port, id);
      DrainTakes(s, id, i, p.value);
      DrainRecords(Unregister(s, id, port).state, id, p.value + 1);
    }
  }

  // ----- Who is notified -----

  /** Service 0 asks for every service, instance 0 for every instance. */
  predicate Wanted(srv: Server, service: u32, instance: Instance) {
    (service == 0 || srv.service == service) && (instance == 0 || srv.instance == instance)
  }

  /** The positions, in list order, of the lookups that ask for srv. */
  ghost predicate Asking(lookups: seq<Lookup>, srv: Server, at: seq<nat>) {
    && Increasing(at)
    && (forall j :: 0 <= j < |at| ==>
          at[j] < |lookups| && Wanted(srv, lookups[at[j]].service, lookups[at[j]].instance))
    && forall i :: 0 <= i < |lookups| && Wanted(srv, lookups[i].service, lookups[i].instance) ==> i in at
  }

  /** One packet to the client of each of these lookups, in list order, and no other packet. */
  ghost predicate Notified(lookups: seq<Lookup>, srv: Server, msg: Msg, sent: seq<Sent>) {
    exists at ::
      && Asking(lookups, srv, at) && |sent| == |at|
      && forall j :: 0 <= j < |at| ==> sent[j] == Sent(lookups[at[j]].who, msg, Some(lookups[at[j]]))
  }

  lemma {:induction false} NoticesAt(lookups: seq<Lookup>, srv: Server, msg: Msg) returns (at: seq<nat>)
    ensures Asking(lookups, srv, at) && |Notices(lookups, srv, msg)| == |at|
    ensures forall j :: 0 <= j < |at| ==>
              Notices(lookups, srv, msg)[j] == Sent(lookups[at[j]].who, msg, Some(lookups[at[j]]))
  {
    at := [];
    if lookups != [] {
      var n := |lookups| - 1;
      at := NoticesAt(lookups[..n], srv, msg);
      if Matches(lookups[n], srv) {
        at := at + [n];
      }
    }
  }

  lemma NoticesNotify(lookups: seq<Lookup>, srv: Server, msg: Msg)
    ensures Notified(lookups, srv, msg, Notices(lookups, srv, msg))
  {
    var at := NoticesAt(lookups, srv, msg);
  }

  /** The packets that withdraw one record: to everybody if it is local, then to the lookups. */
  ghost predicate Withdrawn(local: u32, lookups: seq<Lookup>, srv: Server, sent: seq<Sent>) {
    if srv.node == local then
      && |sent| > 0 && sent[0] == Sent(Addr(0xffff_ffff, 0xffff_fffe), DelServer(srv), None)
      && Notified(lookups, srv, DelServer(srv), sent[1..])
    else Notified(lookups, srv, DelServer(srv), sent)
  }

  lemma RemovalWithdraws(s: State, srv: Server)
    ensures Withdrawn(s.local, s.lookups, srv, Removal(s, srv))
  {
    var notices := Notices(s.lookups, srv, DelServer(srv));
    NoticesNotify(s.lookups, srv, DelServer(srv));
    assert Removal(s, srv)[(if srv.node == s.local then 1 else 0)..] == notices;
  }

  /** The same for several records, one after the other. */
  ghost predicate AllWithdrawn(local: u32, lookups: seq<Lookup>, servers: seq<Server>, sent: seq<Sent>) {
    if servers == [] then sent == []
    else
      exists n :: 0 <= n <= |sent| && Withdrawn(local, lookups, servers[0], sent[..n])
                  && AllWithdrawn(local, lookups, servers[1..], sent[n..])
  }

  lemma {:induction false} RemovalsWithdraw(s: State, servers: seq<Server>)
    ensures AllWithdrawn(s.local, s.lookups, servers, Removals(s, servers))
  {
    if servers != [] {
      var sent, n := Removals(s, servers), |Removal(s, servers[0])|;
      RemovalWithdraws(s, servers[0]);
      RemovalsWithdraw(s, servers[1..]);
      assert sent[..n] == Removal(s, servers[0]) && sent[n..] == Removals(s, servers[1..]);
    }
  }

  // ----- The records of a table -----

  /** The occupied slots of a table, in order. */
  ghost predicate Occupied(services: Slots<Server>, at: seq<nat>) {
    && Increasing(at)
    && (forall j :: 0 <= j < |at| ==> at[j] < |services| && services[at[j]].Live?)
    && forall i :: 0 <= i < |services| && services[i].Live? ==> i in at
  }

  /** `at` lists the stored records of the table from slot i on, and q is what they hold. */
  ghost predicate Stored<T>(s: Slots<T>, i: nat, at: seq<nat>, q: seq<T>) {
    && Increasing(at) && |q| == |at|
    && (forall j :: 0 <= j < |at| ==> i <= at[j] < |s| && s[at[j]].Live? && q[j] == s[at[j]].item)
    && forall p :: i <= p < |s| && s[p].Live? ==> p in at
  }

  lemma OneMoreStored<T>(s: Slots<T>, i: nat, at: seq<nat>, q: seq<T>)
    requires i < |s| && s[i].Live? && Stored(s, i + 1, at, q)
    ensures Stored(s, i, [i] + at, [s[i].item] + q)
  {
    var more := [i] + at;
    assert more[0] == i && forall j :: 1 <= j < |more| ==> more[j] == at[j-1];
    IncreasingFirst(i, at);
    assert forall p :: p in more <==> p == i || p in at;
  }

  lemma {:induction false} ItemsAt<T>(s: Slots<T>, i: nat) returns (at: seq<nat>)
    ensures Stored(s, i, at, ItemsFrom(s, i))
    decreases |s| - i
  {
    at := [];
    if i < |s| {
      at := ItemsAt(s, i + 1);
      if s[i].Live? {
        OneMoreStored(s, i, at, ItemsFrom(s, i + 1));
        at := [i] + at;
      } else {
        assert [] + ItemsFrom(s, i + 1) == ItemsFrom(s, i + 1);
      }
    }
  }

  /** One packet to the own port of every record of the local table, in the order of its slots, and no
      other packet. */
  ghost predicate Told(local: u32, services: Slots<Server>, msg: Msg, sent: seq<Sent>) {
    exists at ::
      && Occupied(services, at) && |sent| == |at|
      && forall j :: 0 <= j < |at| ==> sent[j] == Sent(Addr(local, services[at[j]].item.port), msg, None)
  }

  lemma ForwardTells(s: State, msg: Msg)
    requires Invariant(s)
    ensures Told(s.local, Services(s.nodes, s.local), msg, Tell(s, msg).sent)
  {
    var services := Services(s.nodes, s.local);
    KnownKeeps(s, s.local);
    LocalRecords(s, services);
    var at := ItemsAt(services, 0);
    assert Occupied(services, at);
  }

  lemma LocalRecords(s: State, services: Slots<Server>)
    requires Invariant(s) && services == Services(s.nodes, s.local)
    ensures forall p :: 0 <= p < |services| && services[p].Live? ==> services[p].item.node == s.local
  {
    ServicesFiled(s.nodes, s.local);
    forall p | 0 <= p < |services| && services[p].Live?
      ensures services[p].item.node == s.local
    {
      assert FiledIn(s.local)(services[p].key, services[p].item);
    }
  }

  lemma TellKeeps(s: State, msg: Msg)
    requires Invariant(s)
    ensures Tell(s, msg).state.lookups == s.lookups && Tell(s, msg).state.local == s.local
    ensures forall m: u32 :: Services(Tell(s, msg).state.nodes, m) == Services(s.nodes, m)
  {
    KnownKeeps(s, s.local);
  }

  // ----- NEW_SERVER -----

  /** Node c.node answers c for its port; its table is the one before with c put, every other node's
      table and the lookups are as before. */
  ghost predicate Registers(s: State, c: Server, t: State) {
    && Get(Services(t.nodes, c.node), HashU32(c.port)) == Some(c)
    && Services(t.nodes, c.node) == Put(Services(s.nodes, c.node), HashU32(c.port), c)
    && (forall m: u32 :: m != c.node ==> Services(t.nodes, m) == Services(s.nodes, m))
    && t.lookups == s.lookups && t.local == s.local && Recorded(s, t, c.node)
  }

  lemma AcceptedRegisters(s: State, from: Addr, srv: Server)
    requires Invariant(s) && Accepted(s, from, srv)
    ensures Registers(s, Claimed(s, from, srv), OnNewServer(s, from, srv).state)
  {
    var c := Claimed(s, from, srv);
    RegisterKeeps(s, from, srv);
    ServicesFiled(s.nodes, c.node);
    PutAlways(Services(s.nodes, c.node), HashU32(c.port), c, FiledIn(c.node));
    RegistrationRecords(s, from, srv);
  }

  lemma RegistrationRecords(s: State, from: Addr, srv: Server)
    requires Invariant(s) && Accepted(s, from, srv)
    ensures Recorded(s, OnNewServer(s, from, srv).state, Claimed(s, from, srv).node)
  {
    var c := Claimed(s, from, srv);
    var nodes := WithNode(s.nodes, c.node);
    KnownIsRecorded(s, c.node);
    forall m: u32 { ServicesAfterSet(nodes, c.node, Put(Services(nodes, c.node), HashU32(c.port), c), m); }
  }

  /** A local service is registered under the address it sends from, whatever node and port it names:
      it is broadcast, and each lookup that asks for it is notified. Without a service or a port, or for
      another node, nothing happens at all. */
  lemma LocalRegistration(s: State, from: Addr, srv: Server)
    requires Invariant(s) && from.node == s.local
    ensures var r := Handle(s, from, NewServer(srv));
            if srv.service != 0 && from.port != 0 then
              var c := Server(srv.service, srv.instance, s.local, from.port);
              && Registers(s, c, r.state)
              && |r.sent| > 0 && r.sent[0] == Sent(Addr(0xffff_ffff, 0xffff_fffe), NewServer(c), None)
              && Notified(s.lookups, c, NewServer(c), r.sent[1..])
            else r == Step(s, [])
  {
    if srv.service != 0 && from.port != 0 {
      var c := Server(srv.service, srv.instance, s.local, from.port);
      assert Claimed(s, from, srv) == c;
      AcceptedRegisters(s, from, srv);
      NoticesNotify(s.lookups, c, NewServer(c));
      assert Handle(s, from, NewServer(srv)).sent[1..] == Notices(s.lookups, c, NewServer(c));
    }
  }

  /** A remote one is registered if and only if it is at the sender's node, and is not broadcast. */
  lemma RemoteRegistration(s: State, from: Addr, srv: Server)
    requires Invariant(s) && from.node != s.local
    ensures var r := Handle(s, from, NewServer(srv));
            if srv.node == from.node && srv.service != 0 && srv.port != 0 then
              Registers(s, srv, r.state) && Notified(s.lookups, srv, NewServer(srv), r.sent)
            else r == Step(s, [])
  {
    if srv.node == from.node && srv.service != 0 && srv.port != 0 {
      assert Claimed(s, from, srv) == srv;
      AcceptedRegisters(s, from, srv);
      NoticesNotify(s.lookups, srv, NewServer(srv));
      assert [] + Notices(s.lookups, srv, NewServer(srv)) == Notices(s.lookups, srv, NewServer(srv));
    }
  }

  // ----- DEL_SERVER -----

  /** The port's record is removed, if it has one, and withdrawn from the given lookups. */
  ghost predicate Removed(s: State, lookups: seq<Lookup>, id: u32, port: u32, t: State, sent: seq<Sent>) {
    && Services(t.nodes, id) == Remove(Services(s.nodes, id), HashU32(port))
    && (forall m: u32 :: m != id ==> Services(t.nodes, m) == Services(s.nodes, m))
    && t.lookups == lookups && t.local == s.local
    && var x := Get(Services(s.nodes, id), HashU32(port));
       if x.Some? then Withdrawn(s.local, lookups, x.value, sent) else sent == []
  }

  lemma UnregisterRemoves(s: State, t: State, id: u32, port: u32)
    requires Invariant(t) && t.local == s.local && forall m: u32 :: Services(t.nodes, m) == Services(s.nodes, m)
    ensures Removed(s, t.lookups, id, port, Unregister(t, id, port).state, Unregister(t, id, port).sent)
  {
    UnregisterKeeps(t, id, port);
    forall m: u32 { UnregisterServices(t, id, port, m); }
    var x := Get(Services(s.nodes, id), HashU32(port));
    if x.Some? {
      RemovalWithdraws(t, x.value);
    }
  }

  /** A local sender removes the service of its own port, whatever it names; a remote one that of the
      port it names, if it names its own node. Otherwise nothing happens. */
  lemma Deregistration(s: State, from: Addr, srv: Server)
    requires Invariant(s)
    ensures var r := Handle(s, from, DelServer(srv));
            && (from.node == s.local ==>
                  Removed(s, s.lookups, s.local, from.port, r.state, r.sent) && Recorded(s, r.state, s.local))
            && (from.node != s.local ==>
                  if srv.node == from.node then
                    Removed(s, s.lookups, srv.node, srv.port, r.state, r.sent) && Recorded(s, r.state, srv.node)
                  else r == Step(s, []))
  {
    var c := Claimed(s, from, srv);
    if from.node == c.node {
      KnownKeeps(s, c.node);
      KnownIsRecorded(s, c.node);
      UnregisterRecords(Known(s, c.node), c.node, c.port);
      UnregisterRemoves(s, Known(s, c.node), c.node, c.port);
    }
  }

  // ----- DEL_CLIENT and BYE -----

  /** What is left of the lookups, in their order, when those of one client are gone. */
  ghost predicate ClientLeft(lookups: seq<Lookup>, who: Addr, left: seq<Lookup>) {
    exists at ::
      && Increasing(at) && |left| == |at|
      && (forall j :: 0 <= j < |at| ==> at[j] < |lookups| && lookups[at[j]].who != who && left[j] == lookups[at[j]])
      && forall i :: 0 <= i < |lookups| && lookups[i].who != who ==> i in at
  }

  lemma {:induction false} WithoutClientAt(lookups: seq<Lookup>, who: Addr) returns (at: seq<nat>)
    ensures Increasing(at) && |WithoutClient(lookups, who)| == |at|
    ensures forall j :: 0 <= j < |at| ==>
              at[j] < |lookups| && lookups[at[j]].who != who && WithoutClient(lookups, who)[j] == lookups[at[j]]
    ensures forall i :: 0 <= i < |lookups| && lookups[i].who != who ==> i in at
  {
    at := [];
    if lookups != [] {
      var n := |lookups| - 1;
      at := WithoutClientAt(lookups[..n], who);
      if lookups[n].who != who {
        at := at + [n];
      }
    }
  }

  /** First the port's record is removed, then every local service that is left is told. */
  ghost predicate Closed(s: State, node: u32, port: u32, t: State, sent: seq<Sent>, n: nat) {
    && n <= |sent| && Removed(s, t.lookups, node, port, t, sent[..n])
    && Told(s.local, Services(t.nodes, s.local), DelClient(node, port), sent[n..])
  }

  /** The lookups of the client are dropped, the record of its port is removed and withdrawn from the
      lookups left, and every local service left is told; whoever speaks for another node, or locally
      for another port, is ignored. */
  lemma ClientCloses(s: State, from: Addr, node: u32, port: u32)
    requires Invariant(s)
    ensures var r := Handle(s, from, DelClient(node, port));
            if from.node != node || (node == s.local && from.port != port) then r == Step(s, [])
            else
              && ClientLeft(s.lookups, Addr(node, port), r.state.lookups)
              && BothRecorded(s, r.state, node, s.local)
              && exists n :: Closed(s, node, port, r.state, r.sent, n)
  {
    if from.node == node && (node == s.local ==> from.port == port) {
      var n := ClientGoneCloses(s, node, port);
      ClientGoneRecords(s, node, port);
      assert Handle(s, from, DelClient(node, port)) == Close(s, node, port);
    }
  }

  lemma ClientGoneRecords(s: State, node: u32, port: u32)
    requires Invariant(s)
    ensures BothRecorded(s, Close(s, node, port).state, node, s.local)
  {
    var t := ClientGone(s, node, port);
    ClientGoneKeeps(s, node, port);
    KnownIsRecorded(s, node);
    UnregisterKeeps(t, node, port);
    UnregisterRecords(t, node, port);
    KnownIsRecorded(Unregister(t, node, port).state, s.local);
  }

  lemma ThenParts(first: Step, second: Step)
    ensures Then(first, second).sent[..|first.sent|] == first.sent
    ensures Then(first, second).sent[|first.sent|..] == second.sent
  {
  }

  /** Telling the local services changes no table. */
  lemma RemovedStays(s: State, lookups: seq<Lookup>, id: u32, port: u32, t: State, u: State, sent: seq<Sent>)
    requires Removed(s, lookups, id, port, t, sent) && u.lookups == t.lookups && u.local == t.local
    requires forall m: u32 :: Services(u.nodes, m) == Services(t.nodes, m)
    ensures Removed(s, lookups, id, port, u, sent)
  {
  }

  lemma ClientGoneCloses(s: State, node: u32, port: u32) returns (n: nat)
    requires Invariant(s)
    ensures var r := Close(s, node, port);
            ClientLeft(s.lookups, Addr(node, port), r.state.lookups) && Closed(s, node, port, r.state, r.sent, n)
  {
    var t := ClientGone(s, node, port);
    var at := WithoutClientAt(s.lookups, Addr(node, port));
    ClientGoneKeeps(s, node, port);
    UnregisterKeeps(t, node, port);
    UnregisterRemoves(s, t, node, port);
    var first := Unregister(t, node, port);
    n := ToldOfClose(s, first, node, port);
  }

  lemma ToldOfClose(s: State, first: Step, node: u32, port: u32) returns (n: nat)
    requires Invariant(first.state) && Removed(s, first.state.lookups, node, port, first.state, first.sent)
    ensures var r := Then(first, Tell(first.state, DelClient(node, port)));
            r.state.lookups == first.state.lookups && Closed(s, node, port, r.state, r.sent, n)
  {
    var told := Tell(first.state, DelClient(node, port));
    ForwardTells(first.state, DelClient(node, port));
    TellKeeps(first.state, DelClient(node, port));
    ThenParts(first, told);
    RemovedStays(s, first.state.lookups, node, port, first.state, told.state, first.sent);
    n := |first.sent|;
  }

  /** BYE from a node: its table is swept, what is taken from it is withdrawn record by record, and then
      every local service left is told which node it was. */
  lemma NodeLeaves(s: State, from: Addr, msg: Msg)
    requires Invariant(s) && msg.Bye?
    ensures var r := Handle(s, from, msg);
            var services := Services(s.nodes, from.node);
            && Services(r.state.nodes, from.node) == Sweep(services, 0)
            && (forall m: u32 :: m != from.node ==> Services(r.state.nodes, m) == Services(s.nodes, m))
            && r.state.lookups == s.lookups && r.state.local == s.local
            && BothRecorded(s, r.state, from.node, s.local)
            && exists n :: 0 <= n <= |r.sent|
                 && AllWithdrawn(s.local, s.lookups, Taken(services, 0), r.sent[..n])
                 && Told(s.local, Services(r.state.nodes, s.local), Bye(from.node), r.sent[n..])
  {
    var t := Known(s, from.node);
    KnownKeeps(s, from.node);
    DrainKeeps(t, from.node, 0);
    DrainIsSweep(t, from.node, 0);
    DrainSends(t, from.node, 0);
    RemovalsWithdraw(t, Taken(Services(s.nodes, from.node), 0));
    var drained := Drain(t, from.node, 0);
    LeavingRecords(s, from.node, drained.state);
    ForwardTells(drained.state, Bye(from.node));
    TellKeeps(drained.state, Bye(from.node));
    var r, n := Handle(s, from, msg), |drained.sent|;
    assert r.sent[..n] == drained.sent && r.sent[n..] == Tell(drained.state, Bye(from.node)).sent;
  }

  lemma LeavingRecords(s: State, id: u32, drained: State)
    requires Invariant(s) && Invariant(drained) && drained == Drain(Known(s, id), id, 0).state
    ensures BothRecorded(s, Known(drained, s.local), id, s.local)
  {
    KnownIsRecorded(s, id);
    DrainRecords(Known(s, id), id, 0);
    KnownIsRecorded(drained, s.local);
  }

  // ----- HELLO -----

  /** HELLO goes back to its sender, then every local record in the order of its slots; nothing changes. */
  lemma HelloAnswered(s: State, from: Addr)
    requires Invariant(s)
    ensures var r := Handle(s, from, Hello);
            var services := Services(s.nodes, s.local);
            && (forall m: u32 :: Services(r.state.nodes, m) == Services(s.nodes, m))
            && r.state.lookups == s.lookups && r.state.local == s.local && Recorded(s, r.state, s.local)
            && exists at ::
                 && Occupied(services, at) && |r.sent| == 1 + |at| && r.sent[0] == Sent(from, Hello, None)
                 && forall j :: 0 <= j < |at| ==> r.sent[1 + j] == Sent(from, NewServer(services[at[j]].item), None)
  {
    WithNodeKeeps(s.nodes, s.local);
    KnownIsRecorded(s, s.local);
    var at := ItemsAt(Services(s.nodes, s.local), 0);
    assert Occupied(Services(s.nodes, s.local), at);
  }

  // ----- NEW_LOOKUP and DEL_LOOKUP -----

  /** Slot `slot` of the service table that the record in slot `node` of the node table holds. */
  datatype Place = Place(node: nat, slot: nat)

  predicate Occupies(nodes: Slots<Node>, a: Place) {
    && a.node < |nodes| && nodes[a.node].Live?
    && a.slot < |nodes[a.node].item.services| && nodes[a.node].item.services[a.slot].Live?
  }

  function RecordAt(nodes: Slots<Node>, a: Place): Server
    requires Occupies(nodes, a)
  {
    nodes[a.node].item.services[a.slot].item
  }

  predicate Before(a: Place, b: Place) { a.node < b.node || (a.node == b.node && a.slot < b.slot) }

  ghost predicate Ordered(at: seq<Place>) { forall j, k :: 0 <= j < k < |at| ==> Before(at[j], at[k]) }

  /** From node slot i on, `at` is where the wanted records are, node by node and slot by slot, and q
      is what they hold. */
  ghost predicate Answers(nodes: Slots<Node>, i: nat, service: u32, instance: Instance, at: seq<Place>, q: seq<Server>)
  {
    && Ordered(at) && |q| == |at|
    && (forall j :: 0 <= j < |at| ==>
          && i <= at[j].node && Occupies(nodes, at[j]) && q[j] == RecordAt(nodes, at[j])
          && Wanted(q[j], service, instance))
    && forall a: Place :: i <= a.node && Occupies(nodes, a) && Wanted(RecordAt(nodes, a), service, instance) ==> a in at
  }

  /** The same in one service table, from slot i on. */
  ghost predicate Chosen(services: Slots<Server>, i: nat, service: u32, instance: Instance, at: seq<nat>,
                         q: seq<Server>)
  {
    && Increasing(at) && |q| == |at|
    && (forall j :: 0 <= j < |at| ==>
          && i <= at[j] < |services| && services[at[j]].Live? && q[j] == services[at[j]].item
          && Wanted(q[j], service, instance))
    && forall p :: i <= p < |services| && services[p].Live? && Wanted(services[p].item, service, instance) ==> p in at
  }

  lemma OneMoreChosen(services: Slots<Server>, i: nat, service: u32, instance: Instance, at: seq<nat>, q: seq<Server>)
    requires i < |services| && services[i].Live? && Wanted(services[i].item, service, instance)
    requires Chosen(services, i + 1, service, instance, at, q)
    ensures Chosen(services, i, service, instance, [i] + at, [services[i].item] + q)
  {
    var more, all := [i] + at, [services[i].item] + q;
    forall j | 0 <= j < |more|
      ensures i <= more[j] < |services| && services[more[j]].Live? && all[j] == services[more[j]].item
      ensures Wanted(all[j], service, instance)
    {
      if j > 0 {
        assert more[j] == at[j-1] && all[j] == q[j-1];
      }
    }
    IncreasingFirst(i, at);
    assert forall p :: p in more <==> p == i || p in at;
  }

  lemma {:induction false} SelectAt(services: Slots<Server>, i: nat, service: u32, instance: Instance)
    returns (at: seq<nat>)
    ensures Chosen(services, i, service, instance, at, Select(ItemsFrom(services, i), Filter(service, instance, 0)))
    decreases |services| - i
  {
    at := [];
    if i < |services| {
      var q := Select(ItemsFrom(services, i + 1), Filter(service, instance, 0));
      at := SelectAt(services, i + 1, service, instance);
      SelectStep(services, i, Filter(service, instance, 0));
      if services[i].Live? {
        UnfilteredMatch(services[i].item.instance, instance);
      }
      if services[i].Live? && Wanted(services[i].item, service, instance) {
        OneMoreChosen(services, i, service, instance, at, q);
        at := [i] + at;
      } else {
        assert [] + q == q;
      }
    }
  }

  lemma {:induction false} QueryConcat(a: seq<Node>, b: seq<Node>, f: Filter)
    ensures Query(a + b, f) == Query(a, f) + Query(b, f)
    decreases |b|
  {
    if b == [] {
      assert a + b == a;
    } else {
      var n := |b| - 1;
      assert (a + b)[..|a + b| - 1] == a + b[..n];
      QueryConcat(a, b[..n], f);
      assert Query(a, f) + (Query(b[..n], f) + Select(Items(b[n].services), f)) ==
             Query(a, f) + Query(b[..n], f) + Select(Items(b[n].services), f);
    }
  }

  lemma QueryFirst(node: Node, rest: seq<Node>, f: Filter)
    ensures Query([node] + rest, f) == Select(Items(node.services), f) + Query(rest, f)
  {
    QueryConcat([node], rest, f);
    assert [node][..0] == [] && Query([node], f) == Query([], f) + Select(Items(node.services), f);
  }

  function InNode(i: nat, at: seq<nat>): (places: seq<Place>)
    ensures |places| == |at| && forall j :: 0 <= j < |at| ==> places[j] == Place(i, at[j])
  {
    seq(|at|, j requires 0 <= j < |at| => Place(i, at[j]))
  }

  lemma InNodeFirst(i: nat, first: seq<nat>, at: seq<Place>)
    requires Increasing(first) && Ordered(at) && forall j :: 0 <= j < |at| ==> i < at[j].node
    ensures Ordered(InNode(i, first) + at)
  {
    var own := InNode(i, first);
    var all := own + at;
    forall j, k | 0 <= j < k < |all|
      ensures Before(all[j], all[k])
    {
      if k < |own| {
        assert first[j] < first[k];
      } else if |own| <= j {
        assert all[j] == at[j-|own|] && all[k] == at[k-|own|];
      }
    }
  }

  /** The answers of one node record come before those of the later ones. */
  lemma OneMoreNode(nodes: Slots<Node>, i: nat, service: u32, instance: Instance, first: seq<nat>, q: seq<Server>,
                    at: seq<Place>, rest: seq<Server>)
    requires i < |nodes| && nodes[i].Live?
    requires Chosen(nodes[i].item.services, 0, service, instance, first, q)
    requires Answers(nodes, i + 1, service, instance, at, rest)
    ensures Answers(nodes, i, service, instance, InNode(i, first) + at, q + rest)
  {
    var own := InNode(i, first);
    var all, both := own + at, q + rest;
    InNodeFirst(i, first, at);
    forall j | 0 <= j < |all|
      ensures i <= all[j].node && Occupies(nodes, all[j]) && both[j] == RecordAt(nodes, all[j])
      ensures Wanted(both[j], service, instance)
    {
      if j < |own| {
        assert all[j] == Place(i, first[j]) && both[j] == q[j];
      } else {
        assert all[j] == at[j-|own|] && both[j] == rest[j-|own|];
      }
    }
    forall a: Place | i <= a.node && Occupies(nodes, a) && Wanted(RecordAt(nodes, a), service, instance)
      ensures a in all
    {
      if a.node == i {
        var j :| 0 <= j < |first| && first[j] == a.slot;
        assert all[j] == a;
      } else {
        var j :| 0 <= j < |at| && at[j] == a;
        assert all[|own| + j] == a;
      }
    }
  }

  lemma QueryNode(nodes: Slots<Node>, i: nat, service: u32, instance: Instance, at: seq<Place>, rest: seq<Server>)
    returns (all: seq<Place>)
    requires i < |nodes| && nodes[i].Live? && Answers(nodes, i + 1, service, instance, at, rest)
    ensures Answers(nodes, i, service, instance, all,
                    Select(Items(nodes[i].item.services), Filter(service, instance, 0)) + rest)
  {
    var services := nodes[i].item.services;
    var first := SelectAt(services, 0, service, instance);
    OneMoreNode(nodes, i, service, instance, first, Select(Items(services), Filter(service, instance, 0)), at, rest);
    all := InNode(i, first) + at;
  }

  lemma NoAnswers(nodes: Slots<Node>, i: nat, service: u32, instance: Instance, at: seq<Place>, q: seq<Server>)
    requires i < |nodes| && !nodes[i].Live? && Answers(nodes, i + 1, service, instance, at, q)
    ensures Answers(nodes, i, service, instance, at, q)
  {
    forall a: Place | i <= a.node && Occupies(nodes, a) && Wanted(RecordAt(nodes, a), service, instance)
      ensures a in at
    {
      assert a.node != i;
    }
  }

  lemma {:induction false} QueryAt(nodes: Slots<Node>, i: nat, service: u32, instance: Instance)
    returns (at: seq<Place>, q: seq<Server>)
    ensures q == Query(ItemsFrom(nodes, i), Filter(service, instance, 0))
    ensures Answers(nodes, i, service, instance, at, q)
    decreases |nodes| - i
  {
    at, q := [], [];
    if i < |nodes| {
      var rest := ItemsFrom(nodes, i + 1);
      at, q := QueryAt(nodes, i + 1, service, instance);
      if nodes[i].Live? {
        at := QueryNode(nodes, i, service, instance, at, q);
        QueryFirst(nodes[i].item, rest, Filter(service, instance, 0));
        q := Select(Items(nodes[i].item.services), Filter(service, instance, 0)) + q;
      } else {
        NoAnswers(nodes, i, service, instance, at, q);
        assert [] + rest == rest;
      }
    }
  }

  /** A local client's lookup joins the list at its end; every record it asks for is sent to it, node by
      node and slot by slot, and then the all-zero record. Anybody else's changes nothing. */
  lemma LookupAnswered(s: State, from: Addr, service: u32, instance: Instance)
    ensures var r := Handle(s, from, NewLookup(service, instance));
            var l := Lookup(service, instance, from);
            if from.node != s.local then r == Step(s, [])
            else
              && r.state == State(s.local, s.nodes, s.lookups + [l])
              && exists at, q ::
                   && Answers(s.nodes, 0, service, instance, at, q) && |r.sent| == |q| + 1
                   && (forall j :: 0 <= j < |q| ==> r.sent[j] == Sent(from, NewServer(q[j]), Some(l)))
                   && r.sent[|q|] == Sent(from, NewServer(Server(0, 0, 0, 0)), Some(l))
  {
    var at, q := QueryAt(s.nodes, 0, service, instance);
    assert Answers(s.nodes, 0, service, instance, at, q);
  }

  /** What is left of the lookups, in their order, when a client deletes its lookups for a service and
      an instance; one for any instance goes whatever instance is named. */
  ghost predicate LookupLeft(lookups: seq<Lookup>, from: Addr, service: u32, instance: Instance, left: seq<Lookup>) {
    exists at ::
      && Increasing(at) && |left| == |at|
      && (forall j :: 0 <= j < |at| ==>
            at[j] < |lookups| && Stays(lookups[at[j]], from, service, instance) && left[j] == lookups[at[j]])
      && forall i :: 0 <= i < |lookups| && Stays(lookups[i], from, service, instance) ==> i in at
  }

  predicate Stays(l: Lookup, from: Addr, service: u32, instance: Instance) {
    l.who != from || l.service != service || (l.instance != 0 && l.instance != instance)
  }

  lemma {:induction false} WithoutLookupAt(lookups: seq<Lookup>, from: Addr, service: u32, instance: Instance)
    returns (at: seq<nat>)
    ensures var left := WithoutLookup(lookups, from, service, instance);
            && Increasing(at) && |left| == |at|
            && (forall j :: 0 <= j < |at| ==>
                  at[j] < |lookups| && Stays(lookups[at[j]], from, service, instance) && left[j] == lookups[at[j]])
            && forall i :: 0 <= i < |lookups| && Stays(lookups[i], from, service, instance) ==> i in at
  {
    at := [];
    if lookups != [] {
      var n := |lookups| - 1;
      at := WithoutLookupAt(lookups[..n], from, service, instance);
      if Stays(lookups[n], from, service, instance) {
        at := at + [n];
      }
    }
  }

  /** DEL_LOOKUP only drops lookups, from anyone, and sends nothing. */
  lemma LookupsDropped(s: State, from: Addr, service: u32, instance: Instance)
    ensures var r := Handle(s, from, DelLookup(service, instance));
            && r.state.nodes == s.nodes && r.state.local == s.local && r.sent == []
            && LookupLeft(s.lookups, from, service, instance, r.state.lookups)
  {
    var at := WithoutLookupAt(s.lookups, from, service, instance);
  }

  // ----- Which lookups are live -----

  /** Its client gives the lookup up: it closes, or deletes a lookup of this service, and of this
      instance unless the lookup is for any. */
  predicate GivenUp(p: Packet, l: Lookup) {
    && p.from == l.who
    && match p.msg
       case DelClient(node, port) => node == l.who.node && port == l.who.port
       case DelLookup(service, instance) => service == l.service && (l.instance == 0 || instance == l.instance)
       case _ => false
  }

  /** Its client asks for it, locally. */
  predicate Asked(local: u32, p: Packet, l: Lookup) {
    p.from == l.who && l.who.node == local && p.msg == NewLookup(l.service, l.instance)
  }

  lemma {:induction false} ClientMultiplicity(lookups: seq<Lookup>, who: Addr, l: Lookup)
    ensures multiset(WithoutClient(lookups, who))[l] == if l.who == who then 0 else multiset(lookups)[l]
  {
    if lookups != [] {
      var n := |lookups| - 1;
      ClientMultiplicity(lookups[..n], who, l);
      assert lookups == lookups[..n] + [lookups[n]];
    }
  }

  lemma {:induction false} LookupMultiplicity(lookups: seq<Lookup>, from: Addr, service: u32, instance: Instance,
                                              l: Lookup)
    ensures multiset(WithoutLookup(lookups, from, service, instance))[l] ==
            if GivenUp(Packet(from, DelLookup(service, instance)), l) then 0 else multiset(lookups)[l]
  {
    if lookups != [] {
      var n := |lookups| - 1;
      LookupMultiplicity(lookups[..n], from, service, instance, l);
      assert lookups == lookups[..n] + [lookups[n]];
    }
  }

  lemma LocalOnly(s: State, l: Lookup)
    requires Invariant(s) && l.who.node != s.local
    ensures multiset(s.lookups)[l] == 0
  {
    assert l !in s.lookups;
  }

  /** How often a lookup is live after a packet: not at all if its client gives it up, once more if
      its client asks for it, and as often as before otherwise. */
  lemma LookupStep(s: State, p: Packet, l: Lookup)
    requires Invariant(s)
    ensures var t := Handle(s, p.from, p.msg).state;
            multiset(t.lookups)[l] ==
            if GivenUp(p, l) then 0 else multiset(s.lookups)[l] + if Asked(s.local, p, l) then 1 else 0
  {
    match p.msg
    case DelClient(node, port) => ClosedStep(s, p.from, node, port, l);
    case DelLookup(service, instance) => LookupMultiplicity(s.lookups, p.from, service, instance, l);
    case NewLookup(service, instance) => AskedStep(s, p.from, service, instance, l);
    case _ => LookupsKept(s, p.from, p.msg);
  }

  lemma ClosedStep(s: State, from: Addr, node: u32, port: u32, l: Lookup)
    requires Invariant(s)
    ensures var t := Handle(s, from, DelClient(node, port)).state;
            multiset(t.lookups)[l] ==
            if from == l.who == Addr(node, port) then 0 else multiset(s.lookups)[l]
  {
    LookupsClosed(s, from, node, port);
    ClientMultiplicity(s.lookups, Addr(node, port), l);
    if l.who.node != s.local {
      LocalOnly(s, l);
    }
  }

  lemma AskedStep(s: State, from: Addr, service: u32, instance: Instance, l: Lookup)
    ensures var t := Handle(s, from, NewLookup(service, instance)).state;
            multiset(t.lookups)[l] ==
            multiset(s.lookups)[l] + if from.node == s.local && l == Lookup(service, instance, from) then 1 else 0
  {
  }

  lemma LookupsClosed(s: State, from: Addr, node: u32, port: u32)
    requires Invariant(s)
    ensures var t := Handle(s, from, DelClient(node, port)).state;
            t.lookups == if from.node != node || (node == s.local && from.port != port) then s.lookups
                         else WithoutClient(s.lookups, Addr(node, port))
  {
    ClientGoneKeeps(s, node, port);
    UnregisterKeeps(ClientGone(s, node, port), node, port);
  }

  lemma LookupsKept(s: State, from: Addr, msg: Msg)
    requires Invariant(s) && !msg.NewLookup? && !msg.DelLookup? && !msg.DelClient?
    ensures Handle(s, from, msg).state.lookups == s.lookups
  {
    match msg
    case Bye(_) => NodeLeaves(s, from, msg);
    case DelServer(srv) => Deregistration(s, from, srv);
    case _ =>
  }

  /** How often l is live after the run if it was n times before. */
  function Live(n: nat, local: u32, packets: seq<Packet>, l: Lookup): nat
    decreases |packets|
  {
    if packets == [] then n
    else
      var p := packets[0];
      Live(if GivenUp(p, l) then 0 else n + if Asked(local, p, l) then 1 else 0, local, packets[1..], l)
  }

  /** Over any run a lookup is live as often as its client asked for it since it last gave it up. */
  lemma {:induction false} LookupRun(s: State, packets: seq<Packet>, l: Lookup)
    requires Invariant(s)
    ensures multiset(Serve(s, packets).lookups)[l] == Live(multiset(s.lookups)[l], s.local, packets, l)
    decreases |packets|
  {
    if packets != [] {
      var p := packets[0];
      HandleKeepsInvariant(s, p.from, p.msg);
      LookupStep(s, p, l);
      LookupRun(Handle(s, p.from, p.msg).state, packets[1..], l);
    }
  }

  /** A live lookup stays live, as often as it was or more, until its own client gives it up. */
  lemma {:induction false} LookupLives(s: State, packets: seq<Packet>, l: Lookup)
    requires Invariant(s) && forall i :: 0 <= i < |packets| ==> !GivenUp(packets[i], l)
    ensures multiset(Serve(s, packets).lookups)[l] >= multiset(s.lookups)[l]
    decreases |packets|
  {
    if packets != [] {
      var p := packets[0];
      HandleKeepsInvariant(s, p.from, p.msg);
      LookupStep(s, p, l);
      LookupLives(Handle(s, p.from, p.msg).state, packets[1..], l);
    }
  }
}
