/** The name server's handlers over mutable state, loop by loop, proved to compute `NameService.Handle`. */
module NameServer {
  import opened Options
  import opened Hash
  import opened SlotTable
  import opened NameService

  class Context {
    const local: u32
    var nodes: Slots<Node>
    var lookups: seq<Lookup>
    /** Everything passed to sendto so far. */
    var outbox: seq<Sent>

    constructor (address: u32)
      ensures local == address && Now() == State(address, [], []) && outbox == []
    {
      local := address;
      nodes, lookups, outbox := [], [], [];
    }

    function Now(): State
      reads this
    {
      State(local, nodes, lookups)
    }

    /** From `was` and `sent` packets, this is where the given step leads. */
    ghost predicate Took(step: Step, sent: seq<Sent>)
      reads this
    {
      Now() == step.state && outbox == sent + step.sent
    }

    /** node_get; `Registry.NodeGetRecord` says what it means to a caller. */
    method NodeGet(id: u32)
      modifies this`nodes
      ensures nodes == WithNode(old(nodes), id)
    {
      var mi := Get(nodes, HashU32(id));
      if mi.None? {
        nodes := Put(nodes, HashU32(id), Node(id, []));
      }
    }

    /** The list_for_each loops that notify the matching lookups. */
    method Notify(srv: Server, msg: Msg)
      modifies this`outbox
      ensures outbox == old(outbox) + Notices(lookups, srv, msg)
    {
      var i := 0;
      while i < |lookups|
        invariant 0 <= i <= |lookups|
        invariant outbox == old(outbox) + Notices(lookups[..i], srv, msg)
      {
        var l := lookups[i];
        assert lookups[..i+1][..i] == lookups[..i];
        if !(l.service != 0 && l.service != srv.service) && !(l.instance != 0 && l.instance != srv.instance) {
          outbox := outbox + [Sent(l.who, msg, Some(l))];
        }
        i := i + 1;
      }
      assert lookups[..i] == lookups;
    }

    /** The map_for_each loops that forward a packet to every local server. */
    method ForwardToLocals(msg: Msg)
      modifies this`outbox
      ensures outbox == old(outbox) + Forward(Items(Services(nodes, local)), msg)
    {
      var services := Services(nodes, local);
      ghost var done, at := [], 0;
      var me := Next(services, 0);
      while me.Some?
        invariant me == Next(services, at) && done + ItemsFrom(services, at) == Items(services)
        invariant outbox == old(outbox) + Forward(done, msg)
        decreases if me.Some? then |services| - me.value else -1
      {
        var srv := services[me.value].item;
        WalkStep(services, at, done);
        ForwardOneMore(done, srv, msg, BROADCAST, None);
        outbox := outbox + [Sent(Addr(srv.node, srv.port), msg, None)];
        done, at := done + [srv], me.value + 1;
        me := Next(services, me.value + 1);
      }
      WalkStep(services, at, done);
    }

    /** The local node is looked up first. */
    method TellLocals(msg: Msg)
      modifies this`nodes, this`outbox
      ensures Took(Tell(old(Now()), msg), old(outbox))
    {
      NodeGet(local);
      ForwardToLocals(msg);
    }

    /** annouce_servers */
    method AnnounceServers(to: Addr)
      modifies this`nodes, this`outbox
      ensures nodes == WithNode(old(nodes), local)
      ensures outbox == old(outbox) + Announce(Items(Services(nodes, local)), to, None)
    {
      NodeGet(local);
      var services := Services(nodes, local);
      ghost var done, at := [], 0;
      var me := Next(services, 0);
      while me.Some?
        invariant me == Next(services, at) && done + ItemsFrom(services, at) == Items(services)
        invariant nodes == WithNode(old(nodes), local) && outbox == old(outbox) + Announce(done, to, None)
        decreases if me.Some? then |services| - me.value else -1
      {
        var srv := services[me.value].item;
        WalkStep(services, at, done);
        ForwardOneMore(done, srv, Hello, to, None);
        outbox := outbox + [Sent(to, NewServer(srv), None)];
        done, at := done + [srv], me.value + 1;
        me := Next(services, me.value + 1);
      }
      WalkStep(services, at, done);
    }

    /** server_add: whether the server was registered. */
    method ServerAdd(srv: Server) returns (added: bool)
      modifies this`nodes
      ensures added <==> srv.service != 0 && srv.port != 0
      ensures !added ==> nodes == old(nodes)
      ensures added ==>
                var known := WithNode(old(nodes), srv.node);
                nodes == SetServices(known, srv.node, Put(Services(known, srv.node), HashU32(srv.port), srv))
    {
      if srv.service == 0 || srv.port == 0 {
        return false;
      }
      NodeGet(srv.node);
      nodes := SetServices(nodes, srv.node, Put(Services(nodes, srv.node), HashU32(srv.port), srv));
      return true;
    }

    /** server_del on the record of node `id` */
    method ServerDel(id: u32, port: u32)
      modifies this
      ensures Took(Unregister(old(Now()), id, port), old(outbox))
    {
      var services := Services(nodes, id);
      var mi := Get(services, HashU32(port));
      if mi.None? {
        return;
      }
      var srv := mi.value;
      nodes := SetServices(nodes, id, Remove(services, HashU32(port)));
      if srv.node == local {
        outbox := outbox + [Sent(BROADCAST, DelServer(srv), None)];
      }
      Notify(srv, DelServer(srv));
    }

    /** ctrl_cmd_hello */
    method OnHello(from: Addr, msg: Msg)
      modifies this
      ensures Took(NameService.OnHello(old(Now()), from, msg), old(outbox))
    {
      outbox := outbox + [Sent(from, msg, None)];
      AnnounceServers(from);
    }

    /** The first loop of ctrl_cmd_bye, which deletes the entry its iterator stands on. */
    method DrainNode(id: u32)
      modifies this
      ensures Took(Drain(old(Now()), id, 0), old(outbox))
    {
      ghost var at, sent, goal := 0, [], Drain(Now(), id, 0);
      ghost var size := |Services(nodes, id)|;
      DrainStart(Now(), id);
      var me := Next(Services(nodes, id), 0);
      while me.Some?
        invariant me == Next(Services(nodes, id), at) && |Services(nodes, id)| == size
        invariant outbox == old(outbox) + sent
        invariant Remaining(Now(), id, at, sent, goal)
        decreases size - at
      {
        ghost var was := outbox;
        ghost var more := DrainEntry(id, me.value, at, sent, goal);
        assert outbox == old(outbox) + (sent + more) by { assert was == old(outbox) + sent; }
        at, sent := me.value + 1, sent + more;
        me := Next(Services(nodes, id), me.value + 1);
      }
      DrainDone(Now(), id, at, sent, goal);
    }

    /** One round of that loop */
    method DrainEntry(id: u32, me: nat, ghost at: nat, ghost sent: seq<Sent>, ghost goal: Step)
        returns (ghost more: seq<Sent>)
      requires Remaining(Now(), id, at, sent, goal) && Next(Services(nodes, id), at) == Some(me)
      modifies this
      ensures Remaining(Now(), id, me + 1, sent + more, goal) && outbox == old(outbox) + more
      ensures |Services(nodes, id)| == old(|Services(nodes, id)|)
    {
      DrainRound(Now(), id, at, me, sent, goal);
      var port := Services(nodes, id)[me].item.port;
      more := Unregister(Now(), id, port).sent;
      ServerDel(id, port);
    }

    /** ctrl_cmd_bye */
    method OnBye(from: Addr)
      modifies this
      ensures Took(NameService.OnBye(old(Now()), from), old(outbox))
    {
      NodeGet(from.node);
      DrainNode(from.node);
      TellLocals(Bye(from.node));
    }

    /** The list_for_each_safe loop of ctrl_cmd_del_client */
    method DropClient(node: u32, port: u32)
      modifies this`lookups
      ensures lookups == WithoutClient(old(lookups), Addr(node, port))
    {
      var all, i := lookups, 0;
      lookups := [];
      while i < |all|
        invariant 0 <= i <= |all|
        invariant lookups == WithoutClient(all[..i], Addr(node, port))
      {
        assert all[..i+1][..i] == all[..i];
        if all[i].who.node != node || all[i].who.port != port {
          lookups := lookups + [all[i]];
        }
        i := i + 1;
      }
      assert all[..i] == all;
    }

    /** ctrl_cmd_del_client once the sender is accepted */
    method CloseClient(node: u32, port: u32)
      modifies this
      ensures Took(Close(old(Now()), node, port), old(outbox))
    {
      DropClient(node, port);
      NodeGet(node);
      ghost var gone := ClientGone(old(Now()), node, port);
      assert Now() == gone;
      ServerDel(node, port);
      ghost var deleted := Unregister(gone, node, port);
      assert Now() == deleted.state;
      TellLocals(DelClient(node, port));
      ghost var told := Tell(deleted.state, DelClient(node, port));
      assert old(outbox) + (deleted.sent + told.sent) == old(outbox) + deleted.sent + told.sent;
    }

    /** ctrl_cmd_del_client */
    method OnDelClient(from: Addr, node: u32, port: u32)
      modifies this
      ensures Took(NameService.OnDelClient(old(Now()), from, node, port), old(outbox))
    {
      if from.node != node {
        return;
      }
      if from.node == local && from.port != port {
        return;
      }
      CloseClient(node, port);
    }

    /** ctrl_cmd_new_server */
    method OnNewServer(from: Addr, srv: Server)
      modifies this
      ensures Took(NameService.OnNewServer(old(Now()), from, srv), old(outbox))
    {
      var c := srv;
      if from.node == local {
        c := c.(node := from.node, port := from.port);
      }
      if from.node != c.node {
        return;
      }
      var added := ServerAdd(c);
      if !added {
        return;
      }
      if c.node == local {
        outbox := outbox + [Sent(BROADCAST, NewServer(c), None)];
      }
      Notify(c, NewServer(c));
    }

    /** ctrl_cmd_del_server */
    method OnDelServer(from: Addr, srv: Server)
      modifies this
      ensures Took(NameService.OnDelServer(old(Now()), from, srv), old(outbox))
    {
      var node, port := srv.node, srv.port;
      if from.node == local {
        node, port := from.node, from.port;
      }
      if from.node != node {
        return;
      }
      if from.node == local && from.port != port {
        return;
      }
      NodeGet(node);
      ServerDel(node, port);
    }

    /** The inner loop of server_query */
    method QueryNode(services: Slots<Server>, f: Filter) returns (found: seq<Server>)
      ensures found == Select(Items(services), f)
    {
      found := [];
      var servers, k := Items(services), 0;
      while k < |servers|
        invariant 0 <= k <= |servers|
        invariant found == Select(servers[..k], f)
      {
        assert servers[..k+1][..k] == servers[..k];
        if ServerMatch(servers[k], f) {
          found := found + [servers[k]];
        }
        k := k + 1;
      }
      assert servers[..k] == servers;
    }

    /** server_query */
    method QueryServers(f: Filter) returns (found: seq<Server>)
      ensures found == Query(Items(nodes), f)
    {
      found := [];
      var all, i := Items(nodes), 0;
      while i < |all|
        invariant 0 <= i <= |all|
        invariant found == Query(all[..i], f)
      {
        assert all[..i+1][..i] == all[..i];
        var more := QueryNode(all[i].services, f);
        assert Query(all[..i+1], f) == Query(all[..i], f) + more;
        found := found + more;
        i := i + 1;
      }
      assert all[..i] == all;
    }

    /** One lookup_notify per server found, and the closing empty record. */
    method Reply(l: Lookup, found: seq<Server>)
      modifies this`outbox
      ensures outbox == old(outbox) + Announce(found + [END], l.who, Some(l))
    {
      var i := 0;
      while i < |found|
        invariant 0 <= i <= |found|
        invariant outbox == old(outbox) + Announce(found[..i], l.who, Some(l))
      {
        outbox := outbox + [Sent(l.who, NewServer(found[i]), Some(l))];
        i := i + 1;
      }
      assert found[..i] == found;
      outbox := outbox + [Sent(l.who, NewServer(END), Some(l))];
    }

    /** ctrl_cmd_new_lookup */
    method OnNewLookup(from: Addr, service: u32, instance: Instance)
      modifies this
      ensures Took(NameService.OnNewLookup(old(Now()), from, service, instance), old(outbox))
    {
      if from.node != local {
        return;
      }
      var l := Lookup(service, instance, from);
      lookups := lookups + [l];
      var found := QueryServers(Filter(service, instance, 0));
      Reply(l, found);
    }

    /** ctrl_cmd_del_lookup */
    method OnDelLookup(from: Addr, service: u32, instance: Instance)
      modifies this
      ensures Took(NameService.OnDelLookup(old(Now()), from, service, instance), old(outbox))
    {
      var all, i := lookups, 0;
      lookups := [];
      while i < |all|
        invariant 0 <= i <= |all| && nodes == old(nodes) && outbox == old(outbox)
        invariant lookups == WithoutLookup(all[..i], from, service, instance)
      {
        assert all[..i+1][..i] == all[..i];
        var l := all[i];
        if l.who.node != from.node || l.who.port != from.port || l.service != service ||
           (l.instance != 0 && l.instance != instance) {
          lookups := lookups + [l];
        }
        i := i + 1;
      }
      assert all[..i] == all;
    }

    /** ctrl_port_fn, for a packet received from `from` */
    method Receive(from: Addr, msg: Msg)
      modifies this
      ensures Took(Handle(old(Now()), from, msg), old(outbox))
    {
      match msg {
        case Hello => OnHello(from, msg);
        case Bye(_) => OnBye(from);
        case DelClient(node, port) => OnDelClient(from, node, port);
        case NewServer(srv) => OnNewServer(from, srv);
        case DelServer(srv) => OnDelServer(from, srv);
        case NewLookup(service, instance) => OnNewLookup(from, service, instance);
        case DelLookup(service, instance) => OnDelLookup(from, service, instance);
        case Other =>
      }
    }
  }
}
