/** The reply to NEW_LOOKUP: which servers it names, and when it names exactly the registered ones. */
module LookupReplies {
  import opened Options
  import opened Hash
  import opened SlotTable
  import opened NameService
  import opened Registry

  /** The server is what its node's table answers for its port. */
  predicate Registered(s: State, srv: Server) {
    Get(Services(s.nodes, srv.node), HashU32(srv.port)) == Some(srv)
  }

  lemma RegisteredView(s: State, srv: Server)
    requires Invariant(s)
    ensures Registered(s, srv) <==>
              HashU32(srv.port) in View(s, srv.node) && View(s, srv.node)[HashU32(srv.port)] == srv
    ensures Registered(s, srv) ==> srv.service != 0 && srv.port != 0
  {
    var services := Services(s.nodes, srv.node);
    ServicesFiled(s.nodes, srv.node);
    GetRefines(services, HashU32(srv.port));
    if Registered(s, srv) {
      var p := Find(services, HashU32(srv.port)).value;
      assert FiledIn(srv.node)(services[p].key, services[p].item);
    }
  }

  // ----- The reply to a lookup -----

  ghost predicate NoDuplicates(q: seq<Server>) { forall i, j :: 0 <= i < j < |q| ==> q[i] != q[j] }

  lemma {:induction false} SelectMembers(servers: seq<Server>, f: Filter)
    ensures forall x :: x in Select(servers, f) <==> x in servers && ServerMatch(x, f)
  {
    if servers != [] {
      var n := |servers| - 1;
      SelectMembers(servers[..n], f);
      assert servers == servers[..n] + [servers[n]];
    }
  }

  lemma {:induction false} SelectConcat(a: seq<Server>, b: seq<Server>, f: Filter)
    ensures Select(a + b, f) == Select(a, f) + Select(b, f)
    decreases |b|
  {
    if b == [] {
      assert a + b == a;
    } else {
      var n := |b| - 1;
      assert (a + b)[..|a + b| - 1] == a + b[..n];
      SelectConcat(a, b[..n], f);
    }
  }

  /** The stored items of a service table in order, filtered. */
  lemma SelectStep(services: Slots<Server>, i: nat, f: Filter)
    requires i < |services|
    ensures Select(ItemsFrom(services, i), f) ==
            (if services[i].Live? && ServerMatch(services[i].item, f) then [services[i].item] else [])
              + Select(ItemsFrom(services, i + 1), f)
  {
    var first := if services[i].Live? then [services[i].item] else [];
    SelectConcat(first, ItemsFrom(services, i + 1), f);
    assert services[i].Live? ==> first[..0] == [];
  }

  /** Every record that passes the filter is the one its port is answered with, by its own slot. */
  ghost predicate Single(services: Slots<Server>, f: Filter) {
    forall p :: 0 <= p < |services| && services[p].Live? && ServerMatch(services[p].item, f) ==>
      Find(services, services[p].key) == Some(p)
  }

  lemma SameItemSameKey(id: u32, services: Slots<Server>, p: nat, q: nat)
    requires Filed(id, services) && p < |services| && q < |services| && services[p].Live? && services[q].Live?
    ensures services[p].item == services[q].item ==> services[p].key == services[q].key
  {
    assert FiledIn(id)(services[p].key, services[p].item) && FiledIn(id)(services[q].key, services[q].item);
  }

  lemma NotAgain(id: u32, services: Slots<Server>, f: Filter, i: nat, p: nat)
    requires Filed(id, services) && Single(services, f) && i < p < |services| && services[i].Live? && services[p].Live?
    requires ServerMatch(services[i].item, f)
    ensures services[p].item != services[i].item
  {
    SameItemSameKey(id, services, i, p);
  }

  lemma NotLater(id: u32, services: Slots<Server>, f: Filter, i: nat)
    requires Filed(id, services) && Single(services, f) && i < |services| && services[i].Live?
             && ServerMatch(services[i].item, f)
    ensures services[i].item !in Select(ItemsFrom(services, i + 1), f)
  {
    SelectMembers(ItemsFrom(services, i + 1), f);
    ItemsMembers(services, i + 1);
    forall p | i + 1 <= p < |services| && services[p].Live?
      ensures services[p].item != services[i].item
    {
      NotAgain(id, services, f, i, p);
    }
  }

  lemma {:induction false} SelectDistinct(id: u32, services: Slots<Server>, f: Filter, i: nat)
    requires Filed(id, services) && Single(services, f)
    ensures NoDuplicates(Select(ItemsFrom(services, i), f))
    decreases |services| - i
  {
    if i < |services| {
      SelectDistinct(id, services, f, i + 1);
      SelectStep(services, i, f);
      var rest := Select(ItemsFrom(services, i + 1), f);
      if services[i].Live? && ServerMatch(services[i].item, f) {
        NotLater(id, services, f, i);
        DistinctConcat([services[i].item], rest);
      } else {
        assert [] + rest == rest;
      }
    }
  }

  /** Two slots with the same record are both named. */
  lemma {:induction false} SelectTwice(services: Slots<Server>, f: Filter, i: nat, p: nat, q: nat)
    requires i <= p < q < |services| && services[p].Live? && services[q].Live? && services[p].item == services[q].item
    requires ServerMatch(services[p].item, f)
    ensures !NoDuplicates(Select(ItemsFrom(services, i), f))
    decreases p - i
  {
    SelectStep(services, i, f);
    var rest := Select(ItemsFrom(services, i + 1), f);
    if i == p {
      ItemsMembers(services, i + 1);
      SelectMembers(ItemsFrom(services, i + 1), f);
      assert services[q].item in rest;
      var j :| 0 <= j < |rest| && rest[j] == services[q].item;
      var all := Select(ItemsFrom(services, i), f);
      assert all[0] == services[p].item && all[j + 1] == rest[j];
    } else {
      SelectTwice(services, f, i + 1, p, q);
      DuplicatesStay((if services[i].Live? && ServerMatch(services[i].item, f) then [services[i].item] else []),
                     rest, []);
    }
  }

  lemma DuplicatesStay(a: seq<Server>, b: seq<Server>, c: seq<Server>)
    requires !NoDuplicates(b)
    ensures !NoDuplicates(a + b + c) && !NoDuplicates(a + b)
  {
    var i, j :| 0 <= i < j < |b| && b[i] == b[j];
    assert (a + b + c)[|a| + i] == b[i] && (a + b + c)[|a| + j] == b[j];
    assert (a + b)[|a| + i] == b[i] && (a + b)[|a| + j] == b[j];
  }

  /** A server is among the records of its node that pass the filter. */
  lemma ListedServer(s: State, id: u32, f: Filter, x: Server)
    requires Invariant(s)
    ensures x in Select(Items(Services(s.nodes, id)), f) <==>
            && ServerMatch(x, f)
            && exists p :: 0 <= p < |Services(s.nodes, id)| &&
                           Services(s.nodes, id)[p].Live? && Services(s.nodes, id)[p].item == x
    ensures x in Select(Items(Services(s.nodes, id)), f) ==> x.node == id && x != END
    ensures x.node == id && Registered(s, x) && ServerMatch(x, f) ==> x in Select(Items(Services(s.nodes, id)), f)
  {
    var services := Services(s.nodes, id);
    SelectMembers(Items(services), f);
    ItemsMembers(services, 0);
    ServicesFiled(s.nodes, id);
    if p :| 0 <= p < |services| && services[p].Live? && services[p].item == x {
      assert FiledIn(id)(services[p].key, x);
    }
  }

  /** A record that passes the filter and sits at the slot its key finds is the registered server. */
  lemma SingleIsRegistered(s: State, id: u32, p: nat)
    requires Invariant(s) && p < |Services(s.nodes, id)| && Services(s.nodes, id)[p].Live?
    requires Find(Services(s.nodes, id), Services(s.nodes, id)[p].key) == Some(p)
    ensures Registered(s, Services(s.nodes, id)[p].item)
  {
    var services := Services(s.nodes, id);
    ServicesFiled(s.nodes, id);
    assert FiledIn(id)(services[p].key, services[p].item);
  }

  /** A table that is not single is listed wrongly: some record is not registered, or is named twice. */
  lemma NotSingle(s: State, id: u32, f: Filter)
    requires Invariant(s) && !Single(Services(s.nodes, id), f)
    ensures var found := Select(Items(Services(s.nodes, id)), f);
            !NoDuplicates(found) || exists x :: x in found && !Registered(s, x)
  {
    var services := Services(s.nodes, id);
    ServicesFiled(s.nodes, id);
    var p: nat :| p < |services| && services[p].Live? && ServerMatch(services[p].item, f)
      && Find(services, services[p].key) != Some(p);
    FirstFound(services, p);
    var q := Find(services, services[p].key).value;
    assert FiledIn(id)(services[p].key, services[p].item) && FiledIn(id)(services[q].key, services[q].item);
    ListedServer(s, id, f, services[p].item);
    if services[p].item == services[q].item {
      SelectTwice(services, f, 0, if p < q then p else q, if p < q then q else p);
    } else {
      assert Get(services, services[p].key) == Some(services[q].item);
      assert !Registered(s, services[p].item);
    }
  }

  /** The node records met by the outer walk: each carries the services of its id, and ids differ. */
  ghost predicate Records(s: State, ns: seq<Node>) {
    && (forall i :: 0 <= i < |ns| ==> ns[i].services == Services(s.nodes, ns[i].id))
    && forall i, j :: 0 <= i < j < |ns| ==> ns[i].id != ns[j].id
  }

  lemma LaterRecordDiffers(s: State, i: nat, x: Node)
    requires NodesOk(s.nodes) && i < |s.nodes| && s.nodes[i].Live? && x in ItemsFrom(s.nodes, i + 1)
    ensures x.id != s.nodes[i].item.id
  {
    ItemsMembers(s.nodes, i + 1);
    var p :| i + 1 <= p < |s.nodes| && s.nodes[p].Live? && s.nodes[p].item == x;
    if x.id == s.nodes[i].item.id {
      OneRecordPerNode(s.nodes, i, p);
    }
  }

  lemma RecordIsFound(s: State, i: nat)
    requires NodesOk(s.nodes) && i < |s.nodes| && s.nodes[i].Live?
    ensures s.nodes[i].item.services == Services(s.nodes, s.nodes[i].item.id)
  {
    SlotIsMapped(s.nodes, i);
    FindOwnSlot(s.nodes, i);
  }

  lemma {:induction false} NodeRecords(s: State, i: nat)
    requires Invariant(s)
    ensures Records(s, ItemsFrom(s.nodes, i))
    decreases |s.nodes| - i
  {
    if i < |s.nodes| {
      NodeRecords(s, i + 1);
      if s.nodes[i].Live? {
        RecordIsFound(s, i);
        var rest := ItemsFrom(s.nodes, i + 1);
        forall j | 0 <= j < |rest|
          ensures rest[j].id != s.nodes[i].item.id
        {
          LaterRecordDiffers(s, i, rest[j]);
        }
      }
    }
  }

  /** The walk over some nodes: which servers it names. */
  /** The walk collects, record by record, what it selects. */
  lemma {:induction false} QueryHas(ns: seq<Node>, f: Filter, x: Server)
    ensures x in Query(ns, f) <==> exists i :: 0 <= i < |ns| && x in Select(Items(ns[i].services), f)
  {
    if ns != [] {
      var n := |ns| - 1;
      QueryHas(ns[..n], f, x);
      assert forall i :: 0 <= i < n ==> ns[..n][i] == ns[i];
      assert Query(ns, f) == Query(ns[..n], f) + Select(Items(ns[n].services), f);
    }
  }

  /** And each record only what is its own. */
  lemma QueryOver(s: State, ns: seq<Node>, f: Filter)
    requires Invariant(s) && Records(s, ns)
    ensures forall x :: x in Query(ns, f) <==>
                        exists i :: 0 <= i < |ns| && ns[i].id == x.node
                          && x in Select(Items(Services(s.nodes, ns[i].id)), f)
  {
    forall x
      ensures x in Query(ns, f) <==>
              exists i :: 0 <= i < |ns| && ns[i].id == x.node && x in Select(Items(Services(s.nodes, ns[i].id)), f)
    {
      QueryHas(ns, f, x);
      forall i | 0 <= i < |ns| && x in Select(Items(ns[i].services), f)
        ensures ns[i].id == x.node
      {
        ListedServer(s, ns[i].id, f, x);
      }
    }
  }

  lemma {:induction false} QueryDistinct(s: State, ns: seq<Node>, f: Filter)
    requires Invariant(s) && Records(s, ns) && forall i :: 0 <= i < |ns| ==> Single(ns[i].services, f)
    ensures NoDuplicates(Query(ns, f))
  {
    if ns != [] {
      var n := |ns| - 1;
      var id, before, more := ns[n].id, Query(ns[..n], f), Select(Items(ns[n].services), f);
      QueryDistinct(s, ns[..n], f);
      QueryOver(s, ns[..n], f);
      ServicesFiled(s.nodes, id);
      SelectDistinct(id, ns[n].services, f, 0);
      forall x | x in before
        ensures x !in more
      {
        ListedServer(s, id, f, x);
      }
      DistinctConcat(before, more);
    }
  }

  lemma DistinctConcat(a: seq<Server>, b: seq<Server>)
    requires NoDuplicates(a) && NoDuplicates(b) && forall x :: x in a ==> x !in b
    ensures NoDuplicates(a + b)
  {
    forall i, j | 0 <= i < j < |a + b|
      ensures (a + b)[i] != (a + b)[j]
    {
      if i < |a| <= j {
        assert a[i] in a && b[j - |a|] in b;
      }
    }
  }

  /** What one node's table is named twice, the whole walk names twice. */
  lemma {:induction false} QueryTwice(ns: seq<Node>, f: Filter, i: nat)
    requires i < |ns| && !NoDuplicates(Select(Items(ns[i].services), f))
    ensures !NoDuplicates(Query(ns, f))
  {
    var n := |ns| - 1;
    if i == n {
      DuplicatesStay(Query(ns[..n], f), Select(Items(ns[n].services), f), []);
    } else {
      QueryTwice(ns[..n], f, i);
      DuplicatesStay([], Query(ns[..n], f), Select(Items(ns[n].services), f));
      assert [] + Query(ns[..n], f) == Query(ns[..n], f);
    }
  }

  function Selection(l: Lookup): Filter { Filter(l.service, l.instance, 0) }

  /** The servers the reply to a lookup names. */
  function Found(s: State, l: Lookup): seq<Server> { Query(Items(s.nodes), Selection(l)) }

  /** A registered server that matches is named, and a server named is a record of its node. */
  lemma FoundMembers(s: State, l: Lookup, x: Server)
    requires Invariant(s)
    ensures x in Found(s, l) <==> x in Select(Items(Services(s.nodes, x.node)), Selection(l))
    ensures Registered(s, x) && Matches(l, x) ==> x in Found(s, l)
    ensures x in Found(s, l) ==> x != END && Matches(l, x)
  {
    NodeRecords(s, 0);
    QueryOver(s, Items(s.nodes), Selection(l));
    ListedServer(s, x.node, Selection(l), x);
    QueryAgreesWithNotifications(l, x);
    if x in Select(Items(Services(s.nodes, x.node)), Selection(l)) {
      NodeIsListed(s, x.node);
    }
  }

  /** The reply names every registered server that matches, and nothing else, each exactly once. */
  ghost predicate ExactReply(s: State, l: Lookup) {
    NoDuplicates(Found(s, l)) && forall x :: x in Found(s, l) <==> Registered(s, x) && Matches(l, x)
  }

  /** Every record that matches is found at its own slot. */
  ghost predicate AllSingle(s: State, l: Lookup) { forall id: u32 :: Single(Services(s.nodes, id), Selection(l)) }

  lemma ReplyIfSingle(s: State, l: Lookup)
    requires Invariant(s) && AllSingle(s, l)
    ensures ExactReply(s, l)
  {
    NodeRecords(s, 0);
    QueryDistinct(s, Items(s.nodes), Selection(l));
    forall x
      ensures x in Found(s, l) <==> Registered(s, x) && Matches(l, x)
    {
      FoundMembers(s, l, x);
      ListedServer(s, x.node, Selection(l), x);
      var services := Services(s.nodes, x.node);
      if p: nat :| x in Found(s, l) && p < |services| && services[p].Live? && services[p].item == x {
        SingleIsRegistered(s, x.node, p);
      }
    }
  }

  lemma ReplyOnlyIfSingle(s: State, l: Lookup, id: u32)
    requires Invariant(s) && !Single(Services(s.nodes, id), Selection(l))
    ensures !ExactReply(s, l)
  {
    NotSingle(s, id, Selection(l));
    var found := Select(Items(Services(s.nodes, id)), Selection(l));
    if !NoDuplicates(found) {
      NodeRecords(s, 0);
      NodeIsListed(s, id);
      var i :| 0 <= i < |Items(s.nodes)| && Items(s.nodes)[i].id == id;
      QueryTwice(Items(s.nodes), Selection(l), i);
    } else {
      var x :| x in found && !Registered(s, x);
      ListedServer(s, id, Selection(l), x);
      FoundMembers(s, l, x);
    }
  }

  /** The reply to NEW_LOOKUP closes with a record no registered server can equal. Before that it
      names every registered server that matches exactly once, and nothing else, if and only if
      every record that matches is found at its own slot. */
  lemma LookupReply(s: State, from: Addr, service: u32, instance: Instance)
    requires Invariant(s) && from.node == s.local
    ensures var l := Lookup(service, instance, from);
            && OnNewLookup(s, from, service, instance).sent == Announce(Found(s, l) + [END], from, Some(l))
            && !Registered(s, END) && END !in Found(s, l)
            && (forall x :: Registered(s, x) && Matches(l, x) ==> x in Found(s, l))
            && (ExactReply(s, l) <==> AllSingle(s, l))
  {
    var l := Lookup(service, instance, from);
    RegisteredView(s, END);
    forall x
      ensures Registered(s, x) && Matches(l, x) ==> x in Found(s, l)
      ensures x in Found(s, l) ==> x != END
    {
      FoundMembers(s, l, x);
    }
    if AllSingle(s, l) {
      ReplyIfSingle(s, l);
    } else {
      var id: u32 :| !Single(Services(s.nodes, id), Selection(l));
      ReplyOnlyIfSingle(s, l, id);
    }
  }

  /** For a lookup of every service that is the case exactly when no table holds a port twice. */
  lemma WildcardReply(s: State, l: Lookup)
    requires Invariant(s) && l.service == 0 && l.instance == 0
    ensures AllSingle(s, l) <==> Tidy(s)
  {
    forall id: u32
      ensures Single(Services(s.nodes, id), Selection(l)) <==> Unique(Services(s.nodes, id))
    {
      WildcardTable(s, l, id);
    }
  }

  lemma WildcardTable(s: State, l: Lookup, id: u32)
    requires Invariant(s) && l.service == 0 && l.instance == 0
    ensures Single(Services(s.nodes, id), Selection(l)) <==> Unique(Services(s.nodes, id))
  {
    var services := Services(s.nodes, id);
    ServicesFiled(s.nodes, id);
    UniqueIsApart(services);
    forall p | 0 <= p < |services| && services[p].Live?
      ensures ServerMatch(services[p].item, Selection(l))
    {
      QueryAgreesWithNotifications(l, services[p].item);
    }
    if Unique(services) {
      forall p: nat | p < |services| && services[p].Live? { FindOwnSlot(services, p); }
    }
  }

  lemma NodeIsListed(s: State, id: u32)
    requires NodesOk(s.nodes) && Get(s.nodes, HashU32(id)).Some?
    ensures exists i :: 0 <= i < |Items(s.nodes)| && Items(s.nodes)[i].id == id
  {
    var p := Find(s.nodes, HashU32(id)).value;
    SlotIsMapped(s.nodes, p);
    HashU32Injective(s.nodes[p].item.id, id);
    ItemsMembers(s.nodes, 0);
    assert s.nodes[p].item in Items(s.nodes);
  }
}
