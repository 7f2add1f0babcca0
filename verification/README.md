# Verified model of qrtr

This project models the algorithmic code of `device/glodroid/dragon_q6a/qrtr` and proves what it
promises. Four parts fit together.

- **QMI codec** (`lib/qmi.c`): `qmi.dfy` defines element tables, the structs they describe and what a
  struct encodes to; `qmi_decode.dfy` what any octets decode to; `qmi_room.dfy` how far the capacity checks
  let the encoder get. `qmi_buffer.dfy`, `qmi_encoder.dfy` and `qmi_decoder.dfy` are the encoder, which
  writes into an array and back-patches its headers, and the decoder, both proved to compute those
  functions. `qmi_roundtrip.dfy`, `qmi_tlv.dfy` and `qmi_theorems.dfy` prove when a struct comes back,
  `qmi_order.dfy` when the order of its TLVs matters, `qmi_unknown.dfy` that unknown ones do not;
  `qmi_minimum.dfy` is about the shortest message, and `qmi_message.dfy` adds the message header.
  `qmi_wire.dfy` and `qmi_grammar.dfy` give both functions in closed form: which octets stand for which
  fields, and which octets are accepted, whatever they are.
- **Hash table** (`src/map.c`, `src/hash.c`): `table.dfy` is the open-addressing table as a value and the
  map it stands for; `map.dfy` the table in the heap, proved against it; `hash.dfy` the key functions;
  `options.dfy` the option type.
- **Name server** (`src/ns.c`): `ns_spec.dfy` is the transition function, `ns.dfy` the handlers over
  mutable state, proved to compute it. `ns_effects.dfy` gives the whole effect of each packet field by
  field: tables, lookups, and who is sent what in which order. `ns_registry.dfy`, `ns_reply.dfy`, `ns_observer.dfy`,
  `ns_silence.dfy` and `ns_replication.dfy` prove what holds over whole runs: the registry invariant, what
  a client that looks services up is told, silence after a client has closed, and replication between two
  servers. `ns_examples.dfy`, `ns_growth.dfy` and `ns_divergence.dfy` are reachable runs on which the simple laws fail.
- **List and waiter** (`src/list.h`, `src/waiter.c`): `list.dfy` is the doubly linked list in the heap,
  proved to be a sequence; `waiter.dfy` the tickets, the poll set and the wait loop.

A method is proved against a function of its inputs or of the state before it; the lemmas are about
those functions.

## Where the code falls short of a simple law

The members named state exactly when each of these happens; those called examples give inputs or
reachable runs on which it does.

- `map_hash` takes the first tombstone without looking further for the key, so a put can leave a stale
  copy behind (`SlotTable.PutRefines`, `SlotTable.StaleCopySurvivesRemove`, `SlotTable.StaleCopyExample`).
  Tables with stale copies are reachable in the name server, and there
  - a removal brings the old server back exactly when the port has several records, a growth can bring it back
    only when the record at the highest index is not the one found first, and BYE leaves servers behind
    exactly when a port has records on both sides of its home slot (`Registry.HandleAnswers`,
    `Registry.DrainVisitsAll`, `Examples.ByeExample`); packets that do none of these are called tame;
  - a lookup is answered with a server twice, or with one that is not registered, exactly when a matching
    record is not the one found first for its port (`LookupReplies.LookupReply`, `Examples.ReplyExample`);
  - a client misses a server exactly when a record that its lookup matches comes up unannounced
    (`Observer.ObserverStep`, `Examples.ObserverExample`);
  - a client that closes its port stays registered, and is sent packets, exactly when the port has several
    records (`Silence.SilenceAfterClose`, `Examples.SilenceExample`);
  - a peer keeps a service that was removed, for good (`Divergence.DivergenceExample`). Two name servers stay
    in step exactly as long as every step passes a test on the tables and the packets in flight
    (`Replication.AllowedFor`, `Replication.StepExact`, `Replication.ReplicationRun`).
- A growth keeps of each key the copy at the highest index, so it can bring a replaced item back
  (`SlotTable.GrowthKeepsGetIff`, `Growth.GrowthExample`, `Growth.GrowthPacketExample`).
- HELLO is returned to whoever sent it, also to a name server, which returns it again: once one of two has
  said HELLO there is always one in flight, and as long as packets are delivered they exchange it, and
  announce all their services, for ever (`Replication.HelloForever`, `Replication.HelloToNode`).
- A service registered over a live one of the same address is announced, but no removal is announced for
  the old one (`Observer.ObserverStep`, `Observer.SwapExample`).
- A one-octet length replaces only the low octet of `data_len_value`, so a larger count left by an earlier
  TLV survives (`QmiRoundTrip.OverlayExact`, `QmiTheorems.CarryExample`). The struct is kept
  (`QmiRoundTrip.KeptFrom`) exactly when that does not happen and no nested string is too long for its
  length octets (`QmiTheorems.NestedStringExample`); some order of the TLVs avoids it always, every order
  only when no group can hinder another (`QmiOrder.SomeOrder`, `QmiOrder.OrderIndependence`).
- The capacity check of a nested string keeps no room for the TLV header, unlike every other check
  (`QmiRoom.StringCheckExact`), so the encoder can succeed with more octets than its capacity
  (`QmiEncoder.UncheckedStringExample`, `QmiEncoder.WritesPastItsRoom`). `QmiEncoder.Encode` therefore asks for a
  buffer as long as the checks let it get (`QmiRoom.TryFrom`), which may be longer than the capacity it is
  told; `QmiRoom.RoomExact` says when it is not.
- `qmi_calc_min_msg_len` is documented as the minimum length of a message. It counts strings and arrays of
  integers at their longest and an array of structs as one struct, so it can be above or below the true
  minimum (`QmiMinimum.MinimumExact`, `QmiMinimum.TooLongExample`, `QmiMinimum.TooShortExample`); it is only
  used to learn whether every group is optional, for which it is exact (`QmiMinimum.NullStruct`).
- `waiter_wait_timeout` reports an expired timeout as -1, and a failed poll like a wake-up, as 0
  (`Waiter.Waiter.WaitTimeout`).
- DEL_LOOKUP drops a lookup for instance 0 whatever instance the packet names (`NameService.Dropped`).

## Model

| member | source | states |
|---|---|---|
| SlotTable.RunRefinesMap | device/glodroid/dragon_q6a/qrtr/src/map.c:42-198 | over any run of put, remove and clear, growth included, in which no put lands behind a tombstone, the table is a finite map: `get` agrees with the map for every key and the count is the number of keys |
| SlotTable.PutRefines | device/glodroid/dragon_q6a/qrtr/src/map.c:64-117 | after any put the item is what `get` returns; the table stays free of duplicates if and only if the put was not behind a tombstone, and then it is the map update |
| SlotTable.PutReplacesBinding | device/glodroid/dragon_q6a/qrtr/src/map.c:91-112 | the item `map_reput` hands back is the one `get` returned before if and only if the put is not behind a tombstone and a growth it makes does not change the answer for the key |
| SlotTable.PutAnswers | device/glodroid/dragon_q6a/qrtr/src/map.c:64-147 | a put changes the answers of `get` as a map update if and only if it does not grow the table, or growing changes no other key's answer; duplicates or not |
| SlotTable.PutPushesOrReplaces | device/glodroid/dragon_q6a/qrtr/src/map.c:64-112 | on any table without gaps, duplicates or not, a put replaces the top of the key's stack of copies or pushes on it, and leaves every other key's stack alone |
| SlotTable.RemovePops | device/glodroid/dragon_q6a/qrtr/src/map.c:188-198 | on any table without gaps a remove pops the key's stack and leaves every other stack alone |
| SlotTable.GetIsTop | device/glodroid/dragon_q6a/qrtr/src/map.c:149-186 | a probe finds the top of the key's stack, or nothing exactly when the stack is empty |
| SlotTable.GetRefines | device/glodroid/dragon_q6a/qrtr/src/map.c:178-186 | on any table without gaps, duplicates or not, `get` is lookup in the map of answers |
| SlotTable.RemoveRefines | device/glodroid/dragon_q6a/qrtr/src/map.c:188-198 | without duplicates `remove` is map removal |
| SlotTable.RemoveAnswers | device/glodroid/dragon_q6a/qrtr/src/map.c:188-198 | a remove changes the answers of `get` as a map removal if and only if the key has at most one copy |
| SlotTable.GrowCollapses | device/glodroid/dragon_q6a/qrtr/src/map.c:119-147 | growing removes every tombstone, leaves room, and keeps of each key the copy at the highest index |
| SlotTable.GrowRefines | device/glodroid/dragon_q6a/qrtr/src/map.c:119-147 | growing a table without duplicates changes neither the map nor the count |
| SlotTable.GrowthKeepsGetIff | device/glodroid/dragon_q6a/qrtr/src/map.c:119-147 | growing changes what `get` returns for a key exactly when the copy at the highest index is not the one found first |
| SlotTable.NotFullClaims | device/glodroid/dragon_q6a/qrtr/src/map.c:64-87 | a table is full exactly when every slot holds an item, and the probe of `map_hash` fails only on a full one, so it never returns -2 |
| SlotTable.CountIsSize | device/glodroid/dragon_q6a/qrtr/src/map.c:64-87 | the count of live slots is at least the number of keys, and equal to it if and only if no key is stored twice |
| SlotTable.ClearRefines | device/glodroid/dragon_q6a/qrtr/src/map.c:42-54 | a cleared table is the empty map |
| SlotTable.StaleCopySurvivesRemove | device/glodroid/dragon_q6a/qrtr/src/map.c:73-80 | whenever a put lands behind a tombstone, removing the key once brings the replaced item back |
| SlotTable.StaleCopyExample | device/glodroid/dragon_q6a/qrtr/src/map.c:73-80 | for any two keys with the same home slot, a run of five calls in which that happens |
| SlotTable.SweepEmpties | device/glodroid/dragon_q6a/qrtr/src/map.c:188-227 | a loop that removes each item its own iterator meets empties the table if and only if no key has copies on both sides of its home slot |
| SlotTable.AnswersTaken | device/glodroid/dragon_q6a/qrtr/src/map.c:188-227 | whatever that loop leaves behind, of every key it removes the item that was found first |
| Growth.GrowthExample | device/glodroid/dragon_q6a/qrtr/src/map.c:119-147 | for any key of each home slot and one more key: a run from the empty table to a full one, after which putting any other key makes `get` return the item that was replaced earlier, and putting the key itself hands that item back |
| Growth.NumbersExample | device/glodroid/dragon_q6a/qrtr/src/map.c:119-147 | the same with the keys 0 to 255 and 256 |
| SlotTable.NextSkips | device/glodroid/dragon_q6a/qrtr/src/map.c:205-227 | following the iterator from a slot meets exactly the stored items, in index order |
| SlotMap.Map.constructor | device/glodroid/dragon_q6a/qrtr/src/map.c:56-62 | an empty, well-formed table |
| SlotMap.Map.Hash | device/glodroid/dragon_q6a/qrtr/src/map.c:64-87 | -1 exactly when full; otherwise the first slot of the probe that is free or has the key, counted if it was free; -2 is unreachable |
| SlotMap.Map.Reserve | device/glodroid/dragon_q6a/qrtr/src/map.c:91-104 | the retry loop grows at most once and ends with the slot the specification claims |
| SlotMap.Map.Reput | device/glodroid/dragon_q6a/qrtr/src/map.c:91-112 | the new table is the specified put, also for an item stored already, and the replaced item is handed back; a NULL value takes a slot and leaves it empty; other items' keys are untouched; the termination measure shows that growth is never re-entered |
| SlotMap.Map.PutItem | device/glodroid/dragon_q6a/qrtr/src/map.c:114-117 | the new table is the specified put; NULL is accepted and leaves the table not well-formed |
| SlotMap.Map.Rehash | device/glodroid/dragon_q6a/qrtr/src/map.c:119-147 | a fresh array holds the specified grown table |
| SlotMap.Map.FindEntry | device/glodroid/dragon_q6a/qrtr/src/map.c:149-171 | the slot the specified probe finds |
| SlotMap.Map.Contains | device/glodroid/dragon_q6a/qrtr/src/map.c:173-176 | true exactly when some slot holds the key |
| SlotMap.Map.GetItem | device/glodroid/dragon_q6a/qrtr/src/map.c:178-186 | the top of the key's stack, and the map's binding when there are no duplicates |
| SlotMap.Map.RemoveKey | device/glodroid/dragon_q6a/qrtr/src/map.c:188-198 | the specified removal; reports absence exactly when no slot held the key |
| SlotMap.Map.Clear | device/glodroid/dragon_q6a/qrtr/src/map.c:42-54 | every stored item is released once, in index order, and the table is blank |
| SlotMap.Map.IterFrom | device/glodroid/dragon_q6a/qrtr/src/map.c:205-227 | the first stored item at or after the start |
| Hash.HashU32Inverse | device/glodroid/dragon_q6a/qrtr/src/hash.c:22-25 | the 32-bit hash is a bijection: multiplying by 244002641 undoes it, both ways |
| Hash.HashU32Injective | device/glodroid/dragon_q6a/qrtr/src/hash.c:22-25 | two ids with the same hash are the same id |
| Hash.HashMem | device/glodroid/dragon_q6a/qrtr/src/hash.c:4-15 | the loop computes the fold of the mixing step over the buffer, seeded with its length |
| Hash.HashMemRotates | device/glodroid/dragon_q6a/qrtr/src/hash.c:4-15 | each octet is added without carry to the hash of the octets before it, rotated left by five |
| Hash.OneOctetChangesHash | device/glodroid/dragon_q6a/qrtr/src/hash.c:4-15 | changing any one octet of a buffer always changes its hash |
| IntrusiveList.List.constructor | device/glodroid/dragon_q6a/qrtr/src/list.h:31-35 | an empty, consistent list |
| IntrusiveList.List.Append | device/glodroid/dragon_q6a/qrtr/src/list.h:37-46 | the sequence grows by the item at its end; head, tail and all links stay consistent |
| IntrusiveList.List.InsertAfter | device/glodroid/dragon_q6a/qrtr/src/list.h:57-70 | the item follows the given one in the sequence |
| IntrusiveList.List.Remove | device/glodroid/dragon_q6a/qrtr/src/list.h:72-86 | the item leaves the sequence, its links are cleared, the others' stay consistent |
| IntrusiveList.List.Pop | device/glodroid/dragon_q6a/qrtr/src/list.h:88-96 | the first item is returned and leaves the sequence |
| IntrusiveList.List.RemoveAll | device/glodroid/dragon_q6a/qrtr/src/list.h:122-123 | a safe-iteration loop that removes what it visits leaves exactly the order-preserving filter |
| IntrusiveList.WithoutJoins | device/glodroid/dragon_q6a/qrtr/src/ns.c:403-412 | the filter keeps the order of the items |
| IntrusiveList.WithoutKeeps | device/glodroid/dragon_q6a/qrtr/src/ns.c:556-569 | the filter keeps exactly the items outside the removed set |
| Waiter.Pollset.AddFd | device/glodroid/dragon_q6a/qrtr/src/waiter.c:67-73 | the descriptor is appended, within the capacity |
| Waiter.Pollset.Record | device/glodroid/dragon_q6a/qrtr/src/waiter.c:75-94 | when poll gave something, the cause is -1 exactly if no descriptor is ready, and otherwise is ready with none before it; when poll gave nothing it is unchanged |
| Waiter.Waiter.constructor | device/glodroid/dragon_q6a/qrtr/src/waiter.c:132-142 | no tickets, no poll set |
| Waiter.Waiter.AddNull | device/glodroid/dragon_q6a/qrtr/src/waiter.c:301-323 | a fresh ticket joins the list; the poll set is replaced by one for 33 more descriptors than there were tickets exactly when that number is a multiple of 32, so it always has room |
| Waiter.Waiter.AddFd | device/glodroid/dragon_q6a/qrtr/src/waiter.c:325-336 | a fresh descriptor ticket joins the list |
| Waiter.Waiter.AddTimeout | device/glodroid/dragon_q6a/qrtr/src/waiter.c:338-349 | a fresh timeout joins the list, started now |
| Waiter.Waiter.Delete | device/glodroid/dragon_q6a/qrtr/src/waiter.c:351-357 | the ticket leaves the list and the invariants hold |
| Waiter.Waiter.Synchronize | device/glodroid/dragon_q6a/qrtr/src/waiter.c:160-184 | every timeout ends up with the start of the first timeout of its interval, and nothing else changes |
| Waiter.FirstAlikeIsFirst | device/glodroid/dragon_q6a/qrtr/src/waiter.c:160-184 | going back one equal-interval timeout at a time ends at the first one in the list |
| Waiter.EarliestIsLeast | device/glodroid/dragon_q6a/qrtr/src/waiter.c:186-211 | the computed wake-up time is a lower bound of all deadlines and is one of them, or forever |
| Waiter.Waiter.Collect | device/glodroid/dragon_q6a/qrtr/src/waiter.c:186-211 | the earliest deadline is found and exactly the descriptor tickets are polled, in list order |
| Waiter.Waiter.DoPoll | device/glodroid/dragon_q6a/qrtr/src/waiter.c:213-228 | for ever if the deadline is 2^64-1, not at all if it has passed, otherwise for more than 0 and at most 2^31-1 ms and not past the deadline, to the deadline itself if that is less than the maximum |
| Waiter.Waiter.Fire | device/glodroid/dragon_q6a/qrtr/src/waiter.c:230-261 | every hit timeout restarts at the post-poll time, every hit ticket is marked, and exactly those not yet marked are called back, in order |
| Waiter.Waiter.Wait | device/glodroid/dragon_q6a/qrtr/src/waiter.c:186-262 | on the tickets before the wait: a ticket is called back exactly if poll did not fail, it was not marked, and its deadline has come or its descriptor is the one polled at the lowest ready index; the callbacks are in list order; every due ticket is marked, a due timeout starts again, nothing else changes; `Asks` says how it polls |
| Waiter.PollForAsks | device/glodroid/dragon_q6a/qrtr/src/waiter.c:186-228 | poll waits for ever exactly if no timeout has a deadline below 2^64-1, is skipped exactly if such a deadline has passed, and otherwise waits 1 to 2^31-1 ms, not past any deadline, and until one of them unless that is the maximum |
| Waiter.WaitCallsBack | device/glodroid/dragon_q6a/qrtr/src/waiter.c:230-262 | the recursive description of the callbacks and of the tickets afterwards is the one by fields, `CalledBack`, for every poll result |
| Waiter.Waiter.WaitTimeout | device/glodroid/dragon_q6a/qrtr/src/waiter.c:264-281 | -1 exactly when the poll did not fail and `begin` plus the interval, at 64 bits, has come; the list is as before; on the tickets it is a wait with one more timeout behind all others |
| Registry.NodeGetRecord | device/glodroid/dragon_q6a/qrtr/src/ns.c:88-116 | after node_get the table has exactly one record of the node, the one it had if there was one and an empty one otherwise; every other node's record is as before |
| NameService.QueryAgreesWithNotifications | device/glodroid/dragon_q6a/qrtr/src/ns.c:118-127 | the mask filter of the initial query selects exactly the servers the later notification tests select |
| NameServer.Context.QueryServers | device/glodroid/dragon_q6a/qrtr/src/ns.c:129-153 | the nested walk collects the matching servers in table order |
| NameServer.Context.AnnounceServers | device/glodroid/dragon_q6a/qrtr/src/ns.c:224-244 | one NEW_SERVER per local server, in table order |
| NameServer.Context.ServerAdd | device/glodroid/dragon_q6a/qrtr/src/ns.c:246-287 | refused exactly when service or port is 0; else the node's table gets the specified put |
| NameServer.Context.ServerDel | device/glodroid/dragon_q6a/qrtr/src/ns.c:289-321 | computes the specified removal; `Effects.UnregisterRemoves` says which packets that sends to whom |
| NameServer.Context.OnHello | device/glodroid/dragon_q6a/qrtr/src/ns.c:323-333 | computes the specified step: the HELLO is returned and every local server announced |
| NameServer.Context.DrainNode | device/glodroid/dragon_q6a/qrtr/src/ns.c:335-359 | the loop that deletes under its own iterator computes the specified drain |
| NameServer.Context.OnBye | device/glodroid/dragon_q6a/qrtr/src/ns.c:335-378 | computes the specified step, whose packets and tables `Effects.NodeLeaves` gives |
| NameServer.Context.OnDelClient | device/glodroid/dragon_q6a/qrtr/src/ns.c:380-442 | computes the specified step, refusals included; `Effects.ClientCloses` gives its packets, lookups and tables |
| NameServer.Context.OnNewServer | device/glodroid/dragon_q6a/qrtr/src/ns.c:444-481 | computes the specified step; `Effects.LocalRegistration` and `Effects.RemoteRegistration` say when it registers what, and who is told |
| NameServer.Context.OnDelServer | device/glodroid/dragon_q6a/qrtr/src/ns.c:483-509 | computes the specified step, which `Effects.Deregistration` gives field by field |
| NameServer.Context.OnNewLookup | device/glodroid/dragon_q6a/qrtr/src/ns.c:511-547 | computes the specified step; `Effects.LookupAnswered` gives the list of lookups and the reply |
| NameServer.Context.OnDelLookup | device/glodroid/dragon_q6a/qrtr/src/ns.c:549-572 | computes the specified step; `Effects.LookupsDropped` says which lookups stay |
| NameServer.Context.Receive | device/glodroid/dragon_q6a/qrtr/src/ns.c:574-655 | handling a packet is exactly the transition `NameService.Handle`: new state and packets sent, in order |
| Effects.LocalRegistration | device/glodroid/dragon_q6a/qrtr/src/ns.c:246-287 | NEW_SERVER from a local socket, whatever node and port it names: if its service and the sending port are not 0, the node then answers that service under the sending port, it is broadcast, and each lookup that asks for it is notified once, in list order, and nobody else; otherwise nothing changes and nothing is sent |
| Effects.RemoteRegistration | device/glodroid/dragon_q6a/qrtr/src/ns.c:444-481 | NEW_SERVER from another node is registered, and each lookup that asks for it notified, if and only if it names the sending node, a service and a port; otherwise nothing changes and nothing is sent |
| Effects.Deregistration | device/glodroid/dragon_q6a/qrtr/src/ns.c:483-509 | a local sender removes the service of its own port whatever it names, a remote one that of the port it names at its own node, anyone else nothing; the removal is broadcast if the record is local, and each lookup that asks for it notified |
| Effects.UnregisterRemoves | device/glodroid/dragon_q6a/qrtr/src/ns.c:289-321 | one record leaves the table of one node; it is broadcast if it is local, and each lookup that asks for it, by service and instance or 0 for any, is sent one DEL_SERVER in list order, and nobody else |
| Effects.ClientCloses | device/glodroid/dragon_q6a/qrtr/src/ns.c:380-442 | DEL_CLIENT for another node or another local port does nothing; otherwise the lookups of that client go and the others stay in order, the record of the port is removed and withdrawn, and every record left in the local table is sent one DEL_CLIENT with that node and port, in slot order, and no other packet is sent |
| Effects.NodeLeaves | device/glodroid/dragon_q6a/qrtr/src/ns.c:335-378 | after BYE each record taken from the table is withdrawn in turn, then every record left in the local table is sent one BYE with the sending node, in slot order, and no other packet is sent; every other table and the lookups are as before |
| Effects.HelloAnswered | device/glodroid/dragon_q6a/qrtr/src/ns.c:323-333 | HELLO goes back to whoever sent it, followed by every local record in slot order; no table and no lookup changes |
| Effects.LookupAnswered | device/glodroid/dragon_q6a/qrtr/src/ns.c:511-547 | a local NEW_LOOKUP joins the lookups at the end, and is sent every record it asks for, node slot by node slot and service slot by service slot, and then the all-zero record; from elsewhere it does nothing |
| Effects.LookupsDropped | device/glodroid/dragon_q6a/qrtr/src/ns.c:549-572 | DEL_LOOKUP drops the lookups of its sender for the service that are for any instance or the one named; the others stay in order, no table changes and nothing is sent |
| Effects.LookupStep | device/glodroid/dragon_q6a/qrtr/src/ns.c:380-572 | how often a lookup is live after any packet: not at all if its client closes or deletes it, once more if its client asks for it, as often as before otherwise |
| Effects.LookupRun | device/glodroid/dragon_q6a/qrtr/src/ns.c:380-572 | over any run a lookup is live as often as its client asked for it since it last gave it up |
| Effects.LookupLives | device/glodroid/dragon_q6a/qrtr/src/ns.c:380-572 | over any run a live lookup stays live, as often as it was or more, until its own client gives it up |
| Registry.HandleKeepsInvariant | device/glodroid/dragon_q6a/qrtr/src/ns.c:574-655 | every packet from anyone keeps the registry invariant: each server is filed under its own node and port with nonzero service and port, node records are unique, lookups are local |
| Registry.PacketChangesOnlyItsNode | device/glodroid/dragon_q6a/qrtr/src/ns.c:394-502 | a packet from one node leaves every other node's table as it was |
| Registry.LocalPacketChangesOnlyItsPort | device/glodroid/dragon_q6a/qrtr/src/ns.c:380-509 | a local packet other than BYE leaves the answer for any port but the sender's as it was, if and only if it does not make the table grow, or the growth does not change that answer |
| Registry.HandleAnswers | device/glodroid/dragon_q6a/qrtr/src/ns.c:246-509 | a packet changes what is registered for each node as a finite map update if and only if it is tame: what it removes has one record, what BYE drains is not split, and a growth changes no other answer |
| Registry.TameIsHeeded | device/glodroid/dragon_q6a/qrtr/src/ns.c:246-509 | a packet is tame if and only if, for every port, the answer after it, read off the table before it, is what the packet says |
| Growth.GrowthPacketExample | device/glodroid/dragon_q6a/qrtr/src/ns.c:246-287 | a reachable state of a fresh name server in which any registration at another port of the node brings a replaced service back |
| Registry.HandleViews | device/glodroid/dragon_q6a/qrtr/src/ns.c:246-509 | in a table without duplicates a packet is such an update, and keeps duplicates away if and only if it does not register a live port behind a tombstone |
| Registry.UncleanServerSurvives | device/glodroid/dragon_q6a/qrtr/src/ns.c:246-321 | after a registration behind a tombstone, deleting the server brings back the one it replaced |
| Registry.DrainVisitsAll | device/glodroid/dragon_q6a/qrtr/src/ns.c:335-378 | BYE leaves nothing of the node if and only if no port has records on both sides of its home slot; it then sends the removal packets of every record, once each, in table order |
| Registry.DrainSends | device/glodroid/dragon_q6a/qrtr/src/ns.c:335-359 | whatever BYE leaves behind, it sends the removal packets of exactly the records it removes, in order |
| Examples.ByeExample | device/glodroid/dragon_q6a/qrtr/src/ns.c:335-378 | after four registrations and removals of two ports, BYE leaves a service registered |
| Registry.OneRecordPerNode | device/glodroid/dragon_q6a/qrtr/src/ns.c:88-116 | no two node records have the same id |
| Registry.RunKeeps | device/glodroid/dragon_q6a/qrtr/src/ns.c:574-655 | the invariant holds over every run; clean runs keep the tables free of duplicates |
| Registry.RegistryOverRuns | device/glodroid/dragon_q6a/qrtr/src/ns.c:246-287 | over every run of a fresh name server, clean or not, whatever a table answers for a node and port is a server of that node and port with nonzero service, and all lookups are local |
| Registry.FreshServer | device/glodroid/dragon_q6a/qrtr/src/ns.c:88-116 | a name server starts in the invariant |
| LookupReplies.LookupReply | device/glodroid/dragon_q6a/qrtr/src/ns.c:511-547 | the reply to a lookup names every registered matching server and ends with the all-zero record, which no server equals; it names nothing else and nothing twice if and only if every matching record is the one found first for its port |
| LookupReplies.WildcardReply | device/glodroid/dragon_q6a/qrtr/src/ns.c:511-547 | for a lookup of every service that is the case if and only if no table has a duplicate |
| Examples.ReplyExample | device/glodroid/dragon_q6a/qrtr/src/ns.c:511-547 | a reachable table in which a service is named twice |
| Observer.ObserverStep | device/glodroid/dragon_q6a/qrtr/src/ns.c:203-222 | for any lookup and any packet: the client misses nothing registered if no record it matches comes up unannounced, and if it knew exactly what was registered, only then; it stays exact if and only if, besides, no server it was told of is replaced unannounced and no reply names a stale record |
| Observer.TameForAll | device/glodroid/dragon_q6a/qrtr/src/ns.c:203-222 | for a lookup of every service that is the case if and only if the packet is tame |
| Observer.WildcardStep | device/glodroid/dragon_q6a/qrtr/src/ns.c:203-222 | for a client that looked up every service and knows exactly what is registered: it misses nothing after a packet if and only if the packet is tame, and stays exact if and only if the packet does not mislead it either |
| Examples.ObserverExample | device/glodroid/dragon_q6a/qrtr/src/ns.c:289-321 | a client is told that a service is gone which is still registered |
| Observer.SwapExample | device/glodroid/dragon_q6a/qrtr/src/ns.c:444-481 | after a client has looked a service up and a port has offered it, the same port offering another service leaves the client believing in the first, in a run without duplicates |
| Observer.ObserverRun | device/glodroid/dragon_q6a/qrtr/src/ns.c:203-547 | over any run in which no record a live lookup matches comes up unannounced, it has been told of every matching server |
| Observer.ExactRun | device/glodroid/dragon_q6a/qrtr/src/ns.c:203-547 | over any run at all, a lookup knows exactly what is registered whenever it is live, if and only if every packet is honest with it |
| Observer.BornHere | device/glodroid/dragon_q6a/qrtr/src/ns.c:511-535 | a lookup appears only through its own client's NEW_LOOKUP |
| Silence.DelClientCloses | device/glodroid/dragon_q6a/qrtr/src/ns.c:380-442 | in every state of the invariant: a local DEL_CLIENT leaves no lookup and no server of the port if and only if the port has at most one record, and exactly then sends nothing to it |
| Silence.OthersStayQuiet | device/glodroid/dragon_q6a/qrtr/src/ns.c:574-655 | any packet from anyone else, in any state of the invariant, keeps a closed port closed and sends it nothing |
| Silence.SilenceAfterClose | device/glodroid/dragon_q6a/qrtr/src/ns.c:380-442 | over every run after the DEL_CLIENT in which the port sends nothing, it has no lookup or server and receives nothing, if and only if it had at most one record at the DEL_CLIENT |
| Examples.SilenceExample | device/glodroid/dragon_q6a/qrtr/src/ns.c:380-442 | a reachable state in which a client that closes its port stays registered and is told of its own end |
| Replication.Speaks | device/glodroid/dragon_q6a/qrtr/src/ns.c:155-509 | the packets one step other than HELLO sends to a peer, applied to any part of the local registry, do to it exactly what the packet asked for, also when the table does not follow |
| Replication.AnnouncementCompletes | device/glodroid/dragon_q6a/qrtr/src/ns.c:224-244 | the reply to HELLO brings any part of the registry up to the whole if and only if the table is settled: of each key the copy announced last is the one found first; otherwise not even a part is left |
| Replication.StepExact | device/glodroid/dragon_q6a/qrtr/src/ns.c:574-655 | any delivery or outside packet at either of two name servers keeps the peer's copy part of the registry, or the whole of it, if and only if it passes a test on the tables before it and the packets in flight |
| Replication.StepKeeps | device/glodroid/dragon_q6a/qrtr/src/ns.c:574-655 | a step keeps the two in step, a part before the sender has heard HELLO and the whole after, if and only if it is allowed |
| Replication.ReplicationRun | device/glodroid/dragon_q6a/qrtr/src/ns.c:224-509 | over any run of two name servers joined by FIFO channels: what is in flight applied to the peer's copy is a part of the sender's registry throughout, and all of it once the sender has handled the peer's HELLO, if and only if each step is allowed |
| Replication.PartRunExact | device/glodroid/dragon_q6a/qrtr/src/ns.c:224-509 | the peer never believes in a server the sender does not have throughout a run, if and only if each step passes the smaller test, by which a removal at the sender is always allowed |
| Replication.WholeIsPart | device/glodroid/dragon_q6a/qrtr/src/ns.c:224-509 | whatever keeps the copy whole passes the smaller test |
| Replication.FreshPeer | device/glodroid/dragon_q6a/qrtr/src/ns.c:657-671 | the same for a peer that starts afresh and says HELLO to a name server with any history; when nothing is in flight to it and its HELLO was heard, its copy is the registry |
| Replication.HelloForever | device/glodroid/dragon_q6a/qrtr/src/ns.c:323-333 | once one of two name servers has said HELLO, a HELLO is in flight after every run: whoever receives it returns it |
| Divergence.DivergenceExample | device/glodroid/dragon_q6a/qrtr/src/ns.c:224-333 | a run of two fresh name servers, with nothing left in flight to the peer, after which the peer keeps a service that was removed, however many packets are delivered then: re-announcement after HELLO put it behind a tombstone |
| QmiBuffer.EncodeBasic | device/glodroid/dragon_q6a/qrtr/lib/qmi.c:206-217 | the elements are written one after the other and nothing else is |
| QmiBuffer.PutHeader | device/glodroid/dragon_q6a/qrtr/lib/qmi.c:54-58 | type and 16-bit little-endian length at the header's place |
| QmiEncoder.SkipToNext | device/glodroid/dragon_q6a/qrtr/lib/qmi.c:119-135 | the entry after the current group |
| QmiEncoder.EncodeString | device/glodroid/dragon_q6a/qrtr/lib/qmi.c:276-318 | succeeds exactly when the string is short enough and its own check passes, whatever the capacity; writes the length octets, below the top level, and the characters |
| QmiRoom.StringCheckExact | device/glodroid/dragon_q6a/qrtr/lib/qmi.c:295-308 | the string capacity check is exact at the top level; below it, exactly when the octets do not come within three of the capacity |
| QmiEncoder.UncheckedStringExample | device/glodroid/dragon_q6a/qrtr/lib/qmi.c:303-308 | a struct whose nested string passes every check for three octets while its encoding takes six |
| QmiEncoder.WritesPastItsRoom | device/glodroid/dragon_q6a/qrtr/lib/qmi.c:332-463 | called with that struct and a capacity of three, qmi_encode returns six and has changed the fourth to sixth octet of the buffer |
| QmiEncoder.EncodeStructs | device/glodroid/dragon_q6a/qrtr/lib/qmi.c:237-258 | succeeds exactly when every element passes its checks in the room left; writes their encodings in order |
| QmiEncoder.EncodeElem | device/glodroid/dragon_q6a/qrtr/lib/qmi.c:402-447 | the same for one payload of any kind |
| QmiEncoder.EncodeLen | device/glodroid/dragon_q6a/qrtr/lib/qmi.c:380-400 | a count is written exactly when it fits with the header |
| QmiEncoder.CloseGroup | device/glodroid/dragon_q6a/qrtr/lib/qmi.c:454-460 | the back-patched header completes the TLV: type of the group, length of its payload |
| QmiEncoder.Encode | device/glodroid/dragon_q6a/qrtr/lib/qmi.c:332-463 | for every struct and capacity: succeeds if and only if every check passes; then returns the size of the encoding, writes exactly it and leaves every other octet alone; on failure nothing beyond where the checks stopped it is touched |
| QmiRoom.RoomExact | device/glodroid/dragon_q6a/qrtr/lib/qmi.c:332-463 | for every table, struct and capacity: the encoder succeeds inside its capacity if and only if the struct is legal and its encoding fits; without nested strings it never leaves its capacity, failing or not |
| QmiRoom.Tried | device/glodroid/dragon_q6a/qrtr/lib/qmi.c:332-463 | whatever passes all checks is a legal struct, and the size returned is that of its encoding |
| QmiRoom.Fitting | device/glodroid/dragon_q6a/qrtr/lib/qmi.c:332-463 | a legal struct whose encoding fits passes all checks, at every depth |
| QmiRoom.StaysInside | device/glodroid/dragon_q6a/qrtr/lib/qmi.c:332-463 | at every depth without strings, what has been written leaves room for a TLV header |
| QmiEncoder.GroupAhead | device/glodroid/dragon_q6a/qrtr/lib/qmi.c:351-462 | the encoding is the finished groups followed by the group ahead, and so is what the checks let through |
| QmiEncoder.PassFlag | device/glodroid/dragon_q6a/qrtr/lib/qmi.c:371-378 | a flag leads into its group when set and past it when clear |
| QmiTheorems.Framing | device/glodroid/dragon_q6a/qrtr/lib/qmi.c:351-462 | an encoding splits into the TLVs of exactly the present groups, in table order, each length field that of its payload |
| QmiWire.EncodingExact | device/glodroid/dragon_q6a/qrtr/lib/qmi.c:332-463 | for every table and struct, at the top level and below: the struct is legal and these octets are its encoding if and only if they are, group by group in table order, nothing for a clear flag, else the type and the 16-bit length of the body, low octet first, at the top level, and the body |
| QmiWire.BodyExact | device/glodroid/dragon_q6a/qrtr/lib/qmi.c:360-463 | a body is legal and encodes to these octets if and only if it has no more elements than declared and they are its count, in one octet or two, if it has one, and the payload of so many elements, none if that is 0 |
| QmiWire.PayloadExact | device/glodroid/dragon_q6a/qrtr/lib/qmi.c:206-318 | what integers, structs and strings encode to: a string is legal up to its declared length, and below the top level follows its length in one octet if 256 or fewer are declared and in two otherwise |
| QmiDecode.FindEiIsGroup | device/glodroid/dragon_q6a/qrtr/lib/qmi.c:608-620 | the search by type ends at the start of the group with that type |
| QmiDecoder.FindElement | device/glodroid/dragon_q6a/qrtr/lib/qmi.c:608-620 | the loop finds the first entry of the type |
| QmiDecoder.DecodeBasic | device/glodroid/dragon_q6a/qrtr/lib/qmi.c:480-491 | the loop reads past the message exactly when the message is shorter than the elements; else it consumes their octets, which become the first of the field, and the rest of the field is untouched |
| QmiDecoder.DecodeStructs | device/glodroid/dragon_q6a/qrtr/lib/qmi.c:512-539 | computes the specified decoding of an array of structs |
| QmiDecode.StringAccepts | device/glodroid/dragon_q6a/qrtr/lib/qmi.c:558-594 | a string is accepted exactly when the octets ahead are its length and its characters and it fits the field and the TLV |
| QmiDecoder.DecodeEntry | device/glodroid/dragon_q6a/qrtr/lib/qmi.c:676-738 | computes the specified decoding of a group: flag, length, payload |
| QmiDecoder.DecodeTlv | device/glodroid/dragon_q6a/qrtr/lib/qmi.c:650-667 | one TLV at the top level: known, skipped or refused |
| QmiDecoder.DecodeStruct | device/glodroid/dragon_q6a/qrtr/lib/qmi.c:634-744 | computes the specified decoding of a message or nested struct, whatever the octets |
| QmiGrammar.MessageAccepts | device/glodroid/dragon_q6a/qrtr/lib/qmi.c:634-744 | whatever the octets: a message decodes to a struct if and only if it can be read TLV by TLV from a zeroed struct until none is left, each TLV being the first group of its type, or of an unknown type from 16 on and as long as it says |
| QmiGrammar.GroupAccepts | device/glodroid/dragon_q6a/qrtr/lib/qmi.c:676-738 | a group is accepted if and only if its count is ahead and no larger than declared and its payload follows; flag, length and payload are then written and no other field |
| QmiGrammar.NestedAccepts | device/glodroid/dragon_q6a/qrtr/lib/qmi.c:634-744 | a nested struct is accepted if and only if its groups can be read one after the other until the table ends or the length is used up |
| QmiGrammar.ArrayAccepts | device/glodroid/dragon_q6a/qrtr/lib/qmi.c:512-539 | an array of structs is accepted if and only if the octets can be cut into structs, each beginning within the length, that fill it exactly at the top of a TLV, or are as many as counted and within it deeper down; elements not found are as before |
| QmiGrammar.PayloadAccepts | device/glodroid/dragon_q6a/qrtr/lib/qmi.c:480-594 | integers are copied, strings and arrays of structs read, exactly when that many octets are ahead and the lengths fit |
| QmiGrammar.UnknownTypes | device/glodroid/dragon_q6a/qrtr/lib/qmi.c:653-667 | of a type the table does not have, 0x10 and above are skipped with the octets their length says, and 0x0f and below are refused, wherever in a message |
| QmiRoundTrip.GroupBack | device/glodroid/dragon_q6a/qrtr/lib/qmi.c:676-738 | a kept group decodes to itself |
| QmiRoundTrip.OverlayExact | device/glodroid/dragon_q6a/qrtr/lib/qmi.c:683-691 | a one- or two-octet length is read correctly exactly when no larger count is left in the variable; else the result is above any legal count |
| QmiRoundTrip.NestedBack | device/glodroid/dragon_q6a/qrtr/lib/qmi.c:634-744 | a nested struct that is kept decodes, from the middle of a message, to itself, and consumes its own octets |
| QmiRoundTrip.NestedOnly | device/glodroid/dragon_q6a/qrtr/lib/qmi.c:634-744 | a nested struct that decodes to itself was kept |
| QmiRoundTrip.StringExact | device/glodroid/dragon_q6a/qrtr/lib/qmi.c:558-594 | a nested string decodes to itself exactly when its length fits its length octets |
| QmiTlv.PiecesBack | device/glodroid/dragon_q6a/qrtr/lib/qmi.c:634-744 | any sequence of kept TLVs of distinct groups, with unknown optional ones between, rebuilds its groups |
| QmiTlv.PiecesOnly | device/glodroid/dragon_q6a/qrtr/lib/qmi.c:634-744 | if every group comes back, every TLV was kept |
| QmiTlv.PiecesFrame | device/glodroid/dragon_q6a/qrtr/lib/qmi.c:634-744 | whatever the payloads, decoding ends where the message ends and touches only the groups whose TLVs occur |
| QmiTheorems.DecodeExact | device/glodroid/dragon_q6a/qrtr/lib/qmi.c:634-744 | any arrangement of a struct's TLVs decodes to the struct and to its last octet if and only if every TLV is kept in its place |
| QmiTheorems.RoundTrip | device/glodroid/dragon_q6a/qrtr/lib/qmi.c:332-744 | encode then decode gives the struct back, at every depth, to the last octet, if and only if no length is read over a larger left-over count and no nested string outgrows its length octets |
| QmiOrder.OrderIndependence | device/glodroid/dragon_q6a/qrtr/lib/qmi.c:649-741 | every order of a struct's TLVs, with any unknown optional ones between, decodes back to it if and only if each payload is kept on its own and no group leaves a count too large for the length octets of another |
| QmiOrder.SomeOrder | device/glodroid/dragon_q6a/qrtr/lib/qmi.c:649-741 | some order decodes back to the struct if and only if each payload is kept on its own |
| QmiOrder.OrderMatters | device/glodroid/dragon_q6a/qrtr/lib/qmi.c:649-741 | one order decodes back and another does not, exactly when the payloads are kept but some group hinders another |
| QmiUnknown.UnknownIsSkipped | device/glodroid/dragon_q6a/qrtr/lib/qmi.c:653-667 | in any octets whatever, at any place the decoder gets to, an unknown TLV of type 0x10 or above changes neither the outcome nor the struct; the size grows by exactly its own |
| QmiOrder.AlienBetween | device/glodroid/dragon_q6a/qrtr/lib/qmi.c:653-667 | between any two TLVs of a struct, kept or not, it does not decide whether the struct comes back |
| QmiTheorems.CarryExample | device/glodroid/dragon_q6a/qrtr/lib/qmi.c:640-691 | two TLVs that decode in one order and not in the other, because a one-octet length keeps a left-over count |
| QmiTheorems.NestedStringExample | device/glodroid/dragon_q6a/qrtr/lib/qmi.c:287-313 | a nested string of 256 characters is encoded but does not come back |
| QmiMinimum.CalcMinMsgLen | device/glodroid/dragon_q6a/qrtr/lib/qmi.c:144-189 | the loop computes the specified sum: strings and arrays of integers at their longest, a struct once |
| QmiWire.MinimumSums | device/glodroid/dragon_q6a/qrtr/lib/qmi.c:144-189 | the specified sum is, over the groups without a flag, of 3 at the top level, the count octets, and for the payload the longest array of integers, the longest string with its length octets, or one struct |
| QmiMinimum.NullStruct | device/glodroid/dragon_q6a/qrtr/lib/qmi.c:764-772 | a message may be sent without a struct if and only if some struct encodes to nothing; the zeroed one then does, and the empty payload decodes to it |
| QmiMinimum.MinimumExact | device/glodroid/dragon_q6a/qrtr/lib/qmi.c:137-189 | the shortest legal encoding of a table is `Shortest`, and some struct attains it; the calculated length is a lower bound of all legal encodings if and only if it does not exceed that |
| QmiMinimum.TooLongExample | device/glodroid/dragon_q6a/qrtr/lib/qmi.c:144-189 | a table whose calculated length exceeds its shortest encoding |
| QmiMinimum.TooShortExample | device/glodroid/dragon_q6a/qrtr/lib/qmi.c:165-168 | a table whose calculated length is below its shortest encoding, since an array of structs is counted once |
| QmiMessage.EncodeMessage | device/glodroid/dragon_q6a/qrtr/lib/qmi.c:757-795 | succeeds exactly when the header fits and every check passes; the packet then holds exactly the message; it succeeds within the packet exactly when the struct is legal, or not needed, and the message fits; each error code exactly in its case |
| QmiMessage.HeaderAccepts | device/glodroid/dragon_q6a/qrtr/lib/qmi.c:797-809 | the header is accepted exactly on messages, of any type and transaction, whose payload has the length it gives, and the id returned is theirs |
| QmiMessage.ReadMessage | device/glodroid/dragon_q6a/qrtr/lib/qmi.c:821-843 | computes the specified decoding |
| QmiMessage.HeaderOctets | device/glodroid/dragon_q6a/qrtr/lib/qmi.c:46-51 | where the fields of a message are: type, transaction, id, length of the payload, each with its low octet first, and then the payload |
| QmiMessage.MessageAhead | device/glodroid/dragon_q6a/qrtr/lib/qmi.c:797-846 | whatever the octets: the header is accepted exactly when octets 5 and 6 say how many follow, and gives octets 3 and 4; the message exactly when octet 0 is the type, 3 and 4 the id, 1 and 2 the transaction, and the rest decodes |
| QmiMessage.MessageRoundTrip | device/glodroid/dragon_q6a/qrtr/lib/qmi.c:757-843 | a message is accepted by both decoders with the same type, ids and struct, to the last octet, if and only if type, ids and length fit their header fields and the struct is kept |

## Left out

- Sockets, netlink, `poll`, the clock, logging, argument parsing, `fork` and dormant mode: sending appends to an outbox; packets, poll results and clock readings are arguments.
- `lib/qrtr.c`, `qrtr.py`, the Android components, patches, scripts and configuration: wrappers or settings.
- Allocation failure, memory release, and failure of `sendto`; `map_destroy` and `waiter_destroy` only release memory.
- `list_prepend`, and `list_insert` at the front: nothing here uses them, and `list_prepend` leaves the old head's `prev` unset.
- `hash_string`, `hash_u64`, `hash_pointer` (`src/hash.c`): one expression each, unused by the tables.
- NameServer.Context: keeps `nodes` and each service table as the slot values that `SlotMap.Map` is proved to hold in the heap, and the lookups as the sequence that `IntrusiveList.List` is proved to be; the pointers between these structures are not modelled together.
- Replication.ReplicationRun: packets between two name servers arrive in order and are not lost, and no third party speaks for one of them.
- Registry.RegistryOverRuns: says nothing of EXIT, PING and RESUME_TX packets, which the code ignores, beyond that they change nothing; packets too short to hold their fields are treated as these.
- QmiEncoder.Encode: buffers are smaller than 2 GiB, so that the sums in the checks do not wrap around (the differences may, and do so in the model); nothing is said of writes beyond the end of the memory itself; the seven integer types are coded alike and are one kind, unrecognised types are not modelled; struct members are slots beside their table entries, without byte offsets.
- QmiEncoder.Encode: tables are those the code can walk at all, that is, closed by an end marker, each top-level group with a TLV type of its own, flags at the top level only, lengths of 1, 2 or 4 octets.
- QmiEncoder.Encode: a string entry whose array type is counted, which the code encodes after its count and otherwise like any string, is not modelled.
- QmiDecoder.DecodeStruct: a read past the message, which the code does not check for, is an outcome of its own; nothing is said about what such a read yields.
- QmiTheorems.RoundTrip: decoding starts from a zeroed struct; elements beyond the count, octets after a string's terminator and absent groups come back as zero, and a set flag as 1.
- QmiMinimum.CalcMinMsgLen: the sum is not bounded by 32 bits.
- QmiMessage.EncodeMessage: the packet type and addresses of `qrtr_packet` are not modelled.
- Waiter.Waiter.Wait: callbacks do not add or delete tickets, and some ticket has been added before, as the poll set does not exist earlier.
- Big-endian machines: the code copies raw memory; octet order is little-endian throughout.
