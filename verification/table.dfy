/** The open-addressing table of src/map.c as a value: an array of slots, probed linearly with
    wrap-around, in which a removed entry leaves a tombstone. `SlotMap.Map` and the name server
    are both proved against the functions below. */
module SlotTable {
  import opened Options

  /** A slot's `item` pointer: NULL, the address of the `deleted` marker, or a stored item,
      which carries its own key. */
  datatype Slot<+T> = Never | Tomb | Live(key: nat, item: T)
  {
    predicate Holds(k: nat) { Live? && key == k }
  }

  type Slots<+T> = seq<Slot<T>>

  /** How many slots one growth step adds. */
  const GROWTH: nat := 256

  function Home(n: nat, key: nat): (h: nat)
    requires 0 < n
    ensures h < n
  {
    key % n
  }

  /** The slot examined at step i of a probe: `idx = key % size`, then `(idx + 1) % size` i times. */
  function Probe(n: nat, key: nat, i: nat): (p: nat)
    requires i < n
    ensures p < n
  {
    var h := Home(n, key);
    if h + i < n then h + i else h + i - n
  }

  /** The step at which a probe for `key` reaches slot p. */
  function Distance(n: nat, key: nat, p: nat): (d: nat)
    requires p < n
    ensures d < n && Probe(n, key, d) == p
    ensures forall i: nat :: i < n && Probe(n, key, i) == p ==> i == d
  {
    var h := Home(n, key);
    if h <= p then p - h else p + n - h
  }

  /** map_find: skip tombstones and other keys, give up at a never-used slot. */
  function FindFrom<T>(s: Slots<T>, key: nat, i: nat): (p: Option<nat>)
    requires i <= |s|
    ensures p.Some? ==> p.value < |s| && s[p.value].Holds(key)
    decreases |s| - i
  {
    if i == |s| then None
    else
      var p := Probe(|s|, key, i);
      if s[p].Never? then None
      else if s[p].Holds(key) then Some(p)
      else FindFrom(s, key, i + 1)
  }

  function Find<T>(s: Slots<T>, key: nat): Option<nat> { FindFrom(s, key, 0) }

  function Get<T>(s: Slots<T>, key: nat): Option<T> {
    var p := Find(s, key);
    if p.None? then None else Some(s[p.value].item)
  }

  /** map_hash: the first slot that is free (never used or a tombstone) or already holds `key`. */
  function ClaimFrom<T>(s: Slots<T>, key: nat, i: nat): (p: Option<nat>)
    requires i <= |s|
    ensures p.Some? ==> p.value < |s| && (s[p.value].Live? ==> s[p.value].key == key)
    decreases |s| - i
  {
    if i == |s| then None
    else
      var p := Probe(|s|, key, i);
      if !s[p].Live? || s[p].key == key then Some(p) else ClaimFrom(s, key, i + 1)
  }

  function Claim<T>(s: Slots<T>, key: nat): Option<nat> { ClaimFrom(s, key, 0) }

  /** The number of stored items, which `count` tracks. */
  function Count<T>(s: Slots<T>): (c: nat)
    ensures c <= |s|
  {
    if s == [] then 0 else Count(s[..|s|-1]) + (if s[|s|-1].Live? then 1 else 0)
  }

  predicate Full<T>(s: Slots<T>) { Count(s) == |s| }

  /** map_put on a table with a free slot. */
  function PutFree<T>(s: Slots<T>, key: nat, item: T): (r: Slots<T>)
    ensures |r| == |s|
  {
    var p := Claim(s, key);
    if p.None? then s else s[p.value := Live(key, item)]
  }

  function Blank<T>(n: nat): (s: Slots<T>)
    ensures |s| == n && forall i :: 0 <= i < n ==> s[i] == Never
  {
    seq(n, i => Never)
  }

  /** The copying loop of map_rehash: the old slots from i on are put, in index order, into `to`. */
  function Refill<T>(from: Slots<T>, i: nat, to: Slots<T>): (r: Slots<T>)
    requires i <= |from|
    ensures |r| == |to|
    decreases |from| - i
  {
    if i == |from| then to
    else Refill(from, i + 1, if from[i].Live? then PutFree(to, from[i].key, from[i].item) else to)
  }

  function Grow<T>(s: Slots<T>): (r: Slots<T>)
    ensures |r| == |s| + GROWTH
  {
    Refill(s, 0, Blank(|s| + GROWTH))
  }

  /** map_put: grow when full, then claim a slot. */
  function Put<T>(s: Slots<T>, key: nat, item: T): Slots<T> {
    PutFree(if Full(s) then Grow(s) else s, key, item)
  }

  /** map_remove: the entry found becomes a tombstone. */
  function Remove<T>(s: Slots<T>, key: nat): (r: Slots<T>)
    ensures |r| == |s|
  {
    var p := Find(s, key);
    if p.None? then s else s[p.value := Tomb]
  }

  /** map_iter_from: the first stored item at or after slot i. */
  function Next<T>(s: Slots<T>, i: nat): (p: Option<nat>)
    ensures p.Some? ==> i <= p.value < |s| && s[p.value].Live?
    decreases |s| - i
  {
    if i >= |s| then None
    else if s[i].Live? then Some(i)
    else Next(s, i + 1)
  }

  /** The stored items from slot i on, in index order. */
  function ItemsFrom<T>(s: Slots<T>, i: nat): seq<T>
    decreases |s| - i
  {
    if i >= |s| then [] else (if s[i].Live? then [s[i].item] else []) + ItemsFrom(s, i + 1)
  }

  function Items<T>(s: Slots<T>): seq<T> { ItemsFrom(s, 0) }

  lemma {:induction false} NextItems<T>(s: Slots<T>, i: nat)
    ensures var p := Next(s, i);
            ItemsFrom(s, i) == if p.None? then [] else [s[p.value].item] + ItemsFrom(s, p.value + 1)
    decreases |s| - i
  {
    if i < |s| && !s[i].Live? {
      var rest := ItemsFrom(s, i + 1);
      assert ItemsFrom(s, i) == [] + rest == rest;
      NextItems(s, i + 1);
    }
  }

  lemma {:induction false} NextIsFirst<T>(s: Slots<T>, i: nat, j: nat)
    requires i <= j < |s| && (Next(s, i).Some? ==> j < Next(s, i).value)
    ensures !s[j].Live?
    decreases |s| - i
  {
    if i < j && !s[i].Live? {
      NextIsFirst(s, i + 1, j);
    }
  }

  /** Following the iterator from slot i meets exactly the stored items, in index order. */
  lemma NextSkips<T>(s: Slots<T>, i: nat)
    ensures var p := Next(s, i);
            ItemsFrom(s, i) == if p.None? then [] else [s[p.value].item] + ItemsFrom(s, p.value + 1)
    ensures forall j :: i <= j < (if Next(s, i).None? then |s| else Next(s, i).value) ==> !s[j].Live?
  {
    NextItems(s, i);
    forall j | i <= j < (if Next(s, i).None? then |s| else Next(s, i).value)
      ensures !s[j].Live?
    {
      NextIsFirst(s, i, j);
    }
  }

  /** One round of a map_for_each loop that has passed `done` and looks for the next entry from slot i. */
  lemma WalkStep<T>(s: Slots<T>, i: nat, done: seq<T>)
    requires done + ItemsFrom(s, i) == Items(s)
    ensures var p := Next(s, i);
            if p.None? then done == Items(s) else (done + [s[p.value].item]) + ItemsFrom(s, p.value + 1) == Items(s)
  {
    NextSkips(s, i);
  }

  lemma {:induction false} ItemsAgree<T>(s: Slots<T>, r: Slots<T>, i: nat)
    requires |s| == |r| && forall j :: i <= j < |s| ==> s[j] == r[j]
    ensures ItemsFrom(s, i) == ItemsFrom(r, i)
    decreases |s| - i
  {
    if i < |s| {
      ItemsAgree(s, r, i + 1);
    }
  }

  // ----- The table invariant and the stack of copies a key may have -----

  /** No never-used slot lies between an item's home slot and the slot it occupies. */
  ghost predicate NoGaps<T>(s: Slots<T>) {
    forall p, i: nat {:trigger Probe(|s|, s[p].key, i)} ::
      0 <= p < |s| && s[p].Live? && i < Distance(|s|, s[p].key, p) ==> !s[Probe(|s|, s[p].key, i)].Never?
  }

  function Match<T>(x: Slot<T>, key: nat): seq<T> {
    if x.Holds(key) then [x.item] else []
  }

  /** The items stored under `key` in probe order, from step i on. */
  function StackFrom<T>(s: Slots<T>, key: nat, i: nat): seq<T>
    requires i <= |s|
    decreases |s| - i
  {
    if i == |s| then [] else Match(s[Probe(|s|, key, i)], key) + StackFrom(s, key, i + 1)
  }

  function Stack<T>(s: Slots<T>, key: nat): seq<T> { StackFrom(s, key, 0) }

  function Tail<T>(q: seq<T>): seq<T> { if q == [] then [] else q[1..] }

  /** Every key has at most one live copy. */
  ghost predicate Unique<T>(s: Slots<T>) { forall k: nat :: |Stack(s, k)| <= 1 }

  ghost predicate Has<T>(s: Slots<T>, key: nat) { exists p :: 0 <= p < |s| && s[p].Holds(key) }

  lemma {:induction false} StackAgrees<T>(s: Slots<T>, r: Slots<T>, key: nat, i: nat)
    requires |s| == |r| && i <= |s|
    requires forall j: nat :: i <= j < |s| ==> Match(s[Probe(|s|, key, j)], key) == Match(r[Probe(|s|, key, j)], key)
    ensures StackFrom(s, key, i) == StackFrom(r, key, i)
    decreases |s| - i
  {
    if i < |s| {
      StackAgrees(s, r, key, i + 1);
    }
  }

  lemma {:induction false} StackHas<T>(s: Slots<T>, key: nat, i: nat)
    requires i <= |s|
    ensures StackFrom(s, key, i) != [] <==> exists j: nat :: i <= j < |s| && s[Probe(|s|, key, j)].Holds(key)
    decreases |s| - i
  {
    if i < |s| {
      StackHas(s, key, i + 1);
    }
  }

  lemma HasStack<T>(s: Slots<T>, key: nat)
    ensures Has(s, key) <==> Stack(s, key) != []
  {
    StackHas(s, key, 0);
    if Has(s, key) {
      var p :| 0 <= p < |s| && s[p].Holds(key);
      assert s[Probe(|s|, key, Distance(|s|, key, p))].Holds(key);
    }
  }

  lemma {:induction false} StackSkips<T>(s: Slots<T>, key: nat, i: nat, d: nat)
    requires i <= d <= |s|
    requires forall j: nat :: i <= j < d ==> !s[Probe(|s|, key, j)].Holds(key)
    ensures StackFrom(s, key, i) == StackFrom(s, key, d)
    decreases d - i
  {
    if i < d {
      StackSkips(s, key, i + 1, d);
    }
  }

  lemma {:induction false} FindSkips<T>(s: Slots<T>, key: nat, i: nat)
    requires NoGaps(s) && i <= |s|
    ensures var d := if FindFrom(s, key, i).None? then |s| else Distance(|s|, key, FindFrom(s, key, i).value);
            i <= d && forall j: nat :: i <= j < d ==> !s[Probe(|s|, key, j)].Holds(key)
    decreases |s| - i
  {
    if i < |s| {
      var p := Probe(|s|, key, i);
      if s[p].Never? {
        forall j: nat | i <= j < |s|
          ensures !s[Probe(|s|, key, j)].Holds(key)
        {
          var q := Probe(|s|, key, j);
          assert Distance(|s|, key, q) == j;
        }
      } else if !s[p].Holds(key) {
        FindSkips(s, key, i + 1);
      }
    }
  }

  /** get is the top of the stack. */
  lemma GetIsTop<T>(s: Slots<T>, key: nat)
    requires NoGaps(s)
    ensures Get(s, key) == if Stack(s, key) == [] then None else Some(Stack(s, key)[0])
  {
    FindSkips(s, key, 0);
    var p := Find(s, key);
    StackSkips(s, key, 0, if p.None? then |s| else Distance(|s|, key, p.value));
  }

  /** remove pops the key's stack and leaves every other stack alone. */
  lemma RemovePops<T>(s: Slots<T>, key: nat)
    requires NoGaps(s)
    ensures NoGaps(Remove(s, key))
    ensures Stack(Remove(s, key), key) == Tail(Stack(s, key))
    ensures forall k: nat :: k != key ==> Stack(Remove(s, key), k) == Stack(s, k)
  {
    FindSkips(s, key, 0);
    var r := Remove(s, key);
    if Find(s, key).None? {
      StackSkips(s, key, 0, |s|);
    } else {
      var p := Find(s, key).value;
      var d := Distance(|s|, key, p);
      StackSkips(s, key, 0, d);
      StackSkips(r, key, 0, d);
      StackAgrees(s, r, key, d + 1);
    }
    forall k: nat | k != key
      ensures Stack(r, k) == Stack(s, k)
    {
      StackAgrees(s, r, k, 0);
    }
  }

  lemma {:induction false} ClaimSkips<T>(s: Slots<T>, key: nat, i: nat)
    requires i <= |s|
    ensures ClaimFrom(s, key, i).None? ==>
              forall j: nat :: i <= j < |s| ==> s[Probe(|s|, key, j)].Live? && s[Probe(|s|, key, j)].key != key
    ensures ClaimFrom(s, key, i).Some? ==>
              var d := Distance(|s|, key, ClaimFrom(s, key, i).value);
              && i <= d
              && forall j: nat :: i <= j < d ==> s[Probe(|s|, key, j)].Live? && s[Probe(|s|, key, j)].key != key
    decreases |s| - i
  {
    if i < |s| {
      var p := Probe(|s|, key, i);
      if s[p].Live? && s[p].key != key {
        ClaimSkips(s, key, i + 1);
      }
    }
  }

  lemma PutKeepsNoGaps<T>(s: Slots<T>, key: nat, item: T)
    requires NoGaps(s) && Claim(s, key).Some?
    ensures NoGaps(PutFree(s, key, item))
  {
    ClaimSkips(s, key, 0);
  }

  /** put replaces the top of the key's stack, or pushes when the slot it claims was free. */
  lemma PutPushesOrReplaces<T>(s: Slots<T>, key: nat, item: T)
    requires NoGaps(s) && Claim(s, key).Some?
    ensures NoGaps(PutFree(s, key, item))
    ensures Stack(PutFree(s, key, item), key) ==
            [item] + if s[Claim(s, key).value].Live? then Tail(Stack(s, key)) else Stack(s, key)
    ensures s[Claim(s, key).value].Live? ==> Stack(s, key) != []
    ensures forall k: nat :: k != key ==> Stack(PutFree(s, key, item), k) == Stack(s, k)
  {
    PutKeepsNoGaps(s, key, item);
    PutOwnStack(s, key, item);
    forall k: nat | k != key { PutOthers(s, key, item, k); }
  }

  /** The claimed slot comes before the key's other copies. */
  lemma PutStackParts<T>(s: Slots<T>, key: nat, item: T) returns (rest: seq<T>)
    requires Claim(s, key).Some?
    ensures Stack(s, key) == Match(s[Claim(s, key).value], key) + rest
    ensures Stack(PutFree(s, key, item), key) == [item] + rest
  {
    ClaimSkips(s, key, 0);
    var d := Distance(|s|, key, Claim(s, key).value);
    var r := PutFree(s, key, item);
    StackSkips(s, key, 0, d);
    StackSkips(r, key, 0, d);
    StackAgrees(s, r, key, d + 1);
    rest := StackFrom(s, key, d + 1);
  }

  lemma PutOwnStack<T>(s: Slots<T>, key: nat, item: T)
    requires Claim(s, key).Some?
    ensures Stack(PutFree(s, key, item), key) ==
            [item] + if s[Claim(s, key).value].Live? then Tail(Stack(s, key)) else Stack(s, key)
    ensures s[Claim(s, key).value].Live? ==> Stack(s, key) != []
  {
    var rest := PutStackParts(s, key, item);
    if s[Claim(s, key).value].Live? {
      assert Tail(Match(s[Claim(s, key).value], key) + rest) == rest;
    } else {
      assert [] + rest == rest;
    }
  }

  lemma PutOthers<T>(s: Slots<T>, key: nat, item: T, k: nat)
    requires k != key
    ensures Stack(PutFree(s, key, item), k) == Stack(s, k)
  {
    StackAgrees(s, PutFree(s, key, item), k, 0);
  }

  // ----- Counting and growth -----

  lemma {:induction false} CountUpdate<T>(s: Slots<T>, p: nat, x: Slot<T>)
    requires p < |s|
    ensures Count(s[p := x]) == Count(s) - (if s[p].Live? then 1 else 0) + (if x.Live? then 1 else 0)
  {
    var n := |s| - 1;
    if p == n {
      assert s[p := x][..n] == s[..n];
    } else {
      assert s[p := x][..n] == s[..n][p := x];
      CountUpdate(s[..n], p, x);
    }
  }

  lemma {:induction false} FullIsAllLive<T>(s: Slots<T>)
    ensures Full(s) <==> forall p :: 0 <= p < |s| ==> s[p].Live?
  {
    if s != [] {
      FullIsAllLive(s[..|s|-1]);
      assert Full(s) <==> Full(s[..|s|-1]) && s[|s|-1].Live?;
      assert forall p :: 0 <= p < |s| - 1 ==> s[p] == s[..|s|-1][p];
    }
  }

  /** A table is full when every slot holds an item. map_hash never returns -2: one that is not full always
      yields a slot. */
  lemma NotFullClaims<T>(s: Slots<T>, key: nat)
    ensures Claim(s, key).None? ==> Full(s)
    ensures Full(s) <==> forall p :: 0 <= p < |s| ==> s[p].Live?
  {
    FullIsAllLive(s);
    if Claim(s, key).None? {
      ClaimSkips(s, key, 0);
      forall p: nat | p < |s|
        ensures s[p].Live?
      {
        assert Probe(|s|, key, Distance(|s|, key, p)) == p;
      }
    }
  }

  lemma PutFreeCount<T>(s: Slots<T>, key: nat, item: T)
    requires !Full(s)
    ensures Claim(s, key).Some?
    ensures Count(PutFree(s, key, item)) == Count(s) + if s[Claim(s, key).value].Live? then 0 else 1
  {
    NotFullClaims(s, key);
    CountUpdate(s, Claim(s, key).value, Live(key, item));
  }

  ghost predicate NoTombs<T>(s: Slots<T>) { forall p :: 0 <= p < |s| ==> !s[p].Tomb? }

  /** Without tombstones a key that is present is always replaced, never pushed. */
  lemma ClaimWithoutTombs<T>(s: Slots<T>, key: nat)
    requires NoGaps(s) && NoTombs(s) && Claim(s, key).Some?
    ensures s[Claim(s, key).value].Live? <==> Has(s, key)
  {
    ClaimSkips(s, key, 0);
    var p := Claim(s, key).value;
    if Has(s, key) {
      var q: nat :| q < |s| && s[q].Holds(key);
      assert Probe(|s|, key, Distance(|s|, key, p)) == p;
      assert !(Distance(|s|, key, q) < Distance(|s|, key, p));
    }
  }

  /** The item with key `key` at the highest index at or after i. */
  function LastFrom<T>(s: Slots<T>, i: nat, key: nat): Option<T>
    requires i <= |s|
    decreases |s| - i
  {
    if i == |s| then None
    else
      var later := LastFrom(s, i + 1, key);
      if later.Some? then later else if s[i].Holds(key) then Some(s[i].item) else None
  }

  /** Without tombstones a put leaves the key with one copy. */
  lemma PutWithoutTombs<T>(to: Slots<T>, key: nat, item: T)
    requires NoGaps(to) && NoTombs(to) && !Full(to) && |Stack(to, key)| <= 1
    ensures var r := PutFree(to, key, item);
            && NoGaps(r) && NoTombs(r) && Count(r) <= Count(to) + 1 && Stack(r, key) == [item]
            && forall k: nat :: k != key ==> Stack(r, k) == Stack(to, k)
  {
    PutFreeCount(to, key, item);
    PutPushesOrReplaces(to, key, item);
    ClaimWithoutTombs(to, key);
    HasStack(to, key);
  }

  lemma {:induction false} RefillStacks<T>(s: Slots<T>, i: nat, to: Slots<T>)
    requires i <= |s| && |s| < |to| && Count(to) <= i
    requires NoGaps(to) && NoTombs(to) && Unique(to)
    ensures NoGaps(Refill(s, i, to)) && NoTombs(Refill(s, i, to)) && Count(Refill(s, i, to)) <= |s|
    ensures forall k: nat :: Stack(Refill(s, i, to), k) ==
                             if LastFrom(s, i, k).Some? then [LastFrom(s, i, k).value] else Stack(to, k)
    decreases |s| - i
  {
    if i < |s| {
      var next := if s[i].Live? then PutFree(to, s[i].key, s[i].item) else to;
      if s[i].Live? {
        assert |Stack(to, s[i].key)| <= 1;
        PutWithoutTombs(to, s[i].key, s[i].item);
      }
      assert Unique(next) by {
        forall k: nat
          ensures |Stack(next, k)| <= 1
        {
          assert |Stack(to, k)| <= 1;
        }
      }
      RefillStacks(s, i + 1, next);
    }
  }

  lemma {:induction false} BlankIsEmpty<T>(n: nat, key: nat, i: nat)
    requires i <= n
    ensures StackFrom(Blank<T>(n), key, i) == []
    decreases n - i
  {
    if i < n {
      BlankIsEmpty<T>(n, key, i + 1);
    }
  }

  lemma {:induction false} BlankCount<T>(n: nat)
    ensures Count(Blank<T>(n)) == 0
  {
    if n > 0 {
      assert Blank<T>(n)[..n-1] == Blank<T>(n-1);
      BlankCount<T>(n - 1);
    }
  }

  /** Growing collapses the stack of every key to the copy at the highest index, and removes all tombstones. */
  lemma GrowCollapses<T>(s: Slots<T>)
    ensures NoGaps(Grow(s)) && NoTombs(Grow(s)) && Count(Grow(s)) <= |s| && !Full(Grow(s))
    ensures forall k: nat :: Stack(Grow(s), k) == if LastFrom(s, 0, k).Some? then [LastFrom(s, 0, k).value] else []
  {
    var to := Blank<T>(|s| + GROWTH);
    BlankCount<T>(|s| + GROWTH);
    forall k: nat
      ensures Stack(to, k) == []
    {
      BlankIsEmpty<T>(|s| + GROWTH, k, 0);
    }
    RefillStacks(s, 0, to);
  }

  lemma {:induction false} LastIsSome<T>(s: Slots<T>, i: nat, key: nat)
    requires i <= |s|
    ensures var l := LastFrom(s, i, key);
            if l.Some? then exists p :: i <= p < |s| && s[p].Holds(key) && s[p].item == l.value
            else forall p :: i <= p < |s| ==> !s[p].Holds(key)
    decreases |s| - i
  {
    if i < |s| {
      LastIsSome(s, i + 1, key);
    }
  }

  // ----- The finite map a table without duplicate keys stands for -----

  ghost predicate Valid<T>(s: Slots<T>) { NoGaps(s) && Unique(s) }

  ghost function Keys<T>(s: Slots<T>): (ks: set<nat>)
    ensures forall k :: k in ks <==> Has(s, k)
  {
    var ks := set p | 0 <= p < |s| && s[p].Live? :: s[p].key;
    assert forall k :: k in ks <==> Has(s, k) by {
      forall k | Has(s, k)
        ensures k in ks
      {
        var p :| 0 <= p < |s| && s[p].Holds(k);
        assert s[p].key in ks;
      }
    }
    ks
  }

  ghost function Abs<T>(s: Slots<T>): (m: map<nat, T>)
    ensures forall k :: k in m <==> Has(s, k)
    ensures forall k: nat :: k in m ==> Stack(s, k) != [] && m[k] == Stack(s, k)[0]
  {
    assert forall k: nat :: Has(s, k) ==> Stack(s, k) != [] by {
      forall k: nat { HasStack(s, k); }
    }
    map k | k in Keys(s) :: Stack(s, k)[0]
  }

  lemma {:induction false} ItemInStack<T>(s: Slots<T>, p: nat, i: nat)
    requires p < |s| && s[p].Live? && i <= Distance(|s|, s[p].key, p)
    ensures s[p].item in StackFrom(s, s[p].key, i)
    decreases |s| - i
  {
    if i < Distance(|s|, s[p].key, p) {
      ItemInStack(s, p, i + 1);
    }
  }

  /** In a table without duplicates a slot's item is what the map holds under its key. */
  lemma SlotIsMapped<T>(s: Slots<T>, p: nat)
    requires Unique(s) && p < |s| && s[p].Live?
    ensures Abs(s).Keys >= {s[p].key} && Abs(s)[s[p].key] == s[p].item
  {
    assert Has(s, s[p].key);
    ItemInStack(s, p, 0);
  }

  lemma TwoCopies<T>(s: Slots<T>, p: nat, q: nat)
    requires p < |s| && q < |s| && p != q && s[p].Live? && s[q].Holds(s[p].key)
    ensures !Unique(s)
  {
    var k := s[p].key;
    var d, e := Distance(|s|, k, p), Distance(|s|, k, q);
    TwoCopiesInOrder(s, k, 0, if d < e then d else e, if d < e then e else d);
    assert |Stack(s, k)| >= 2;
  }

  lemma {:induction false} TwoCopiesInOrder<T>(s: Slots<T>, k: nat, i: nat, d: nat, e: nat)
    requires i <= d < e < |s| && s[Probe(|s|, k, d)].Holds(k) && s[Probe(|s|, k, e)].Holds(k)
    ensures |StackFrom(s, k, i)| >= 2
    decreases d - i
  {
    if i == d {
      StackHas(s, k, d + 1);
    } else {
      TwoCopiesInOrder(s, k, i + 1, d, e);
    }
  }

  lemma HasPrefix<T>(s: Slots<T>, n: nat)
    requires 0 < n <= |s|
    ensures forall k: nat :: Has(s[..n], k) <==> Has(s[..n-1], k) || s[n-1].Holds(k)
  {
    var a, b := s[..n-1], s[..n];
    forall k: nat
      ensures Has(b, k) <==> Has(a, k) || b[n-1].Holds(k)
    {
      if p :| 0 <= p < n && b[p].Holds(k) {
        assert p < n - 1 ==> a[p].Holds(k);
      }
      if p :| 0 <= p < n - 1 && a[p].Holds(k) {
        assert b[p].Holds(k);
      }
    }
  }

  lemma KeysStep<T>(s: Slots<T>, n: nat)
    requires 0 < n <= |s|
    ensures Keys(s[..n]) == Keys(s[..n-1]) + if s[n-1].Live? then {s[n-1].key} else {}
  {
    HasPrefix(s, n);
  }

  /** No two slots hold the same key. */
  ghost predicate Apart<T>(s: Slots<T>) {
    forall p, q :: 0 <= p < q < |s| && s[p].Live? && s[q].Live? ==> s[p].key != s[q].key
  }

  lemma {:induction false} CountAboveKeys<T>(s: Slots<T>, n: nat)
    requires n <= |s|
    ensures Count(s[..n]) >= |Keys(s[..n])|
    ensures Count(s[..n]) == |Keys(s[..n])| <==> Apart(s[..n])
  {
    if n > 0 {
      CountAboveKeys(s, n - 1);
      KeysStep(s, n);
      assert s[..n][..n-1] == s[..n-1];
      ApartStep(s[..n]);
    }
  }

  lemma ApartStep<T>(s: Slots<T>)
    requires s != []
    ensures var n := |s| - 1; Apart(s) <==> Apart(s[..n]) && (s[n].Live? ==> !Has(s[..n], s[n].key))
  {
    var n := |s| - 1;
    if s[n].Live? && Has(s[..n], s[n].key) {
      var p :| 0 <= p < n && s[..n][p].Holds(s[n].key);
      assert s[p].Holds(s[n].key);
    }
    if Apart(s[..n]) && (s[n].Live? ==> !Has(s[..n], s[n].key)) {
      forall p, q | 0 <= p < q < |s| && s[p].Live? && s[q].Live?
        ensures s[p].key != s[q].key
      {
        assert s[..n][p] == s[p];
        assert q < n ==> s[..n][q] == s[q];
      }
    }
  }

  lemma {:induction false} ApartStack<T>(s: Slots<T>, k: nat, i: nat)
    requires Apart(s) && i <= |s|
    ensures |StackFrom(s, k, i)| <= 1
    decreases |s| - i
  {
    if i < |s| {
      ApartStack(s, k, i + 1);
      var p := Probe(|s|, k, i);
      StackHas(s, k, i + 1);
      if s[p].Holds(k) {
        forall j: nat | i + 1 <= j < |s|
          ensures !s[Probe(|s|, k, j)].Holds(k)
        {
          assert Distance(|s|, k, p) == i && Distance(|s|, k, Probe(|s|, k, j)) == j;
        }
      }
    }
  }

  lemma UniqueIsApart<T>(s: Slots<T>)
    ensures Unique(s) <==> Apart(s)
  {
    if Apart(s) {
      forall k: nat { ApartStack(s, k, 0); }
    }
    if p, q :| 0 <= p < q < |s| && s[p].Live? && s[q].Live? && s[p].key == s[q].key {
      TwoCopies(s, p, q);
    }
  }

  /** `count` is at least the number of keys, and exactly that if and only if no key is there twice. */
  lemma CountIsSize<T>(s: Slots<T>)
    ensures Count(s) >= |Abs(s)|
    ensures Count(s) == |Abs(s)| <==> Unique(s)
  {
    CountAboveKeys(s, |s|);
    assert s[..|s|] == s;
    assert Abs(s).Keys == Keys(s);
    UniqueIsApart(s);
  }

  /** The stacks determine the map. */
  lemma AbsFromStacks<T>(s: Slots<T>, m: map<nat, T>)
    requires forall k: nat :: Stack(s, k) == if k in m then [m[k]] else []
    ensures Abs(s) == m
  {
    forall k: nat
      ensures k in Abs(s) <==> k in m
    {
      HasStack(s, k);
    }
  }

  lemma StackFromAbs<T>(s: Slots<T>, k: nat)
    requires Unique(s)
    ensures Stack(s, k) == if k in Abs(s) then [Abs(s)[k]] else []
  {
    HasStack(s, k);
    assert |Stack(s, k)| <= 1;
  }

  lemma StacksFromAbs<T>(s: Slots<T>)
    requires Unique(s)
    ensures forall k: nat :: Stack(s, k) == if k in Abs(s) then [Abs(s)[k]] else []
  {
    forall k: nat { StackFromAbs(s, k); }
  }

  lemma GetRefines<T>(s: Slots<T>, key: nat)
    requires NoGaps(s)
    ensures Get(s, key) == if key in Abs(s) then Some(Abs(s)[key]) else None
  {
    GetIsTop(s, key);
    HasStack(s, key);
  }

  lemma RemoveRefines<T>(s: Slots<T>, key: nat)
    requires Valid(s)
    ensures Valid(Remove(s, key)) && Abs(Remove(s, key)) == Abs(s) - {key}
  {
    var r, m := Remove(s, key), Abs(s) - {key};
    RemovePops(s, key);
    forall k: nat
      ensures Stack(r, k) == if k in m then [m[k]] else []
    {
      StackFromAbs(s, k);
    }
    AbsFromStacks(r, m);
  }

  lemma GrowRefines<T>(s: Slots<T>)
    requires Unique(s)
    ensures Valid(Grow(s)) && Abs(Grow(s)) == Abs(s) && Count(Grow(s)) == Count(s)
  {
    GrowCollapses(s);
    forall k: nat
      ensures Stack(Grow(s), k) == Stack(s, k)
    {
      LastIsSome(s, 0, k);
      HasStack(s, k);
      if LastFrom(s, 0, k).Some? {
        var p :| 0 <= p < |s| && s[p].Holds(k) && s[p].item == LastFrom(s, 0, k).value;
        ItemInStack(s, p, 0);
      }
    }
    StacksFromAbs(s);
    AbsFromStacks(Grow(s), Abs(s));
    CountIsSize(s);
    CountIsSize(Grow(s));
  }

  /** The put would land in a free slot although the key is present further on: the case in
      which map_hash takes the first tombstone without looking further. */
  predicate Behind<T>(s: Slots<T>, key: nat) {
    !Full(s) && Find(s, key).Some? && var p := Claim(s, key); p.Some? && !s[p.value].Live?
  }

  lemma PutFreeRefines<T>(s: Slots<T>, key: nat, item: T)
    requires Valid(s) && Claim(s, key).Some?
    ensures var live := s[Claim(s, key).value].Live?;
            var r := PutFree(s, key, item);
            && NoGaps(r) && Stack(r, key) != [] && Stack(r, key)[0] == item
            && (Unique(r) <==> live || key !in Abs(s))
            && (live || key !in Abs(s) ==> Abs(r) == Abs(s)[key := item])
  {
    var r := PutFree(s, key, item);
    PutPushesOrReplaces(s, key, item);
    StacksFromAbs(s);
    if s[Claim(s, key).value].Live? || key !in Abs(s) {
      assert Stack(r, key) == [item];
      AbsFromStacks(r, Abs(s)[key := item]);
    } else {
      assert |Stack(r, key)| == 2;
    }
  }

  /** A put keeps the table a map exactly when it is not behind a tombstone; it then stores the
      binding, and it always makes the item the one `get` returns. */
  lemma PutRefines<T>(s: Slots<T>, key: nat, item: T)
    requires Valid(s)
    ensures NoGaps(Put(s, key, item)) && Get(Put(s, key, item), key) == Some(item)
    ensures Unique(Put(s, key, item)) <==> !Behind(s, key)
    ensures !Behind(s, key) ==> Abs(Put(s, key, item)) == Abs(s)[key := item]
  {
    var t := if Full(s) then Grow(s) else s;
    if Full(s) {
      GrowRefines(s);
      GrowCollapses(s);
      NotFullClaims(t, key);
      ClaimWithoutTombs(t, key);
    } else {
      NotFullClaims(t, key);
    }
    PutFreeRefines(t, key, item);
    GetIsTop(Put(s, key, item), key);
    GetRefines(t, key);
  }

  /** What map_reput hands back for the key: the item in the slot it claims. */
  function Previous<T>(s: Slots<T>, key: nat): Option<T> {
    var t := if Full(s) then Grow(s) else s;
    var p := Claim(t, key);
    if p.Some? && t[p.value].Live? then Some(t[p.value].item) else None
  }

  /** The item handed back is the one `get` would have returned if and only if the put is not behind
      a tombstone and, when it grows the table, the growth does not change the answer. */
  lemma PutReplacesBinding<T>(s: Slots<T>, key: nat)
    requires NoGaps(s)
    ensures Previous(s, key) == Get(s, key) <==> if Full(s) then LastFrom(s, 0, key) == Get(s, key) else !Behind(s, key)
  {
    var t := if Full(s) then Grow(s) else s;
    if Full(s) {
      GrowCollapses(s);
    }
    NotFullClaims(t, key);
    ClaimedIsTop(t, key);
    GetIsTop(t, key);
    if Full(s) {
      ClaimWithoutTombs(t, key);
      HasStack(t, key);
    }
  }

  /** A claimed slot that is taken holds the copy found first. */
  lemma ClaimedIsTop<T>(s: Slots<T>, key: nat)
    requires NoGaps(s) && Claim(s, key).Some?
    ensures var p := Claim(s, key).value; s[p].Live? ==> Get(s, key) == Some(s[p].item)
  {
    ClaimSkips(s, key, 0);
    var p := Claim(s, key).value;
    if s[p].Live? {
      var d := Distance(|s|, key, p);
      StackSkips(s, key, 0, d);
      GetIsTop(s, key);
    }
  }

  // ----- Whole runs -----

  datatype Op<+T> = OpPut(key: nat, item: T) | OpRemove(key: nat) | OpClear

  function Apply<T>(s: Slots<T>, op: Op<T>): Slots<T> {
    match op
    case OpPut(key, item) => Put(s, key, item)
    case OpRemove(key) => Remove(s, key)
    case OpClear => Blank(|s|)
  }

  function Run<T>(s: Slots<T>, ops: seq<Op<T>>): Slots<T>
    decreases |ops|
  {
    if ops == [] then s else Run(Apply(s, ops[0]), ops[1..])
  }

  function ApplyMap<T>(m: map<nat, T>, op: Op<T>): map<nat, T> {
    match op
    case OpPut(key, item) => m[key := item]
    case OpRemove(key) => m - {key}
    case OpClear => map[]
  }

  function RunMap<T>(m: map<nat, T>, ops: seq<Op<T>>): map<nat, T>
    decreases |ops|
  {
    if ops == [] then m else RunMap(ApplyMap(m, ops[0]), ops[1..])
  }

  /** No step of the run puts a key behind a tombstone. */
  predicate CleanRun<T>(s: Slots<T>, ops: seq<Op<T>>)
    decreases |ops|
  {
    ops == [] ||
    ((ops[0].OpPut? ==> !Behind(s, ops[0].key)) && CleanRun(Apply(s, ops[0]), ops[1..]))
  }

  lemma ClearRefines<T>(n: nat)
    ensures Valid(Blank<T>(n)) && Abs(Blank<T>(n)) == map[] && Count(Blank<T>(n)) == 0
  {
    forall k: nat
      ensures Stack(Blank<T>(n), k) == []
    {
      BlankIsEmpty<T>(n, k, 0);
    }
    AbsFromStacks(Blank<T>(n), map[]);
    BlankCount<T>(n);
  }

  lemma ApplyRefines<T>(s: Slots<T>, op: Op<T>)
    requires Valid(s) && (op.OpPut? ==> !Behind(s, op.key))
    ensures Valid(Apply(s, op)) && Abs(Apply(s, op)) == ApplyMap(Abs(s), op)
  {
    match op
    case OpPut(key, item) => PutRefines(s, key, item);
    case OpRemove(key) => RemoveRefines(s, key);
    case OpClear => ClearRefines<T>(|s|);
  }

  /** Over any clean run, including growth, the table agrees with a finite map, and its count
      with the number of keys. */
  lemma {:induction false} RunRefinesMap<T>(s: Slots<T>, ops: seq<Op<T>>)
    requires Valid(s) && CleanRun(s, ops)
    ensures Valid(Run(s, ops)) && Abs(Run(s, ops)) == RunMap(Abs(s), ops)
    ensures Count(Run(s, ops)) == |RunMap(Abs(s), ops)|
    ensures forall k: nat :: Get(Run(s, ops), k) ==
                             if k in RunMap(Abs(s), ops) then Some(RunMap(Abs(s), ops)[k]) else None
    decreases |ops|
  {
    if ops == [] {
      CountIsSize(s);
      forall k: nat { GetRefines(s, k); }
    } else {
      ApplyRefines(s, ops[0]);
      RunRefinesMap(Apply(s, ops[0]), ops[1..]);
    }
  }

  // ----- What goes wrong behind a tombstone, and in a growth with duplicates -----

  /** A put behind a tombstone leaves a stale copy: removing the key brings the old item back. */
  lemma StaleCopySurvivesRemove<T>(s: Slots<T>, key: nat, item: T)
    requires Valid(s) && Behind(s, key)
    ensures key in Abs(s) && Get(Remove(Put(s, key, item), key), key) == Some(Abs(s)[key])
  {
    var r := PutFree(s, key, item);
    GetRefines(s, key);
    StackFromAbs(s, key);
    PutPushesOrReplaces(s, key, item);
    assert Stack(r, key) == [item, Abs(s)[key]];
    RemovePops(r, key);
    GetIsTop(Remove(r, key), key);
  }

  function After(h: nat): nat { if h + 1 == GROWTH then 0 else h + 1 }

  /** A table of one growth step that holds one key twice, at its home slot and at the next. */
  function Twice<T>(key: nat, item: T): Slots<T> {
    var h := Home(GROWTH, key);
    Blank(GROWTH)[h := Live(key, item)][After(h) := Live(key, item)]
  }

  lemma FirstPut<T>(key: nat, item: T)
    ensures Put([], key, item) == Blank(GROWTH)[Home(GROWTH, key) := Live(key, item)]
  {
    assert Grow<T>([]) == Blank(GROWTH);
    assert Probe(GROWTH, key, 0) == Home(GROWTH, key);
  }

  /** Two keys with the same home slot: the second goes to the next one. */
  lemma SecondPut<T>(k1: nat, k2: nat, a: T, b: T)
    requires k1 != k2 && Home(GROWTH, k1) == Home(GROWTH, k2)
    ensures var h, s1 := Home(GROWTH, k1), Put([], k1, a); Put(s1, k2, b) == s1[After(h) := Live(k2, b)]
  {
    FirstPut(k1, a);
    var h, s1 := Home(GROWTH, k1), Put([], k1, a);
    FullIsAllLive(s1);
    assert s1[After(h)].Never?;
    assert Probe(GROWTH, k2, 0) == h && Probe(GROWTH, k2, 1) == After(h);
    assert ClaimFrom(s1, k2, 1) == Some(After(h));
    assert ClaimFrom(s1, k2, 0) == Some(After(h));
  }

  /** Once the first is removed the second is all there is, and once that is, nothing. */
  lemma OneLeft<T>(k1: nat, k2: nat, a: T, b: T)
    requires k1 != k2 && Home(GROWTH, k1) == Home(GROWTH, k2) == GROWTH - 1
    ensures var s := Remove(Put(Put([], k1, a), k2, b), k1);
            Items(s) == [b] && Get(s, k2) == Some(b) && Bare(Remove(s, k2))
  {
    FirstPut(k1, a);
    SecondPut(k1, k2, a, b);
    var h, s2 := GROWTH - 1, Put(Put([], k1, a), k2, b);
    assert Probe(GROWTH, k1, 0) == h && FindFrom(s2, k1, 0) == Some(h);
    var s := Remove(s2, k1);
    assert s == s2[h := Tomb];
    assert Probe(GROWTH, k2, 0) == h && Probe(GROWTH, k2, 1) == 0;
    assert FindFrom(s, k2, 1) == Some(0);
    assert FindFrom(s, k2, 0) == Some(0);
    assert Remove(s, k2) == s[0 := Tomb];
    NothingBetween(s, 1, GROWTH);
    assert ItemsFrom(s, 0) == [b] + ItemsFrom(s, 1);
  }

  /** Once the first is removed, the second, put again, goes to its home slot, and is there twice. */
  lemma ThirdPut<T>(k1: nat, k2: nat, a: T, b: T)
    requires k1 != k2 && Home(GROWTH, k1) == Home(GROWTH, k2)
    ensures Put(Remove(Put(Put([], k1, a), k2, b), k1), k2, b) == Twice(k2, b)
  {
    var h := Home(GROWTH, k1);
    FirstPut(k1, a);
    SecondPut(k1, k2, a, b);
    var s2 := Put(Put([], k1, a), k2, b);
    assert Probe(GROWTH, k1, 0) == h && FindFrom(s2, k1, 0) == Some(h);
    var s3 := Remove(s2, k1);
    assert s3 == s2[h := Tomb];
    FullIsAllLive(s3);
    assert s3[h].Tomb?;
    assert Probe(GROWTH, k2, 0) == h && ClaimFrom(s3, k2, 0) == Some(h);
    assert Put(s3, k2, b) == s3[h := Live(k2, b)];
  }

  /** What such a table answers, before and after the key is removed. */
  lemma TwiceAnswers<T>(key: nat, item: T)
    ensures var s := Twice(key, item);
            && NoGaps(s) && Stack(s, key) == [item, item] && Get(s, key) == Some(item)
            && Get(Remove(s, key), key) == Some(item)
            && forall p :: 0 <= p < |s| && s[p].Live? ==> s[p] == Live(key, item)
  {
    var s, h := Twice(key, item), Home(GROWTH, key);
    assert forall p :: 0 <= p < |s| ==> (s[p].Live? <==> p == h || p == After(h));
    assert Distance(|s|, key, h) == 0 && Distance(|s|, key, After(h)) == 1;
    assert NoGaps(s);
    assert Probe(|s|, key, 0) == h && Probe(|s|, key, 1) == After(h);
    forall j: nat | 2 <= j < |s|
      ensures !s[Probe(|s|, key, j)].Holds(key)
    {
      assert Distance(|s|, key, Probe(|s|, key, j)) == j;
    }
    StackSkips(s, key, 2, |s|);
    assert StackFrom(s, key, 1) == [item] + StackFrom(s, key, 2);
    assert StackFrom(s, key, 0) == [item] + StackFrom(s, key, 1);
    GetIsTop(s, key);
    RemoveAnswer(s, key, key);
  }

  /** Home at the last slot, the second copy is at slot 0: the removing loop leaves it behind. */
  lemma TwiceIsSplit<T>(key: nat, item: T)
    requires Home(GROWTH, key) + 1 == GROWTH
    ensures Split(Twice(key, item)) && !Bare(Sweep(Twice(key, item), 0))
  {
    var s := Twice(key, item);
    assert SplitAt(s, 0, GROWTH - 1);
    TwiceAnswers(key, item);
    SweepEmpties(s);
  }

  /** The iterator meets the item twice. */
  lemma TwiceListed<T>(key: nat, item: T)
    requires Home(GROWTH, key) + 1 == GROWTH
    ensures Items(Twice(key, item)) == [item, item]
  {
    var s := Twice(key, item);
    NextItems(s, 1);
    assert Next(s, GROWTH - 1) == Some(GROWTH - 1);
    NothingBetween(s, 1, GROWTH - 1);
    assert ItemsFrom(s, GROWTH - 1) == [item] + ItemsFrom(s, GROWTH) == [item];
    assert ItemsFrom(s, 0) == [item] + ItemsFrom(s, 1);
  }

  lemma {:induction false} NothingBetween<T>(s: Slots<T>, i: nat, j: nat)
    requires i <= j <= |s| && forall k :: i <= k < j ==> !s[k].Live?
    ensures ItemsFrom(s, i) == ItemsFrom(s, j)
    decreases j - i
  {
    if i < j {
      NothingBetween(s, i + 1, j);
    }
  }

  /** A put behind a tombstone, on two keys with the same home slot: a later removal brings the old
      item back. */
  lemma StaleCopyExample<T>(k1: nat, k2: nat, a: T, b: T, c: T)
    requires k1 != k2 && Home(GROWTH, k1) == Home(GROWTH, k2)
    ensures var s := Remove(Put(Put([], k1, a), k2, b), k1);
            Behind(s, k2) && Get(Remove(Put(s, k2, c), k2), k2) == Some(b)
  {
    var s0: Slots<T> := [];
    var s1 := Put(s0, k1, a);
    var s2 := Put(s1, k2, b);
    var s3 := Remove(s2, k1);
    FirstPut(k1, a);
    SecondPut(k1, k2, a, b);
    NothingStored(s0);
    PutAnswer(s0, k1, a, k1);
    PutAnswer(s1, k2, b, k1);
    PutAnswer(s1, k2, b, k2);
    RemoveAnswer(s2, k1, k2);
    FirstPutIsClean(k1, a);
    GetRefines(s1, k2);
    PutRefines(s1, k2, b);
    RemoveRefines(s2, k1);
    ThirdPut(k1, k2, a, b);
    StaleBehind(k1, k2, a, b);
    GetRefines(s3, k2);
    StaleCopySurvivesRemove(s3, k2, c);
  }

  lemma StaleBehind<T>(k1: nat, k2: nat, a: T, b: T)
    requires k1 != k2 && Home(GROWTH, k1) == Home(GROWTH, k2)
    ensures Behind(Remove(Put(Put([], k1, a), k2, b), k1), k2)
  {
    var h := Home(GROWTH, k1);
    FirstPut(k1, a);
    SecondPut(k1, k2, a, b);
    var s2 := Put(Put([], k1, a), k2, b);
    assert Probe(GROWTH, k1, 0) == h && FindFrom(s2, k1, 0) == Some(h);
    var s3 := Remove(s2, k1);
    assert s3 == s2[h := Tomb];
    FullIsAllLive(s3);
    assert s3[h].Tomb?;
    assert Probe(GROWTH, k2, 0) == h && Probe(GROWTH, k2, 1) == After(h);
    assert FindFrom(s3, k2, 1) == Some(After(h));
    assert FindFrom(s3, k2, 0) == Some(After(h));
  }

  /** Growing changes what `get` returns for a key exactly when the copy at the highest index is
      not the one found first, which needs two copies. */
  lemma GrowthKeepsGetIff<T>(s: Slots<T>, key: nat)
    requires NoGaps(s)
    ensures Get(Grow(s), key) == Get(s, key) <==> LastFrom(s, 0, key) == Get(s, key)
    ensures |Stack(s, key)| <= 1 ==> Get(Grow(s), key) == Get(s, key)
  {
    GrowCollapses(s);
    GetIsTop(Grow(s), key);
    GetIsTop(s, key);
    LastInStack(s, key);
  }

  /** The copy at the highest index is one of the stack's; there is none exactly when the stack is empty. */
  lemma LastInStack<T>(s: Slots<T>, key: nat)
    ensures var l := LastFrom(s, 0, key); if l.Some? then l.value in Stack(s, key) else Stack(s, key) == []
  {
    LastIsSome(s, 0, key);
    HasStack(s, key);
    if LastFrom(s, 0, key).Some? {
      var p: nat :| p < |s| && s[p].Holds(key) && s[p].item == LastFrom(s, 0, key).value;
      ItemInStack(s, p, 0);
    }
  }

  // ----- What single operations do to the answers, duplicates or not -----

  /** The answer for another key changes only in a growth, which keeps the copy at the highest index. */
  lemma PutAnswer<T>(s: Slots<T>, key: nat, item: T, k: nat)
    requires NoGaps(s)
    ensures NoGaps(Put(s, key, item))
    ensures Get(Put(s, key, item), k) == if k == key then Some(item) else if Full(s) then LastFrom(s, 0, k)
            else Get(s, k)
  {
    var t := if Full(s) then Grow(s) else s;
    if Full(s) {
      GrowCollapses(s);
    }
    NotFullClaims(t, key);
    PutPushesOrReplaces(t, key, item);
    GetIsTop(Put(s, key, item), k);
    GetIsTop(t, k);
  }

  lemma RemoveAnswer<T>(s: Slots<T>, key: nat, k: nat)
    requires NoGaps(s)
    ensures NoGaps(Remove(s, key))
    ensures Get(Remove(s, key), k) ==
            if k != key then Get(s, k) else if |Stack(s, key)| <= 1 then None else Some(Stack(s, key)[1])
  {
    RemovePops(s, key);
    GetIsTop(Remove(s, key), k);
    GetIsTop(s, k);
  }

  /** Growing would change no answer but that for `key`: of every other key the copy at the highest
      index is the one found first. */
  ghost predicate SettledBut<T>(s: Slots<T>, key: nat) {
    forall k: nat :: k != key ==> LastFrom(s, 0, k) == Get(s, k)
  }

  ghost predicate Settled<T>(s: Slots<T>) { forall k: nat :: LastFrom(s, 0, k) == Get(s, k) }

  lemma SameAnswers<T>(s: Slots<T>, m: map<nat, T>)
    requires NoGaps(s) && forall k: nat :: Get(s, k) == if k in m then Some(m[k]) else None
    ensures Abs(s) == m
  {
    forall k: nat { GetRefines(s, k); }
  }

  /** A put updates the map if and only if a growth it makes changes no other answer. */
  lemma PutAnswers<T>(s: Slots<T>, key: nat, item: T)
    requires NoGaps(s)
    ensures NoGaps(Put(s, key, item))
    ensures Abs(Put(s, key, item)) == Abs(s)[key := item] <==> (Full(s) ==> SettledBut(s, key))
  {
    var r, m := Put(s, key, item), Abs(s)[key := item];
    PutAnswer(s, key, item, key);
    forall k: nat
      ensures Get(r, k) == (if k == key then Some(item) else if Full(s) then LastFrom(s, 0, k) else Get(s, k))
      ensures Get(r, k) == if k in Abs(r) then Some(Abs(r)[k]) else None
      ensures k != key ==> Get(s, k) == if k in m then Some(m[k]) else None
    {
      PutAnswer(s, key, item, k);
      GetRefines(s, k);
      GetRefines(r, k);
    }
    if Full(s) ==> SettledBut(s, key) {
      SameAnswers(r, m);
    }
  }

  /** A remove takes the key out of the map if and only if the key has at most one copy. */
  lemma RemoveAnswers<T>(s: Slots<T>, key: nat)
    requires NoGaps(s)
    ensures NoGaps(Remove(s, key))
    ensures Abs(Remove(s, key)) == Abs(s) - {key} <==> |Stack(s, key)| <= 1
  {
    var r, m := Remove(s, key), Abs(s) - {key};
    RemoveAnswer(s, key, key);
    GetRefines(r, key);
    if |Stack(s, key)| <= 1 {
      forall k: nat
        ensures Get(r, k) == if k in m then Some(m[k]) else None
      {
        RemoveAnswer(s, key, k);
        GetRefines(s, k);
      }
      SameAnswers(r, m);
    }
  }

  /** Without duplicates every answer is settled. */
  lemma UniqueIsSettled<T>(s: Slots<T>)
    requires Valid(s)
    ensures Settled(s)
  {
    forall k: nat
      ensures LastFrom(s, 0, k) == Get(s, k)
    {
      GetIsTop(s, k);
      LastInStack(s, k);
      assert |Stack(s, k)| <= 1;
    }
  }

  // ----- A loop that removes by key under its own iterator -----

  /** From slot i on, the entry met is removed by its key: what goes is the copy found first. */
  function Sweep<T>(s: Slots<T>, i: nat): Slots<T>
    decreases |s| - i
  {
    var p := Next(s, i);
    if p.None? then s else Sweep(Remove(s, s[p.value].key), p.value + 1)
  }

  /** The key has a copy before its home slot and one at or after it: the loop meets the first, and
      removes the second. */
  ghost predicate SplitAt<T>(s: Slots<T>, b: nat, a: nat) {
    b < a < |s| && s[b].Live? && s[a].Holds(s[b].key) && b < Home(|s|, s[b].key) <= a
  }

  ghost predicate Split<T>(s: Slots<T>) { exists b, a :: SplitAt(s, b, a) }

  ghost predicate Bare<T>(s: Slots<T>) { forall j :: 0 <= j < |s| ==> !s[j].Live? }

  /** The copy found first is at or after the home slot when there is one, and the first of its side. */
  lemma FirstFound<T>(s: Slots<T>, p: nat)
    requires NoGaps(s) && p < |s| && s[p].Live?
    ensures var q := Find(s, s[p].key);
            && q.Some? && s[q.value].Holds(s[p].key)
            && Distance(|s|, s[p].key, q.value) <= Distance(|s|, s[p].key, p)
  {
    var key := s[p].key;
    FindSkips(s, key, 0);
    assert Probe(|s|, key, Distance(|s|, key, p)) == p;
  }

  /** Something that was passed over stays. */
  ghost predicate LeftBehind<T>(s: Slots<T>, i: nat, b: nat) {
    b < i && b < |s| && s[b].Live? && b < Home(|s|, s[b].key)
  }

  /** Whatever the loop meets next, something passed over stays. */
  lemma MeetsLeft<T>(s: Slots<T>, i: nat, b: nat, p: nat) returns (c: nat)
    requires NoGaps(s) && LeftBehind(s, i, b) && i <= p < |s| && s[p].Live?
    ensures var r := Remove(s, s[p].key); NoGaps(r) && LeftBehind(r, p + 1, c)
  {
    FirstFound(s, p);
    RemovePops(s, s[p].key);
    c := if Find(s, s[p].key) == Some(b) then p else b;
  }

  lemma {:induction false} SweepLeaves<T>(s: Slots<T>, i: nat, b: nat)
    requires NoGaps(s) && LeftBehind(s, i, b)
    ensures !Bare(Sweep(s, i))
    decreases |s| - i
  {
    var p := Next(s, i);
    if p.Some? {
      var c := MeetsLeft(s, i, b, p.value);
      SweepLeaves(Remove(s, s[p.value].key), p.value + 1, c);
    }
  }

  /** Meeting a copy before the home slot removes one at or after it. */
  lemma MeetsSplit<T>(s: Slots<T>, p: nat, a: nat)
    requires NoGaps(s) && SplitAt(s, p, a)
    ensures var r := Remove(s, s[p].key); NoGaps(r) && LeftBehind(r, p + 1, p)
  {
    FirstFound(s, a);
    RemovePops(s, s[p].key);
  }

  /** Meeting another key leaves the split one alone. */
  lemma MeetsOther<T>(s: Slots<T>, p: nat, b: nat, a: nat)
    requires NoGaps(s) && SplitAt(s, b, a) && p < |s| && s[p].Live? && s[p].key != s[b].key
    ensures var r := Remove(s, s[p].key); NoGaps(r) && SplitAt(r, b, a)
  {
    RemovePops(s, s[p].key);
  }

  lemma {:induction false} SweepMisses<T>(s: Slots<T>, i: nat, b: nat, a: nat)
    requires NoGaps(s) && SplitAt(s, b, a) && i <= b
    ensures !Bare(Sweep(s, i))
    decreases |s| - i
  {
    NextSkips(s, i);
    var p := Next(s, i).value;
    if s[p].key == s[b].key {
      MeetsSplit(s, p, a);
      SweepLeaves(Remove(s, s[p].key), p + 1, p);
    } else {
      MeetsOther(s, p, b, a);
      SweepMisses(Remove(s, s[p].key), p + 1, b, a);
    }
  }

  lemma {:induction false} SweepClears<T>(s: Slots<T>, i: nat)
    requires NoGaps(s) && !Split(s) && forall j :: 0 <= j < i && j < |s| ==> !s[j].Live?
    ensures Bare(Sweep(s, i))
    decreases |s| - i
  {
    NextSkips(s, i);
    if Next(s, i).Some? {
      SweepStep(s, i);
      SweepClears(s[Next(s, i).value := Tomb], Next(s, i).value + 1);
    }
  }

  /** When no key is split, the entry met is the copy found first. */
  lemma SweepStep<T>(s: Slots<T>, i: nat)
    requires NoGaps(s) && !Split(s) && Next(s, i).Some? && forall j :: 0 <= j < i && j < |s| ==> !s[j].Live?
    ensures var p := Next(s, i).value;
            && Find(s, s[p].key) == Some(p) && Remove(s, s[p].key) == s[p := Tomb]
            && NoGaps(s[p := Tomb]) && !Split(s[p := Tomb])
            && forall j :: 0 <= j < p ==> !s[j].Live?
  {
    var p := Next(s, i).value;
    NextSkips(s, i);
    FirstFound(s, p);
    var q := Find(s, s[p].key).value;
    assert q != p ==> SplitAt(s, p, q);
    RemovePops(s, s[p].key);
    var r := s[p := Tomb];
    if b, a :| SplitAt(r, b, a) {
      assert SplitAt(s, b, a);
    }
  }

  /** The loop leaves nothing if and only if no key has a copy on both sides of its home slot. */
  lemma SweepEmpties<T>(s: Slots<T>)
    requires NoGaps(s)
    ensures Bare(Sweep(s, 0)) <==> !Split(s)
  {
    if Split(s) {
      var b, a :| SplitAt(s, b, a);
      SweepMisses(s, 0, b, a);
    } else {
      SweepClears(s, 0);
    }
  }

  /** What the loop removes, in order. */
  function Taken<T>(s: Slots<T>, i: nat): seq<T>
    decreases |s| - i
  {
    var p := Next(s, i);
    if p.None? then []
    else
      var key := s[p.value].key;
      var x := Get(s, key);
      (if x.Some? then [x.value] else []) + Taken(Remove(s, key), p.value + 1)
  }

  lemma TakenFirst<T>(s: Slots<T>, i: nat, p: nat)
    requires Next(s, i) == Some(p) && Get(s, s[p].key).Some?
    ensures Taken(s, i) == [Get(s, s[p].key).value] + Taken(Remove(s, s[p].key), p + 1)
  {
  }

  /** Only what is stored is removed. */
  lemma {:induction false} TakenStored<T>(s: Slots<T>, i: nat, x: T)
    requires x in Taken(s, i)
    ensures exists p :: 0 <= p < |s| && s[p].Live? && s[p].item == x
    decreases |s| - i
  {
    var p := Next(s, i).value;
    var key := s[p].key;
    if Get(s, key) != Some(x) {
      var t := Remove(s, key);
      TakenStored(t, p + 1, x);
      var q :| 0 <= q < |t| && t[q].Live? && t[q].item == x;
      assert s[q] == t[q];
    }
  }

  /** No slot before i holds the key. */
  predicate Ahead<T>(s: Slots<T>, i: nat, k: nat) {
    forall j :: 0 <= j < i && j < |s| ==> !s[j].Holds(k)
  }

  /** A stored key whose copies are all ahead stays so when the iterator moves on and its entry is
      removed, unless that is the key's own. */
  lemma StaysAhead<T>(s: Slots<T>, i: nat, k: nat)
    requires NoGaps(s) && Get(s, k).Some? && Ahead(s, i, k)
    ensures Next(s, i).Some?
    ensures var p := Next(s, i).value;
            var t := Remove(s, s[p].key);
            s[p].key != k ==> NoGaps(t) && Get(t, k) == Get(s, k) && Ahead(t, p + 1, k)
  {
    NextSkips(s, i);
    var own := Find(s, k).value;
    assert s[own].Holds(k);
    var h := s[Next(s, i).value].key;
    if h != k {
      RemoveAnswer(s, h, k);
    }
  }

  /** Every answer of the table is removed, whatever is left behind. */
  lemma {:induction false} AnswersTaken<T>(s: Slots<T>, i: nat, k: nat)
    requires NoGaps(s) && Get(s, k).Some? && Ahead(s, i, k)
    ensures Get(s, k).value in Taken(s, i)
    decreases |s| - i
  {
    StaysAhead(s, i, k);
    var p := Next(s, i).value;
    if s[p].key != k {
      AnswersTaken(Remove(s, s[p].key), p + 1, k);
    }
  }

  /** When no key is split, everything is removed, in the order of the slots. */
  lemma {:induction false} TakenUnsplit<T>(s: Slots<T>, i: nat)
    requires NoGaps(s) && !Split(s) && forall j :: 0 <= j < i && j < |s| ==> !s[j].Live?
    ensures Taken(s, i) == ItemsFrom(s, i)
    decreases |s| - i
  {
    NextSkips(s, i);
    if Next(s, i).Some? {
      var p := Next(s, i).value;
      SweepStep(s, i);
      ItemsAgree(s, s[p := Tomb], p + 1);
      TakenUnsplit(s[p := Tomb], p + 1);
    }
  }

  // ----- Facts the name server uses -----

  /** The first key put into an empty table can be put again. */
  lemma FirstPutIsClean<T>(key: nat, item: T)
    ensures Valid(Put([], key, item)) && Abs(Put([], key, item)) == map[key := item] && !Behind(Put([], key, item), key)
  {
    NothingStored<T>([]);
    PutRefines([], key, item);
    GrowCollapses<T>([]);
    PutWithoutTombs(Grow<T>([]), key, item);
    var r := Put([], key, item);
    NotFullClaims(r, key);
    if Claim(r, key).Some? {
      ClaimWithoutTombs(r, key);
    }
  }

  /** Writing through a stored item leaves every search where it was. */
  lemma {:induction false} FindStays<T>(s: Slots<T>, p: nat, item: T, k: nat, i: nat)
    requires p < |s| && s[p].Live? && i <= |s|
    ensures FindFrom(s[p := Live(s[p].key, item)], k, i) == FindFrom(s, k, i)
    decreases |s| - i
  {
    if i < |s| {
      FindStays(s, p, item, k, i + 1);
    }
  }

  lemma {:induction false} StackLength<T>(s: Slots<T>, p: nat, item: T, k: nat, i: nat)
    requires p < |s| && s[p].Live? && i <= |s|
    ensures |StackFrom(s[p := Live(s[p].key, item)], k, i)| == |StackFrom(s, k, i)|
    decreases |s| - i
  {
    if i < |s| {
      StackLength(s, p, item, k, i + 1);
    }
  }

  lemma WrittenStack<T>(s: Slots<T>, p: nat, item: T, k: nat)
    requires Unique(s) && p < |s| && s[p].Live?
    ensures Stack(s[p := Live(s[p].key, item)], k) == if k == s[p].key then [item] else Stack(s, k)
  {
    var r := s[p := Live(s[p].key, item)];
    if k == s[p].key {
      StackLength(s, p, item, k, 0);
      ItemInStack(r, p, 0);
      assert |Stack(s, k)| <= 1;
    } else {
      StackAgrees(s, r, k, 0);
    }
  }

  lemma WriteThrough<T>(s: Slots<T>, p: nat, item: T)
    requires Valid(s) && p < |s| && s[p].Live?
    ensures Valid(s[p := Live(s[p].key, item)])
    ensures Abs(s[p := Live(s[p].key, item)]) == Abs(s)[s[p].key := item]
  {
    var r, m := s[p := Live(s[p].key, item)], Abs(s)[s[p].key := item];
    forall k: nat
      ensures Stack(r, k) == if k in m then [m[k]] else []
    {
      StackFromAbs(s, k);
      WrittenStack(s, p, item, k);
    }
    AbsFromStacks(r, m);
  }

  /** In a table without duplicates a stored item is found at its own slot. */
  lemma FindOwnSlot<T>(s: Slots<T>, p: nat)
    requires Valid(s) && p < |s| && s[p].Live?
    ensures Find(s, s[p].key) == Some(p)
  {
    var key := s[p].key;
    HasStack(s, key);
    GetIsTop(s, key);
    var q := Find(s, key).value;
    if q != p {
      TwoCopies(s, p, q);
    }
  }

  /** A property of every stored key and item. */
  ghost predicate All<T>(s: Slots<T>, ok: (nat, T) -> bool) {
    forall p :: 0 <= p < |s| && s[p].Live? ==> ok(s[p].key, s[p].item)
  }

  lemma {:induction false} RefillAll<T>(s: Slots<T>, i: nat, to: Slots<T>, ok: (nat, T) -> bool)
    requires i <= |s| && All(s, ok) && All(to, ok)
    ensures All(Refill(s, i, to), ok)
    decreases |s| - i
  {
    if i < |s| {
      RefillAll(s, i + 1, if s[i].Live? then PutFree(to, s[i].key, s[i].item) else to, ok);
    }
  }

  /** Whatever the table looks like, a put keeps the gap invariant and stores nothing foreign. */
  lemma PutAlways<T>(s: Slots<T>, key: nat, item: T, ok: (nat, T) -> bool)
    requires NoGaps(s) && All(s, ok) && ok(key, item)
    ensures NoGaps(Put(s, key, item)) && All(Put(s, key, item), ok)
    ensures Get(Put(s, key, item), key) == Some(item)
  {
    var t := if Full(s) then Grow(s) else s;
    if Full(s) {
      GrowCollapses(s);
      RefillAll(s, 0, Blank(|s| + GROWTH), ok);
    }
    NotFullClaims(t, key);
    PutPushesOrReplaces(t, key, item);
    GetIsTop(Put(s, key, item), key);
  }

  /** A table with nothing stored. */
  lemma NothingStored<T>(s: Slots<T>)
    requires forall p :: 0 <= p < |s| ==> !s[p].Live?
    ensures Valid(s) && Abs(s) == map[]
  {
    forall k: nat
      ensures Stack(s, k) == []
    {
      HasStack(s, k);
    }
    AbsFromStacks(s, map[]);
  }

  lemma {:induction false} ItemsMembers<T>(s: Slots<T>, i: nat)
    ensures forall x :: x in ItemsFrom(s, i) <==> exists p :: i <= p < |s| && s[p].Live? && s[p].item == x
    decreases |s| - i
  {
    if i < |s| {
      ItemsMembers(s, i + 1);
    }
  }
}
