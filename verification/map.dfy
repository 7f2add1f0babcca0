/** src/map.c: the hash table in the heap. Its methods are proved against the functions of `SlotTable`. */
module SlotMap {
  import opened Options
  import opened SlotTable

  lemma WrapsAround(n: nat, idx: nat)
    requires idx < n
    ensures (idx + 1) % n == if idx + 1 == n then 0 else idx + 1
  {
  }

  /** struct map_item: embedded in whatever is stored, it carries the key. */
  class MapItem {
    var key: nat

    constructor ()
      ensures key == 0
    {
      key := 0;
    }
  }

  /** Storing an item in the claimed slot keeps the table without gaps and counts it; storing null
      leaves one counted too many. */
  lemma ClaimedStore(s: Slots<MapItem>, key: nat, value: MapItem?)
    requires NoGaps(s) && Claim(s, key).Some?
    ensures var p := Claim(s, key).value;
            var counted := Count(s) + if s[p].Live? then 0 else 1;
            && (value != null ==> NoGaps(s[p := Live(key, value)]) && Count(s[p := Live(key, value)]) == counted)
            && Count(s[p := Never]) == counted - 1
  {
    var p := Claim(s, key).value;
    CountUpdate(s, p, Never);
    if value != null {
      var item: MapItem := value;
      CountUpdate(s, p, Live(key, item));
      PutKeepsNoGaps(s, key, item);
    }
  }

  class Map {
    var size: nat
    var count: nat
    var data: array<MapItem?>
    /** The marker stored in place of a removed item. */
    const deleted: MapItem
    /** The table as a value; `Valid` ties it to the fields above. */
    ghost var slots: Slots<MapItem>
    /** The items the table may write a key to. */
    ghost var repr: set<MapItem>

    ghost predicate Shape()
      reads this, data, repr
    {
      && size == data.Length == |slots|
      && (forall i :: 0 <= i < size ==>
            && (data[i] != null && data[i] != deleted ==> data[i] in repr)
            && slots[i] == if data[i] == null then Never else if data[i] == deleted then Tomb
              else Live(data[i].key, data[i]))
    }

    /** The key lives in the item: one that is stored already may only be put under the key it has. */
    ghost predicate Storable(value: MapItem?, key: nat)
      reads this, data, value
    {
      value != deleted && (value != null ==> forall i :: 0 <= i < data.Length && data[i] == value ==> value.key == key)
    }

    ghost predicate Valid()
      reads this, data, repr
    {
      Shape() && count == Count(slots) && NoGaps(slots)
    }

    /** map_create */
    constructor (marker: MapItem)
      ensures Valid() && slots == [] && repr == {} && deleted == marker && fresh(data)
    {
      size, count := 0, 0;
      data := new MapItem?[0];
      deleted := marker;
      slots, repr := [], {};
    }

    /** map_hash: -1 when full, else the slot for `key`, counted as used if it was free. */
    method Hash(key: nat) returns (rc: int)
      requires Valid()
      modifies this`count
      ensures Full(slots) ==> rc == -1 && count == old(count)
      ensures !Full(slots) ==>
                && Claim(slots, key) == Some(rc)
                && count == old(count) + if slots[rc].Live? then 0 else 1
    {
      if count == size {
        return -1;
      }
      var idx, i := key % size, 0;
      while i < size
        invariant 0 <= i <= size && idx < size && count == old(count)
        invariant i < size ==> idx == Probe(size, key, i)
        invariant ClaimFrom(slots, key, i) == Claim(slots, key)
      {
        var e := data[idx];
        if e == null || e == deleted {
          count := count + 1;
          return idx;
        }
        if e.key == key {
          return idx;
        }
        WrapsAround(size, idx);
        idx := (idx + 1) % size;
        i := i + 1;
      }
      NotFullClaims(slots, key);
      assert false;
      rc := -2;
    }

    /** What a store leaves in its slot; a null item empties it. */
    static function Stored(key: nat, value: MapItem?): Slot<MapItem> {
      if value == null then Never else Live(key, value)
    }

    static function Placed(s: Slots<MapItem>, key: nat, value: MapItem): Slots<MapItem> { Put(s, key, value) }

    static function Owned(value: MapItem?): set<MapItem> { if value == null then {} else {value} }

    /** The store that ends map_reput. */
    method Store(rc: nat, key: nat, value: MapItem?) returns (previous: MapItem?)
      requires Shape() && rc < size && Storable(value, key)
      modifies this`slots, this`repr, data, value
      ensures Shape() && slots == old(slots)[rc := Stored(key, value)] && repr == old(repr) + Owned(value)
      ensures previous == if old(slots)[rc].Live? then old(slots)[rc].item else null
      ensures forall i :: 0 <= i < size ==> data[i] == if i == rc then value else old(data[i])
      ensures forall x: MapItem :: old(allocated(x)) && x != value ==> x.key == old(x.key)
      ensures value != null ==> value.key == key
    {
      previous := if data[rc] == deleted then null else data[rc];
      data[rc] := value;
      if value != null {
        data[rc].key := key;
      }
      slots, repr := slots[rc := Stored(key, value)], repr + Owned(value);
    }

    /** The table a put writes to. */
    static function Room(s: Slots<MapItem>): Slots<MapItem> { if Full(s) then Grow(s) else s }

    /** The retry loop of map_reput: it grows at most once, and the puts made while growing never
        grow again; the termination measures record both. */
    method Reserve(key: nat, ghost outside: MapItem?) returns (rc: int)
      requires Valid() && Storable(outside, key)
      modifies this, data, repr
      ensures Shape() && NoGaps(slots) && slots == Room(old(slots)) && repr == old(repr)
      ensures Claim(slots, key) == Some(rc)
      ensures count == Count(slots) + if slots[rc].Live? then 0 else 1
      ensures Storable(outside, key)
      ensures if Full(old(slots)) then fresh(data) else
                && data == old(data) && count <= old(count) + 1
                && forall i :: 0 <= i < size ==> data[i] == old(data[i])
      ensures forall x: MapItem :: old(allocated(x)) ==> x.key == old(x.key)
      decreases if count == size then 2 else 0, 0
    {
      rc := Hash(key);
      while rc < 0
        invariant Shape() && NoGaps(slots) && repr == old(repr)
        invariant if rc < 0 then Full(old(slots)) && slots == old(slots)
                  else slots == Room(old(slots)) && Claim(slots, key) == Some(rc)
        invariant count == Count(slots) + if rc >= 0 && !slots[rc].Live? then 1 else 0
        invariant if rc < 0 || !Full(old(slots)) then data == old(data) else fresh(data)
        invariant data == old(data) ==> count <= old(count) + 1 && forall i :: 0 <= i < size ==> data[i] == old(data[i])
        invariant Storable(outside, key)
        invariant forall x: MapItem :: old(allocated(x)) ==> x.key == old(x.key)
        decreases rc < 0
      {
        rc := Rehash(outside, key);
        assert !Full(slots) by { GrowCollapses(old(slots)); }
        rc := Hash(key);
      }
    }

    /** map_reput: `previous` is the item replaced, null when the slot was free. A null value keeps
        the table well-formed in no case: it empties the slot that was counted. */
    method Reput(key: nat, value: MapItem?) returns (rc: int, previous: MapItem?)
      requires Valid() && Storable(value, key)
      modifies this, data, repr, value
      ensures Shape() && (Valid() <==> value != null) && repr == old(repr) + Owned(value)
      ensures value != null ==> slots == Placed(old(slots), key, value)
      ensures rc == 0
      ensures var t := Room(old(slots));
              var p := Claim(t, key);
              && p.Some? && slots == t[p.value := Stored(key, value)]
              && previous == if t[p.value].Live? then t[p.value].item else null
      ensures forall x: MapItem :: old(allocated(x)) && x != value ==> x.key == old(x.key)
      ensures value != null ==> value.key == key
      ensures if Full(old(slots)) then fresh(data) else
                && data == old(data) && count <= old(count) + 1
                && forall i :: 0 <= i < size ==> data[i] == old(data[i]) || data[i] == value
      decreases if count == size then 2 else 0, 1
    {
      rc := Reserve(key, value);
      ghost var t := slots;
      ClaimedStore(t, key, value);
      previous := Store(rc, key, value);
      rc := 0;
    }

    /** map_put */
    method PutItem(key: nat, value: MapItem?) returns (rc: int)
      requires Valid() && Storable(value, key)
      modifies this, data, repr, value
      ensures Shape() && (Valid() <==> value != null) && repr == old(repr) + Owned(value)
      ensures value != null ==> slots == Placed(old(slots), key, value)
      ensures rc == 0
      ensures forall x: MapItem :: old(allocated(x)) && x != value ==> x.key == old(x.key)
      ensures value != null ==> value.key == key
      ensures if Full(old(slots)) then fresh(data) else
                && data == old(data) && count <= old(count) + 1
                && forall i :: 0 <= i < size ==> data[i] == old(data[i]) || data[i] == value
      decreases if count == size then 2 else 0, 2
    {
      var previous;
      rc, previous := Reput(key, value);
    }

    /** The fresh array map_rehash installs. */
    method Install(n: nat)
      modifies this
      ensures Valid() && slots == Blank(n) && count == 0 && repr == old(repr) && fresh(data)
      ensures forall i :: 0 <= i < size ==> data[i] == null
    {
      data := new MapItem?[n](_ => null);
      size, count, slots := n, 0, Blank(n);
      ClearRefines<MapItem>(n);
    }

    /** One step of map_rehash: an item of the old array is put again under the key it carries. */
    method PutAgain(value: MapItem) returns (rc: int)
      requires Valid() && !Full(slots) && value in repr && value != deleted
      modifies this, data, repr
      ensures Valid() && slots == PutFree(old(slots), old(value.key), value) && repr == old(repr)
      ensures rc == 0 && data == old(data) && count <= old(count) + 1
      ensures forall i :: 0 <= i < size ==> data[i] == old(data[i]) || data[i] == value
      ensures forall x: MapItem :: old(allocated(x)) ==> x.key == old(x.key)
      decreases 0, 3
    {
      rc := PutItem(value.key, value);
    }

    /** map_rehash */
    method Rehash(ghost outside: MapItem?, ghost key: nat) returns (rc: int)
      requires Valid() && Full(slots) && Storable(outside, key)
      modifies this, data, repr
      ensures Valid() && slots == Grow(old(slots)) && repr == old(repr)
      ensures rc == 0 && fresh(data) && Storable(outside, key)
      ensures forall x: MapItem :: old(allocated(x)) ==> x.key == old(x.key)
      decreases 1, 0
    {
      ghost var was := slots;
      var oldt, o_size := data, size;
      Install(size + GROWTH);
      var i := 0;
      while i < o_size
        invariant 0 <= i <= o_size == |was|
        invariant Valid() && fresh(data) && |slots| == o_size + GROWTH && count <= i && repr == old(repr)
        invariant Refill(was, i, slots) == Grow(was)
        invariant Storable(outside, key)
        invariant forall m :: 0 <= m < o_size ==> oldt[m] == old(data[m])
        invariant forall x: MapItem :: old(allocated(x)) ==> x.key == old(x.key)
      {
        if oldt[i] != null && oldt[i] != deleted {
          rc := PutAgain(oldt[i]);
        }
        i := i + 1;
      }
      return 0;
    }

    /** map_find */
    method FindEntry(key: nat) returns (p: Option<nat>)
      requires Valid()
      ensures p == Find(slots, key)
    {
      if size == 0 {
        return None;
      }
      var idx, i := key % size, 0;
      while i < size
        invariant 0 <= i <= size && idx < size
        invariant i < size ==> idx == Probe(size, key, i)
        invariant FindFrom(slots, key, i) == Find(slots, key)
      {
        var e := idx;
        WrapsAround(size, idx);
        idx := (idx + 1) % size;
        if data[e] == null {
          break;
        }
        if data[e] != deleted && data[e].key == key {
          return Some(e);
        }
        i := i + 1;
      }
      return None;
    }

    /** map_contains */
    method Contains(key: nat) returns (b: bool)
      requires Valid()
      ensures b <==> Has(slots, key)
    {
      var e := FindEntry(key);
      b := e.Some?;
      GetIsTop(slots, key);
      HasStack(slots, key);
    }

    /** map_get */
    method GetItem(key: nat) returns (item: MapItem?)
      requires Valid()
      ensures item == if Stack(slots, key) == [] then null else Stack(slots, key)[0]
      ensures Unique(slots) ==> item == if key in Abs(slots) then Abs(slots)[key] else null
    {
      var e := FindEntry(key);
      GetIsTop(slots, key);
      HasStack(slots, key);
      item := if e.Some? then data[e.value] else null;
    }

    /** map_remove: nonzero when the key was absent. */
    method RemoveKey(key: nat) returns (absent: bool)
      requires Valid()
      modifies this`count, this`slots, data
      ensures Valid() && slots == Remove(old(slots), key)
      ensures absent <==> !Has(old(slots), key)
    {
      GetIsTop(slots, key);
      HasStack(slots, key);
      RemovePops(slots, key);
      var e := FindEntry(key);
      if e.Some? {
        CountUpdate(slots, e.value, Tomb);
        data[e.value] := deleted;
        count := count - 1;
        slots := slots[e.value := Tomb];
      }
      absent := e.None?;
    }

    /** map_clear: hands every stored item to `release`, here collected in call order. */
    method Clear() returns (released: seq<MapItem>)
      requires Valid()
      modifies this`count, this`slots, data
      ensures Valid() && slots == Blank(|old(slots)|) && count == 0
      ensures released == Items(old(slots))
    {
      released := [];
      var i := 0;
      ghost var was := slots;
      while i < size
        invariant 0 <= i <= size == data.Length == |was|
        invariant released + ItemsFrom(was, i) == Items(was)
        invariant forall j :: 0 <= j < size ==> data[j] == if j < i then null else old(data[j])
      {
        if data[i] != null {
          if data[i] != deleted {
            released := released + [data[i]];
          }
          data[i] := null;
        }
        i := i + 1;
      }
      count := 0;
      slots := Blank(size);
      ClearRefines<MapItem>(size);
    }

    /** map_iter_from, and with it map_iter_first (start 0) and map_iter_next (one past the entry). */
    method IterFrom(start: nat) returns (p: Option<nat>)
      requires Valid()
      ensures p == Next(slots, start)
    {
      var i := start;
      while i < size
        invariant start <= i && Next(slots, i) == Next(slots, start)
      {
        if data[i] != null && data[i] != deleted {
          return Some(i);
        }
        i := i + 1;
      }
      return None;
    }
  }
}
