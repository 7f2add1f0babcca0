/** lib/qmi.c, the capacity checks of qmi_encode: how far it gets in a given room, for every table,
    struct and capacity, and when that keeps it inside. */
module QmiRoom {
  import opened Qmi

  /** What is kept free for a header that is still to be written. */
  function Hole(top: bool): nat { if top then HEADER else 0 }

  /** The capacity check of qmi_encode_string_elem. Below the top level it keeps no room for a header. */
  predicate StringCheck(e: Elem, len: nat, cap: nat, top: bool) {
    if top then len + HEADER <= cap else StrSize(e) + len <= cap
  }

  /** How far the encoder has got when it stops, and whether it got to the end. */
  datatype Trial = Trial(size: nat, ok: bool)

  function Join(a: Trial, b: Trial): Trial { if a.ok then Trial(a.size + b.size, b.ok) else a }

  /** The room that is passed on to a nested call, at 32 bits. */
  function Left(cap: u32, used: nat): u32 { (cap - used) % 0x1_0000_0000 }

  /** qmi_encode_struct_elem from element i on, `used` octets after its start. */
  function TryStructs(e: Elem, elems: seq<seq<Slot>>, i: nat, n: nat, used: nat, cap: u32): Trial
    requires i <= n <= |elems| && NestedOk(e.ei) && AllOk(e.ei, elems)
    decreases e, n - i
  {
    if i == n then Trial(0, true)
    else
      var one := TryFrom(e.ei, elems[i], 0, 0, Left(cap, used), false);
      Join(one, TryStructs(e, elems, i + 1, n, used + one.size, cap))
  }

  /** The cases of an integer, a struct and a string, `used` octets into the buffer. */
  function TryPayload(e: Elem, s: Slot, n: nat, used: nat, cap: u32, top: bool): Trial
    requires PayloadOk(e) && SlotOk(e, s) && n <= e.elemLen && (e.kind.Struct? ==> NestedOk(e.ei))
    decreases e, n + 1
  {
    if e.kind.Basic? then
      if n * e.elemSize + used + HEADER <= cap then Trial(n * e.elemSize, true) else Trial(0, false)
    else if e.kind.Struct? then TryStructs(e, s.elems, 0, n, 0, Left(cap, used))
    else
      var len := StrLen(s.chars);
      if len <= e.elemLen && StringCheck(e, len, Left(cap, used), top) then
        Trial(len + if top then 0 else StrSize(e), true)
      else Trial(0, false)
  }

  /** A present group, without its header. */
  function TryBody(t: seq<Elem>, v: seq<Slot>, g: nat, used: nat, cap: u32, top: bool): Trial
    requires TableFrom(t, g, top) && !t[g].kind.Eoti? && StructOk(t, v)
    decreases t, |t| - g, 0
  {
    var l, p, size := LenAt(t, g), PayAt(t, g), CountSize(t, g);
    var n := CountAt(t, v, g);
    if l == p then TryPayload(t[p], v[p], n, used, cap, top)
    else if size + used + HEADER > cap then Trial(0, false)
    else if n == 0 then Trial(size, true)
    else if n > t[p].elemLen then Trial(size, false)
    else Join(Trial(size, true), TryPayload(t[p], v[p], n, used + size, cap, top))
  }

  /** A present group with its header; the octets left for it count once something follows them. */
  function TryGroup(t: seq<Elem>, v: seq<Slot>, g: nat, used: nat, cap: u32, top: bool): Trial
    requires TableFrom(t, g, top) && !t[g].kind.Eoti? && StructOk(t, v)
    decreases t, |t| - g, 1
  {
    var b := TryBody(t, v, g, used, cap, top);
    Trial(if b.ok || b.size > 0 then Hole(top) + b.size else 0, b.ok)
  }

  /** qmi_encode from group g on, `used` octets into the buffer. */
  function TryFrom(t: seq<Elem>, v: seq<Slot>, g: nat, used: nat, cap: u32, top: bool): Trial
    requires TableFrom(t, g, top) && StructOk(t, v)
    decreases t, |t| - g, 2
  {
    if t[g].kind.Eoti? then Trial(0, true)
    else if !Present(t, v, g) then TryFrom(t, v, PayAt(t, g) + 1, used, cap, top)
    else
      var one := TryGroup(t, v, g, used, cap, top);
      Join(one, TryFrom(t, v, PayAt(t, g) + 1, used + one.size, cap, top))
  }

  // ----- An attempt that gets to the end has encoded a legal struct -----

  lemma {:induction false} StructsTried(e: Elem, elems: seq<seq<Slot>>, i: nat, n: nat, used: nat, cap: u32)
    requires i <= n <= |elems| && NestedOk(e.ei) && AllOk(e.ei, elems) && TryStructs(e, elems, i, n, used, cap).ok
    ensures var x := EncStructs(e, elems, i, n); x.ok && |x.bytes| == TryStructs(e, elems, i, n, used, cap).size
    decreases e, n - i
  {
    if i < n {
      var one := TryFrom(e.ei, elems[i], 0, 0, Left(cap, used), false);
      Tried(e.ei, elems[i], 0, 0, Left(cap, used), false);
      StructsTried(e, elems, i + 1, n, used + one.size, cap);
    }
  }

  lemma {:induction false} PayloadTried(e: Elem, s: Slot, n: nat, used: nat, cap: u32, top: bool)
    requires PayloadOk(e) && SlotOk(e, s) && n <= e.elemLen && (e.kind.Struct? ==> NestedOk(e.ei))
    requires TryPayload(e, s, n, used, cap, top).ok
    ensures EncPayload(e, s, n, top).ok && |EncPayload(e, s, n, top).bytes| == TryPayload(e, s, n, used, cap, top).size
    decreases e, n + 1
  {
    if e.kind.Basic? {
      FewerOctets(n, e.elemLen, e.elemSize);
    } else if e.kind.Struct? {
      StructsTried(e, s.elems, 0, n, 0, Left(cap, used));
    }
  }

  lemma {:induction false} BodyTried(t: seq<Elem>, v: seq<Slot>, g: nat, used: nat, cap: u32, top: bool)
    requires TableFrom(t, g, top) && !t[g].kind.Eoti? && StructOk(t, v) && TryBody(t, v, g, used, cap, top).ok
    ensures Body(t, v, g, top).ok && |Body(t, v, g, top).bytes| == TryBody(t, v, g, used, cap, top).size
    decreases t, |t| - g, 0
  {
    var p, size := PayAt(t, g), CountSize(t, g);
    var n := CountAt(t, v, g);
    assert SlotOk(t[p], v[p]);
    if !Counted(t, g) {
      PayloadTried(t[p], v[p], n, used, cap, top);
    } else if 0 < n <= t[p].elemLen {
      PayloadTried(t[p], v[p], n, used + size, cap, top);
    }
  }

  lemma {:induction false} Tried(t: seq<Elem>, v: seq<Slot>, g: nat, used: nat, cap: u32, top: bool)
    requires TableFrom(t, g, top) && StructOk(t, v) && TryFrom(t, v, g, used, cap, top).ok
    ensures EncFrom(t, v, g, top).ok && |EncFrom(t, v, g, top).bytes| == TryFrom(t, v, g, used, cap, top).size
    decreases t, |t| - g, 2
  {
    if !t[g].kind.Eoti? {
      assert SlotOk(t[g], v[g]);
      if Present(t, v, g) {
        BodyTried(t, v, g, used, cap, top);
        Tried(t, v, PayAt(t, g) + 1, used + TryGroup(t, v, g, used, cap, top).size, cap, top);
      } else {
        Tried(t, v, PayAt(t, g) + 1, used, cap, top);
      }
    }
  }

  // ----- A legal struct that fits is encoded -----

  /** Every check but one keeps room for a TLV header. */
  predicate Fits(size: nat, room: nat) { size + HEADER <= room }

  lemma {:induction false} StructsFit(e: Elem, elems: seq<seq<Slot>>, i: nat, n: nat, used: nat, cap: u32)
    requires i <= n <= |elems| && NestedOk(e.ei) && AllOk(e.ei, elems)
    requires EncStructs(e, elems, i, n).ok && Fits(used + |EncStructs(e, elems, i, n).bytes|, cap)
    ensures TryStructs(e, elems, i, n, used, cap).ok
    decreases e, n - i
  {
    if i < n {
      Fitting(e.ei, elems[i], 0, 0, Left(cap, used), false);
      Tried(e.ei, elems[i], 0, 0, Left(cap, used), false);
      StructsFit(e, elems, i + 1, n, used + |EncFrom(e.ei, elems[i], 0, false).bytes|, cap);
    }
  }

  lemma {:induction false} PayloadFits(e: Elem, s: Slot, n: nat, used: nat, cap: u32, top: bool)
    requires PayloadOk(e) && SlotOk(e, s) && n <= e.elemLen && (e.kind.Struct? ==> NestedOk(e.ei))
    requires EncPayload(e, s, n, top).ok && Fits(used + |EncPayload(e, s, n, top).bytes|, cap)
    ensures TryPayload(e, s, n, used, cap, top).ok
    decreases e, n + 1
  {
    if e.kind.Basic? {
      FewerOctets(n, e.elemLen, e.elemSize);
    } else if e.kind.Struct? {
      StructsFit(e, s.elems, 0, n, 0, Left(cap, used));
    }
  }

  lemma {:induction false} BodyFits(t: seq<Elem>, v: seq<Slot>, g: nat, used: nat, cap: u32, top: bool)
    requires TableFrom(t, g, top) && !t[g].kind.Eoti? && StructOk(t, v)
    requires Body(t, v, g, top).ok && Fits(used + |Body(t, v, g, top).bytes|, cap)
    ensures TryBody(t, v, g, used, cap, top).ok
    decreases t, |t| - g, 0
  {
    var p, size := PayAt(t, g), CountSize(t, g);
    var n := CountAt(t, v, g);
    assert SlotOk(t[p], v[p]);
    if !Counted(t, g) {
      PayloadFits(t[p], v[p], n, used, cap, top);
    } else if 0 < n <= t[p].elemLen {
      PayloadFits(t[p], v[p], n, used + size, cap, top);
    }
  }

  lemma {:induction false} Fitting(t: seq<Elem>, v: seq<Slot>, g: nat, used: nat, cap: u32, top: bool)
    requires TableFrom(t, g, top) && StructOk(t, v)
    requires EncFrom(t, v, g, top).ok && Fits(used + |EncFrom(t, v, g, top).bytes|, cap + Hole(top))
    ensures TryFrom(t, v, g, used, cap, top).ok
    decreases t, |t| - g, 2
  {
    if !t[g].kind.Eoti? {
      assert SlotOk(t[g], v[g]);
      if Present(t, v, g) {
        BodyFits(t, v, g, used, cap, top);
        BodyTried(t, v, g, used, cap, top);
        Fitting(t, v, PayAt(t, g) + 1, used + TryGroup(t, v, g, used, cap, top).size, cap, top);
      } else {
        Fitting(t, v, PayAt(t, g) + 1, used, cap, top);
      }
    }
  }

  /** The check is exact, but for a nested string whose octets come within a header of the capacity. */
  lemma StringCheckExact(e: Elem, chars: seq<byte>, cap: nat, top: bool)
    requires PayloadOk(e) && e.kind.String? && StrLen(chars) <= e.elemLen
    ensures var size := |EncPayload(e, Chars(chars), 1, top).bytes|;
            (StringCheck(e, StrLen(chars), cap, top) <==> Fits(size, cap)) <==> (top || !(size <= cap < size + HEADER))
  {
    var len := StrLen(chars);
    var x := EncPayload(e, Chars(chars), 1, top);
    assert x == Enc((if top then [] else Le(len, StrSize(e))) + chars[..len], true);
  }

  // ----- Without nested strings the encoder stays inside -----

  predicate StringFree(t: seq<Elem>)
    decreases t
  {
    forall i :: 0 <= i < |t| ==> !t[i].kind.String? && (t[i].kind.Struct? ==> StringFree(t[i].ei))
  }

  /** No string below the level of this entry, nor at it unless that is the top. */
  predicate GuardedElem(e: Elem, top: bool) {
    (e.kind.Struct? ==> StringFree(e.ei)) && (e.kind.String? ==> top)
  }

  predicate Guarded(t: seq<Elem>, top: bool) {
    forall i :: 0 <= i < |t| ==> GuardedElem(t[i], top)
  }

  /** Nothing is written, or room for a header remains. */
  predicate Inside(used: nat, r: Trial, room: nat) { r.size > 0 ==> Fits(used + r.size, room) }

  /** And if nothing is written successfully, too. */
  predicate Checked(used: nat, r: Trial, room: nat) { r.ok || r.size > 0 ==> Fits(used + r.size, room) }

  lemma {:induction false} StructsInside(e: Elem, elems: seq<seq<Slot>>, i: nat, n: nat, used: nat, cap: u32)
    requires i <= n <= |elems| && NestedOk(e.ei) && AllOk(e.ei, elems) && StringFree(e.ei) && used <= cap
    ensures Inside(used, TryStructs(e, elems, i, n, used, cap), cap)
    ensures i < n ==> Checked(used, TryStructs(e, elems, i, n, used, cap), cap)
    decreases e, n - i
  {
    if i < n {
      var one := TryFrom(e.ei, elems[i], 0, 0, Left(cap, used), false);
      StaysInside(e.ei, elems[i], 0, 0, Left(cap, used), false);
      assert Checked(0, one, Left(cap, used)) && Left(cap, used) == cap - used;
      if one.ok {
        StructsInside(e, elems, i + 1, n, used + one.size, cap);
      }
    }
  }

  lemma {:induction false} PayloadInside(e: Elem, s: Slot, n: nat, used: nat, cap: u32, top: bool)
    requires PayloadOk(e) && SlotOk(e, s) && n <= e.elemLen && (e.kind.Struct? ==> NestedOk(e.ei))
    requires GuardedElem(e, top) && used <= cap && n > 0
    ensures Checked(used, TryPayload(e, s, n, used, cap, top), cap)
    decreases e, n + 1
  {
    if e.kind.Struct? {
      StructsInside(e, s.elems, 0, n, 0, Left(cap, used));
    }
  }

  lemma {:induction false} BodyInside(t: seq<Elem>, v: seq<Slot>, g: nat, used: nat, cap: u32, top: bool)
    requires TableFrom(t, g, top) && !t[g].kind.Eoti? && StructOk(t, v) && Guarded(t, top) && used <= cap
    ensures Checked(used, TryBody(t, v, g, used, cap, top), cap)
    decreases t, |t| - g, 0
  {
    var p, size := PayAt(t, g), CountSize(t, g);
    var n := CountAt(t, v, g);
    assert SlotOk(t[p], v[p]) && GuardedElem(t[p], top);
    if !Counted(t, g) {
      PayloadInside(t[p], v[p], n, used, cap, top);
    } else if size + used + HEADER <= cap && 0 < n <= t[p].elemLen {
      PayloadInside(t[p], v[p], n, used + size, cap, top);
    }
  }

  lemma {:induction false} StaysInside(t: seq<Elem>, v: seq<Slot>, g: nat, used: nat, cap: u32, top: bool)
    requires TableFrom(t, g, top) && StructOk(t, v) && Guarded(t, top) && used <= cap
    ensures Inside(used, TryFrom(t, v, g, used, cap, top), cap + Hole(top))
    ensures !top && !t[g].kind.Eoti? ==> Checked(used, TryFrom(t, v, g, used, cap, top), cap)
    decreases t, |t| - g, 2
  {
    if !t[g].kind.Eoti? {
      assert SlotOk(t[g], v[g]);
      if Present(t, v, g) {
        var one := TryGroup(t, v, g, used, cap, top);
        BodyInside(t, v, g, used, cap, top);
        if one.ok {
          StaysInside(t, v, PayAt(t, g) + 1, used + one.size, cap, top);
        }
      } else {
        StaysInside(t, v, PayAt(t, g) + 1, used, cap, top);
      }
    }
  }

  // ----- The whole table -----

  /** For every table, struct and capacity: the encoder succeeds inside its room if and only if the
      struct is legal and its encoding fits; without nested strings it never leaves its room. */
  lemma RoomExact(t: seq<Elem>, v: seq<Slot>, cap: u32)
    requires TableFrom(t, 0, true) && StructOk(t, v)
    ensures var r, x := TryFrom(t, v, 0, 0, cap, true), EncFrom(t, v, 0, true);
            && (r.ok && r.size <= cap <==> x.ok && |x.bytes| <= cap)
            && (Guarded(t, true) ==> r.size <= cap)
  {
    if TryFrom(t, v, 0, 0, cap, true).ok {
      Tried(t, v, 0, 0, cap, true);
    }
    if EncFrom(t, v, 0, true).ok && |EncFrom(t, v, 0, true).bytes| <= cap {
      Fitting(t, v, 0, 0, cap, true);
      Tried(t, v, 0, 0, cap, true);
    }
    if Guarded(t, true) {
      StaysInside(t, v, 0, 0, cap, true);
    }
  }
}
