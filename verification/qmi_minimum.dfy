/** lib/qmi.c, qmi_calc_min_msg_len: what it calculates, what it decides, and how it relates to the
    shortest encoding there is. */
module QmiMinimum {
  import opened Qmi
  import opened QmiDecode
  import opened QmiRoom
  import opened QmiEncoder
  import opened QmiRoundTrip
  import opened QmiTheorems

  // ----- The calculated length -----

  /** What a payload adds to the calculated minimum: a string or an array of integers its longest, a
      struct the minimum of one, however many the array has. */
  function MinPayload(e: Elem, top: bool): nat
    requires PayloadOk(e) && (e.kind.Struct? ==> NestedOk(e.ei))
    decreases e, 1
  {
    Hole(top) +
    if e.kind.Struct? then MinLen(e.ei, 0, false)
    else (if e.kind.String? && !top then StrSize(e) else 0) + e.elemLen * e.elemSize
  }

  /** qmi_calc_min_msg_len from group g on: optional groups count nothing. */
  function MinLen(t: seq<Elem>, g: nat, top: bool): nat
    requires TableFrom(t, g, top)
    decreases t, |t| - g
  {
    if t[g].kind.Eoti? then 0
    else if t[g].kind.OptFlag? then MinLen(t, PayAt(t, g) + 1, top)
    else CountSize(t, g) + MinPayload(t[PayAt(t, g)], top) + MinLen(t, PayAt(t, g) + 1, top)
  }

  /** What an integer, struct or string entry adds. */
  method MinOfPayload(e: Elem, top: bool) returns (len: nat)
    requires PayloadOk(e) && (e.kind.Struct? ==> NestedOk(e.ei))
    ensures len == MinPayload(e, top)
    decreases e, 1
  {
    len := 0;
    if e.kind.Struct? {
      len := CalcMinMsgLen(e.ei, false);
    } else if e.kind.String? {
      if !top {
        len := len + if e.elemLen <= 256 then 1 else 2;
      }
      len := len + e.elemLen * e.elemSize;
    } else {
      len := len + e.elemLen * e.elemSize;
    }
    if top {
      len := len + HEADER;
    }
  }

  /** `len` octets are counted up to entry k of group g. */
  ghost predicate CountedUpTo(t: seq<Elem>, top: bool, g: nat, k: nat, len: nat)
    requires TableFrom(t, 0, top)
  {
    && g <= k < |t| && TableFrom(t, g, top)
    && if k == g then len + MinLen(t, g, top) == MinLen(t, 0, top)
       else
         && !t[g].kind.Eoti? && !t[g].kind.OptFlag? && k == PayAt(t, g)
         && len + MinPayload(t[k], top) + MinLen(t, k + 1, top) == MinLen(t, 0, top)
  }

  lemma CountStep(t: seq<Elem>, top: bool, g: nat, k: nat, len: nat)
    requires TableFrom(t, 0, top) && CountedUpTo(t, top, g, k, len) && !t[k].kind.Eoti?
    ensures !t[g].kind.Eoti?
    ensures t[k].kind.OptFlag? ==>
              k == g && g < PayAt(t, g) && top && CountedUpTo(t, top, PayAt(t, g) + 1, PayAt(t, g) + 1, len)
    ensures t[k].kind.DataLen? ==> CountedUpTo(t, top, g, k + 1, len + LenSize(t[k]))
    ensures !t[k].kind.OptFlag? && !t[k].kind.DataLen? ==>
              PayloadOk(t[k]) && (t[k].kind.Struct? ==> NestedOk(t[k].ei))
              && CountedUpTo(t, top, k + 1, k + 1, len + MinPayload(t[k], top))
  {
  }

  /** qmi_calc_min_msg_len */
  method CalcMinMsgLen(t: seq<Elem>, top: bool) returns (len: nat)
    requires TableFrom(t, 0, top)
    ensures len == MinLen(t, 0, top)
    decreases t
  {
    len := 0;
    var k: nat := 0;
    ghost var g: nat := 0;
    while !t[k].kind.Eoti?
      invariant CountedUpTo(t, top, g, k, len)
      decreases |t| - k
    {
      CountStep(t, top, g, k, len);
      if t[k].kind.OptFlag? {
        k := SkipToNext(t, g, k, top);
        g := k;
      } else if t[k].kind.DataLen? {
        len := len + if t[k].elemSize == 1 then 1 else 2;
        k := k + 1;
      } else {
        var size := MinOfPayload(t[k], top);
        len := len + size;
        k := k + 1;
        g := k;
      }
    }
  }

  // ----- The shortest encoding -----

  /** The fewest octets a payload takes that is not counted: its string empty, its structs shortest. */
  function ShortestPayload(e: Elem, n: nat, top: bool): nat
    requires PayloadOk(e) && (e.kind.Struct? ==> NestedOk(e.ei))
    decreases e, 1
  {
    if e.kind.Struct? then n * Shortest(e.ei, 0, false)
    else if e.kind.Basic? then n * e.elemSize
    else if top then 0
    else StrSize(e)
  }

  /** The fewest octets of a group: a counted array is shortest when it is empty. */
  function ShortestBody(t: seq<Elem>, g: nat, top: bool): nat
    requires TableFrom(t, g, top) && !t[g].kind.Eoti?
    decreases t, |t| - g, 0
  {
    var e := t[PayAt(t, g)];
    if Counted(t, g) then CountSize(t, g)
    else ShortestPayload(e, if e.arrayType.StaticArray? then e.elemLen else 1, top)
  }

  /** The fewest octets of the groups from g on; an optional one is shortest when absent. */
  function Shortest(t: seq<Elem>, g: nat, top: bool): nat
    requires TableFrom(t, g, top)
    decreases t, |t| - g, 1
  {
    if t[g].kind.Eoti? then 0
    else
      (if t[g].kind.OptFlag? then 0 else Hole(top) + ShortestBody(t, g, top)) + Shortest(t, PayAt(t, g) + 1, top)
  }

  // No legal encoding is shorter

  lemma {:induction false} StructsNoShorter(e: Elem, elems: seq<seq<Slot>>, i: nat, n: nat)
    requires i <= n <= |elems| && NestedOk(e.ei) && AllOk(e.ei, elems) && EncStructs(e, elems, i, n).ok
    ensures |EncStructs(e, elems, i, n).bytes| >= (n - i) * Shortest(e.ei, 0, false)
    decreases e, 0, n - i
  {
    if i < n {
      NoShorter(e.ei, elems[i], 0, false);
      StructsNoShorter(e, elems, i + 1, n);
      OneMore(n - i - 1, Shortest(e.ei, 0, false));
    }
  }

  lemma OneMore(n: nat, size: nat)
    ensures (n + 1) * size == n * size + size
  {
  }

  lemma {:induction false} PayloadNoShorter(e: Elem, s: Slot, n: nat, top: bool)
    requires PayloadOk(e) && SlotOk(e, s) && n <= e.elemLen && (e.kind.Struct? ==> NestedOk(e.ei))
    requires EncPayload(e, s, n, top).ok
    ensures |EncPayload(e, s, n, top).bytes| >= ShortestPayload(e, n, top)
    decreases e, 1
  {
    if e.kind.Struct? {
      StructsNoShorter(e, s.elems, 0, n);
    } else if e.kind.Basic? {
      FewerOctets(n, e.elemLen, e.elemSize);
    }
  }

  lemma {:induction false} BodyNoShorter(t: seq<Elem>, v: seq<Slot>, g: nat, top: bool)
    requires TableFrom(t, g, top) && !t[g].kind.Eoti? && StructOk(t, v) && Body(t, v, g, top).ok
    ensures |Body(t, v, g, top).bytes| >= ShortestBody(t, g, top)
    decreases t, |t| - g, 0
  {
    var p := PayAt(t, g);
    assert SlotOk(t[p], v[p]);
    if !Counted(t, g) {
      PayloadNoShorter(t[p], v[p], CountAt(t, v, g), top);
    }
  }

  lemma {:induction false} NoShorter(t: seq<Elem>, v: seq<Slot>, g: nat, top: bool)
    requires TableFrom(t, g, top) && StructOk(t, v) && EncFrom(t, v, g, top).ok
    ensures |EncFrom(t, v, g, top).bytes| >= Shortest(t, g, top)
    decreases t, |t| - g, 1
  {
    if !t[g].kind.Eoti? {
      assert SlotOk(t[g], v[g]);
      NoShorter(t, v, PayAt(t, g) + 1, top);
      if Present(t, v, g) && !t[g].kind.OptFlag? {
        BodyNoShorter(t, v, g, top);
      }
    }
  }

  // The zeroed struct is one of the shortest

  lemma {:induction false} ZerosShortest(e: Elem, elems: seq<seq<Slot>>, i: nat, n: nat)
    requires i <= n <= |elems| && NestedOk(e.ei) && AllOk(e.ei, elems) && forall j :: i <= j < n ==>
             elems[j] == ZeroStruct(e.ei)
    ensures EncStructs(e, elems, i, n).ok && |EncStructs(e, elems, i, n).bytes| == (n - i) * Shortest(e.ei, 0, false)
    decreases e, 0, n - i
  {
    if i < n {
      ZeroShortest(e.ei, 0, false);
      ZerosShortest(e, elems, i + 1, n);
      OneMore(n - i - 1, Shortest(e.ei, 0, false));
    }
  }

  lemma {:induction false} ZeroPayloadShortest(e: Elem, n: nat, top: bool)
    requires PayloadOk(e) && SlotOk(e, Zero(e)) && n <= e.elemLen && (e.kind.Struct? ==> NestedOk(e.ei))
    ensures var enc := EncPayload(e, Zero(e), n, top); enc.ok && |enc.bytes| == ShortestPayload(e, n, top)
    decreases e, 1
  {
    if e.kind.Struct? {
      ZerosShortest(e, Zero(e).elems, 0, n);
    } else if e.kind.Basic? {
      FewerOctets(n, e.elemLen, e.elemSize);
    }
  }

  lemma {:induction false} ZeroBodyShortest(t: seq<Elem>, g: nat, top: bool)
    requires TableFrom(t, g, top) && !t[g].kind.Eoti? && StructOk(t, ZeroStruct(t))
    ensures var b := Body(t, ZeroStruct(t), g, top); b.ok && |b.bytes| == ShortestBody(t, g, top)
    decreases t, |t| - g, 0
  {
    var v, l, p := ZeroStruct(t), LenAt(t, g), PayAt(t, g);
    assert v[l] == Zero(t[l]) && v[p] == Zero(t[p]) && SlotOk(t[p], v[p]);
    if !Counted(t, g) {
      ZeroPayloadShortest(t[p], CountAt(t, v, g), top);
    }
  }

  lemma {:induction false} ZeroShortest(t: seq<Elem>, g: nat, top: bool)
    requires TableFrom(t, g, top) && TableFrom(t, 0, top)
    ensures StructOk(t, ZeroStruct(t))
    ensures var enc := EncFrom(t, ZeroStruct(t), g, top); enc.ok && |enc.bytes| == Shortest(t, g, top)
    decreases t, |t| - g, 2
  {
    ZeroStructOk(t, 0, top);
    if !t[g].kind.Eoti? {
      ZeroShortest(t, PayAt(t, g) + 1, top);
      ZeroGroupShortest(t, g, top);
    }
  }

  /** A flag of the zeroed struct is clear; a group without one is the shortest. */
  lemma ZeroGroupShortest(t: seq<Elem>, g: nat, top: bool)
    requires TableFrom(t, g, top) && !t[g].kind.Eoti? && StructOk(t, ZeroStruct(t))
    ensures SlotOk(t[g], ZeroStruct(t)[g])
    ensures Present(t, ZeroStruct(t), g) <==> !t[g].kind.OptFlag?
    ensures var f := Framed(t, ZeroStruct(t), g, top); f.ok && |f.bytes| == Hole(top) + ShortestBody(t, g, top)
    decreases t, |t| - g, 1
  {
    assert ZeroStruct(t)[g] == Zero(t[g]);
    ZeroBodyShortest(t, g, top);
  }

  /** A length that every legal encoding has at least. */
  ghost predicate LowerBound(t: seq<Elem>, top: bool, n: nat)
    requires TableFrom(t, 0, top)
  {
    forall v :: StructOk(t, v) && EncFrom(t, v, 0, top).ok ==> n <= |EncFrom(t, v, 0, top).bytes|
  }

  /** Shortest is what its name says, and the calculated length is a lower bound of all encodings if
      and only if it does not exceed it. */
  lemma MinimumExact(t: seq<Elem>, top: bool)
    requires TableFrom(t, 0, top)
    ensures LowerBound(t, top, Shortest(t, 0, top))
    ensures exists v | StructOk(t, v) ::
              EncFrom(t, v, 0, top).ok && |EncFrom(t, v, 0, top).bytes| == Shortest(t, 0, top)
    ensures LowerBound(t, top, MinLen(t, 0, top)) <==> MinLen(t, 0, top) <= Shortest(t, 0, top)
  {
    forall v | StructOk(t, v) && EncFrom(t, v, 0, top).ok
      ensures |EncFrom(t, v, 0, top).bytes| >= Shortest(t, 0, top)
    {
      NoShorter(t, v, 0, top);
    }
    ZeroShortest(t, 0, top);
    assert EncFrom(t, ZeroStruct(t), 0, top).ok;
  }

  // ----- When a struct may be left out -----

  lemma {:induction false} NestedMinLen(t: seq<Elem>, g: nat)
    requires TableFrom(t, g, false) && !t[g].kind.Eoti?
    ensures MinLen(t, g, false) > 0
    decreases t
  {
    var e := t[PayAt(t, g)];
    if e.kind.Struct? {
      NestedMinLen(e.ei, 0);
    }
  }

  lemma {:induction false} ZeroEncodesEmpty(t: seq<Elem>, g: nat)
    requires TableFrom(t, g, true) && TableFrom(t, 0, true) && MinLen(t, g, true) == 0
    ensures StructOk(t, ZeroStruct(t)) && EncFrom(t, ZeroStruct(t), g, true) == Enc([], true)
    decreases |t| - g
  {
    ZeroStructOk(t, 0, true);
    if !t[g].kind.Eoti? {
      ZeroEncodesEmpty(t, PayAt(t, g) + 1);
    }
  }

  lemma {:induction false} SomeGroupStays(t: seq<Elem>, v: seq<Slot>, g: nat)
    requires TableFrom(t, g, true) && StructOk(t, v) && MinLen(t, g, true) > 0
    ensures |EncFrom(t, v, g, true).bytes| >= HEADER
    decreases |t| - g
  {
    if t[g].kind.OptFlag? && !Present(t, v, g) {
      SomeGroupStays(t, v, PayAt(t, g) + 1);
    }
  }

  /** A message may be sent without a struct exactly when some struct encodes to nothing; the zeroed
      one then does. */
  lemma NullStruct(t: seq<Elem>)
    requires TableFrom(t, 0, true)
    ensures MinLen(t, 0, true) == 0 <==> exists v :: StructOk(t, v) && EncFrom(t, v, 0, true) == Enc([], true)
    ensures MinLen(t, 0, true) == 0 ==> Decode(t, []) == Ok(ZeroStruct(t), 0)
  {
    if MinLen(t, 0, true) == 0 {
      ZeroEncodesEmpty(t, 0);
      ZeroStructOk(t, 0, true);
    } else {
      forall v | StructOk(t, v)
        ensures EncFrom(t, v, 0, true) != Enc([], true)
      {
        SomeGroupStays(t, v, 0);
      }
    }
  }

  // ----- Both ways of missing the minimum -----

  /** A counted array is counted at its longest, so the calculated length can be too long. */
  lemma TooLongExample()
    ensures var t := [Elem(DataLen, 1, 1, NoArray, 1, []), Elem(Basic, 10, 1, VarLenArray, 1, []),
                      Elem(Eoti, 0, 0, NoArray, 0, [])];
            TableFrom(t, 0, true) && Shortest(t, 0, true) == 4 && MinLen(t, 0, true) == 14
  {
    var t := [Elem(DataLen, 1, 1, NoArray, 1, []), Elem(Basic, 10, 1, VarLenArray, 1, []),
              Elem(Eoti, 0, 0, NoArray, 0, [])];
    assert TableFrom(t, 2, true);
    assert TableFrom(t, 0, true);
  }

  /** A struct of one 16-bit integer. */
  const PAIR: seq<Elem> := [Elem(Basic, 1, 2, NoArray, 0, []), Elem(Eoti, 0, 0, NoArray, 0, [])]

  lemma PairCounts()
    ensures NestedOk(PAIR) && Shortest(PAIR, 0, false) == 2 && MinLen(PAIR, 0, false) == 2
  {
    assert TableFrom(PAIR, 1, false);
    assert TableFrom(PAIR, 0, false);
    assert ShortestBody(PAIR, 0, false) == 2 && Shortest(PAIR, 1, false) == 0;
  }

  /** A static array of structs is counted once, so it can be too short. */
  lemma TooShortExample()
    ensures var t := [Elem(Struct, 5, 2, StaticArray, 1, PAIR), Elem(Eoti, 0, 0, NoArray, 0, [])];
            TableFrom(t, 0, true) && Shortest(t, 0, true) == 13 && MinLen(t, 0, true) == 5
  {
    var t := [Elem(Struct, 5, 2, StaticArray, 1, PAIR), Elem(Eoti, 0, 0, NoArray, 0, [])];
    PairCounts();
    assert TableFrom(t, 1, true);
    assert TableFrom(t, 0, true);
    assert ShortestPayload(t[0], 5, true) == 10 && ShortestBody(t, 0, true) == 10 && MinPayload(t[0], true) == 5;
    assert Shortest(t, 1, true) == 0 && MinLen(t, 1, true) == 0;
  }
}
