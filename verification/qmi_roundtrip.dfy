/** What decoding an encoded struct yields, below the top level: exactly when it is the struct again. */
module QmiRoundTrip {
  import opened Qmi
  import opened QmiDecode

  // ----- The struct a decoder should rebuild -----

  /** The field a decoder finds in a zeroed struct. */
  function Zero(e: Elem): Slot
    decreases e, 0
  {
    match e.kind
    case Eoti => Flag(0)
    case OptFlag => Flag(0)
    case DataLen => Len(0)
    case Basic => Bytes(seq(e.elemLen * e.elemSize, i => 0))
    case String => Chars([])
    case Struct => Structs(seq(e.elemLen, i => ZeroStruct(e.ei)))
  }

  function ZeroStruct(t: seq<Elem>): (v: seq<Slot>)
    decreases t, 1
  {
    seq(if |t| == 0 then 0 else |t| - 1, i requires 0 <= i < |t| - 1 => Zero(t[i]))
  }

  function Min(a: nat, b: nat): nat { if a < b then a else b }

  /** The payload with everything beyond its first n elements, or beyond its terminator, cleared. */
  function CanonPayload(e: Elem, s: Slot, n: nat): (r: Slot)
    requires PayloadOk(e) && SlotOk(e, s) && n <= e.elemLen && (e.kind.Struct? ==> NestedOk(e.ei))
    decreases e, 0
  {
    if e.kind.Basic? then
      FewerOctets(n, e.elemLen, e.elemSize);
      Bytes(s.data[..n * e.elemSize] + seq(e.elemLen * e.elemSize - n * e.elemSize, i => 0))
    else if e.kind.Struct? then
      Structs(seq(e.elemLen, j requires 0 <= j < e.elemLen =>
        if j < n then CanonFrom(e.ei, s.elems[j], 0, false) else ZeroStruct(e.ei)))
    else Chars(s.chars[..StrLen(s.chars)])
  }

  /** The slots of one group: its flag normalised to 1, its length as it was read; all zero when absent. */
  function CanonGroup(t: seq<Elem>, v: seq<Slot>, g: nat, top: bool): (r: seq<Slot>)
    requires TableFrom(t, g, top) && !t[g].kind.Eoti? && StructOk(t, v)
    ensures |r| == PayAt(t, g) + 1 - g
    decreases t, |t| - g, 0
  {
    var l, p := LenAt(t, g), PayAt(t, g);
    if !Present(t, v, g) then ZeroStruct(t)[g..p+1]
    else
      var n := CountAt(t, v, g);
      var payload := CanonPayload(t[p], v[p], Min(n, t[p].elemLen));
      seq(p + 1 - g, i => if g + i == p then payload else if g + i == l then Len(n) else Flag(1))
  }

  function CanonFrom(t: seq<Elem>, v: seq<Slot>, g: nat, top: bool): (r: seq<Slot>)
    requires TableFrom(t, g, top) && StructOk(t, v)
    ensures |r| == |t| - 1 - g
    decreases t, |t| - g, 1
  {
    if t[g].kind.Eoti? then [] else CanonGroup(t, v, g, top) + CanonFrom(t, v, PayAt(t, g) + 1, top)
  }

  // ----- When a field survives -----

  /** A nested string must have a length its length octets can hold: 256 characters do not fit one octet. */
  predicate PayloadKept(e: Elem, s: Slot, n: nat, top: bool)
    requires PayloadOk(e) && SlotOk(e, s) && n <= e.elemLen && (e.kind.Struct? ==> NestedOk(e.ei))
    decreases e, 0
  {
    (e.kind.String? && !top ==> StrLen(s.chars) < (if StrSize(e) == 1 then 256 else 65536)) &&
    (e.kind.Struct? ==> forall j :: 0 <= j < n ==> KeptFrom(e.ei, s.elems[j], 0, 0, false))
  }

  /** A length read in one octet must not find a larger data_len_value left over: `dl` is that value. */
  predicate GroupKept(t: seq<Elem>, v: seq<Slot>, g: nat, dl: nat, top: bool)
    requires TableFrom(t, g, top) && !t[g].kind.Eoti? && StructOk(t, v)
    decreases t, |t| - g, 0
  {
    var l, p := LenAt(t, g), PayAt(t, g);
    (l < p ==> dl < (if LenSize(t[l]) == 1 then 256 else 65536)) &&
    PayloadKept(t[p], v[p], Min(CountAt(t, v, g), t[p].elemLen), top)
  }

  predicate KeptFrom(t: seq<Elem>, v: seq<Slot>, g: nat, dl: nat, top: bool)
    requires TableFrom(t, g, top) && StructOk(t, v)
    decreases t, |t| - g, 1
  {
    t[g].kind.Eoti? ||
    (if !Present(t, v, g) then KeptFrom(t, v, PayAt(t, g) + 1, dl, top)
     else GroupKept(t, v, g, dl, top) && KeptFrom(t, v, PayAt(t, g) + 1, CountAt(t, v, g), top))
  }

  // ----- Zeroed structs -----

  lemma ZeroOk(e: Elem)
    requires e.kind.Struct? ==> NestedOk(e.ei)
    ensures SlotOk(e, Zero(e))
    decreases e, 0
  {
    if e.kind.Struct? {
      ZeroStructOk(e.ei, 0, false);
    }
  }

  lemma {:induction false} ZeroStructOk(t: seq<Elem>, g: nat, top: bool)
    requires TableFrom(t, g, top)
    ensures |ZeroStruct(t)| + 1 == |t| && forall i :: g <= i < |t| - 1 ==> SlotOk(t[i], ZeroStruct(t)[i])
    ensures g == 0 ==> StructOk(t, ZeroStruct(t))
    decreases t, |t| - g
  {
    if !t[g].kind.Eoti? {
      var p := PayAt(t, g);
      forall i | g <= i <= p
        ensures SlotOk(t[i], ZeroStruct(t)[i])
      {
        ZeroOk(t[i]);
      }
      ZeroStructOk(t, p + 1, top);
    }
  }

  /** The slots from g on are still zero. */
  predicate Cleared(t: seq<Elem>, w: seq<Slot>, g: nat) { |w| < |t| && forall i :: g <= i < |w| ==> w[i] == Zero(t[i]) }

  lemma ZeroStructCleared(t: seq<Elem>)
    requires |t| > 0
    ensures |ZeroStruct(t)| + 1 == |t| && Cleared(t, ZeroStruct(t), 0)
  {
  }

  // ----- What a decoder leaves alone -----

  lemma GroupFrame(t: seq<Elem>, g: nat, v: seq<Slot>, src: seq<byte>, tlvLen: u32, dl: u32, level: nat)
    requires level >= 1 && TableFrom(t, g, level == 1) && !t[g].kind.Eoti? && StructOk(t, v)
    ensures var r := DecGroup(t, g, v, src, tlvLen, dl, level);
            r.Ok? ==> forall i :: 0 <= i < |v| && !(g <= i <= PayAt(t, g)) ==> r.value.0[i] == v[i]
  {
  }

  lemma {:induction false} LoopFrame(t: seq<Elem>, k: nat, v: seq<Slot>, src: seq<byte>, limit: u32, d: nat, dl: u32,
                                     level: nat)
    requires level >= 2 && StructOk(t, v) && TableFrom(t, k, false)
    ensures var r := DecNested(t, k, v, src, limit, d, dl, level);
            r.Ok? ==> forall i :: 0 <= i < k && i < |v| ==> r.value[i] == v[i]
    decreases |t| - k
  {
    if d < limit && !t[k].kind.Eoti? {
      var r := DecGroup(t, k, v, src, limit - d, dl, level);
      GroupFrame(t, k, v, src, limit - d, dl, level);
      if r.Ok? {
        LoopFrame(t, PayAt(t, k) + 1, r.value.0, src[r.n..], limit, d + r.n, r.value.1, level);
      }
    }
  }

  lemma {:induction false} StructsFrame(e: Elem, elems: seq<seq<Slot>>, i: nat, count: nat, src: seq<byte>,
                                        tlvLen: u32, d: nat, level: nat)
    requires NestedOk(e.ei) && i <= count <= |elems| && level >= 2
    requires AllOk(e.ei, elems)
    ensures var r := DecArray(e, elems, i, count, src, tlvLen, d, level);
            r.Ok? ==>
              && (forall j :: 0 <= j < |elems| && !(i <= j < count) ==> r.value[j] == elems[j])
              && (level == 2 ==> d + r.n == tlvLen)
    decreases count - i
  {
    if i < count && d < tlvLen {
      var first := DecNested(e.ei, 0, elems[i], src, tlvLen - d, 0, 0, level);
      if first.Ok? {
        StructsFrame(e, elems[i := first.value], i + 1, count, src[first.n..], tlvLen, d + first.n, level);
      }
    }
  }

  // ----- Exactness -----

  /** A nested string comes back exactly when its length octets hold its length. */
  lemma NestedStringExact(e: Elem, s: Slot, tail: seq<byte>, tlvLen: u32, level: nat)
    requires PayloadOk(e) && e.kind.String? && SlotOk(e, s) && level >= 2 && StrLen(s.chars) <= e.elemLen
    requires |EncPayload(e, s, 1, false).bytes| <= tlvLen
    ensures var enc := EncPayload(e, s, 1, false).bytes;
            var r := DecString(e, Zero(e), enc + tail, tlvLen, level);
            && ((r.Ok? && r.value == CanonPayload(e, s, 1)) <==> PayloadKept(e, s, 1, false))
            && (PayloadKept(e, s, 1, false) ==> r.n == |enc|)
  {
    var len, size := StrLen(s.chars), StrSize(e);
    var text := s.chars[..len];
    var src := Le(len, size) + text + tail;
    var r := DecString(e, Zero(e), src, tlvLen, level);
    assert src[..size] == Le(len, size) && src[size..size + len] == text;
    StringAccepts(e, Zero(e), src, tlvLen, level, text, size + len);
    if r.Ok? {
      StringAccepts(e, Zero(e), src, tlvLen, level, text, r.n);
    }
  }

  lemma StringExact(e: Elem, s: Slot, tail: seq<byte>, tlvLen: u32, level: nat)
    requires PayloadOk(e) && e.kind.String? && SlotOk(e, s) && level >= 1 && StrLen(s.chars) <= e.elemLen
    requires var enc := EncPayload(e, s, 1, level == 1); |enc.bytes| <= tlvLen && (level == 1 ==> |enc.bytes| == tlvLen)
    ensures var enc := EncPayload(e, s, 1, level == 1).bytes;
            var r := DecString(e, Zero(e), enc + tail, tlvLen, level);
            && ((r.Ok? && r.value == CanonPayload(e, s, 1)) <==> PayloadKept(e, s, 1, level == 1))
            && (PayloadKept(e, s, 1, level == 1) ==> r.n == |enc|)
            && (level == 1 && r.Ok? ==> r.n == |enc|)
  {
    if level == 1 {
      var text := s.chars[..StrLen(s.chars)];
      assert (text + tail)[0..|text|] == text;
    } else {
      NestedStringExact(e, s, tail, tlvLen, level);
    }
  }

  /** Below the top level every present group takes at least one octet. */
  lemma {:induction false} PayloadTakesSpace(e: Elem, s: Slot, n: nat)
    requires PayloadOk(e) && SlotOk(e, s) && 1 <= n <= e.elemLen && (e.kind.Struct? ==> NestedOk(e.ei))
    requires EncPayload(e, s, n, false).ok
    ensures |EncPayload(e, s, n, false).bytes| >= 1
    decreases e
  {
    if e.kind.Basic? {
      FewerOctets(1, n, e.elemSize);
      FewerOctets(n, e.elemLen, e.elemSize);
    } else if e.kind.Struct? {
      var t, v := e.ei, s.elems[0];
      var first, more := EncFrom(t, v, 0, false), EncStructs(e, s.elems, 1, n);
      assert EncStructs(e, s.elems, 0, n) == Then(first, more);
      assert SlotOk(t[0], v[0]) && Present(t, v, 0);
      assert first == Then(Framed(t, v, 0, false), EncFrom(t, v, PayAt(t, 0) + 1, false));
      BodyTakesSpace(t, v, 0);
    }
  }

  lemma {:induction false} BodyTakesSpace(t: seq<Elem>, v: seq<Slot>, g: nat)
    requires TableFrom(t, g, false) && !t[g].kind.Eoti? && StructOk(t, v) && Body(t, v, g, false).ok
    ensures |Body(t, v, g, false).bytes| >= 1
    decreases t
  {
    var p := PayAt(t, g);
    if LenAt(t, g) == p {
      PayloadTakesSpace(t[p], v[p], CountAt(t, v, g));
    }
  }

  // ----- One decoding step -----

  lemma StructsStep(e: Elem, elems: seq<seq<Slot>>, i: nat, count: nat, src: seq<byte>, tlvLen: u32, d: nat,
                    level: nat, w: seq<Slot>, m: nat)
    requires NestedOk(e.ei) && i < count <= |elems| && level >= 2 && d < tlvLen
    requires AllOk(e.ei, elems)
    requires DecNested(e.ei, 0, elems[i], src, tlvLen - d, 0, 0, level) == Ok(w, m)
    ensures m <= |src| && StructOk(e.ei, w)
    ensures var rest := DecArray(e, elems[i := w], i + 1, count, src[m..], tlvLen, d + m, level);
            DecArray(e, elems, i, count, src, tlvLen, d, level) == if rest.Ok? then Ok(rest.value, m + rest.n) else rest
  {
  }

  /** The struct w with the slots of the group at g replaced. */
  function Install(t: seq<Elem>, w: seq<Slot>, g: nat, group: seq<Slot>): (r: seq<Slot>)
    requires g < |t| && PayAt(t, g) < |w| && |group| == PayAt(t, g) + 1 - g
    ensures |r| == |w|
  {
    seq(|w|, i requires 0 <= i < |w| => if g <= i <= PayAt(t, g) then group[i - g] else w[i])
  }

  /** Writing flag, length and payload one after the other installs the group. */
  lemma InstallGroup(t: seq<Elem>, g: nat, w: seq<Slot>, v: seq<Slot>, top: bool)
    requires TableFrom(t, g, top) && !t[g].kind.Eoti? && StructOk(t, v) && StructOk(t, w) && Present(t, v, g)
    requires CountAt(t, v, g) <= t[PayAt(t, g)].elemLen
    ensures var p, n := PayAt(t, g), CountAt(t, v, g);
            && 0 <= n < 0x1_0000_0000
            && Written(t, g, w, n, CanonPayload(t[p], v[p], n)) == Install(t, w, g, CanonGroup(t, v, g, top))
            && CanonGroup(t, v, g, top)[p - g] == CanonPayload(t[p], v[p], n)
            && (Counted(t, g) ==> CanonGroup(t, v, g, top)[LenAt(t, g) - g] == Len(n))
  {
  }

  /** Overlaying a length on what an earlier group left behind gives the length back exactly when
      nothing larger was left; otherwise the result exceeds any array the length can count. */
  lemma OverlayExact(dl: u32, n: nat, size: nat)
    requires size == 1 || size == 2
    requires n < if size == 1 then 256 else 65536
    ensures FromLe(Le(n, size), size) == n
    ensures Overlay(dl, n, size) == n <==> dl < if size == 1 then 256 else 65536
    ensures Overlay(dl, n, size) != n ==> Overlay(dl, n, size) >= if size == 1 then 256 else 65536
  {
  }

  lemma NestedTakesSpace(t: seq<Elem>, v: seq<Slot>)
    requires NestedOk(t) && StructOk(t, v) && EncFrom(t, v, 0, false).ok
    ensures |EncFrom(t, v, 0, false).bytes| >= 1
  {
    BodyTakesSpace(t, v, 0);
  }

  /** The octets of a group are its length, if it has one, and its payload, which may be empty. */
  lemma BodyParts(t: seq<Elem>, v: seq<Slot>, g: nat, top: bool)
    requires TableFrom(t, g, top) && !t[g].kind.Eoti? && StructOk(t, v) && Body(t, v, g, top).ok
    ensures var n := CountAt(t, v, g);
            && n <= t[PayAt(t, g)].elemLen
            && EncPayload(t[PayAt(t, g)], v[PayAt(t, g)], n, top).ok
            && Body(t, v, g, top).bytes ==
               (if Counted(t, g) then Le(n, CountSize(t, g)) else [])
                 + EncPayload(t[PayAt(t, g)], v[PayAt(t, g)], n, top).bytes
  {
  }

  lemma FromParts(t: seq<Elem>, v: seq<Slot>, g: nat)
    requires TableFrom(t, g, false) && !t[g].kind.Eoti? && StructOk(t, v) && EncFrom(t, v, g, false).ok
    ensures Present(t, v, g) && Body(t, v, g, false).ok && EncFrom(t, v, PayAt(t, g) + 1, false).ok
    ensures EncFrom(t, v, g, false).bytes == Body(t, v, g, false).bytes + EncFrom(t, v, PayAt(t, g) + 1, false).bytes
    ensures |Body(t, v, g, false).bytes| >= 1
  {
    BodyTakesSpace(t, v, g);
  }

  lemma StructsParts(e: Elem, elems: seq<seq<Slot>>, i: nat, n: nat)
    requires i < n <= |elems| && NestedOk(e.ei) && AllOk(e.ei, elems)
    requires EncStructs(e, elems, i, n).ok
    ensures EncFrom(e.ei, elems[i], 0, false).ok && EncStructs(e, elems, i + 1, n).ok
    ensures EncStructs(e, elems, i, n).bytes == EncFrom(e.ei, elems[i], 0, false).bytes
            + EncStructs(e, elems, i + 1, n).bytes
    ensures |EncFrom(e.ei, elems[i], 0, false).bytes| >= 1
  {
    NestedTakesSpace(e.ei, elems[i]);
  }

  lemma Split(a: seq<byte>, b: seq<byte>, tail: seq<byte>)
    ensures (a + b) + tail == a + (b + tail)
    ensures ((a + b) + tail)[|a|..] == b + tail
  {
  }

  /** A length read back from the front of a buffer. */
  lemma ReadBack(n: nat, size: nat, rest: seq<byte>)
    requires (size == 1 || size == 2) && n < if size == 1 then 256 else 65536
    ensures FromLe(Le(n, size) + rest, size) == n
  {
  }

  // ----- Kept structs come back -----

  /** The array with elements i to n - 1 rebuilt. */
  function Filled(e: Elem, elems: seq<seq<Slot>>, cur: seq<seq<Slot>>, i: nat, n: nat): seq<seq<Slot>>
    requires NestedOk(e.ei) && |elems| == |cur| && AllOk(e.ei, elems)
  {
    seq(|cur|, j requires 0 <= j < |cur| => if i <= j < n then CanonFrom(e.ei, elems[j], 0, false) else cur[j])
  }

  predicate Blank(e: Elem, cur: seq<seq<Slot>>, i: nat, n: nat)
    requires n <= |cur|
  {
    forall j :: i <= j < n ==> cur[j] == ZeroStruct(e.ei)
  }

  predicate AllKept(e: Elem, elems: seq<seq<Slot>>, i: nat, n: nat)
    requires n <= |elems| && NestedOk(e.ei) && AllOk(e.ei, elems)
  {
    forall j :: i <= j < n ==> KeptFrom(e.ei, elems[j], 0, 0, false)
  }

  lemma BlankStep(e: Elem, cur: seq<seq<Slot>>, i: nat, n: nat, w: seq<Slot>)
    requires i < n <= |cur| && Blank(e, cur, i, n)
    ensures Blank(e, cur[i := w], i + 1, n)
  {
  }

  lemma FilledStep(e: Elem, elems: seq<seq<Slot>>, cur: seq<seq<Slot>>, i: nat, n: nat)
    requires NestedOk(e.ei) && i < n <= |elems| == |cur| && AllOk(e.ei, elems)
    ensures Filled(e, elems, cur[i := CanonFrom(e.ei, elems[i], 0, false)], i + 1, n) == Filled(e, elems, cur, i, n)
  {
  }

  lemma PayloadBack(e: Elem, s: Slot, n: nat, tail: seq<byte>, tlvLen: u32, level: nat)
    requires PayloadOk(e) && SlotOk(e, s) && n <= e.elemLen && (e.kind.Struct? ==> NestedOk(e.ei)) && level >= 1
    requires SlotOk(e, Zero(e)) && PayloadKept(e, s, n, level == 1)
    requires var enc := EncPayload(e, s, n, level == 1);
             enc.ok && |enc.bytes| <= tlvLen && (level == 1 ==> |enc.bytes| == tlvLen)
    ensures var enc := EncPayload(e, s, n, level == 1).bytes;
            DecPayload(e, Zero(e), n, enc + tail, tlvLen, level) == Ok(CanonPayload(e, s, n), |enc|)
    decreases e, 1
  {
    var enc := EncPayload(e, s, n, level == 1).bytes;
    if e.kind.Basic? {
      BasicBack(e, s, n, tail, tlvLen, level);
    } else if e.kind.Struct? {
      StructsBack(e, s.elems, Zero(e).elems, 0, n, tail, tlvLen, 0, level + 1);
      assert Filled(e, s.elems, Zero(e).elems, 0, n) == CanonPayload(e, s, n).elems;
    } else {
      StringExact(e, s, tail, tlvLen, level);
    }
  }

  lemma BasicBack(e: Elem, s: Slot, n: nat, tail: seq<byte>, tlvLen: u32, level: nat)
    requires PayloadOk(e) && e.kind.Basic? && SlotOk(e, s) && n <= e.elemLen && level >= 1 && SlotOk(e, Zero(e))
    ensures var enc := EncPayload(e, s, n, level == 1).bytes;
            DecPayload(e, Zero(e), n, enc + tail, tlvLen, level) == Ok(CanonPayload(e, s, n), |enc|)
  {
    var need := n * e.elemSize;
    var enc := EncPayload(e, s, n, level == 1).bytes;
    FewerOctets(n, e.elemLen, e.elemSize);
    assert (enc + tail)[..need] == enc;
    assert Zero(e).data[need..] == seq(e.elemLen * e.elemSize - need, i => 0);
  }

  ghost function ArrayOwn(e: Elem, elems: seq<seq<Slot>>, cur: seq<seq<Slot>>, i: nat, n: nat, tail: seq<byte>,
                          tlvLen: u32, d: nat, level: nat)
    : Parse<seq<seq<Slot>>>
    requires NestedOk(e.ei) && i <= n <= |elems| == |cur| && level >= 2 && AllOk(e.ei, elems) && AllOk(e.ei, cur)
  {
    DecArray(e, cur, i, n, EncStructs(e, elems, i, n).bytes + tail, tlvLen, d, level)
  }

  ghost function AllFilled(e: Elem, elems: seq<seq<Slot>>, cur: seq<seq<Slot>>, i: nat, n: nat): Parse<seq<seq<Slot>>>
    requires NestedOk(e.ei) && i <= n <= |elems| == |cur| && AllOk(e.ei, elems)
  {
    Ok(Filled(e, elems, cur, i, n), |EncStructs(e, elems, i, n).bytes|)
  }

  /** The rest of an array may be decoded, with d octets consumed. */
  ghost predicate ArrayReady(e: Elem, elems: seq<seq<Slot>>, cur: seq<seq<Slot>>, i: nat, n: nat, tlvLen: u32,
                             d: nat, level: nat) {
    && NestedOk(e.ei) && i <= n <= |elems| == |cur| && AllOk(e.ei, elems) && AllOk(e.ei, cur)
    && Blank(e, cur, i, n) && AllKept(e, elems, i, n)
    && var enc := EncStructs(e, elems, i, n);
       enc.ok && d + |enc.bytes| <= tlvLen && (level == 2 ==> d + |enc.bytes| == tlvLen)
  }

  /** Decoding an array of kept structs fills it in. */
  lemma StructsBack(e: Elem, elems: seq<seq<Slot>>, cur: seq<seq<Slot>>, i: nat, n: nat, tail: seq<byte>,
                    tlvLen: u32, d: nat, level: nat)
    requires level >= 2 && ArrayReady(e, elems, cur, i, n, tlvLen, d, level)
    ensures ArrayOwn(e, elems, cur, i, n, tail, tlvLen, d, level) == AllFilled(e, elems, cur, i, n)
    decreases e, 0, n - i, 2
  {
    if i == n {
      StructsDone(e, elems, cur, n, tail, tlvLen, d, level);
    } else {
      var next, size := ArrayOwnStep(e, elems, cur, i, n, tail, tlvLen, d, level);
      StructsBack(e, elems, next, i + 1, n, tail, tlvLen, d + size, level);
    }
  }

  /** One struct: the array after it and its size. */
  lemma ArrayOwnStep(e: Elem, elems: seq<seq<Slot>>, cur: seq<seq<Slot>>, i: nat, n: nat, tail: seq<byte>,
                     tlvLen: u32, d: nat, level: nat)
    returns (next: seq<seq<Slot>>, size: nat)
    requires level >= 2 && i < n && ArrayReady(e, elems, cur, i, n, tlvLen, d, level)
    ensures ArrayReady(e, elems, next, i + 1, n, tlvLen, d + size, level)
    ensures var r := ArrayOwn(e, elems, next, i + 1, n, tail, tlvLen, d + size, level);
            ArrayOwn(e, elems, cur, i, n, tail, tlvLen, d, level) == if r.Ok? then Ok(r.value, size + r.n) else r
    ensures var r := AllFilled(e, elems, next, i + 1, n);
            r.Ok? && AllFilled(e, elems, cur, i, n) == Ok(r.value, size + r.n)
    decreases e, 0, n - i, 1
  {
    StructsParts(e, elems, i, n);
    var one, rest := EncFrom(e.ei, elems[i], 0, false).bytes, EncStructs(e, elems, i + 1, n).bytes;
    Split(one, rest, tail);
    StructsOne(e, elems, cur, i, n, rest + tail, tlvLen, d, level);
    FilledStep(e, elems, cur, i, n);
    next, size := RefilledAt(e, elems, cur, i), |one|;
  }

  lemma StructsDone(e: Elem, elems: seq<seq<Slot>>, cur: seq<seq<Slot>>, n: nat, tail: seq<byte>, tlvLen: u32,
                    d: nat, level: nat)
    requires NestedOk(e.ei) && n <= |elems| == |cur| && level >= 2 && AllOk(e.ei, elems) && AllOk(e.ei, cur)
    requires d <= tlvLen && (level == 2 ==> d == tlvLen)
    ensures DecArray(e, cur, n, n, [] + tail, tlvLen, d, level) == Ok(Filled(e, elems, cur, n, n), 0)
  {
    assert Filled(e, elems, cur, n, n) == cur;
  }

  function RefilledAt(e: Elem, elems: seq<seq<Slot>>, cur: seq<seq<Slot>>, i: nat): seq<seq<Slot>>
    requires NestedOk(e.ei) && AllOk(e.ei, elems) && i < |elems| == |cur|
  {
    cur[i := CanonFrom(e.ei, elems[i], 0, false)]
  }

  /** Decoding one kept element of an array moves on to the next one. */
  lemma StructsOne(e: Elem, elems: seq<seq<Slot>>, cur: seq<seq<Slot>>, i: nat, n: nat, rest: seq<byte>, tlvLen: u32,
                   d: nat, level: nat)
    requires NestedOk(e.ei) && i < n <= |elems| == |cur| && level >= 2
    requires AllOk(e.ei, elems) && AllOk(e.ei, cur) && Blank(e, cur, i, n) && AllKept(e, elems, i, n)
    requires EncFrom(e.ei, elems[i], 0, false).ok && 1 <= |EncFrom(e.ei, elems[i], 0, false).bytes| <= tlvLen - d
    ensures var one := EncFrom(e.ei, elems[i], 0, false).bytes;
            var next := RefilledAt(e, elems, cur, i);
            && AllOk(e.ei, next) && Blank(e, next, i + 1, n)
            && var r := DecArray(e, next, i + 1, n, rest, tlvLen, d + |one|, level);
               DecArray(e, cur, i, n, one + rest, tlvLen, d, level) == if r.Ok? then Ok(r.value, |one| + r.n) else r
    decreases e, 0, n - i, 0
  {
    var one := EncFrom(e.ei, elems[i], 0, false).bytes;
    var canon := CanonFrom(e.ei, elems[i], 0, false);
    assert cur[i] == ZeroStruct(e.ei);
    NestedWhole(e.ei, elems[i], rest, tlvLen - d, level);
    StructsStep(e, cur, i, n, one + rest, tlvLen, d, level, canon, |one|);
    assert (one + rest)[|one|..] == rest;
    AllOkUpdate(e.ei, cur, i, canon);
    BlankStep(e, cur, i, n, canon);
  }

  lemma NestedWhole(t: seq<Elem>, v: seq<Slot>, tail: seq<byte>, limit: u32, level: nat)
    requires level >= 2 && NestedOk(t) && StructOk(t, v) && StructOk(t, ZeroStruct(t)) && KeptFrom(t, v, 0, 0, false)
    requires EncFrom(t, v, 0, false).ok && |EncFrom(t, v, 0, false).bytes| <= limit
    ensures var enc := EncFrom(t, v, 0, false).bytes;
            DecNested(t, 0, ZeroStruct(t), enc + tail, limit, 0, 0, level) == Ok(CanonFrom(t, v, 0, false), |enc|)
    decreases t, |t| + 1
  {
    ZeroStructCleared(t);
    RestoredIsCanon(t, ZeroStruct(t), v, 0);
    NestedBack(t, 0, ZeroStruct(t), v, tail, limit, 0, 0, level);
    assert ZeroStruct(t)[..0] + CanonFrom(t, v, 0, false) == CanonFrom(t, v, 0, false);
  }

  /** data_len_value is clear of anything the group's length octets would not overwrite. */
  predicate Carried(t: seq<Elem>, g: nat, dl: nat)
    requires g < |t| && LenAt(t, g) < |t|
  {
    Counted(t, g) && dl >= if CountSize(t, g) == 1 then 256 else 65536
  }

  /** The decoder reads the group's element count back, or one too large for the array, and then
      stands before the payload. */
  lemma GroupFront(t: seq<Elem>, g: nat, v: seq<Slot>, tail: seq<byte>, dl: u32, top: bool)
    requires TableFrom(t, g, top) && !t[g].kind.Eoti? && StructOk(t, v) && Body(t, v, g, top).ok
    ensures var p, n, size := PayAt(t, g), CountAt(t, v, g), CountSize(t, g);
            var body, payload := Body(t, v, g, top).bytes, EncPayload(t[p], v[p], n, top);
            && n <= t[p].elemLen && payload.ok
            && |body| == size + |payload.bytes|
            && (if Carried(t, g, dl) then ReadCount(t, g, body + tail, dl) > t[p].elemLen
                else n == ReadCount(t, g, body + tail, dl))
            && (body + tail)[size..] == payload.bytes + tail
  {
    var n := CountAt(t, v, g);
    var count := if Counted(t, g) then Le(n, CountSize(t, g)) else [];
    BodyParts(t, v, g, top);
    var payload := EncPayload(t[PayAt(t, g)], v[PayAt(t, g)], n, top).bytes;
    Split(count, payload, tail);
    if Counted(t, g) {
      ReadBack(n, CountSize(t, g), payload + tail);
      OverlayExact(dl, n, CountSize(t, g));
    }
  }

  lemma GroupStep(t: seq<Elem>, g: nat, w: seq<Slot>, src: seq<byte>, tlvLen: u32, dl: u32, level: nat, n: u32,
                  x: Slot, m: nat)
    requires level >= 1 && TableFrom(t, g, level == 1) && !t[g].kind.Eoti? && StructOk(t, w)
    requires CountSize(t, g) <= |src| && CountSize(t, g) <= tlvLen
    requires n == ReadCount(t, g, src, dl) && n <= t[PayAt(t, g)].elemLen && SlotOk(t[PayAt(t, g)], w[PayAt(t, g)])
    requires DecPayload(t[PayAt(t, g)], w[PayAt(t, g)], n, src[CountSize(t, g)..], tlvLen - CountSize(t, g),
                        level) == Ok(x, m)
    ensures DecGroup(t, g, w, src, tlvLen, dl, level) == Ok((Written(t, g, w, n, x), n), CountSize(t, g) + m)
  {
    assert (tlvLen - CountSize(t, g)) % 0x1_0000_0000 == tlvLen - CountSize(t, g);
  }

  lemma GroupBack(t: seq<Elem>, g: nat, w: seq<Slot>, v: seq<Slot>, tail: seq<byte>, tlvLen: u32, dl: u32, level: nat)
    requires level >= 1 && TableFrom(t, g, level == 1) && !t[g].kind.Eoti? && StructOk(t, v) && StructOk(t, w)
    requires Present(t, v, g) && w[PayAt(t, g)] == Zero(t[PayAt(t, g)]) && GroupKept(t, v, g, dl, level == 1)
    requires var body := Body(t, v, g, level == 1);
             body.ok && |body.bytes| <= tlvLen && (level == 1 ==> |body.bytes| == tlvLen)
    ensures var body := Body(t, v, g, level == 1).bytes;
            DecGroup(t, g, w, body + tail, tlvLen, dl, level) ==
            Ok((Install(t, w, g, CanonGroup(t, v, g, level == 1)), CountAt(t, v, g)), |body|)
    decreases t, |t| - g, 0
  {
    var p, n, size := PayAt(t, g), CountAt(t, v, g), CountSize(t, g);
    GroupFront(t, g, v, tail, dl, level == 1);
    assert SlotOk(t[p], w[p]) && SlotOk(t[p], v[p]);
    PayloadBack(t[p], v[p], n, tail, tlvLen - size, level);
    var payload := EncPayload(t[p], v[p], n, level == 1).bytes;
    GroupStep(t, g, w, Body(t, v, g, level == 1).bytes + tail, tlvLen, dl, level, n, CanonPayload(t[p], v[p], n),
              |payload|);
    InstallGroup(t, g, w, v, level == 1);
  }

  /** A group that decodes to w and leaves n moves the decoder on by its size m. */
  lemma LoopStep(t: seq<Elem>, k: nat, v: seq<Slot>, src: seq<byte>, limit: u32, d: nat, dl: u32, level: nat,
                 w: seq<Slot>, m: nat, n: u32)
    requires level >= 2 && StructOk(t, v) && TableFrom(t, k, false) && !t[k].kind.Eoti? && d < limit
    requires DecGroup(t, k, v, src, limit - d, dl, level) == Ok((w, n), m)
    ensures m <= |src| && StructOk(t, w)
    ensures DecNested(t, k, v, src, limit, d, dl, level) ==
            DecNested(t, PayAt(t, k) + 1, w, src[m..], limit, d + m, n, level)
  {
  }

  lemma NestedMoves(t: seq<Elem>, g: nat, w: seq<Slot>, v: seq<Slot>, rest: seq<byte>, limit: u32, d: nat, dl: u32,
                    level: nat)
    requires level >= 2 && TableFrom(t, g, false) && !t[g].kind.Eoti? && StructOk(t, v) && StructOk(t, w)
    requires Cleared(t, w, g)
    requires Body(t, v, g, false).ok && 1 <= |Body(t, v, g, false).bytes| <= limit - d
    requires GroupKept(t, v, g, dl, false)
    ensures var body, w' := Body(t, v, g, false).bytes, Install(t, w, g, CanonGroup(t, v, g, false));
            && StructOk(t, w') && 0 <= CountAt(t, v, g) < 0x1_0000_0000
            && DecNested(t, g, w, body + rest, limit, d, dl, level) ==
               DecNested(t, PayAt(t, g) + 1, w', rest, limit, d + |body|, CountAt(t, v, g), level)
    decreases t, |t| - g, 1
  {
    var body := Body(t, v, g, false).bytes;
    assert w[PayAt(t, g)] == Zero(t[PayAt(t, g)]);
    GroupBack(t, g, w, v, rest, limit - d, dl, level);
    var w' := Install(t, w, g, CanonGroup(t, v, g, false));
    LoopStep(t, g, w, body + rest, limit, d, dl, level, w', |body|, CountAt(t, v, g));
    assert (body + rest)[|body|..] == rest;
  }

  /** Below the top level, decoding a kept group moves on to the next one. */
  lemma NestedGroup(t: seq<Elem>, g: nat, w: seq<Slot>, v: seq<Slot>, rest: seq<byte>, limit: u32, d: nat, dl: u32,
                    level: nat)
    requires level >= 2 && TableFrom(t, g, false) && !t[g].kind.Eoti? && StructOk(t, v) && StructOk(t, w)
    requires Cleared(t, w, g)
    requires Body(t, v, g, false).ok && 1 <= |Body(t, v, g, false).bytes| <= limit - d
    requires GroupKept(t, v, g, dl, false)
    ensures var body := Body(t, v, g, false).bytes;
            var w' := Install(t, w, g, CanonGroup(t, v, g, false));
            && StructOk(t, w')
            && Cleared(t, w', PayAt(t, g) + 1)
            && 0 <= CountAt(t, v, g) < 0x1_0000_0000
            && DecNested(t, g, w, body + rest, limit, d, dl, level) ==
               DecNested(t, PayAt(t, g) + 1, w', rest, limit, d + |body|, CountAt(t, v, g), level)
    decreases t, |t| - g, 2
  {
    NestedMoves(t, g, w, v, rest, limit, d, dl, level);
  }

  /** The groups from g on installed one after the other. */
  ghost function Restored(t: seq<Elem>, w: seq<Slot>, v: seq<Slot>, g: nat): seq<Slot>
    requires TableFrom(t, g, false) && StructOk(t, v) && |w| + 1 == |t|
    decreases |t| - g
  {
    if t[g].kind.Eoti? then w else Restored(t, Install(t, w, g, CanonGroup(t, v, g, false)), v, PayAt(t, g) + 1)
  }

  lemma InstallRest(t: seq<Elem>, w: seq<Slot>, v: seq<Slot>, g: nat, top: bool)
    requires TableFrom(t, g, top) && !t[g].kind.Eoti? && StructOk(t, v) && |w| + 1 == |t|
    ensures var p := PayAt(t, g);
            Install(t, w, g, CanonGroup(t, v, g, top))[..p+1] + CanonFrom(t, v, p + 1, top) ==
              w[..g] + CanonFrom(t, v, g, top)
  {
    var p := PayAt(t, g);
    assert Install(t, w, g, CanonGroup(t, v, g, top))[..p+1] == w[..g] + CanonGroup(t, v, g, top);
  }

  lemma {:induction false} RestoredIsCanon(t: seq<Elem>, w: seq<Slot>, v: seq<Slot>, g: nat)
    requires TableFrom(t, g, false) && StructOk(t, v) && |w| + 1 == |t|
    ensures Restored(t, w, v, g) == w[..g] + CanonFrom(t, v, g, false)
    decreases |t| - g
  {
    if !t[g].kind.Eoti? {
      RestoredIsCanon(t, Install(t, w, g, CanonGroup(t, v, g, false)), v, PayAt(t, g) + 1);
      InstallRest(t, w, v, g, false);
    }
  }

  /** Decoding the encoded groups from g on, and what that should yield. */
  ghost function DecOwn(t: seq<Elem>, g: nat, w: seq<Slot>, v: seq<Slot>, tail: seq<byte>, limit: u32, d: nat,
                        dl: u32, level: nat): Parse<seq<Slot>>
    requires level >= 2 && TableFrom(t, g, false) && StructOk(t, v) && StructOk(t, w)
  {
    DecNested(t, g, w, EncFrom(t, v, g, false).bytes + tail, limit, d, dl, level)
  }

  ghost function AllRestored(t: seq<Elem>, g: nat, w: seq<Slot>, v: seq<Slot>, d: nat): Parse<seq<Slot>>
    requires TableFrom(t, g, false) && StructOk(t, v) && |w| + 1 == |t|
  {
    Ok(Restored(t, w, v, g), d + |EncFrom(t, v, g, false).bytes|)
  }

  lemma RestoredStep(t: seq<Elem>, g: nat, w: seq<Slot>, v: seq<Slot>, d: nat)
    requires TableFrom(t, g, false) && !t[g].kind.Eoti? && StructOk(t, v) && |w| + 1 == |t|
             && EncFrom(t, v, g, false).ok
    ensures var w' := Install(t, w, g, CanonGroup(t, v, g, false));
            AllRestored(t, g, w, v, d) == AllRestored(t, PayAt(t, g) + 1, w', v, d + |Body(t, v, g, false).bytes|)
  {
    FromParts(t, v, g);
  }

  /** The struct may be decoded from group g on, with d octets consumed and dl left over. */
  ghost predicate Ready(t: seq<Elem>, g: nat, w: seq<Slot>, v: seq<Slot>, limit: u32, d: nat, dl: int) {
    && TableFrom(t, g, false) && StructOk(t, v) && StructOk(t, w) && Cleared(t, w, g) && 0 <= dl < 0x1_0000_0000
    && EncFrom(t, v, g, false).ok && d + |EncFrom(t, v, g, false).bytes| <= limit && KeptFrom(t, v, g, dl, false)
  }

  lemma OwnEnd(t: seq<Elem>, g: nat, w: seq<Slot>, v: seq<Slot>, tail: seq<byte>, limit: u32, d: nat, dl: u32,
               level: nat)
    requires level >= 2 && Ready(t, g, w, v, limit, d, dl) && t[g].kind.Eoti?
    ensures DecOwn(t, g, w, v, tail, limit, d, dl, level) == AllRestored(t, g, w, v, d)
  {
    assert EncFrom(t, v, g, false).bytes == [] && Restored(t, w, v, g) == w;
  }

  /** One group: where the decoder is after it. */
  lemma OwnStep(t: seq<Elem>, g: nat, w: seq<Slot>, v: seq<Slot>, tail: seq<byte>, limit: u32, d: nat, dl: u32,
                level: nat)
    returns (w': seq<Slot>, d': nat, dl': u32)
    requires level >= 2 && Ready(t, g, w, v, limit, d, dl) && !t[g].kind.Eoti?
    ensures Ready(t, PayAt(t, g) + 1, w', v, limit, d', dl')
    ensures DecOwn(t, g, w, v, tail, limit, d, dl, level) ==
            DecOwn(t, PayAt(t, g) + 1, w', v, tail, limit, d', dl', level)
    ensures AllRestored(t, g, w, v, d) == AllRestored(t, PayAt(t, g) + 1, w', v, d')
    decreases t, |t| - g, 3
  {
    FromParts(t, v, g);
    var body, rest := Body(t, v, g, false).bytes, EncFrom(t, v, PayAt(t, g) + 1, false).bytes;
    Split(body, rest, tail);
    NestedGroup(t, g, w, v, rest + tail, limit, d, dl, level);
    RestoredStep(t, g, w, v, d);
    w', d', dl' := Install(t, w, g, CanonGroup(t, v, g, false)), d + |body|, CountAt(t, v, g);
  }

  lemma NestedBack(t: seq<Elem>, g: nat, w: seq<Slot>, v: seq<Slot>, tail: seq<byte>, limit: u32, d: nat, dl: u32,
                   level: nat)
    requires level >= 2 && Ready(t, g, w, v, limit, d, dl)
    ensures DecOwn(t, g, w, v, tail, limit, d, dl, level) == AllRestored(t, g, w, v, d)
    decreases t, |t| - g, 4
  {
    if t[g].kind.Eoti? {
      OwnEnd(t, g, w, v, tail, limit, d, dl, level);
    } else {
      var w', d', dl' := OwnStep(t, g, w, v, tail, limit, d, dl, level);
      NestedBack(t, PayAt(t, g) + 1, w', v, tail, limit, d', dl', level);
    }
  }

  // ----- Only kept structs come back -----

  lemma StructsInverse(e: Elem, elems: seq<seq<Slot>>, i: nat, count: nat, src: seq<byte>, tlvLen: u32, d: nat,
                       level: nat)
    requires NestedOk(e.ei) && i < count <= |elems| && level >= 2 && AllOk(e.ei, elems) && d < tlvLen
    requires DecArray(e, elems, i, count, src, tlvLen, d, level).Ok?
    ensures var first := DecNested(e.ei, 0, elems[i], src, tlvLen - d, 0, 0, level);
            && first.Ok?
            && var r := DecArray(e, elems, i, count, src, tlvLen, d, level);
               var rest := DecArray(e, elems[i := first.value], i + 1, count, src[first.n..], tlvLen, d + first.n,
                                    level);
               rest.Ok? && r.value == rest.value && r.value[i] == first.value
  {
    var first := DecNested(e.ei, 0, elems[i], src, tlvLen - d, 0, 0, level);
    if first.Ok? {
      StructsFrame(e, elems[i := first.value], i + 1, count, src[first.n..], tlvLen, d + first.n, level);
    }
  }

  lemma PayloadOnly(e: Elem, s: Slot, n: nat, tail: seq<byte>, tlvLen: u32, level: nat)
    requires PayloadOk(e) && SlotOk(e, s) && n <= e.elemLen && (e.kind.Struct? ==> NestedOk(e.ei)) && level >= 1
    requires SlotOk(e, Zero(e))
    requires var enc := EncPayload(e, s, n, level == 1);
             enc.ok && |enc.bytes| <= tlvLen && (level == 1 ==> |enc.bytes| == tlvLen)
    requires var r := DecPayload(e, Zero(e), n, EncPayload(e, s, n, level == 1).bytes + tail, tlvLen, level);
             r.Ok? && r.value == CanonPayload(e, s, n)
    ensures PayloadKept(e, s, n, level == 1)
    decreases e, 1
  {
    if e.kind.Struct? {
      StructsOnly(e, s.elems, Zero(e).elems, 0, n, tail, tlvLen, 0, level + 1);
    } else if e.kind.String? {
      StringExact(e, s, tail, tlvLen, level);
    }
  }

  lemma StructsOnly(e: Elem, elems: seq<seq<Slot>>, cur: seq<seq<Slot>>, i: nat, n: nat, tail: seq<byte>,
                    tlvLen: u32, d: nat, level: nat)
    requires NestedOk(e.ei) && i <= n <= |elems| == |cur| && level >= 2
    requires AllOk(e.ei, elems) && AllOk(e.ei, cur) && Blank(e, cur, i, n)
    requires var enc := EncStructs(e, elems, i, n);
             enc.ok && d + |enc.bytes| <= tlvLen && (level == 2 ==> d + |enc.bytes| == tlvLen)
    requires var r := DecArray(e, cur, i, n, EncStructs(e, elems, i, n).bytes + tail, tlvLen, d, level);
             r.Ok? && forall j :: i <= j < n ==> r.value[j] == CanonFrom(e.ei, elems[j], 0, false)
    ensures AllKept(e, elems, i, n)
    decreases e, 0, n - i
  {
    if i < n {
      StructsParts(e, elems, i, n);
      var one := EncFrom(e.ei, elems[i], 0, false).bytes;
      var rest := EncStructs(e, elems, i + 1, n).bytes;
      Split(one, rest, tail);
      StructsInverse(e, cur, i, n, one + rest + tail, tlvLen, d, level);
      WholeOnly(e.ei, elems[i], cur[i], rest + tail, tlvLen - d, level);
      NestedWhole(e.ei, elems[i], rest + tail, tlvLen - d, level);
      AllOkUpdate(e.ei, cur, i, CanonFrom(e.ei, elems[i], 0, false));
      BlankStep(e, cur, i, n, CanonFrom(e.ei, elems[i], 0, false));
      StructsOnly(e, elems, RefilledAt(e, elems, cur, i), i + 1, n, tail, tlvLen, d + |one|, level);
    }
  }

  lemma WholeOnly(t: seq<Elem>, v: seq<Slot>, w: seq<Slot>, tail: seq<byte>, limit: u32, level: nat)
    requires level >= 2 && NestedOk(t) && StructOk(t, v) && StructOk(t, w) && w == ZeroStruct(t)
    requires EncFrom(t, v, 0, false).ok && |EncFrom(t, v, 0, false).bytes| <= limit
    requires var r := DecNested(t, 0, w, EncFrom(t, v, 0, false).bytes + tail, limit, 0, 0, level);
             r.Ok? && r.value == CanonFrom(t, v, 0, false)
    ensures KeptFrom(t, v, 0, 0, false)
    decreases t, |t| + 1
  {
    ZeroStructCleared(t);
    var x := DecNested(t, 0, w, EncFrom(t, v, 0, false).bytes + tail, limit, 0, 0, level).value;
    assert x[0..] == x;
    RebuildsCanon(t, v, 0, false, x);
    NestedOnly(t, 0, w, v, tail, limit, 0, 0, level);
  }

  lemma GroupInverse(t: seq<Elem>, g: nat, w: seq<Slot>, src: seq<byte>, tlvLen: u32, dl: u32, level: nat)
    requires level >= 1 && TableFrom(t, g, level == 1) && !t[g].kind.Eoti? && StructOk(t, w)
             && CountSize(t, g) <= tlvLen
    requires DecGroup(t, g, w, src, tlvLen, dl, level).Ok?
    ensures var p, size := PayAt(t, g), CountSize(t, g);
            var r := DecGroup(t, g, w, src, tlvLen, dl, level);
            && size <= |src| && ReadCount(t, g, src, dl) <= t[p].elemLen && SlotOk(t[p], w[p])
            && DecPayload(t[p], w[p], ReadCount(t, g, src, dl), src[size..], tlvLen - size, level) ==
              Ok(r.value.0[p], r.n - size)
  {
    var p, size := PayAt(t, g), CountSize(t, g);
    assert (tlvLen - size) % 0x1_0000_0000 == tlvLen - size;
    assert size <= |src| && SlotOk(t[p], w[p]);
    var n := ReadCount(t, g, src, dl);
    assert n <= t[p].elemLen;
    var one := DecPayload(t[p], w[p], n, src[size..], tlvLen - size, level);
    assert one.Ok?;
    assert Written(t, g, w, n, one.value)[p] == one.value;
  }

  lemma GroupOnly(t: seq<Elem>, g: nat, w: seq<Slot>, v: seq<Slot>, tail: seq<byte>, tlvLen: u32, dl: u32, level: nat)
    requires level >= 1 && TableFrom(t, g, level == 1) && !t[g].kind.Eoti? && StructOk(t, v) && StructOk(t, w)
    requires Present(t, v, g) && w[PayAt(t, g)] == Zero(t[PayAt(t, g)])
    requires var body := Body(t, v, g, level == 1);
             body.ok && |body.bytes| <= tlvLen && (level == 1 ==> |body.bytes| == tlvLen)
    requires var r := DecEntry(t, g, w, Body(t, v, g, level == 1).bytes + tail, tlvLen, dl, level);
             r.Ok? && r.value.0[PayAt(t, g)] == CanonGroup(t, v, g, level == 1)[PayAt(t, g) - g]
    ensures GroupKept(t, v, g, dl, level == 1)
    decreases t, |t| - g, 0
  {
    var p, n := PayAt(t, g), CountAt(t, v, g);
    GroupFront(t, g, v, tail, dl, level == 1);
    GroupInverse(t, g, w, Body(t, v, g, level == 1).bytes + tail, tlvLen, dl, level);
    assert SlotOk(t[p], v[p]);
    PayloadOnly(t[p], v[p], n, tail, tlvLen - CountSize(t, g), level);
  }

  lemma LoopInverse(t: seq<Elem>, k: nat, v: seq<Slot>, src: seq<byte>, limit: u32, d: nat, dl: u32, level: nat)
    requires level >= 2 && StructOk(t, v) && TableFrom(t, k, false) && !t[k].kind.Eoti? && d < limit
    requires DecNested(t, k, v, src, limit, d, dl, level).Ok?
    ensures var r := DecEntry(t, k, v, src, limit - d, dl, level);
            && r.Ok?
            && var whole := DecNested(t, k, v, src, limit, d, dl, level);
               && whole == DecNested(t, PayAt(t, k) + 1, r.value.0, src[r.n..], limit, d + r.n, r.value.1, level)
               && forall i :: k <= i <= PayAt(t, k) ==> whole.value[i] == r.value.0[i]
  {
    var r := DecEntry(t, k, v, src, limit - d, dl, level);
    if r.Ok? {
      LoopFrame(t, PayAt(t, k) + 1, r.value.0, src[r.n..], limit, d + r.n, r.value.1, level);
    }
  }

  lemma NestedPeel(t: seq<Elem>, g: nat, w: seq<Slot>, v: seq<Slot>, rest: seq<byte>, limit: u32, d: nat, dl: u32,
                   level: nat)
    requires level >= 2 && TableFrom(t, g, false) && !t[g].kind.Eoti? && StructOk(t, v) && StructOk(t, w)
    requires Cleared(t, w, g)
    requires Body(t, v, g, false).ok && 1 <= |Body(t, v, g, false).bytes| <= limit - d
    requires var r := DecNested(t, g, w, Body(t, v, g, false).bytes + rest, limit, d, dl, level);
             r.Ok? && r.value[PayAt(t, g)] == CanonGroup(t, v, g, false)[PayAt(t, g) - g]
    ensures GroupKept(t, v, g, dl, false)
    decreases t, |t| - g, 1
  {
    LoopInverse(t, g, w, Body(t, v, g, false).bytes + rest, limit, d, dl, level);
    assert w[PayAt(t, g)] == Zero(t[PayAt(t, g)]);
    GroupOnly(t, g, w, v, rest, limit - d, dl, level);
  }

  /** From group g on, x is what a decoder should rebuild from v. */
  predicate Rebuilds(t: seq<Elem>, v: seq<Slot>, g: nat, top: bool, x: seq<Slot>)
    requires TableFrom(t, g, top) && StructOk(t, v) && |x| + 1 == |t|
    decreases |t| - g
  {
    t[g].kind.Eoti? ||
    ((forall i :: g <= i <= PayAt(t, g) ==> x[i] == CanonGroup(t, v, g, top)[i - g])
     && Rebuilds(t, v, PayAt(t, g) + 1, top, x))
  }

  lemma SlicesEqual(x: seq<Slot>, g: nat, p: nat, a: seq<Slot>, b: seq<Slot>)
    requires g <= p <= |x| && |a| == p - g
    ensures x[g..] == a + b <==> (forall i :: g <= i < p ==> x[i] == a[i - g]) && x[p..] == b
  {
    assert x[g..] == x[g..p] + x[p..];
    if x[g..] == a + b {
      assert x[g..p] == x[g..][..p-g] == (a + b)[..p-g] == a;
      assert x[p..] == x[g..][p-g..] == (a + b)[p-g..] == b;
      forall i | g <= i < p ensures x[i] == a[i - g] { assert x[i] == x[g..p][i - g]; }
    }
    if (forall i :: g <= i < p ==> x[i] == a[i - g]) && x[p..] == b {
      assert x[g..p] == a;
    }
  }

  lemma {:induction false} RebuildsCanon(t: seq<Elem>, v: seq<Slot>, g: nat, top: bool, x: seq<Slot>)
    requires TableFrom(t, g, top) && StructOk(t, v) && |x| + 1 == |t|
    ensures Rebuilds(t, v, g, top, x) <==> x[g..] == CanonFrom(t, v, g, top)
    decreases |t| - g
  {
    if !t[g].kind.Eoti? {
      var p := PayAt(t, g);
      RebuildsCanon(t, v, p + 1, top, x);
      SlicesEqual(x, g, p + 1, CanonGroup(t, v, g, top), CanonFrom(t, v, p + 1, top));
    }
  }

  /** A nested struct, all of it legal and inside its limit, that came back from group g on. */
  ghost predicate CameBack(t: seq<Elem>, g: nat, w: seq<Slot>, v: seq<Slot>, tail: seq<byte>, limit: u32, d: nat,
                           dl: int,
                           level: nat)
  {
    && level >= 2 && TableFrom(t, g, false) && StructOk(t, v) && StructOk(t, w) && Cleared(t, w, g)
    && 0 <= dl < 0x1_0000_0000 && EncFrom(t, v, g, false).ok && d + |EncFrom(t, v, g, false).bytes| <= limit
    && var r := DecNested(t, g, w, EncFrom(t, v, g, false).bytes + tail, limit, d, dl, level);
       r.Ok? && Rebuilds(t, v, g, false, r.value)
  }

  /** Its first group was kept, and the rest came back. */
  lemma FirstCameBack(t: seq<Elem>, g: nat, w: seq<Slot>, v: seq<Slot>, tail: seq<byte>, limit: u32, d: nat, dl: u32,
                      level: nat) returns (w': seq<Slot>, d': nat, dl': u32)
    requires CameBack(t, g, w, v, tail, limit, d, dl, level) && !t[g].kind.Eoti?
    ensures GroupKept(t, v, g, dl, false) && dl' == CountAt(t, v, g)
    ensures CameBack(t, PayAt(t, g) + 1, w', v, tail, limit, d', dl', level)
    decreases t, |t| - g, 3
  {
    FromParts(t, v, g);
    var body, rest := Body(t, v, g, false).bytes, EncFrom(t, v, PayAt(t, g) + 1, false).bytes;
    Split(body, rest, tail);
    NestedPeel(t, g, w, v, rest + tail, limit, d, dl, level);
    NestedGroup(t, g, w, v, rest + tail, limit, d, dl, level);
    w', d', dl' := Install(t, w, g, CanonGroup(t, v, g, false)), d + |body|, CountAt(t, v, g);
  }

  lemma NestedOnly(t: seq<Elem>, g: nat, w: seq<Slot>, v: seq<Slot>, tail: seq<byte>, limit: u32, d: nat, dl: u32,
                   level: nat)
    requires CameBack(t, g, w, v, tail, limit, d, dl, level)
    ensures KeptFrom(t, v, g, dl, false)
    decreases t, |t| - g, 4
  {
    if !t[g].kind.Eoti? {
      var w', d', dl' := FirstCameBack(t, g, w, v, tail, limit, d, dl, level);
      NestedOnly(t, PayAt(t, g) + 1, w', v, tail, limit, d', dl', level);
    }
  }
}
