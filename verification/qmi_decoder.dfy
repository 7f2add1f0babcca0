/** lib/qmi.c, qmi_decode and its helpers as loops over the message, proved to compute `QmiDecode.DecLoop`.
    `Overread` is returned where the C code would go on to read past the message. */
module QmiDecoder {
  import opened Qmi
  import opened QmiDecode

  /** find_ei */
  method FindElement(t: seq<Elem>, tlvType: byte) returns (k: nat)
    requires TableFrom(t, 0, true)
    ensures k == FindEi(t, 0, tlvType)
  {
    k := 0;
    EndsWithEoti(t, 0, true);
    while !t[k].kind.Eoti?
      invariant 0 <= k < |t| && t[|t|-1].kind.Eoti?
      invariant FindEi(t, k, tlvType) == FindEi(t, 0, tlvType)
      decreases |t| - k
    {
      if t[k].tlvType == tlvType {
        return k;
      }
      k := k + 1;
    }
    k := |t|;
  }

  lemma {:induction false} EndsWithEoti(t: seq<Elem>, g: nat, top: bool)
    requires TableFrom(t, g, top)
    ensures t[|t|-1].kind.Eoti?
    decreases |t| - g
  {
    if !t[g].kind.Eoti? {
      EndsWithEoti(t, PayAt(t, g) + 1, top);
    }
  }

  /** qmi_decode_struct_elem */
  method DecodeStructs(e: Elem, elems: seq<seq<Slot>>, count: nat, src: seq<byte>, tlvLen: u32, level: nat)
    returns (r: Parse<seq<seq<Slot>>>)
    requires NestedOk(e.ei) && count <= |elems| && level >= 2 && AllOk(e.ei, elems)
    ensures r == DecStructs(e, elems, 0, count, src, tlvLen, 0, level)
    decreases e, 0
  {
    var cur, rest := elems, src;
    var i: nat, d: nat := 0, 0;
    ghost var goal := DecArray(e, elems, 0, count, src, tlvLen, 0, level);
    while i < count && d < tlvLen
      invariant 0 <= i <= count <= |cur| && AllOk(e.ei, cur) && |cur| == |elems|
      invariant var r := DecArray(e, cur, i, count, rest, tlvLen, d, level);
                goal == if r.Ok? then Ok(r.value, d + r.n) else r
    {
      var one := DecodeStruct(e.ei, cur[i], rest, tlvLen - d, level);
      ArrayStep(e, cur, i, count, rest, tlvLen, d, level, one);
      if one.Fail? {
        return Fail;
      }
      if one.Overread? {
        return Overread;
      }
      cur := cur[i := one.value];
      rest := rest[one.n..];
      d := d + one.n;
      i := i + 1;
    }
    if (level <= 2 && d != tlvLen) || (level > 2 && (i < count || d > tlvLen)) {
      return Fail;
    }
    return Ok(cur, d);
  }

  /** qmi_decode_string_elem */
  method DecodeString(e: Elem, s: Slot, src: seq<byte>, tlvLen: u32, level: nat) returns (r: Parse<Slot>)
    ensures r == DecString(e, s, src, tlvLen, level)
  {
    var len: nat, d := 0, 0;
    if level == 1 {
      len := tlvLen;
    } else {
      d := if e.elemLen <= 256 then 1 else 2;
      if |src| < d {
        return Overread;
      }
      len := FromLe(src, d);
    }
    if len > e.elemLen {
      return Fail;
    } else if len > tlvLen {
      return Fail;
    }
    if |src| < d + len {
      return Overread;
    }
    return Ok(Chars(src[d..d + len]), d + len);
  }

  /** The first n octets of a field are those read; the others are as they were. */
  predicate Filled(was: seq<byte>, now: seq<byte>, src: seq<byte>, n: nat) {
    |now| == |was| && n <= |src| && forall k :: 0 <= k < |now| ==> now[k] == if k < n then src[k] else was[k]
  }

  /** Copying one more element of the field. */
  lemma FillMore(was: seq<byte>, now: seq<byte>, src: seq<byte>, n: nat, size: nat)
    requires Filled(was, now, src, n) && n + size <= |src| && n + size <= |was|
    ensures Filled(was, now[..n] + src[n..n + size] + now[n + size..], src, n + size)
  {
    var more := now[..n] + src[n..n + size] + now[n + size..];
    forall k | 0 <= k < |more|
      ensures more[k] == if k < n + size then src[k] else was[k]
    {
      if n <= k < n + size {
        assert more[k] == src[n..n + size][k - n];
      }
    }
  }

  lemma NextElement(i: nat, count: nat, e: Elem)
    requires i < count <= e.elemLen
    ensures i * e.elemSize + e.elemSize == (i + 1) * e.elemSize <= count * e.elemSize <= e.elemLen * e.elemSize
  {
    FewerOctets(i + 1, count, e.elemSize);
    FewerOctets(count, e.elemLen, e.elemSize);
  }

  /** qmi_decode_basic_elem: reads past the message exactly when it is too short for the elements;
      otherwise consumes as many octets as they take and leaves the rest of the field alone. */
  method DecodeBasic(e: Elem, s: Slot, count: nat, src: seq<byte>) returns (r: Parse<Slot>)
    requires PayloadOk(e) && SlotOk(e, s) && count <= e.elemLen && e.kind.Basic?
    ensures r.Ok? <==> count * e.elemSize <= |src|
    ensures r.Ok? ==> r.n == count * e.elemSize && r.value.Bytes? && Filled(s.data, r.value.data, src, r.n)
    ensures !r.Ok? ==> r.Overread?
  {
    var data := s.data;
    var i, d := 0, 0;
    while i < count
      invariant 0 <= i <= count && d == i * e.elemSize
      invariant Filled(s.data, data, src, d)
    {
      NextElement(i, count, e);
      if |src| < d + e.elemSize {
        return Overread;
      }
      FillMore(s.data, data, src, d, e.elemSize);
      data := data[..d] + src[d..d + e.elemSize] + data[d + e.elemSize..];
      d := d + e.elemSize;
      i := i + 1;
    }
    return Ok(Bytes(data), d);
  }

  /** That is all there is to decoding integers. */
  lemma BasicIsFilled(e: Elem, s: Slot, count: nat, src: seq<byte>, tlvLen: u32, level: nat, r: Parse<Slot>)
    requires PayloadOk(e) && SlotOk(e, s) && count <= e.elemLen && e.kind.Basic? && level >= 1
    ensures r == DecPayload(e, s, count, src, tlvLen, level) <==>
            if count * e.elemSize > |src| then r == Overread
            else r.Ok? && r.n == count * e.elemSize && r.value.Bytes? && Filled(s.data, r.value.data, src, r.n)
  {
    var need := count * e.elemSize;
    FewerOctets(count, e.elemLen, e.elemSize);
    if need <= |src| && r.Ok? && r.value.Bytes? && Filled(s.data, r.value.data, src, need) {
      assert r.value.data == src[..need] + s.data[need..];
    }
  }

  /** The switch on the data type */
  method DecodePayload(e: Elem, s: Slot, count: nat, src: seq<byte>, tlvLen: u32, level: nat) returns (r: Parse<Slot>)
    requires PayloadOk(e) && SlotOk(e, s) && count <= e.elemLen && (e.kind.Struct? ==> NestedOk(e.ei)) && level >= 1
    ensures r == DecPayload(e, s, count, src, tlvLen, level)
    decreases e, 1
  {
    if e.kind.Basic? {
      r := DecodeBasic(e, s, count, src);
      BasicIsFilled(e, s, count, src, tlvLen, level, r);
    } else if e.kind.Struct? {
      var elems := DecodeStructs(e, s.elems, count, src, tlvLen, level + 1);
      if elems.Ok? {
        return Ok(Structs(elems.value), elems.n);
      }
      return if elems.Fail? then Fail else Overread;
    } else {
      r := DecodeString(e, s, src, tlvLen, level);
    }
  }

  /** A group is what its payload decodes to, once the count is known. */
  lemma GroupIs(t: seq<Elem>, g: nat, v: seq<Slot>, src: seq<byte>, tlvLen: u32, dl: u32, level: nat, n: u32,
                r: Parse<Slot>)
    requires level >= 1 && TableFrom(t, g, level == 1) && !t[g].kind.Eoti? && StructOk(t, v)
    requires CountSize(t, g) <= |src| && n == ReadCount(t, g, src, dl) && n <= t[PayAt(t, g)].elemLen
    requires var p, size := PayAt(t, g), CountSize(t, g);
             SlotOk(t[p], v[p]) && r == DecPayload(t[p], v[p], n, src[size..], (tlvLen - size) % 0x1_0000_0000, level)
    ensures DecEntry(t, g, v, src, tlvLen, dl, level) ==
            if r.Ok? then Ok((Written(t, g, v, n, r.value), n), CountSize(t, g) + r.n)
            else if r.Fail? then Fail else Overread
  {
  }

  /** The struct with a group's flag and length written, but not yet its payload. */
  ghost function Fronted(t: seq<Elem>, g: nat, v: seq<Slot>, n: u32): (r: seq<Slot>)
    requires g < |t| && GroupOk(t, g) && |v| + 1 == |t|
    ensures |r| == |v|
  {
    var l := LenAt(t, g);
    var flagged := if g < l then v[g := Flag(1)] else v;
    if l < PayAt(t, g) then flagged[l := Len(n)] else flagged
  }

  lemma FrontedWritten(t: seq<Elem>, g: nat, v: seq<Slot>, n: u32, m: u32, payload: Slot)
    requires g < |t| && GroupOk(t, g) && |v| + 1 == |t| && (Counted(t, g) ==> m == n)
    ensures Fronted(t, g, v, m)[PayAt(t, g) := payload] == Written(t, g, v, n, payload)
  {
  }

  /** The QMI_OPT_FLAG and QMI_DATA_LEN cases: the struct and data_len_value after them. */
  method DecodeFront(t: seq<Elem>, g: nat, v: seq<Slot>, src: seq<byte>, dl: u32) returns (r: Parse<(seq<Slot>, u32)>)
    requires g < |t| && GroupOk(t, g) && |v| + 1 == |t|
    ensures r.Ok? <==> CountSize(t, g) <= |src|
    ensures !r.Ok? ==> r.Overread?
    ensures r.Ok? ==>
              && r.n == CountSize(t, g) && r.value.1 == (if Counted(t, g) then ReadCount(t, g, src, dl) else dl)
              && r.value.0 == Fronted(t, g, v, r.value.1)
  {
    var k, out, n, d := g, v, dl, 0;
    if t[k].kind.OptFlag? {
      out := out[k := Flag(1)];
      k := k + 1;
    }
    if t[k].kind.DataLen? {
      d := if t[k].elemSize == 1 then 1 else 2;
      if |src| < d {
        return Overread;
      }
      n := Overlay(n, FromLe(src, d), d);
      out := out[k := Len(n)];
    }
    return Ok((out, n), d);
  }

  /** The body of the loop from the optional flag to the payload: the struct and data_len_value it leaves. */
  method DecodeEntry(t: seq<Elem>, g: nat, v: seq<Slot>, src: seq<byte>, tlvLen: u32, dl: u32, level: nat)
    returns (r: Parse<(seq<Slot>, u32)>)
    requires level >= 1 && TableFrom(t, g, level == 1) && !t[g].kind.Eoti? && StructOk(t, v)
    ensures r == DecEntry(t, g, v, src, tlvLen, dl, level)
    decreases t, 0
  {
    var front := DecodeFront(t, g, v, src, dl);
    if front.Overread? {
      return Overread;
    }
    var k, n, d := PayAt(t, g), front.value.1, front.n;
    if t[k].arrayType.NoArray? {
      n := 1;
    } else if t[k].arrayType.StaticArray? {
      n := t[k].elemLen;
    } else if n > t[k].elemLen {
      return Fail;
    }
    assert SlotOk(t[k], v[k]) && d == CountSize(t, g) && n == ReadCount(t, g, src, dl);
    var payload := DecodePayload(t[k], v[k], n, src[d..], (tlvLen - d) % 0x1_0000_0000, level);
    GroupIs(t, g, v, src, tlvLen, dl, level, n, payload);
    if payload.Fail? {
      return Fail;
    }
    if payload.Overread? {
      return Overread;
    }
    FrontedWritten(t, g, v, n, front.value.1, payload.value);
    return Ok((front.value.0[k := payload.value], n), d + payload.n);
  }

  /** Where a round of the loop in qmi_decode leaves it: finished, or at another state. */
  datatype Round = Done(result: Parse<seq<Slot>>) | More(v: seq<Slot>, src: seq<byte>, d: nat, dl: u32)

  /** A TLV whose type is that of group g. */
  method DecodeKnown(t: seq<Elem>, v: seq<Slot>, g: nat, src: seq<byte>, tlvLen: u32, limit: u32, d: nat, dl: u32)
    returns (r: Round)
    requires StructOk(t, v) && TableFrom(t, 0, true) && d < limit && HEADER <= |src|
    requires FromLe(src[1..], 2) == tlvLen < 65536
    requires g < |t| && TableFrom(t, g, true) && !t[g].kind.Eoti? && FindEi(t, 0, src[0]) == g
    ensures r.Done? ==> r.result == DecTop(t, v, src, limit, d, dl)
    ensures r.More? ==>
              && StructOk(t, r.v) && r.d > d
              && DecTop(t, r.v, r.src, limit, r.d, r.dl) == DecTop(t, v, src, limit, d, dl)
    decreases t, 1
  {
    AtKnown(t, v, g, src, tlvLen, limit, d, dl);
    var one := DecodeEntry(t, g, v, src[HEADER..], tlvLen, dl, 1);
    if one.Fail? {
      return Done(Fail);
    }
    if one.Overread? {
      return Done(Overread);
    }
    return More(one.value.0, src[HEADER + one.n..], d + HEADER + one.n, one.value.1);
  }

  /** One round at the top level: a TLV header, the search for its type, and the group or the skip. */
  method DecodeTlv(t: seq<Elem>, v: seq<Slot>, src: seq<byte>, limit: u32, d: nat, dl: u32) returns (r: Round)
    requires StructOk(t, v) && TableFrom(t, 0, true) && d < limit
    ensures r.Done? ==> r.result == DecTop(t, v, src, limit, d, dl)
    ensures r.More? ==>
              && StructOk(t, r.v) && r.d > d
              && DecTop(t, r.v, r.src, limit, r.d, r.dl) == DecTop(t, v, src, limit, d, dl)
    decreases t, 2
  {
    if |src| < HEADER {
      return Done(Overread);
    }
    var tlvType, tlvLen := src[0], FromLe(src[1..], 2);
    FindEiIsGroup(t, 0, tlvType);
    var g := FindElement(t, tlvType);
    if g == |t| && tlvType < OPTIONAL_TLV_TYPE_START {
      return Done(Fail);
    } else if g == |t| {
      AtAlien(t, v, src, tlvLen, limit, d, dl);
      return More(v, if HEADER + tlvLen <= |src| then src[HEADER + tlvLen..] else [], d + HEADER + tlvLen, dl);
    }
    r := DecodeKnown(t, v, g, src, tlvLen, limit, d, dl);
  }

  /** One round below the top level: the next group, with whatever is left of the buffer. */
  method DecodeNested(t: seq<Elem>, k: nat, v: seq<Slot>, src: seq<byte>, limit: u32, d: nat, dl: u32, level: nat)
      returns (r: Round)
    requires level >= 2 && StructOk(t, v) && TableFrom(t, k, false) && d < limit && !t[k].kind.Eoti?
    ensures r.Done? ==> r.result == DecNested(t, k, v, src, limit, d, dl, level)
    ensures r.More? ==>
              && StructOk(t, r.v)
              && DecNested(t, PayAt(t, k) + 1, r.v, r.src, limit, r.d, r.dl, level) ==
                DecNested(t, k, v, src, limit, d, dl, level)
    decreases t, 1
  {
    AtNested(t, k, v, src, limit, d, dl, level);
    var one := DecodeEntry(t, k, v, src, limit - d, dl, level);
    if one.Fail? {
      return Done(Fail);
    }
    if one.Overread? {
      return Done(Overread);
    }
    return More(one.value.0, src[one.n..], d + one.n, one.value.1);
  }

  /** qmi_decode */
  method DecodeStruct(t: seq<Elem>, v: seq<Slot>, src: seq<byte>, limit: u32, level: nat) returns (r: Parse<seq<Slot>>)
    requires level >= 1 && StructOk(t, v) && TableFrom(t, 0, level == 1)
    ensures r == DecLoop(t, 0, v, src, limit, 0, 0, level)
    decreases t, 3
  {
    var k: nat, d: nat, dl: u32 := 0, 0, 0;
    var out, rest := v, src;
    while d < limit
      invariant StructOk(t, out) && TableFrom(t, k, level == 1) && (level == 1 ==> k == 0)
      invariant DecNested(t, k, out, rest, limit, d, dl, level) == DecNested(t, 0, v, src, limit, 0, 0, level)
      decreases if level >= 2 then |t| - k else if d < limit then limit - d else 0
    {
      var round;
      if level == 1 {
        round := DecodeTlv(t, out, rest, limit, d, dl);
      } else if t[k].kind.Eoti? {
        return Ok(out, d);
      } else {
        round := DecodeNested(t, k, out, rest, limit, d, dl, level);
        k := PayAt(t, k) + 1;
      }
      if round.Done? {
        return round.result;
      }
      out, rest, d, dl := round.v, round.src, round.d, round.dl;
    }
    return Ok(out, d);
  }
}
