/** lib/qmi.c, qmi_decode and its helpers. `Overread` stands for a read past the message, which
    the C code does not check for; everything else is what the code computes, malformed input included. */
module QmiDecode {
  import opened Qmi

  /** A value and the number of octets consumed, an error return, or a read past the end. */
  datatype Parse<+T> = Ok(value: T, n: nat) | Fail | Overread

  /** find_ei: the first entry with the type, from entry i on; |t| when there is none. */
  function FindEi(t: seq<Elem>, i: nat, tlvType: byte): (k: nat)
    requires i <= |t|
    ensures i <= k <= |t|
    decreases |t| - i
  {
    if i == |t| || t[i].kind.Eoti? then |t|
    else if t[i].tlvType == tlvType then i
    else FindEi(t, i + 1, tlvType)
  }

  lemma {:induction false} FindSkips(t: seq<Elem>, i: nat, j: nat, tlvType: byte)
    requires i <= j <= |t| && forall k :: i <= k < j ==> !t[k].kind.Eoti? && t[k].tlvType != tlvType
    ensures FindEi(t, i, tlvType) == FindEi(t, j, tlvType)
    decreases j - i
  {
    if i < j {
      FindSkips(t, i + 1, j, tlvType);
    }
  }

  /** The search ends at the start of the group that has the type. */
  lemma {:induction false} FindEiIsGroup(t: seq<Elem>, g: nat, tlvType: byte)
    requires TableFrom(t, g, true)
    ensures var k := FindEi(t, g, tlvType);
            k < |t| ==> TableFrom(t, k, true) && !t[k].kind.Eoti? && t[k].tlvType == tlvType
    decreases |t| - g
  {
    if !t[g].kind.Eoti? && t[g].tlvType != tlvType {
      FindSkips(t, g, PayAt(t, g) + 1, tlvType);
      FindEiIsGroup(t, PayAt(t, g) + 1, tlvType);
    }
  }

  /** qmi_decode_string_elem */
  function DecString(e: Elem, s: Slot, src: seq<byte>, tlvLen: u32, level: nat): (r: Parse<Slot>)
    ensures r.Ok? ==> r.value.Chars? && r.n <= |src|
  {
    var size := if level == 1 then 0 else StrSize(e);
    if |src| < size then Overread
    else
      var len: nat := if level == 1 then tlvLen else FromLe(src, size);
      if len > e.elemLen || len > tlvLen then Fail
      else if |src| < size + len then Overread
      else Ok(Chars(src[size..size + len]), size + len)
  }

  predicate FitsIn(n: nat, size: nat) { n < if size == 1 then 256 else 65536 }

  /** Length octets hold the number that is read from them, and no other that fits them. */
  lemma LengthOctets(src: seq<byte>, size: nat, n: nat)
    requires size == 1 || size == 2
    requires |src| >= size && FitsIn(n, size)
    ensures src[..size] == Le(n, size) <==> FromLe(src, size) == n
    ensures FitsIn(FromLe(src, size), size)
  {
    assert src[..size] == Le(FromLe(src, size), size);
  }

  /** A string is accepted exactly when the octets ahead are its length and its characters, and it
      fits the field and the TLV; at the top level the TLV's length is the string's. */
  lemma StringAccepts(e: Elem, s: Slot, src: seq<byte>, tlvLen: u32, level: nat, chars: seq<byte>, n: nat)
    ensures DecString(e, s, src, tlvLen, level) == Ok(Chars(chars), n) <==>
            var size := if level == 1 then 0 else StrSize(e);
            && n == size + |chars| <= |src| && |chars| <= e.elemLen && |chars| <= tlvLen
            && src[size..n] == chars
            && if level == 1 then |chars| == tlvLen else FitsIn(|chars|, size) && src[..size] == Le(|chars|, size)
  {
    var size := if level == 1 then 0 else StrSize(e);
    if level != 1 && |src| >= size {
      if FitsIn(|chars|, size) {
        LengthOctets(src, size, |chars|);
      } else {
        LengthOctets(src, size, 0);
      }
    }
  }

  /** qmi_decode_struct_elem from element i on, d octets in; `level` is that of the elements. */
  function DecStructs(e: Elem, elems: seq<seq<Slot>>, i: nat, count: nat, src: seq<byte>, tlvLen: u32, d: nat,
                      level: nat)
    : (r: Parse<seq<seq<Slot>>>)
    requires NestedOk(e.ei) && i <= count <= |elems| && level >= 2
    requires AllOk(e.ei, elems)
    ensures r.Ok? ==> |r.value| == |elems| && AllOk(e.ei, r.value) && r.n <= |src|
    decreases e, 0, count - i
  {
    if i < count && d < tlvLen then
      var first := DecLoop(e.ei, 0, elems[i], src, tlvLen - d, 0, 0, level);
      if first.Fail? then Fail
      else if first.Overread? then Overread
      else
        var rest := DecStructs(e, elems[i := first.value], i + 1, count, src[first.n..], tlvLen, d + first.n, level);
        if rest.Ok? then Ok(rest.value, first.n + rest.n) else rest
    else if (level <= 2 && d != tlvLen) || (level > 2 && (i < count || d > tlvLen)) then Fail
    else Ok(elems, 0)
  }

  function DecPayload(e: Elem, s: Slot, count: nat, src: seq<byte>, tlvLen: u32, level: nat): (r: Parse<Slot>)
    requires PayloadOk(e) && SlotOk(e, s) && count <= e.elemLen && (e.kind.Struct? ==> NestedOk(e.ei)) && level >= 1
    ensures r.Ok? ==> SlotOk(e, r.value) && r.n <= |src|
    decreases e, 1
  {
    if e.kind.Basic? then
      var need := count * e.elemSize;
      FewerOctets(count, e.elemLen, e.elemSize);
      if |src| < need then Overread else Ok(Bytes(src[..need] + s.data[need..]), need)
    else if e.kind.Struct? then
      var r := DecStructs(e, s.elems, 0, count, src, tlvLen, 0, level + 1);
      if r.Ok? then Ok(Structs(r.value), r.n) else if r.Fail? then Fail else Overread
    else DecString(e, s, src, tlvLen, level)
  }

  /** What a 1- or 2-octet length leaves in data_len_value: the rest of it is not cleared. */
  function Overlay(dl: u32, low: nat, size: nat): u32
    requires low < if size == 1 then 256 else 65536
  {
    if size == 1 then dl / 256 * 256 + low else dl / 65536 * 65536 + low
  }

  /** data_len_value when a group's payload is reached. */
  function ReadCount(t: seq<Elem>, g: nat, src: seq<byte>, dl: u32): u32
    requires g < |t| && GroupOk(t, g) && CountSize(t, g) <= |src|
  {
    var e := t[PayAt(t, g)];
    if Counted(t, g) then Overlay(dl, FromLe(src, CountSize(t, g)), CountSize(t, g))
    else if e.arrayType.StaticArray? then e.elemLen
    else 1
  }

  /** The struct once a group's flag, length and payload are written. */
  function Written(t: seq<Elem>, g: nat, v: seq<Slot>, n: u32, payload: Slot): seq<Slot>
    requires g < |t| && GroupOk(t, g) && |v| + 1 == |t|
  {
    var l, p := LenAt(t, g), PayAt(t, g);
    var flagged := if g < l then v[g := Flag(1)] else v;
    var sized := if l < p then flagged[l := Len(n)] else flagged;
    sized[p := payload]
  }

  /** One group: the flag is set, the length read, the payload decoded. Yields the struct and the
      data_len_value left behind. */
  function DecGroup(t: seq<Elem>, g: nat, v: seq<Slot>, src: seq<byte>, tlvLen: u32, dl: u32, level: nat)
    : (r: Parse<(seq<Slot>, u32)>)
    requires level >= 1 && TableFrom(t, g, level == 1) && !t[g].kind.Eoti? && StructOk(t, v)
    ensures r.Ok? ==> StructOk(t, r.value.0) && r.n <= |src|
    decreases t, 0, 0
  {
    var p := PayAt(t, g);
    var size := CountSize(t, g);
    if |src| < size then Overread
    else
      var n := ReadCount(t, g, src, dl);
      if n > t[p].elemLen then Fail
      else
        var r := DecPayload(t[p], v[p], n, src[size..], (tlvLen - size) % 0x1_0000_0000, level);
        if r.Ok? then Ok((Written(t, g, v, n, r.value), n), size + r.n) else if r.Fail? then Fail else Overread
  }

  /** qmi_decode with d of `limit` octets consumed, from entry k on below the top level. */
  function DecLoop(t: seq<Elem>, k: nat, v: seq<Slot>, src: seq<byte>, limit: u32, d: nat, dl: u32, level: nat)
    : (r: Parse<seq<Slot>>)
    requires level >= 1 && StructOk(t, v)
    requires TableFrom(t, k, level == 1)
    ensures r.Ok? ==> StructOk(t, r.value) && r.n >= d && (level >= 2 ==> r.n <= d + |src|)
    decreases t, if level >= 2 then |t| - k else if d < limit then limit - d else 0, 1
  {
    if d >= limit then Ok(v, d)
    else if level >= 2 then
      if t[k].kind.Eoti? then Ok(v, d)
      else
        var r := DecGroup(t, k, v, src, limit - d, dl, level);
        if r.Fail? then Fail
        else if r.Overread? then Overread
        else DecLoop(t, PayAt(t, k) + 1, r.value.0, src[r.n..], limit, d + r.n, r.value.1, level)
    else if |src| < HEADER then Overread
    else
      var len := FromLe(src[1..], 2);
      var g := FindEi(t, k, src[0]);
      FindEiIsGroup(t, k, src[0]);
      if g < |t| then
        var r := DecGroup(t, g, v, src[HEADER..], len, dl, level);
        if r.Fail? then Fail
        else if r.Overread? then Overread
        else DecLoop(t, k, r.value.0, src[HEADER + r.n..], limit, d + HEADER + r.n, r.value.1, level)
      else if src[0] < OPTIONAL_TLV_TYPE_START then Fail
      else DecLoop(t, k, v, if HEADER + len <= |src| then src[HEADER + len..] else [], limit, d + HEADER + len, dl,
                   level)
  }

  // ----- One step at a time -----
  // The decoder under names of its own, by which proofs about a step refer to it without unfolding it.

  /** The decoder inside a message: d of `limit` octets are consumed, src is ahead. */
  function DecTop(t: seq<Elem>, w: seq<Slot>, src: seq<byte>, limit: u32, d: nat, dl: u32): Parse<seq<Slot>>
    requires TableFrom(t, 0, true) && StructOk(t, w)
  {
    DecLoop(t, 0, w, src, limit, d, dl, 1)
  }

  /** The decoder at a TLV whose type it does not know. */
  lemma AtAlien(t: seq<Elem>, w: seq<Slot>, src: seq<byte>, len: nat, limit: u32, d: nat, dl: u32)
    requires TableFrom(t, 0, true) && StructOk(t, w) && d < limit && HEADER <= |src| && FromLe(src[1..], 2) == len
    requires src[0] >= OPTIONAL_TLV_TYPE_START && FindEi(t, 0, src[0]) == |t|
    ensures DecTop(t, w, src, limit, d, dl) == DecTop(t, w, if HEADER + len <= |src| then src[HEADER + len..]
                                                      else [], limit, d + HEADER + len, dl)
  {
  }

  /** The decoder at a TLV whose type it knows. */
  lemma AtKnown(t: seq<Elem>, w: seq<Slot>, g: nat, src: seq<byte>, len: nat, limit: u32, d: nat, dl: u32)
    requires TableFrom(t, 0, true) && StructOk(t, w) && d < limit
    requires HEADER <= |src| && FromLe(src[1..], 2) == len < 65536
    requires g < |t| && TableFrom(t, g, true) && !t[g].kind.Eoti? && FindEi(t, 0, src[0]) == g
    ensures var r := DecGroup(t, g, w, src[HEADER..], len, dl, 1);
            && (r.Ok? ==> r.n <= |src| - HEADER && StructOk(t, r.value.0))
            && DecTop(t, w, src, limit, d, dl) ==
               if r.Ok? then DecTop(t, r.value.0, src[HEADER + r.n..], limit, d + HEADER + r.n, r.value.1)
               else if r.Fail? then Fail else Overread
  {
  }

  /** The decoder at a group. */
  function DecEntry(t: seq<Elem>, g: nat, v: seq<Slot>, src: seq<byte>, tlvLen: u32, dl: u32,
                    level: nat): Parse<(seq<Slot>, u32)>
    requires level >= 1 && TableFrom(t, g, level == 1) && !t[g].kind.Eoti? && StructOk(t, v)
  {
    DecGroup(t, g, v, src, tlvLen, dl, level)
  }

  /** The decoder inside a nested struct, and inside an array of them. */
  function DecNested(t: seq<Elem>, k: nat, w: seq<Slot>, src: seq<byte>, limit: u32, d: nat, dl: u32,
                     level: nat): Parse<seq<Slot>>
    requires level >= 1 && StructOk(t, w) && TableFrom(t, k, level == 1)
  {
    DecLoop(t, k, w, src, limit, d, dl, level)
  }

  function DecArray(e: Elem, cur: seq<seq<Slot>>, i: nat, n: nat, src: seq<byte>, tlvLen: u32, d: nat,
                    level: nat): Parse<seq<seq<Slot>>>
    requires NestedOk(e.ei) && i <= n <= |cur| && level >= 2 && AllOk(e.ei, cur)
  {
    DecStructs(e, cur, i, n, src, tlvLen, d, level)
  }

  lemma ArrayStep(e: Elem, cur: seq<seq<Slot>>, i: nat, n: nat, src: seq<byte>, tlvLen: u32, d: nat, level: nat,
                  one: Parse<seq<Slot>>)
    requires NestedOk(e.ei) && i < n <= |cur| && level >= 2 && AllOk(e.ei, cur) && d < tlvLen
    requires one == DecNested(e.ei, 0, cur[i], src, tlvLen - d, 0, 0, level)
    ensures one.Fail? ==> DecArray(e, cur, i, n, src, tlvLen, d, level) == Fail
    ensures one.Overread? ==> DecArray(e, cur, i, n, src, tlvLen, d, level) == Overread
    ensures one.Ok? ==>
              && one.n <= |src| && StructOk(e.ei, one.value) && AllOk(e.ei, cur[i := one.value])
              && var rest := DecArray(e, cur[i := one.value], i + 1, n, src[one.n..], tlvLen, d + one.n, level);
                 DecArray(e, cur, i, n, src, tlvLen, d, level) == if rest.Ok? then Ok(rest.value, one.n + rest.n)
                   else rest
  {
  }

  /** The next group of a nested struct. */
  lemma AtNested(t: seq<Elem>, k: nat, w: seq<Slot>, src: seq<byte>, limit: u32, d: nat, dl: u32, level: nat)
    requires level >= 2 && StructOk(t, w) && TableFrom(t, k, false) && !t[k].kind.Eoti? && d < limit
    ensures var one := DecGroup(t, k, w, src, limit - d, dl, level);
            && (one.Fail? ==> DecNested(t, k, w, src, limit, d, dl, level) == Fail)
            && (one.Overread? ==> DecNested(t, k, w, src, limit, d, dl, level) == Overread)
            && (one.Ok? ==> StructOk(t, one.value.0) && one.n <= |src|
                            && DecNested(t, k, w, src, limit, d, dl, level)
                            == DecNested(t, PayAt(t, k) + 1, one.value.0, src[one.n..], limit, d + one.n,
                                         one.value.1, level))
  {
  }
}
