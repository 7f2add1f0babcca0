/** A TLV the receiver does not know changes nothing but the size, in any message whatever. */
module QmiUnknown {
  import opened Qmi
  import opened QmiDecode
  import opened QmiRoundTrip
  import opened QmiTlv
  import opened QmiTheorems

  // ----- A decoder that did not run out of octets does not see what follows -----

  lemma LongerString(e: Elem, s: Slot, src: seq<byte>, tail: seq<byte>, tlvLen: u32, level: nat)
    ensures var r := DecString(e, s, src, tlvLen, level);
            !r.Overread? ==> DecString(e, s, src + tail, tlvLen, level) == r
  {
    var size := if level == 1 then 0 else StrSize(e);
    if |src| >= size {
      var len: nat := if level == 1 then tlvLen else FromLe(src, size);
      if size + len <= |src| {
        assert (src + tail)[size..size + len] == src[size..size + len];
      }
    }
  }

  lemma {:induction false} LongerPayload(e: Elem, s: Slot, count: nat, src: seq<byte>, tail: seq<byte>, tlvLen: u32,
                                         level: nat)
    requires PayloadOk(e) && SlotOk(e, s) && count <= e.elemLen && (e.kind.Struct? ==> NestedOk(e.ei)) && level >= 1
    ensures var r := DecPayload(e, s, count, src, tlvLen, level);
            !r.Overread? ==> DecPayload(e, s, count, src + tail, tlvLen, level) == r
    decreases e, 1
  {
    if e.kind.Basic? {
      var need := count * e.elemSize;
      FewerOctets(count, e.elemLen, e.elemSize);
      if need <= |src| {
        assert (src + tail)[..need] == src[..need];
      }
    } else if e.kind.Struct? {
      LongerArray(e, s.elems, 0, count, src, tail, tlvLen, 0, level + 1);
    } else {
      LongerString(e, s, src, tail, tlvLen, level);
    }
  }

  lemma {:induction false} LongerArray(e: Elem, cur: seq<seq<Slot>>, i: nat, n: nat, src: seq<byte>, tail: seq<byte>,
                                       tlvLen: u32, d: nat, level: nat)
    requires NestedOk(e.ei) && i <= n <= |cur| && level >= 2 && AllOk(e.ei, cur)
    ensures var r := DecArray(e, cur, i, n, src, tlvLen, d, level);
            !r.Overread? ==> DecArray(e, cur, i, n, src + tail, tlvLen, d, level) == r
    decreases e, 0, n - i
  {
    if i < n && d < tlvLen {
      var one := DecNested(e.ei, 0, cur[i], src, tlvLen - d, 0, 0, level);
      LongerNested(e.ei, 0, cur[i], src, tail, tlvLen - d, 0, 0, level);
      ArrayStep(e, cur, i, n, src, tlvLen, d, level, one);
      if !one.Overread? {
        ArrayStep(e, cur, i, n, src + tail, tlvLen, d, level, one);
      }
      if one.Ok? {
        assert (src + tail)[one.n..] == src[one.n..] + tail;
        LongerArray(e, cur[i := one.value], i + 1, n, src[one.n..], tail, tlvLen, d + one.n, level);
      }
    }
  }

  lemma LongerCount(t: seq<Elem>, g: nat, src: seq<byte>, tail: seq<byte>, dl: u32)
    requires g < |t| && GroupOk(t, g) && CountSize(t, g) <= |src|
    ensures ReadCount(t, g, src + tail, dl) == ReadCount(t, g, src, dl)
    ensures (src + tail)[CountSize(t, g)..] == src[CountSize(t, g)..] + tail
  {
  }

  lemma {:induction false} LongerEntry(t: seq<Elem>, g: nat, v: seq<Slot>, src: seq<byte>, tail: seq<byte>, tlvLen: u32,
                                       dl: u32, level: nat)
    requires level >= 1 && TableFrom(t, g, level == 1) && !t[g].kind.Eoti? && StructOk(t, v)
    ensures var r := DecEntry(t, g, v, src, tlvLen, dl, level);
            !r.Overread? ==> DecEntry(t, g, v, src + tail, tlvLen, dl, level) == r
    decreases t, 0, 0
  {
    var p, size := PayAt(t, g), CountSize(t, g);
    if |src| >= size {
      var n := ReadCount(t, g, src, dl);
      LongerCount(t, g, src, tail, dl);
      assert SlotOk(t[p], v[p]);
      if n <= t[p].elemLen {
        LongerPayload(t[p], v[p], n, src[size..], tail, (tlvLen - size) % 0x1_0000_0000, level);
      }
    }
  }

  lemma {:induction false} LongerNested(t: seq<Elem>, k: nat, w: seq<Slot>, src: seq<byte>, tail: seq<byte>,
                                        limit: u32, d: nat,
                                        dl: u32, level: nat)
    requires level >= 2 && StructOk(t, w) && TableFrom(t, k, false)
    ensures var r := DecNested(t, k, w, src, limit, d, dl, level);
            !r.Overread? ==> DecNested(t, k, w, src + tail, limit, d, dl, level) == r
    decreases t, |t| - k, 1
  {
    if d < limit && !t[k].kind.Eoti? {
      var one := DecEntry(t, k, w, src, limit - d, dl, level);
      LongerEntry(t, k, w, src, tail, limit - d, dl, level);
      AtNested(t, k, w, src, limit, d, dl, level);
      if !one.Overread? {
        LongerRound(t, k, w, src, tail, limit, d, dl, level, one);
      }
      if one.Ok? {
        LongerNested(t, PayAt(t, k) + 1, one.value.0, src[one.n..], tail, limit, d + one.n, one.value.1, level);
      }
    }
  }

  lemma LongerRound(t: seq<Elem>, k: nat, w: seq<Slot>, src: seq<byte>, tail: seq<byte>, limit: u32, d: nat, dl: u32,
                    level: nat, one: Parse<(seq<Slot>, u32)>)
    requires level >= 2 && StructOk(t, w) && TableFrom(t, k, false) && !t[k].kind.Eoti? && d < limit
    requires DecEntry(t, k, w, src + tail, limit - d, dl, level) == one && (one.Ok? ==> one.n <= |src|)
    ensures var long := DecNested(t, k, w, src + tail, limit, d, dl, level);
            && (one.Fail? ==> long == Fail)
            && (one.Ok? ==>
                  && StructOk(t, one.value.0)
                  && long == DecNested(t, PayAt(t, k) + 1, one.value.0, src[one.n..] + tail, limit, d + one.n,
                                       one.value.1, level))
  {
    if one.Ok? {
      LoopStep(t, k, w, src + tail, limit, d, dl, level, one.value.0, one.n, one.value.1);
      assert (src + tail)[one.n..] == src[one.n..] + tail;
    } else {
      AtNested(t, k, w, src + tail, limit, d, dl, level);
    }
  }

  // ----- From boundary to boundary -----

  /** One TLV: the struct and the data_len_value after it, and its size. */
  function TlvStep(t: seq<Elem>, w: seq<Slot>, src: seq<byte>, dl: u32): (r: Parse<(seq<Slot>, u32)>)
    requires TableFrom(t, 0, true) && StructOk(t, w)
    ensures r.Ok? ==> StructOk(t, r.value.0) && r.n >= HEADER
  {
    if |src| < HEADER then Overread
    else
      var g := FindEi(t, 0, src[0]);
      FindEiIsGroup(t, 0, src[0]);
      if g < |t| then
        var r := DecEntry(t, g, w, src[HEADER..], FromLe(src[1..], 2), dl, 1);
        if r.Ok? then Ok(r.value, HEADER + r.n) else r
      else if src[0] < OPTIONAL_TLV_TYPE_START then Fail
      else Ok((w, dl), HEADER + FromLe(src[1..], 2))
  }

  /** What is left of the octets after n of them; nothing when there are fewer. */
  function After(src: seq<byte>, n: nat): seq<byte> { if n <= |src| then src[n..] else [] }

  /** A TLV whose group decodes to x and leaves n moves the decoder on by its size m. */
  lemma KnownMoves(t: seq<Elem>, w: seq<Slot>, g: nat, src: seq<byte>, limit: u32, d: nat, dl: u32,
                   x: seq<Slot>, m: nat, n: u32)
    requires TableFrom(t, 0, true) && StructOk(t, w) && d < limit && HEADER <= m && HEADER <= |src|
    requires g < |t| && TableFrom(t, g, true) && !t[g].kind.Eoti? && FindEi(t, 0, src[0]) == g
    requires DecGroup(t, g, w, src[HEADER..], FromLe(src[1..], 2), dl, 1) == Ok((x, n), m - HEADER)
    ensures m <= |src| && StructOk(t, x) && DecTop(t, w, src, limit, d, dl) == DecTop(t, x, src[m..], limit, d + m, n)
  {
  }

  lemma TopKnown(t: seq<Elem>, w: seq<Slot>, src: seq<byte>, limit: u32, d: nat, dl: u32, x: seq<Slot>, m: nat, n: u32)
    requires TableFrom(t, 0, true) && StructOk(t, w) && d < limit && |src| >= HEADER && FindEi(t, 0, src[0]) < |t|
    requires TlvStep(t, w, src, dl) == Ok((x, n), m)
    ensures m <= |src| && StructOk(t, x) && DecTop(t, w, src, limit, d, dl) == DecTop(t, x, src[m..], limit, d + m, n)
  {
    FindEiIsGroup(t, 0, src[0]);
    KnownMoves(t, w, FindEi(t, 0, src[0]), src, limit, d, dl, x, m, n);
  }

  /** A TLV that is not decoded ends the decoder. */
  lemma TopEnds(t: seq<Elem>, w: seq<Slot>, src: seq<byte>, limit: u32, d: nat, dl: u32)
    requires TableFrom(t, 0, true) && StructOk(t, w) && d < limit && !TlvStep(t, w, src, dl).Ok?
    ensures DecTop(t, w, src, limit, d, dl) == if TlvStep(t, w, src, dl).Fail? then Fail else Overread
  {
    if |src| >= HEADER && FindEi(t, 0, src[0]) < |t| {
      FindEiIsGroup(t, 0, src[0]);
      AtKnown(t, w, FindEi(t, 0, src[0]), src, FromLe(src[1..], 2), limit, d, dl);
    }
  }

  lemma TopStep(t: seq<Elem>, w: seq<Slot>, src: seq<byte>, limit: u32, d: nat, dl: u32)
    requires TableFrom(t, 0, true) && StructOk(t, w) && d < limit
    ensures var r := TlvStep(t, w, src, dl);
            DecTop(t, w, src, limit, d, dl) ==
            if r.Ok? then DecTop(t, r.value.0, After(src, r.n), limit, d + r.n, r.value.1)
            else if r.Fail? then Fail else Overread
  {
    var r := TlvStep(t, w, src, dl);
    if !r.Ok? {
      TopEnds(t, w, src, limit, d, dl);
    } else if FindEi(t, 0, src[0]) < |t| {
      TopKnown(t, w, src, limit, d, dl, r.value.0, r.n, r.value.1);
    } else {
      AtAlien(t, w, src, FromLe(src[1..], 2), limit, d, dl);
    }
  }

  lemma LongerTlv(t: seq<Elem>, w: seq<Slot>, src: seq<byte>, tail: seq<byte>, dl: u32)
    requires TableFrom(t, 0, true) && StructOk(t, w)
    ensures var r := TlvStep(t, w, src, dl);
            !r.Overread? ==> TlvStep(t, w, src + tail, dl) == r
  {
    if |src| >= HEADER {
      var g := FindEi(t, 0, src[0]);
      FindEiIsGroup(t, 0, src[0]);
      assert (src + tail)[HEADER..] == src[HEADER..] + tail;
      assert FromLe((src + tail)[1..], 2) == FromLe(src[1..], 2);
      if g < |t| {
        LongerEntry(t, g, w, src[HEADER..], tail, FromLe(src[1..], 2), dl, 1);
      }
    }
  }

  lemma LongerTop(t: seq<Elem>, w: seq<Slot>, src: seq<byte>, tail: seq<byte>, limit: u32, d: nat, dl: u32)
    requires TableFrom(t, 0, true) && StructOk(t, w) && d < limit
    requires TlvStep(t, w, src, dl).Ok? && TlvStep(t, w, src, dl).n <= |src|
    ensures var r := TlvStep(t, w, src, dl);
            DecTop(t, w, src + tail, limit, d, dl) ==
            DecTop(t, r.value.0, After(src, r.n) + tail, limit, d + r.n, r.value.1)
  {
    var n := TlvStep(t, w, src, dl).n;
    LongerTlv(t, w, src, tail, dl);
    TopStep(t, w, src + tail, limit, d, dl);
    assert After(src + tail, n) == After(src, n) + tail;
  }

  /** Octets that decode by themselves to their end lead to the same place whatever follows them. */
  lemma {:induction false} Boundary(t: seq<Elem>, w: seq<Slot>, x: seq<Slot>, a: seq<byte>, b: seq<byte>, c: seq<byte>,
                                    m: u32, n: u32, d: nat, dl: u32) returns (left: u32)
    requires TableFrom(t, 0, true) && StructOk(t, w) && StructOk(t, x) && d + |a| <= m && d + |a| <= n
    requires DecTop(t, w, a, d + |a|, d, dl) == Ok(x, d + |a|)
    ensures DecTop(t, w, a + b, m, d, dl) == DecTop(t, x, b, m, d + |a|, left)
    ensures DecTop(t, w, a + c, n, d, dl) == DecTop(t, x, c, n, d + |a|, left)
    decreases |a|
  {
    left := dl;
    if a == [] {
      assert a + b == b && a + c == c;
    } else {
      var one := TlvStep(t, w, a, dl);
      TopStep(t, w, a, d + |a|, d, dl);
      LongerTop(t, w, a, b, m, d, dl);
      LongerTop(t, w, a, c, n, d, dl);
      left := Boundary(t, one.value.0, x, After(a, one.n), b, c, m, n, d + one.n, one.value.1);
    }
  }

  /** A parse that ends n octets later. */
  function Later<T>(r: Parse<T>, n: nat): Parse<T> { if r.Ok? then Ok(r.value, r.n + n) else r }

  /** What has been consumed so far has no say in what comes next. */
  lemma {:induction false} Shifted(t: seq<Elem>, w: seq<Slot>, src: seq<byte>, limit: u32, d: nat, dl: u32, n: nat)
    requires TableFrom(t, 0, true) && StructOk(t, w) && limit + n < 0x1_0000_0000
    ensures DecTop(t, w, src, limit + n, d + n, dl) == Later(DecTop(t, w, src, limit, d, dl), n)
    decreases if d < limit then limit - d else 0
  {
    if d < limit {
      var one := TlvStep(t, w, src, dl);
      TopStep(t, w, src, limit, d, dl);
      TopStep(t, w, src, limit + n, d + n, dl);
      if one.Ok? {
        Shifted(t, one.value.0, After(src, one.n), limit, d + one.n, one.value.1, n);
      }
    }
  }

  /** A TLV of an optional type that the table does not know. */
  predicate Unknown(t: seq<Elem>, tlvType: byte, data: seq<byte>) {
    tlvType >= OPTIONAL_TLV_TYPE_START && FindEi(t, 0, tlvType) == |t| && |data| < 65536
  }

  /** Forward compatibility: an unknown optional TLV, put anywhere a decoder gets to, changes neither
      the outcome nor the struct; only the size grows by its own. The message need not come from the
      encoder, before or after that place. */
  lemma UnknownIsSkipped(t: seq<Elem>, a: seq<byte>, b: seq<byte>, tlvType: byte, data: seq<byte>)
    requires TableFrom(t, 0, true) && Unknown(t, tlvType, data) && |a| + HEADER + |data| + |b| < 0x1_0000_0000
    requires Decode(t, a).Ok? && Decode(t, a).n == |a|
    ensures Decode(t, a + (Tlv(tlvType, data) + b)) == Later(Decode(t, a + b), HEADER + |data|)
  {
    var w, x := ZeroStruct(t), Decode(t, a).value;
    ZeroStructOk(t, 0, true);
    var c, size := Tlv(tlvType, data) + b, HEADER + |data|;
    var left := Boundary(t, w, x, a, b, c, |a + b|, |a + c|, 0, 0);
    AlienTlv(t, x, c, tlvType, data, b, |a + c|, |a|, left);
    Shifted(t, x, b, |a + b|, |a|, left, size);
  }
}
