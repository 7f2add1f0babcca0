/** Which octets a decoder accepts and what it makes of them, in closed form: the cut points of a message,
    of a nested struct and of an array, and what lies between them, read off the octets. */
module QmiGrammar {
  import opened Qmi
  import opened QmiDecode
  import opened QmiRoundTrip
  import opened QmiTlv
  import opened QmiTheorems

  /** A 16-bit little-endian number. */
  function Word(src: seq<byte>, i: nat): nat
    requires i + 2 <= |src|
  {
    src[i] as nat + 256 * src[i+1] as nat
  }

  // ----- Strings and integers -----

  /** A string is ahead: at the top of a TLV it is all of it, deeper down its length comes first, in one octet
      if the field has room for 256 characters or fewer and in two otherwise. It fits the field and the TLV. */
  ghost predicate StringAhead(e: Elem, src: seq<byte>, tlvLen: u32, level: nat, chars: seq<byte>, n: nat) {
    && |chars| <= e.elemLen && |chars| <= tlvLen && n <= |src|
    && if level == 1 then |chars| == tlvLen && n == |chars| && src[..n] == chars
       else if e.elemLen <= 256 then n == 1 + |chars| && src[0] as int == |chars| && src[1..n] == chars
       else n == 2 + |chars| && Word(src, 0) == |chars| && src[2..n] == chars
  }

  lemma StringIsAhead(e: Elem, s: Slot, src: seq<byte>, tlvLen: u32, level: nat, chars: seq<byte>, n: nat)
    ensures DecString(e, s, src, tlvLen, level) == Ok(Chars(chars), n) <==>
            StringAhead(e, src, tlvLen, level, chars, n)
  {
    StringAccepts(e, s, src, tlvLen, level, chars, n);
    if level != 1 && n <= |src| && 2 <= n {
      assert src[..1] == [src[0]] && src[..2] == [src[0], src[1]];
    }
  }

  /** What a payload makes of the octets ahead: integers are copied, a string is read, and an array of structs
      is as many of them as counted. */
  lemma PayloadAccepts(e: Elem, s: Slot, count: nat, src: seq<byte>, tlvLen: u32, level: nat, x: Slot, n: nat)
    requires PayloadOk(e) && SlotOk(e, s) && count <= e.elemLen && (e.kind.Struct? ==> NestedOk(e.ei)) && level >= 1
    ensures DecPayload(e, s, count, src, tlvLen, level) == Ok(x, n) <==>
            if e.kind.Struct? then
              x.Structs? && DecArray(e, s.elems, 0, count, src, tlvLen, 0, level + 1) == Ok(x.elems, n)
            else if e.kind.String? then x.Chars? && StringAhead(e, src, tlvLen, level, x.chars, n)
            else
              && n == count * e.elemSize <= |src| && x.Bytes? && |x.data| == |s.data|
              && forall i :: 0 <= i < |s.data| ==> x.data[i] == if i < n then src[i] else s.data[i]
  {
    if e.kind.String? {
      if x.Chars? {
        StringIsAhead(e, s, src, tlvLen, level, x.chars, n);
      }
    } else if e.kind.Basic? {
      FewerOctets(count, e.elemLen, e.elemSize);
      if count * e.elemSize <= |src| {
        IntegersRead(src, s.data, count * e.elemSize, x);
      }
    }
  }

  lemma IntegersRead(src: seq<byte>, data: seq<byte>, n: nat, x: Slot)
    requires n <= |src| && n <= |data|
    ensures x == Bytes(src[..n] + data[n..]) <==>
            x.Bytes? && |x.data| == |data| && forall i :: 0 <= i < |data| ==> x.data[i] == if i < n then src[i]
              else data[i]
  {
    if x.Bytes? && |x.data| == |data| && forall i :: 0 <= i < |data| ==> x.data[i] == if i < n then src[i] else data[i]
    {
      assert x.data == src[..n] + data[n..];
    }
  }

  // ----- One group -----

  /** How many octets the count takes, and what is then in data_len_value: the octets read replace its
      low ones only. Without a count it is the length of a static array, or 1. */
  ghost predicate CountRead(t: seq<Elem>, l: nat, p: nat, src: seq<byte>, dl: u32, size: nat, n: int)
    requires l <= p < |t|
  {
    if l == p then size == 0 && n == (if t[p].arrayType.StaticArray? then t[p].elemLen else 1)
    else if t[l].elemSize == 1 then size == 1 <= |src| && n == dl - dl % 256 + src[0] as int
    else size == 2 <= |src| && n == dl - dl % 65536 + Word(src, 0)
  }

  lemma CountIs(t: seq<Elem>, g: nat, src: seq<byte>, dl: u32, l: nat, p: nat)
    requires g < |t| && GroupOk(t, g) && l == LenAt(t, g) && p == PayAt(t, g)
    ensures |src| >= CountSize(t, g) ==> CountRead(t, l, p, src, dl, CountSize(t, g), ReadCount(t, g, src, dl))
    ensures forall size: nat, n :: CountRead(t, l, p, src, dl, size, n) && size <= |src| ==>
                                size == CountSize(t, g) && n == ReadCount(t, g, src, dl)
  {
  }

  /** The fields a group writes: the flag is 1, the length the count, the payload what was read, and every
      other field is as it was. */
  ghost predicate FieldsRead(v: seq<Slot>, g: nat, l: nat, p: nat, left: u32, payload: Slot, w: seq<Slot>) {
    && g <= l <= p < |v| == |w|
    && (forall i :: 0 <= i < |v| && !(g <= i <= p) ==> w[i] == v[i])
    && (g < l ==> w[g] == Flag(1)) && (l < p ==> w[l] == Len(left)) && w[p] == payload
  }

  lemma FieldsAre(t: seq<Elem>, g: nat, v: seq<Slot>, left: u32, payload: Slot, w: seq<Slot>)
    requires g < |t| && GroupOk(t, g) && |v| + 1 == |t|
    ensures w == Written(t, g, v, left, payload) <==>
            FieldsRead(v, g, LenAt(t, g), PayAt(t, g), left, payload, w)
  {
    var x := Written(t, g, v, left, payload);
    if FieldsRead(v, g, LenAt(t, g), PayAt(t, g), left, payload, w) {
      assert forall i :: 0 <= i < |v| ==> w[i] == x[i];
      assert w == x;
    }
  }

  /** What is left of a length, at 32 bits. */
  function Less(tlvLen: u32, size: nat): u32
    requires size <= 2
  {
    if size <= tlvLen then tlvLen - size else tlvLen + 0x1_0000_0000 - size
  }

  lemma LessIs(tlvLen: u32, size: nat)
    requires size <= 2
    ensures (tlvLen - size) % 0x1_0000_0000 == Less(tlvLen, size)
  {
  }

  /** A group's count is ahead, is no larger than the table says and is followed by its payload, which may
      take the rest of the length; w is the struct v with the group's fields written. */
  ghost predicate GroupAhead(t: seq<Elem>, g: nat, v: seq<Slot>, src: seq<byte>, tlvLen: u32, dl: u32, level: nat,
                             w: seq<Slot>, left: u32, used: nat)
    requires level >= 1 && TableFrom(t, g, level == 1) && !t[g].kind.Eoti? && StructOk(t, v)
  {
    var l := if t[g].kind.OptFlag? then g + 1 else g;
    var p := if t[l].kind.DataLen? then l + 1 else l;
    exists size: nat, payload ::
      && size <= |src| && size <= used && CountRead(t, l, p, src, dl, size, left) && left <= t[p].elemLen
      && size <= 2
      && DecPayload(t[p], v[p], left, src[size..], Less(tlvLen, size), level) == Ok(payload, used - size)
      && FieldsRead(v, g, l, p, left, payload, w)
  }

  /** The group in one equation, its count and its payload named. */
  lemma GroupParts(t: seq<Elem>, g: nat, v: seq<Slot>, src: seq<byte>, tlvLen: u32, dl: u32, level: nat)
    returns (size: nat, n: nat, r: Parse<Slot>)
    requires level >= 1 && TableFrom(t, g, level == 1) && !t[g].kind.Eoti? && StructOk(t, v)
    ensures size == CountSize(t, g) <= 2
    ensures |src| < size ==> DecGroup(t, g, v, src, tlvLen, dl, level) == Overread
    ensures |src| >= size ==> n == ReadCount(t, g, src, dl)
    ensures |src| >= size && n > t[PayAt(t, g)].elemLen ==> DecGroup(t, g, v, src, tlvLen, dl, level) == Fail
    ensures |src| >= size && n <= t[PayAt(t, g)].elemLen ==>
              && r == DecPayload(t[PayAt(t, g)], v[PayAt(t, g)], n, src[size..], Less(tlvLen, size), level)
              && DecGroup(t, g, v, src, tlvLen, dl, level) ==
                 if r.Ok? then Ok((Written(t, g, v, n, r.value), n), size + r.n) else if r.Fail? then Fail else Overread
  {
    size, n, r := CountSize(t, g), 0, Fail;
    if |src| >= size {
      n := ReadCount(t, g, src, dl);
      if n <= t[PayAt(t, g)].elemLen {
        r := DecPayload(t[PayAt(t, g)], v[PayAt(t, g)], n, src[size..], Less(tlvLen, size), level);
        GroupWith(t, g, v, src, tlvLen, dl, level, n, r);
      }
    }
  }

  lemma GroupWith(t: seq<Elem>, g: nat, v: seq<Slot>, src: seq<byte>, tlvLen: u32, dl: u32, level: nat, n: u32,
                  r: Parse<Slot>)
    requires level >= 1 && TableFrom(t, g, level == 1) && !t[g].kind.Eoti? && StructOk(t, v)
    requires CountSize(t, g) <= |src| && n == ReadCount(t, g, src, dl) && n <= t[PayAt(t, g)].elemLen
    requires SlotOk(t[PayAt(t, g)], v[PayAt(t, g)])
    requires r == DecPayload(t[PayAt(t, g)], v[PayAt(t, g)], n, src[CountSize(t, g)..],
                             Less(tlvLen, CountSize(t, g)), level)
    ensures DecGroup(t, g, v, src, tlvLen, dl, level) ==
            if r.Ok? then Ok((Written(t, g, v, n, r.value), n), CountSize(t, g) + r.n)
            else if r.Fail? then Fail else Overread
  {
    LessIs(tlvLen, CountSize(t, g));
  }

  lemma GroupIsAhead(t: seq<Elem>, g: nat, v: seq<Slot>, src: seq<byte>, tlvLen: u32, dl: u32, level: nat,
                     w: seq<Slot>, left: u32, used: nat)
    requires level >= 1 && TableFrom(t, g, level == 1) && !t[g].kind.Eoti? && StructOk(t, v)
    requires DecGroup(t, g, v, src, tlvLen, dl, level) == Ok((w, left), used)
    ensures GroupAhead(t, g, v, src, tlvLen, dl, level, w, left, used)
  {
    var size, n, r := GroupParts(t, g, v, src, tlvLen, dl, level);
    CountIs(t, g, src, dl, LenAt(t, g), PayAt(t, g));
    FieldsAre(t, g, v, left, r.value, w);
  }

  lemma AheadIs(t: seq<Elem>, g: nat, v: seq<Slot>, src: seq<byte>, tlvLen: u32, dl: u32, level: nat,
                w: seq<Slot>, left: u32, used: nat)
    returns (payload: Slot)
    requires level >= 1 && TableFrom(t, g, level == 1) && !t[g].kind.Eoti? && StructOk(t, v)
    requires GroupAhead(t, g, v, src, tlvLen, dl, level, w, left, used)
    ensures CountSize(t, g) <= |src| && CountSize(t, g) <= used && left == ReadCount(t, g, src, dl)
    ensures left <= t[PayAt(t, g)].elemLen && w == Written(t, g, v, left, payload)
    ensures DecPayload(t[PayAt(t, g)], v[PayAt(t, g)], left, src[CountSize(t, g)..], Less(tlvLen, CountSize(t, g)),
                       level) == Ok(payload, used - CountSize(t, g))
  {
    var l, p := LenAt(t, g), PayAt(t, g);
    CountIs(t, g, src, dl, l, p);
    var k: nat;
    k, payload :| k <= |src| && k <= used && CountRead(t, l, p, src, dl, k, left) && left <= t[p].elemLen && k <= 2
      && DecPayload(t[p], v[p], left, src[k..], Less(tlvLen, k), level) == Ok(payload, used - k)
      && FieldsRead(v, g, l, p, left, payload, w);
    FieldsAre(t, g, v, left, payload, w);
  }

  lemma AheadIsAccepted(t: seq<Elem>, g: nat, v: seq<Slot>, src: seq<byte>, tlvLen: u32, dl: u32, level: nat,
                        w: seq<Slot>, left: u32, used: nat)
    requires level >= 1 && TableFrom(t, g, level == 1) && !t[g].kind.Eoti? && StructOk(t, v)
    requires GroupAhead(t, g, v, src, tlvLen, dl, level, w, left, used)
    ensures DecGroup(t, g, v, src, tlvLen, dl, level) == Ok((w, left), used)
  {
    var size, n, r := GroupParts(t, g, v, src, tlvLen, dl, level);
    var payload := AheadIs(t, g, v, src, tlvLen, dl, level, w, left, used);
  }

  /** A group is accepted exactly when it is ahead. */
  lemma GroupAccepts(t: seq<Elem>, g: nat, v: seq<Slot>, src: seq<byte>, tlvLen: u32, dl: u32, level: nat,
                     w: seq<Slot>, left: u32, used: nat)
    requires level >= 1 && TableFrom(t, g, level == 1) && !t[g].kind.Eoti? && StructOk(t, v)
    ensures DecGroup(t, g, v, src, tlvLen, dl, level) == Ok((w, left), used) <==>
            GroupAhead(t, g, v, src, tlvLen, dl, level, w, left, used)
  {
    if DecGroup(t, g, v, src, tlvLen, dl, level) == Ok((w, left), used) {
      GroupIsAhead(t, g, v, src, tlvLen, dl, level, w, left, used);
    }
    if GroupAhead(t, g, v, src, tlvLen, dl, level, w, left, used) {
      AheadIsAccepted(t, g, v, src, tlvLen, dl, level, w, left, used);
    }
  }

  // ----- Arrays of structs -----

  /** Struct j of the array lies between the cut points at[j] and at[j+1], the first at 0. */
  ghost predicate Cut(e: Elem, elems: seq<seq<Slot>>, src: seq<byte>, tlvLen: u32, level: nat, ws: seq<seq<Slot>>,
                      at: seq<nat>)
    requires NestedOk(e.ei) && level >= 2 && AllOk(e.ei, elems)
  {
    && |at| == |ws| + 1 && at[0] == 0 && |ws| <= |elems|
    && (forall j :: 0 <= j < |at| ==> at[j] <= |src|)
    && forall j :: 0 <= j < |ws| ==> Between(e, elems[j], src, tlvLen, level, at[j], at[j+1], ws[j])
  }

  /** From lo to hi the octets are the struct w, read over the struct v; it starts within the length. */
  ghost predicate Between(e: Elem, v: seq<Slot>, src: seq<byte>, tlvLen: u32, level: nat, lo: nat, hi: nat,
                          w: seq<Slot>)
    requires NestedOk(e.ei) && level >= 2 && StructOk(e.ei, v) && lo <= |src|
  {
    lo < tlvLen && lo <= hi && DecNested(e.ei, 0, v, src[lo..], tlvLen - lo, 0, 0, level) == Ok(w, hi - lo)
  }

  lemma CutMore(e: Elem, elems: seq<seq<Slot>>, src: seq<byte>, tlvLen: u32, level: nat, ws: seq<seq<Slot>>,
                at: seq<nat>, w: seq<Slot>, hi: nat)
    requires NestedOk(e.ei) && level >= 2 && AllOk(e.ei, elems) && Cut(e, elems, src, tlvLen, level, ws, at)
    requires |ws| < |elems| && hi <= |src| && Between(e, elems[|ws|], src, tlvLen, level, at[|ws|], hi, w)
    ensures Cut(e, elems, src, tlvLen, level, ws + [w], at + [hi])
  {
  }

  /** The structs end where there are as many as counted, or where the length is used up. At the top of a TLV
      they have to take up the length exactly, deeper down there have to be as many as counted, within it. */
  predicate CutEnds(count: nat, tlvLen: u32, level: nat, found: nat, end: nat) {
    && found <= count && (found == count || tlvLen <= end)
    && if level <= 2 then end == tlvLen else found == count && end <= tlvLen
  }

  /** Behind struct k of the array. */
  lemma CutStep(e: Elem, cur: seq<seq<Slot>>, k: nat, count: nat, src: seq<byte>, tlvLen: u32, level: nat, d: nat,
                hi: nat, w: seq<Slot>, next: seq<seq<Slot>>)
    requires NestedOk(e.ei) && level >= 2 && AllOk(e.ei, cur) && k < count <= |cur| && d <= |src| && hi <= |src|
    requires Between(e, cur[k], src, tlvLen, level, d, hi, w) && next == cur[k := w]
    ensures AllOk(e.ei, next)
    ensures var rest := DecArray(e, next, k + 1, count, src[hi..], tlvLen, hi, level);
            DecArray(e, cur, k, count, src[d..], tlvLen, d, level) ==
            if rest.Ok? then Ok(rest.value, hi - d + rest.n) else rest
  {
    var ahead, m := src[d..], hi - d;
    ArrayStep(e, cur, k, count, ahead, tlvLen, d, level, Ok(w, m));
    Further(src, d, m);
  }

  lemma ArrayMove(e: Elem, cur: seq<seq<Slot>>, k: nat, count: nat, src: seq<byte>, tlvLen: u32, level: nat, d: nat)
    returns (w: seq<Slot>, hi: nat)
    requires NestedOk(e.ei) && level >= 2 && AllOk(e.ei, cur) && k < count <= |cur| && d <= |src| && d < tlvLen
    requires DecArray(e, cur, k, count, src[d..], tlvLen, d, level).Ok?
    ensures hi <= |src| && Between(e, cur[k], src, tlvLen, level, d, hi, w)
  {
    var one := DecNested(e.ei, 0, cur[k], src[d..], tlvLen - d, 0, 0, level);
    ArrayStep(e, cur, k, count, src[d..], tlvLen, d, level, one);
    w, hi := one.value, d + one.n;
  }

  lemma {:induction false} ArrayIsCut(e: Elem, elems: seq<seq<Slot>>, count: nat, src: seq<byte>, tlvLen: u32,
                                      level: nat, ws: seq<seq<Slot>>, at: seq<nat>, r: Parse<seq<seq<Slot>>>)
    returns (us: seq<seq<Slot>>, bt: seq<nat>)
    requires NestedOk(e.ei) && level >= 2 && AllOk(e.ei, elems) && |ws| <= count <= |elems|
    requires Cut(e, elems, src, tlvLen, level, ws, at) && AllOk(e.ei, ws + elems[|ws|..])
    requires r == DecArray(e, ws + elems[|ws|..], |ws|, count, src[at[|ws|]..], tlvLen, at[|ws|], level) && r.Ok?
    ensures Cut(e, elems, src, tlvLen, level, us, bt) && CutEnds(count, tlvLen, level, |us|, bt[|us|])
    ensures r.value == us + elems[|us|..] && at[|ws|] + r.n == bt[|us|]
    decreases count - |ws|
  {
    us, bt := ws, at;
    var i, d, cur := |ws|, at[|ws|], ws + elems[|ws|..];
    if i < count && d < tlvLen {
      var w, hi := ArrayMove(e, cur, i, count, src, tlvLen, level, d);
      var next := (ws + [w]) + elems[i+1..];
      CutStep(e, cur, i, count, src, tlvLen, level, d, hi, w, next);
      CutMore(e, elems, src, tlvLen, level, ws, at, w, hi);
      var rest := DecArray(e, next, i + 1, count, src[hi..], tlvLen, hi, level);
      us, bt := ArrayIsCut(e, elems, count, src, tlvLen, level, ws + [w], at + [hi], rest);
    }
  }

  lemma {:induction false} CutIsArray(e: Elem, elems: seq<seq<Slot>>, count: nat, src: seq<byte>, tlvLen: u32,
                                      level: nat, ws: seq<seq<Slot>>, at: seq<nat>, k: nat)
    requires NestedOk(e.ei) && level >= 2 && AllOk(e.ei, elems) && k <= |ws| <= count <= |elems|
    requires Cut(e, elems, src, tlvLen, level, ws, at) && CutEnds(count, tlvLen, level, |ws|, at[|ws|])
    requires AllOk(e.ei, ws[..k] + elems[k..])
    ensures at[k] <= at[|ws|]
    ensures DecArray(e, ws[..k] + elems[k..], k, count, src[at[k]..], tlvLen, at[k], level) ==
            Ok(ws + elems[|ws|..], at[|ws|] - at[k])
    decreases |ws| - k
  {
    var cur, d := ws[..k] + elems[k..], at[k];
    if k < |ws| {
      assert Between(e, elems[k], src, tlvLen, level, at[k], at[k+1], ws[k]);
      var next := ws[..k+1] + elems[k+1..];
      CutStep(e, cur, k, count, src, tlvLen, level, d, at[k+1], ws[k], next);
      CutIsArray(e, elems, count, src, tlvLen, level, ws, at, k + 1);
    } else {
      assert ws[..k] == ws;
    }
  }

  /** An array of structs is accepted exactly when its octets can be cut into structs that end properly; the
      elements that were not found are as before. */
  lemma ArrayAccepts(e: Elem, elems: seq<seq<Slot>>, count: nat, src: seq<byte>, tlvLen: u32, level: nat,
                     r: seq<seq<Slot>>, n: nat)
    requires NestedOk(e.ei) && level >= 2 && AllOk(e.ei, elems) && count <= |elems|
    ensures DecArray(e, elems, 0, count, src, tlvLen, 0, level) == Ok(r, n) <==>
            exists ws, at ::
              && Cut(e, elems, src, tlvLen, level, ws, at) && CutEnds(count, tlvLen, level, |ws|, at[|ws|])
              && r == ws + elems[|ws|..] && n == at[|ws|]
  {
    assert [] + elems[0..] == elems && src[0..] == src;
    if DecArray(e, elems, 0, count, src, tlvLen, 0, level) == Ok(r, n) {
      var ws, at := ArrayIsCut(e, elems, count, src, tlvLen, level, [], [0], Ok(r, n));
    }
    if ws, at :| Cut(e, elems, src, tlvLen, level, ws, at) && CutEnds(count, tlvLen, level, |ws|, at[|ws|])
                 && r == ws + elems[|ws|..] && n == at[|ws|] {
      assert ws[..0] + elems[0..] == elems;
      CutIsArray(e, elems, count, src, tlvLen, level, ws, at, 0);
    }
  }

  // ----- Nested structs -----

  /** Where a decoder has got to: the struct so far, data_len_value, the octets consumed, the next entry. */
  datatype At = At(w: seq<Slot>, dl: u32, d: nat, g: nat)

  /** The next group of a nested struct is ahead of a, and b is behind it; `GroupAccepts` says when it is. */
  ghost predicate GroupRead(t: seq<Elem>, src: seq<byte>, limit: u32, level: nat, a: At, b: At) {
    && level >= 2 && TableFrom(t, a.g, false) && StructOk(t, a.w) && !t[a.g].kind.Eoti? && a.d < limit
    && a.d <= |src| && a.d <= b.d
    && DecGroup(t, a.g, a.w, src[a.d..], limit - a.d, a.dl, level) == Ok((b.w, b.dl), b.d - a.d)
    && b.g == a.g + 1 + (if t[a.g].kind.DataLen? then 1 else 0)
  }

  ghost predicate GroupsRead(t: seq<Elem>, src: seq<byte>, limit: u32, level: nat, run: seq<At>) {
    && |run| > 0 && (forall i :: 0 <= i < |run| ==> run[i].d <= |src|)
    && forall i :: 0 <= i < |run| - 1 ==> GroupRead(t, src, limit, level, run[i], run[i+1])
  }

  ghost predicate GroupsEnd(t: seq<Elem>, limit: u32, z: At, w: seq<Slot>, n: nat) {
    z.w == w && z.d == n && z.g < |t| && (t[z.g].kind.Eoti? || limit <= z.d)
  }

  lemma Further(src: seq<byte>, d: nat, m: nat)
    requires d + m <= |src|
    ensures src[d..][m..] == src[d + m..]
  {
  }

  lemma NextGroup(t: seq<Elem>, g: nat, next: nat)
    requires TableFrom(t, g, false) && !t[g].kind.Eoti? && next == g + 1 + if t[g].kind.DataLen? then 1 else 0
    ensures next == PayAt(t, g) + 1 && TableFrom(t, next, false)
  {
  }

  lemma StepOn(t: seq<Elem>, g: nat, next: nat, v: seq<Slot>, src: seq<byte>, limit: u32, d: nat, end: nat, dl: u32,
               level: nat, w: seq<Slot>, left: u32)
    requires level >= 2 && TableFrom(t, g, false) && StructOk(t, v) && !t[g].kind.Eoti? && d < limit && d <= |src|
    requires next == g + 1 + (if t[g].kind.DataLen? then 1 else 0) && d <= end
    requires DecGroup(t, g, v, src[d..], limit - d, dl, level) == Ok((w, left), end - d)
    ensures TableFrom(t, next, false) && StructOk(t, w) && end <= |src|
    ensures DecNested(t, g, v, src[d..], limit, d, dl, level) ==
            DecNested(t, next, w, src[end..], limit, end, left, level)
  {
    NextGroup(t, g, next);
    LoopStep(t, g, v, src[d..], limit, d, dl, level, w, end - d, left);
    Further(src, d, end - d);
  }

  lemma NestedStep(t: seq<Elem>, src: seq<byte>, limit: u32, level: nat, a: At, b: At)
    requires GroupRead(t, src, limit, level, a, b)
    ensures TableFrom(t, b.g, false) && StructOk(t, b.w) && b.d <= |src|
    ensures DecNested(t, a.g, a.w, src[a.d..], limit, a.d, a.dl, level) ==
            DecNested(t, b.g, b.w, src[b.d..], limit, b.d, b.dl, level)
  {
    StepOn(t, a.g, b.g, a.w, src, limit, a.d, b.d, a.dl, level, b.w, b.dl);
  }

  lemma NestedMove(t: seq<Elem>, src: seq<byte>, limit: u32, level: nat, a: At) returns (b: At)
    requires level >= 2 && TableFrom(t, a.g, false) && StructOk(t, a.w) && !t[a.g].kind.Eoti? && a.d < limit
    requires a.d <= |src| && DecNested(t, a.g, a.w, src[a.d..], limit, a.d, a.dl, level).Ok?
    ensures GroupRead(t, src, limit, level, a, b) && b.d <= |src|
  {
    AtNested(t, a.g, a.w, src[a.d..], limit, a.d, a.dl, level);
    var one := DecGroup(t, a.g, a.w, src[a.d..], limit - a.d, a.dl, level);
    b := At(one.value.0, one.value.1, a.d + one.n, PayAt(t, a.g) + 1);
  }

  lemma {:induction false} NestedIsRead(t: seq<Elem>, src: seq<byte>, limit: u32, level: nat, run: seq<At>,
                                        w: seq<Slot>, n: nat)
    returns (all: seq<At>)
    requires level >= 2 && GroupsRead(t, src, limit, level, run)
    requires var a := run[|run|-1];
             && TableFrom(t, a.g, false) && StructOk(t, a.w)
             && DecNested(t, a.g, a.w, src[a.d..], limit, a.d, a.dl, level) == Ok(w, n)
    ensures GroupsRead(t, src, limit, level, all) && all[0] == run[0]
    ensures GroupsEnd(t, limit, all[|all|-1], w, n)
    decreases |t| - run[|run|-1].g
  {
    var a := run[|run|-1];
    all := run;
    if a.d < limit && !t[a.g].kind.Eoti? {
      var b := NestedMove(t, src, limit, level, a);
      NestedStep(t, src, limit, level, a, b);
      all := NestedIsRead(t, src, limit, level, run + [b], w, n);
    }
  }

  lemma {:induction false} ReadIsNested(t: seq<Elem>, src: seq<byte>, limit: u32, level: nat, run: seq<At>,
                                        w: seq<Slot>, n: nat, k: nat)
    requires level >= 2 && GroupsRead(t, src, limit, level, run) && k < |run|
    requires TableFrom(t, run[k].g, false) && StructOk(t, run[k].w)
    requires GroupsEnd(t, limit, run[|run|-1], w, n)
    ensures DecNested(t, run[k].g, run[k].w, src[run[k].d..], limit, run[k].d, run[k].dl, level) == Ok(w, n)
    decreases |run| - k
  {
    if k + 1 < |run| {
      NestedStep(t, src, limit, level, run[k], run[k+1]);
      ReadIsNested(t, src, limit, level, run, w, n, k + 1);
    }
  }

  /** A nested struct is accepted exactly when its groups are ahead one after the other, from the first entry of
      the table on, until the table ends or the length is used up. */
  lemma NestedAccepts(t: seq<Elem>, v: seq<Slot>, src: seq<byte>, limit: u32, level: nat, w: seq<Slot>, n: nat)
    requires level >= 2 && NestedOk(t) && StructOk(t, v)
    ensures DecNested(t, 0, v, src, limit, 0, 0, level) == Ok(w, n) <==>
            exists run: seq<At> ::
              && GroupsRead(t, src, limit, level, run) && run[0] == At(v, 0, 0, 0)
              && GroupsEnd(t, limit, run[|run|-1], w, n)
  {
    assert src[0..] == src;
    if DecNested(t, 0, v, src, limit, 0, 0, level) == Ok(w, n) {
      var run := NestedIsRead(t, src, limit, level, [At(v, 0, 0, 0)], w, n);
    }
    if run: seq<At> :| GroupsRead(t, src, limit, level, run) && run[0] == At(v, 0, 0, 0)
                       && GroupsEnd(t, limit, run[|run|-1], w, n) {
      ReadIsNested(t, src, limit, level, run, w, n, 0);
    }
  }

  // ----- Messages -----

  /** The entry g is the first of its type. */
  ghost predicate FirstOf(t: seq<Elem>, g: nat, tlvType: byte) {
    g + 1 < |t| && t[g].tlvType == tlvType && forall i :: 0 <= i < g ==> t[i].tlvType != tlvType
  }

  lemma {:induction false} FindIsFirst(t: seq<Elem>, g: nat, tlvType: byte)
    requires TableFrom(t, g, true)
    ensures var k := FindEi(t, g, tlvType);
            && (forall i :: g <= i < k && i + 1 < |t| ==> t[i].tlvType != tlvType)
            && (k < |t| ==> k + 1 < |t| && t[k].tlvType == tlvType)
    decreases |t| - g
  {
    if !t[g].kind.Eoti? && t[g].tlvType != tlvType {
      FindSkips(t, g, PayAt(t, g) + 1, tlvType);
      FindIsFirst(t, PayAt(t, g) + 1, tlvType);
    }
  }

  /** A TLV is ahead of a, and b is behind it: its type, its 16-bit length, and then the group the type stands
      for, or, if the table does not have the type, whatever it may be, provided the type is 16 or more. */
  ghost predicate TlvRead(t: seq<Elem>, src: seq<byte>, a: At, b: At) {
    && TableFrom(t, 0, true) && StructOk(t, a.w) && a.d + 3 <= |src| && a.d + 3 <= b.d
    && if exists g: nat :: FirstOf(t, g, src[a.d]) then
         && FirstOf(t, b.g, src[a.d]) && TableFrom(t, b.g, true) && !t[b.g].kind.Eoti?
         && DecGroup(t, b.g, a.w, src[a.d + 3..], Word(src, a.d + 1), a.dl, 1) == Ok((b.w, b.dl), b.d - a.d - 3)
       else src[a.d] >= 16 && b.w == a.w && b.dl == a.dl && b.d == a.d + 3 + Word(src, a.d + 1)
  }

  ghost predicate TlvsRead(t: seq<Elem>, src: seq<byte>, run: seq<At>) {
    && |run| > 0
    && forall i :: 0 <= i < |run| - 1 ==> run[i].d < |src| && TlvRead(t, src, run[i], run[i+1])
  }

  /** What is ahead of octet d. */
  function Rest(src: seq<byte>, d: nat): seq<byte> { if d <= |src| then src[d..] else [] }

  lemma FindExact(t: seq<Elem>, tlvType: byte, g: nat)
    requires TableFrom(t, 0, true)
    ensures FirstOf(t, g, tlvType) <==> g < |t| && FindEi(t, 0, tlvType) == g
    ensures FirstOf(t, g, tlvType) ==> TableFrom(t, g, true) && !t[g].kind.Eoti?
  {
    FindIsFirst(t, 0, tlvType);
    FindEiIsGroup(t, 0, tlvType);
  }

  lemma HeaderAhead(src: seq<byte>, d: nat)
    requires d + 3 <= |src|
    ensures |src[d..]| == |src| - d && src[d..][0] == src[d] && src[d..][3..] == src[d + 3..]
    ensures FromLe(src[d..][1..], 2) == Word(src, d + 1) < 65536
  {
    assert src[d..][1..][0] == src[d + 1] && src[d..][1..][1] == src[d + 2];
  }

  lemma KnownAhead(t: seq<Elem>, rest: seq<byte>, len: nat, limit: u32, d: nat, dl: u32, v: seq<Slot>, g: nat,
                   w: seq<Slot>, left: u32, m: nat)
    requires TableFrom(t, 0, true) && StructOk(t, v) && d < limit && HEADER <= |rest|
    requires FromLe(rest[1..], 2) == len < 65536
    requires g < |t| && TableFrom(t, g, true) && !t[g].kind.Eoti? && FindEi(t, 0, rest[0]) == g
    requires DecGroup(t, g, v, rest[3..], len, dl, 1) == Ok((w, left), m)
    ensures 3 + m <= |rest| && StructOk(t, w)
    ensures DecTop(t, v, rest, limit, d, dl) == DecTop(t, w, rest[3 + m..], limit, d + 3 + m, left)
  {
    AtKnown(t, v, g, rest, len, limit, d, dl);
  }

  lemma KnownStep(t: seq<Elem>, src: seq<byte>, d: nat, dl: u32, v: seq<Slot>, g: nat, w: seq<Slot>, left: u32,
                  end: nat)
    requires TableFrom(t, 0, true) && StructOk(t, v) && d + 3 <= |src| < 0x1_0000_0000 && d + 3 <= end
    requires g < |t| && TableFrom(t, g, true) && !t[g].kind.Eoti? && FindEi(t, 0, src[d]) == g
    requires DecGroup(t, g, v, src[d + 3..], Word(src, d + 1), dl, 1) == Ok((w, left), end - d - 3)
    ensures end <= |src| && StructOk(t, w)
    ensures DecTop(t, v, src[d..], |src|, d, dl) == DecTop(t, w, src[end..], |src|, end, left)
  {
    var rest, m := src[d..], end - d - 3;
    HeaderAhead(src, d);
    KnownAhead(t, rest, Word(src, d + 1), |src|, d, dl, v, g, w, left, m);
    Further(src, d, 3 + m);
  }

  lemma RestFurther(src: seq<byte>, d: nat, m: nat, end: nat)
    requires d <= |src| && end == d + m
    ensures Rest(src, end) == if m <= |src[d..]| then src[d..][m..] else []
  {
  }

  lemma AlienAhead(t: seq<Elem>, rest: seq<byte>, len: nat, limit: u32, d: nat, dl: u32, v: seq<Slot>)
    requires TableFrom(t, 0, true) && StructOk(t, v) && d < limit && HEADER <= |rest| && FromLe(rest[1..], 2) == len
    requires FindEi(t, 0, rest[0]) == |t| && rest[0] >= 16
    ensures DecTop(t, v, rest, limit, d, dl) ==
            DecTop(t, v, if 3 + len <= |rest| then rest[3 + len..] else [], limit, d + 3 + len, dl)
  {
    AtAlien(t, v, rest, len, limit, d, dl);
  }

  /** Types from 0x10 on are optional: of a type the table does not have, they are skipped with as many octets as
      the TLV says, and those up to 0x0f are refused, wherever in a message. */
  lemma UnknownTypes(t: seq<Elem>, v: seq<Slot>, src: seq<byte>, limit: u32, d: nat, dl: u32)
    requires TableFrom(t, 0, true) && StructOk(t, v) && d < limit && |src| >= 3
    requires forall i :: 0 <= i < |t| - 1 ==> t[i].tlvType != src[0]
    ensures src[0] <= 0x0f ==> DecTop(t, v, src, limit, d, dl) == Fail
    ensures src[0] >= 0x10 ==>
              var n := 3 + src[1] as int + 256 * src[2] as int;
              DecTop(t, v, src, limit, d, dl) == DecTop(t, v, Rest(src, n), limit, d + n, dl)
  {
    FindIsFirst(t, 0, src[0]);
    if src[0] >= 0x10 {
      AlienAhead(t, src, FromLe(src[1..], 2), limit, d, dl, v);
    }
  }

  lemma AlienStep(t: seq<Elem>, src: seq<byte>, d: nat, dl: u32, v: seq<Slot>, end: nat)
    requires TableFrom(t, 0, true) && StructOk(t, v) && d + 3 <= |src| < 0x1_0000_0000
    requires FindEi(t, 0, src[d]) == |t| && src[d] >= 16 && end == d + 3 + Word(src, d + 1)
    ensures DecTop(t, v, src[d..], |src|, d, dl) == DecTop(t, v, Rest(src, end), |src|, end, dl)
  {
    var rest, len := src[d..], Word(src, d + 1);
    HeaderAhead(src, d);
    AlienAhead(t, rest, len, |src|, d, dl, v);
    RestFurther(src, d, 3 + len, end);
  }

  lemma KnownTlv(t: seq<Elem>, src: seq<byte>, a: At, b: At)
    requires TlvRead(t, src, a, b) && |src| < 0x1_0000_0000 && exists g: nat :: FirstOf(t, g, src[a.d])
    ensures StructOk(t, b.w)
    ensures DecTop(t, a.w, src[a.d..], |src|, a.d, a.dl) == DecTop(t, b.w, Rest(src, b.d), |src|, b.d, b.dl)
  {
    FindExact(t, src[a.d], b.g);
    KnownStep(t, src, a.d, a.dl, a.w, b.g, b.w, b.dl, b.d);
  }

  lemma AlienTlv(t: seq<Elem>, src: seq<byte>, a: At, b: At)
    requires TlvRead(t, src, a, b) && |src| < 0x1_0000_0000 && !exists g: nat :: FirstOf(t, g, src[a.d])
    ensures StructOk(t, b.w)
    ensures DecTop(t, a.w, src[a.d..], |src|, a.d, a.dl) == DecTop(t, b.w, Rest(src, b.d), |src|, b.d, b.dl)
  {
    NoneFound(t, src[a.d]);
    AlienStep(t, src, a.d, a.dl, a.w, b.d);
  }

  lemma TlvStep(t: seq<Elem>, src: seq<byte>, a: At, b: At)
    requires TlvRead(t, src, a, b) && |src| < 0x1_0000_0000
    ensures StructOk(t, b.w)
    ensures DecTop(t, a.w, src[a.d..], |src|, a.d, a.dl) == DecTop(t, b.w, Rest(src, b.d), |src|, b.d, b.dl)
  {
    if exists g: nat :: FirstOf(t, g, src[a.d]) {
      KnownTlv(t, src, a, b);
    } else {
      AlienTlv(t, src, a, b);
    }
  }

  lemma NoneFound(t: seq<Elem>, tlvType: byte)
    requires TableFrom(t, 0, true)
    ensures (exists g: nat :: FirstOf(t, g, tlvType)) <==> FindEi(t, 0, tlvType) != |t|
  {
    if g: nat :| FirstOf(t, g, tlvType) {
      FindExact(t, tlvType, g);
    }
    if FindEi(t, 0, tlvType) < |t| {
      FindExact(t, tlvType, FindEi(t, 0, tlvType));
    }
  }

  lemma TlvMove(t: seq<Elem>, src: seq<byte>, a: At) returns (b: At)
    requires TableFrom(t, 0, true) && StructOk(t, a.w) && a.d < |src| < 0x1_0000_0000
    requires DecTop(t, a.w, src[a.d..], |src|, a.d, a.dl).Ok?
    ensures TlvRead(t, src, a, b)
  {
    TopAhead(t, src[a.d..], |src|, a.d, a.dl, a.w);
    HeaderAhead(src, a.d);
    NoneFound(t, src[a.d]);
    var g := FindEi(t, 0, src[a.d]);
    if g == |t| {
      b := At(a.w, a.dl, a.d + 3 + Word(src, a.d + 1), 0);
    } else {
      b := KnownMove(t, src, a, g);
    }
  }

  /** An accepted decoder has a header ahead of it, and an unknown type is an optional one. */
  lemma TopAhead(t: seq<Elem>, rest: seq<byte>, limit: u32, d: nat, dl: u32, v: seq<Slot>)
    requires TableFrom(t, 0, true) && StructOk(t, v) && d < limit && DecTop(t, v, rest, limit, d, dl).Ok?
    ensures HEADER <= |rest| && (FindEi(t, 0, rest[0]) == |t| ==> rest[0] >= 16)
  {
  }

  lemma KnownMove(t: seq<Elem>, src: seq<byte>, a: At, g: nat) returns (b: At)
    requires TableFrom(t, 0, true) && StructOk(t, a.w) && a.d + 3 <= |src| < 0x1_0000_0000
    requires DecTop(t, a.w, src[a.d..], |src|, a.d, a.dl).Ok? && g < |t| && FindEi(t, 0, src[a.d]) == g
    ensures TlvRead(t, src, a, b)
  {
    var len := Word(src, a.d + 1);
    HeaderAhead(src, a.d);
    FindExact(t, src[a.d], g);
    AtKnown(t, a.w, g, src[a.d..], len, |src|, a.d, a.dl);
    var one := DecGroup(t, g, a.w, src[a.d + 3..], len, a.dl, 1);
    b := At(one.value.0, one.value.1, a.d + 3 + one.n, g);
  }

  /** Decoding is over once all octets are consumed. */
  lemma TopEnd(t: seq<Elem>, rest: seq<byte>, limit: u32, d: nat, dl: u32, v: seq<Slot>)
    requires TableFrom(t, 0, true) && StructOk(t, v) && d >= limit
    ensures DecTop(t, v, rest, limit, d, dl) == Ok(v, d)
  {
  }

  lemma ReadMore(t: seq<Elem>, src: seq<byte>, run: seq<At>, b: At)
    requires TlvsRead(t, src, run) && run[|run|-1].d < |src| && TlvRead(t, src, run[|run|-1], b)
    ensures TlvsRead(t, src, run + [b])
  {
  }

  lemma {:induction false} TopIsRead(t: seq<Elem>, src: seq<byte>, run: seq<At>, w: seq<Slot>, n: nat)
    returns (all: seq<At>)
    requires TableFrom(t, 0, true) && |src| < 0x1_0000_0000 && TlvsRead(t, src, run) && StructOk(t, run[|run|-1].w)
    requires var a := run[|run|-1]; DecTop(t, a.w, Rest(src, a.d), |src|, a.d, a.dl) == Ok(w, n)
    ensures TlvsRead(t, src, all) && all[0] == run[0]
    ensures all[|all|-1].w == w && all[|all|-1].d == n >= |src|
    decreases if run[|run|-1].d < |src| then |src| - run[|run|-1].d else 0
  {
    var a := run[|run|-1];
    all := run;
    if a.d < |src| {
      var b := TlvMove(t, src, a);
      TlvStep(t, src, a, b);
      ReadMore(t, src, run, b);
      all := TopIsRead(t, src, run + [b], w, n);
    } else {
      TopEnd(t, Rest(src, a.d), |src|, a.d, a.dl, a.w);
    }
  }

  lemma RunStep(t: seq<Elem>, src: seq<byte>, run: seq<At>, k: nat, a: At, b: At)
    requires TlvsRead(t, src, run) && |src| < 0x1_0000_0000 && k + 1 < |run| && a == run[k] && b == run[k+1]
    ensures TableFrom(t, 0, true) && StructOk(t, a.w) && StructOk(t, b.w)
    ensures DecTop(t, a.w, Rest(src, a.d), |src|, a.d, a.dl) == DecTop(t, b.w, Rest(src, b.d), |src|, b.d, b.dl)
  {
    TlvStep(t, src, a, b);
  }

  lemma {:induction false} ReadIsTop(t: seq<Elem>, src: seq<byte>, run: seq<At>, k: nat)
    requires TableFrom(t, 0, true) && |src| < 0x1_0000_0000 && TlvsRead(t, src, run) && k < |run|
    requires StructOk(t, run[k].w) && run[|run|-1].d >= |src|
    ensures DecTop(t, run[k].w, Rest(src, run[k].d), |src|, run[k].d, run[k].dl) ==
            Ok(run[|run|-1].w, run[|run|-1].d)
    decreases |run| - k
  {
    if k + 1 < |run| {
      RunStep(t, src, run, k, run[k], run[k+1]);
      ReadIsTop(t, src, run, k + 1);
    } else {
      TopEnd(t, Rest(src, run[k].d), |src|, run[k].d, run[k].dl, run[k].w);
    }
  }

  /** Whatever the octets: they are accepted, and decode to w, exactly when they can be read TLV by TLV from a
      zeroed struct on until none is left. The last one may be unknown and claim more octets than there are. */
  lemma MessageAccepts(t: seq<Elem>, src: seq<byte>, w: seq<Slot>, n: nat)
    requires TableFrom(t, 0, true) && |src| < 0x1_0000_0000
    ensures Decode(t, src) == Ok(w, n) <==>
            exists run: seq<At> ::
              && TlvsRead(t, src, run) && run[0] == At(ZeroStruct(t), 0, 0, 0)
              && run[|run|-1].w == w && run[|run|-1].d == n >= |src|
  {
    ZeroStructOk(t, 0, true);
    assert Rest(src, 0) == src;
    if Decode(t, src) == Ok(w, n) {
      var run := TopIsRead(t, src, [At(ZeroStruct(t), 0, 0, 0)], w, n);
    }
    if run: seq<At> :| TlvsRead(t, src, run) && run[0] == At(ZeroStruct(t), 0, 0, 0)
                       && run[|run|-1].w == w && run[|run|-1].d == n >= |src| {
      ReadIsTop(t, src, run, 0);
    }
  }
}
