/** Which octets a struct encodes to, in closed form: what stands for each group of the table, payload by
    payload, and which structs are legal, read off the fields. */
module QmiWire {
  import opened Qmi
  import QmiMinimum

  /** z characters come before the terminator, or before the end of the buffer. */
  ghost predicate Terminated(chars: seq<byte>, z: nat) {
    z <= |chars| && (z == |chars| || chars[z] == 0) && forall i :: 0 <= i < z ==> chars[i] != 0
  }

  lemma {:induction false} StrLenIs(chars: seq<byte>, z: nat)
    ensures Terminated(chars, z) <==> z == StrLen(chars)
    decreases |chars|
  {
    if chars != [] && chars[0] != 0 {
      if z > 0 {
        StrLenIs(chars[1..], z - 1);
        assert Terminated(chars, z) <==> Terminated(chars[1..], z - 1) by {
          TerminatedRest(chars, z);
        }
      }
    }
  }

  lemma TerminatedRest(chars: seq<byte>, z: nat)
    requires chars != [] && chars[0] != 0 && z > 0
    ensures Terminated(chars, z) <==> Terminated(chars[1..], z - 1)
  {
    if Terminated(chars[1..], z - 1) {
      forall i | 0 <= i < z
        ensures chars[i] != 0
      {
        assert i > 0 ==> chars[i] == chars[1..][i-1];
      }
    }
  }

  /** A string is legal up to its declared length. Its characters follow their number, in one octet if the field
      has room for 256 or fewer and in two otherwise; at the top level they stand alone. */
  ghost predicate StringOctets(e: Elem, chars: seq<byte>, top: bool, y: seq<byte>) {
    exists z: nat ::
      && Terminated(chars, z) && z <= e.elemLen
      && y == (if top then [] else if e.elemLen <= 256 then [z % 256] else [z % 256, z / 256 % 256]) + chars[..z]
  }

  /** The parts one after the other. */
  function Joined(parts: seq<seq<byte>>): seq<byte> {
    if parts == [] then [] else parts[0] + Joined(parts[1..])
  }

  /** Element j of an array of structs takes parts[j], legal by itself. */
  ghost predicate ElementOctets(e: Elem, elems: seq<seq<Slot>>, n: nat, parts: seq<seq<byte>>)
    requires n <= |elems| && NestedOk(e.ei) && AllOk(e.ei, elems)
  {
    |parts| == n && forall j :: 0 <= j < n ==> EncFrom(e.ei, elems[j], 0, false) == Enc(parts[j], true)
  }

  /** The first n integers of an array, a string, or the first n structs of an array. */
  ghost predicate PayloadOctets(e: Elem, s: Slot, n: nat, top: bool, y: seq<byte>)
    requires PayloadOk(e) && SlotOk(e, s) && n <= e.elemLen && (e.kind.Struct? ==> NestedOk(e.ei))
  {
    if e.kind.Basic? then |y| == n * e.elemSize <= |s.data| && forall i :: 0 <= i < |y| ==> y[i] == s.data[i]
    else if e.kind.Struct? then
      exists parts: seq<seq<byte>> :: ElementOctets(e, s.elems, n, parts) && y == Joined(parts)
    else StringOctets(e, s.chars, top, y)
  }

  lemma {:induction false} PartsAreStructs(e: Elem, elems: seq<seq<Slot>>, n: nat, parts: seq<seq<byte>>, i: nat)
    requires i <= n <= |elems| && NestedOk(e.ei) && AllOk(e.ei, elems) && ElementOctets(e, elems, n, parts)
    ensures EncStructs(e, elems, i, n) == Enc(Joined(parts[i..]), true)
    decreases n - i
  {
    if i < n {
      PartsAreStructs(e, elems, n, parts, i + 1);
      assert parts[i..][1..] == parts[i+1..];
    }
  }

  lemma {:induction false} StructsHaveParts(e: Elem, elems: seq<seq<Slot>>, i: nat, n: nat)
    returns (parts: seq<seq<byte>>)
    requires i <= n <= |elems| && NestedOk(e.ei) && AllOk(e.ei, elems) && EncStructs(e, elems, i, n).ok
    ensures |parts| == n - i
    ensures forall j :: i <= j < n ==> EncFrom(e.ei, elems[j], 0, false) == Enc(parts[j-i], true)
    decreases n - i
  {
    parts := [];
    if i < n {
      var rest := StructsHaveParts(e, elems, i + 1, n);
      parts := [EncFrom(e.ei, elems[i], 0, false).bytes] + rest;
      assert EncStructs(e, elems, i, n) == Then(EncFrom(e.ei, elems[i], 0, false), EncStructs(e, elems, i + 1, n));
    }
  }

  lemma StructsExact(e: Elem, elems: seq<seq<Slot>>, n: nat, y: seq<byte>)
    requires n <= |elems| && NestedOk(e.ei) && AllOk(e.ei, elems)
    ensures EncStructs(e, elems, 0, n) == Enc(y, true) <==>
            exists parts: seq<seq<byte>> :: ElementOctets(e, elems, n, parts) && y == Joined(parts)
  {
    if EncStructs(e, elems, 0, n).ok {
      var parts := StructsHaveParts(e, elems, 0, n);
      assert ElementOctets(e, elems, n, parts) && parts[0..] == parts;
      PartsAreStructs(e, elems, n, parts, 0);
    }
    if parts: seq<seq<byte>> :| ElementOctets(e, elems, n, parts) && y == Joined(parts) {
      PartsAreStructs(e, elems, n, parts, 0);
      assert parts[0..] == parts;
    }
  }

  lemma StringExact(e: Elem, chars: seq<byte>, top: bool, y: seq<byte>)
    requires PayloadOk(e) && e.kind.String?
    ensures EncPayload(e, Chars(chars), 1, top) == Enc(y, true) <==> StringOctets(e, chars, top, y)
  {
    StrLenIs(chars, StrLen(chars));
    forall z: nat
      ensures Terminated(chars, z) ==> z == StrLen(chars)
    {
      StrLenIs(chars, z);
    }
  }

  lemma IntegersExact(data: seq<byte>, n: nat, y: seq<byte>)
    requires n <= |data|
    ensures y == data[..n] <==> |y| == n && forall i :: 0 <= i < |y| ==> y[i] == data[i]
  {
  }

  lemma PayloadExact(e: Elem, s: Slot, n: nat, top: bool, y: seq<byte>)
    requires PayloadOk(e) && SlotOk(e, s) && n <= e.elemLen && (e.kind.Struct? ==> NestedOk(e.ei))
    ensures EncPayload(e, s, n, top) == Enc(y, true) <==> PayloadOctets(e, s, n, top, y)
  {
    if e.kind.Basic? {
      FewerOctets(n, e.elemLen, e.elemSize);
      IntegersExact(s.data, n * e.elemSize, y);
    } else if e.kind.Struct? {
      StructsExact(e, s.elems, n, y);
    } else {
      StringExact(e, s.chars, top, y);
      assert s == Chars(s.chars) && EncPayload(e, s, n, top) == EncPayload(e, s, 1, top);
    }
  }

  // ----- Groups -----

  /** How many elements a group has: what its length field says in one, two or four octets, all of a static array,
      or one. */
  function Elements(t: seq<Elem>, v: seq<Slot>, l: nat, p: nat): int
    requires l <= p < |t| == |v| + 1 && (l < p ==> v[l].Len?)
  {
    if l < p then
      if t[l].elemSize == 1 then v[l].n % 256 else if t[l].elemSize == 2 then v[l].n % 65536 else v[l].n
    else if t[p].arrayType.StaticArray? then t[p].elemLen
    else 1
  }

  /** A group is legal if it has no more elements than declared and its payload is legal. Its elements follow their
      number, if they are counted, in one octet or two; of no elements only the number is there. */
  ghost predicate GroupOctets(t: seq<Elem>, v: seq<Slot>, g: nat, top: bool, x: seq<byte>)
    requires TableFrom(t, g, top) && !t[g].kind.Eoti? && StructOk(t, v)
  {
    var l := if t[g].kind.OptFlag? then g + 1 else g;
    var p := if t[l].kind.DataLen? then l + 1 else l;
    assert SlotOk(t[l], v[l]) && SlotOk(t[p], v[p]);
    var n := Elements(t, v, l, p);
    n <= t[p].elemLen && exists y ::
      && (if l < p && n == 0 then y == [] else PayloadOctets(t[p], v[p], n, top, y))
      && x == CountOctets(t, l, p, n) + y
  }

  function CountOctets(t: seq<Elem>, l: nat, p: nat, n: int): seq<byte>
    requires l <= p < |t|
  {
    if l == p then [] else if t[l].elemSize == 1 then [n % 256] else [n % 256, n / 256 % 256]
  }

  lemma ElementsAre(t: seq<Elem>, v: seq<Slot>, g: nat, top: bool)
    requires TableFrom(t, g, top) && !t[g].kind.Eoti? && StructOk(t, v)
    ensures var l := if t[g].kind.OptFlag? then g + 1 else g;
            var p := if t[l].kind.DataLen? then l + 1 else l;
            && l == LenAt(t, g) && p == PayAt(t, g) && SlotOk(t[p], v[p]) && (l < p ==> v[l].Len?)
            && Elements(t, v, l, p) == CountAt(t, v, g)
            && CountOctets(t, l, p, CountAt(t, v, g)) ==
               if Counted(t, g) then Le(CountAt(t, v, g), LenSize(t[l])) else []
  {
    assert SlotOk(t[LenAt(t, g)], v[LenAt(t, g)]) && SlotOk(t[PayAt(t, g)], v[PayAt(t, g)]);
  }

  /** The group in one equation, its payload named. */
  lemma BodyWith(t: seq<Elem>, v: seq<Slot>, g: nat, top: bool, n: nat, b: Enc, head: seq<byte>)
    requires TableFrom(t, g, top) && !t[g].kind.Eoti? && StructOk(t, v) && n == CountAt(t, v, g)
    requires SlotOk(t[PayAt(t, g)], v[PayAt(t, g)])
    requires head == if Counted(t, g) then Le(n, LenSize(t[LenAt(t, g)])) else []
    requires n <= t[PayAt(t, g)].elemLen ==> b == EncPayload(t[PayAt(t, g)], v[PayAt(t, g)], n, top)
    ensures n > t[PayAt(t, g)].elemLen ==> !Body(t, v, g, top).ok
    ensures n <= t[PayAt(t, g)].elemLen ==>
              Body(t, v, g, top) == if Counted(t, g) && n == 0 then Enc(head, true) else Then(Enc(head, true), b)
  {
    if !Counted(t, g) {
      assert [] + b.bytes == b.bytes;
    }
  }

  lemma BodyExact(t: seq<Elem>, v: seq<Slot>, g: nat, top: bool, x: seq<byte>)
    requires TableFrom(t, g, top) && !t[g].kind.Eoti? && StructOk(t, v)
    ensures Body(t, v, g, top) == Enc(x, true) <==> GroupOctets(t, v, g, top, x)
  {
    ElementsAre(t, v, g, top);
    var l, p, n := LenAt(t, g), PayAt(t, g), CountAt(t, v, g);
    var head := CountOctets(t, l, p, n);
    if n > t[p].elemLen {
      BodyWith(t, v, g, top, n, Enc([], false), head);
    } else {
      var b := EncPayload(t[p], v[p], n, top);
      BodyWith(t, v, g, top, n, b, head);
      PayloadsExact(t[p], v[p], n, top, b);
      if Body(t, v, g, top) == Enc(x, true) {
        var y := if l < p && n == 0 then [] else b.bytes;
        assert x == head + y;
      }
    }
  }

  lemma PayloadsExact(e: Elem, s: Slot, n: nat, top: bool, b: Enc)
    requires PayloadOk(e) && SlotOk(e, s) && n <= e.elemLen && (e.kind.Struct? ==> NestedOk(e.ei))
    requires b == EncPayload(e, s, n, top)
    ensures forall y :: PayloadOctets(e, s, n, top, y) <==> b == Enc(y, true)
  {
    forall y
      ensures PayloadOctets(e, s, n, top, y) <==> b == Enc(y, true)
    {
      PayloadExact(e, s, n, top, y);
    }
  }

  // ----- Structs -----

  /** The groups of the table from g on: each starts behind the payload of the one before. */
  ghost predicate Starts(t: seq<Elem>, g: nat, gs: seq<nat>) {
    && |gs| > 0 && gs[0] == g && gs[|gs|-1] + 1 == |t|
    && forall j :: 0 <= j < |gs| - 1 ==> gs[j] + 1 < |t| && gs[j+1] == Behind(t, gs[j])
  }

  function Behind(t: seq<Elem>, g: nat): nat
    requires g + 1 < |t|
  {
    var l := if t[g].kind.OptFlag? then g + 1 else g;
    if t[l].kind.DataLen? then l + 2 else l + 1
  }

  /** An optional group whose flag is 0 takes no octets. Any other is its body, at the top level behind its type
      and the 16-bit length of the body. */
  ghost predicate GroupPart(t: seq<Elem>, v: seq<Slot>, g: nat, top: bool, x: seq<byte>)
    requires TableFrom(t, g, top) && !t[g].kind.Eoti? && StructOk(t, v)
  {
    assert SlotOk(t[g], v[g]);
    if t[g].kind.OptFlag? && v[g].flag == 0 then x == []
    else
      exists y ::
        GroupOctets(t, v, g, top, y)
        && x == (if top then [t[g].tlvType, |y| % 256, |y| / 256 % 256] else []) + y
  }

  /** parts[j] stands for group gs[j]. */
  ghost predicate StructParts(t: seq<Elem>, v: seq<Slot>, top: bool, gs: seq<nat>, parts: seq<seq<byte>>)
    requires StructOk(t, v)
  {
    && |gs| == |parts| + 1
    && forall j :: 0 <= j < |parts| ==>
         && gs[j] < |t| && TableFrom(t, gs[j], top) && !t[gs[j]].kind.Eoti?
         && GroupPart(t, v, gs[j], top, parts[j])
  }

  /** What stands for one group, and what for the groups behind it. */
  lemma PartExact(t: seq<Elem>, v: seq<Slot>, g: nat, top: bool, one: Enc, rest: Enc)
    requires TableFrom(t, g, top) && !t[g].kind.Eoti? && StructOk(t, v) && SlotOk(t[g], v[g])
    requires one == if Present(t, v, g) then Framed(t, v, g, top) else Enc([], true)
    requires rest == EncFrom(t, v, PayAt(t, g) + 1, top)
    ensures Behind(t, g) == PayAt(t, g) + 1 && TableFrom(t, PayAt(t, g) + 1, top)
    ensures EncFrom(t, v, g, top) == Then(one, rest)
    ensures forall x :: GroupPart(t, v, g, top, x) <==> one == Enc(x, true)
  {
    if Present(t, v, g) {
      FramedExact(t, v, g, top, one);
    } else {
      assert [] + rest.bytes == rest.bytes;
    }
  }

  lemma FramedExact(t: seq<Elem>, v: seq<Slot>, g: nat, top: bool, one: Enc)
    requires TableFrom(t, g, top) && !t[g].kind.Eoti? && StructOk(t, v) && SlotOk(t[g], v[g])
    requires (t[g].kind.OptFlag? ==> v[g].flag != 0) && one == Framed(t, v, g, top)
    ensures forall x :: GroupPart(t, v, g, top, x) <==> one == Enc(x, true)
  {
    var b := Body(t, v, g, top);
    forall y
      ensures GroupOctets(t, v, g, top, y) <==> b == Enc(y, true)
    {
      BodyExact(t, v, g, top, y);
    }
    var head := if top then [t[g].tlvType, |b.bytes| % 256, |b.bytes| / 256 % 256] else [];
    assert one == Enc(head + b.bytes, b.ok);
    if b.ok {
      assert GroupOctets(t, v, g, top, b.bytes);
    }
  }

  lemma {:induction false} EncodingHasParts(t: seq<Elem>, v: seq<Slot>, g: nat, top: bool)
    returns (gs: seq<nat>, parts: seq<seq<byte>>)
    requires TableFrom(t, g, top) && StructOk(t, v) && EncFrom(t, v, g, top).ok
    ensures Starts(t, g, gs) && StructParts(t, v, top, gs, parts) && EncFrom(t, v, g, top).bytes == Joined(parts)
    decreases |t| - g
  {
    gs, parts := [g], [];
    if !t[g].kind.Eoti? {
      var next := PayAt(t, g) + 1;
      assert SlotOk(t[g], v[g]);
      var one := if Present(t, v, g) then Framed(t, v, g, top) else Enc([], true);
      PartExact(t, v, g, top, one, EncFrom(t, v, next, top));
      var more, rest := EncodingHasParts(t, v, next, top);
      gs, parts := [g] + more, [one.bytes] + rest;
      PartsMore(t, v, g, top, more, rest, one.bytes);
    }
  }

  lemma PartsMore(t: seq<Elem>, v: seq<Slot>, g: nat, top: bool, more: seq<nat>, rest: seq<seq<byte>>, x: seq<byte>)
    requires TableFrom(t, g, top) && !t[g].kind.Eoti? && StructOk(t, v) && GroupPart(t, v, g, top, x)
    requires g + 1 < |t| && Starts(t, Behind(t, g), more) && StructParts(t, v, top, more, rest)
    ensures Starts(t, g, [g] + more) && StructParts(t, v, top, [g] + more, [x] + rest)
    ensures Joined([x] + rest) == x + Joined(rest)
  {
    assert ([x] + rest)[1..] == rest;
    var gs := [g] + more;
    forall j | 0 <= j < |gs| - 1
      ensures gs[j] + 1 < |t| && gs[j+1] == Behind(t, gs[j])
    {
      if j > 0 {
        assert gs[j] == more[j-1] && gs[j+1] == more[j];
      }
    }
  }

  lemma PartsRest(t: seq<Elem>, v: seq<Slot>, g: nat, top: bool, gs: seq<nat>, parts: seq<seq<byte>>)
    requires TableFrom(t, g, top) && !t[g].kind.Eoti? && StructOk(t, v) && parts != []
    requires Starts(t, g, gs) && StructParts(t, v, top, gs, parts)
    ensures Starts(t, Behind(t, g), gs[1..]) && StructParts(t, v, top, gs[1..], parts[1..])
    ensures GroupPart(t, v, g, top, parts[0])
  {
  }

  lemma {:induction false} PartsAreEncoding(t: seq<Elem>, v: seq<Slot>, g: nat, top: bool, gs: seq<nat>,
                                           parts: seq<seq<byte>>)
    requires TableFrom(t, g, top) && StructOk(t, v) && Starts(t, g, gs) && StructParts(t, v, top, gs, parts)
    ensures EncFrom(t, v, g, top) == Enc(Joined(parts), true)
    decreases |parts|
  {
    if parts != [] {
      var next := PayAt(t, g) + 1;
      assert SlotOk(t[g], v[g]);
      var one := if Present(t, v, g) then Framed(t, v, g, top) else Enc([], true);
      PartExact(t, v, g, top, one, EncFrom(t, v, next, top));
      PartsRest(t, v, g, top, gs, parts);
      PartsAreEncoding(t, v, next, top, gs[1..], parts[1..]);
    }
  }

  /** For every table and struct, at the top level and below it: the struct is legal, and these octets are what it
      encodes to, exactly when they are what stands for its groups, one after the other in table order. */
  lemma EncodingExact(t: seq<Elem>, v: seq<Slot>, top: bool, bytes: seq<byte>)
    requires TableFrom(t, 0, top) && StructOk(t, v)
    ensures EncFrom(t, v, 0, top) == Enc(bytes, true) <==>
            exists gs, parts :: Starts(t, 0, gs) && StructParts(t, v, top, gs, parts) && bytes == Joined(parts)
  {
    if EncFrom(t, v, 0, top) == Enc(bytes, true) {
      var gs, parts := EncodingHasParts(t, v, 0, top);
    }
    if gs, parts :| Starts(t, 0, gs) && StructParts(t, v, top, gs, parts) && bytes == Joined(parts) {
      PartsAreEncoding(t, v, 0, top, gs, parts);
    }
  }

  // ----- The calculated minimum -----

  function Sum(ns: seq<nat>): nat { if ns == [] then 0 else ns[0] + Sum(ns[1..]) }

  /** What is counted for a group: nothing if it is optional; otherwise its header at the top level, its count
      octets, and of its payload an array of integers at its longest, a string at its longest with its length
      octets below the top level, and of structs what is counted for one of them. */
  ghost predicate GroupMinimum(t: seq<Elem>, g: nat, top: bool, n: nat)
    requires TableFrom(t, g, top) && !t[g].kind.Eoti?
  {
    if t[g].kind.OptFlag? then n == 0
    else
      var p := if t[g].kind.DataLen? then g + 1 else g;
      assert p == PayAt(t, g);
      var e := t[p];
      var front := (if top then 3 else 0) + if p == g then 0 else if t[g].elemSize == 1 then 1 else 2;
      if e.kind.Struct? then assert NestedOk(e.ei); n == front + QmiMinimum.MinLen(e.ei, 0, false)
      else if e.kind.String? then
        n == front + e.elemLen * e.elemSize + if top then 0 else if e.elemLen <= 256 then 1 else 2
      else n == front + e.elemLen * e.elemSize
  }

  /** The calculated length is the sum of what is counted for the groups. */
  lemma {:induction false} MinimumSums(t: seq<Elem>, g: nat, top: bool, gs: seq<nat>, ns: seq<nat>)
    requires TableFrom(t, g, top) && Starts(t, g, gs) && |gs| == |ns| + 1
    requires forall j :: 0 <= j < |ns| ==>
               gs[j] < |t| && TableFrom(t, gs[j], top) && !t[gs[j]].kind.Eoti? && GroupMinimum(t, gs[j], top, ns[j])
    ensures QmiMinimum.MinLen(t, g, top) == Sum(ns)
    decreases |ns|
  {
    if ns != [] {
      MinimumSums(t, PayAt(t, g) + 1, top, gs[1..], ns[1..]);
    }
  }
}
