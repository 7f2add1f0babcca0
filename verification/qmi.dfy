/** lib/qmi.c: element tables, the C structs they describe, and what a struct encodes to. */
module Qmi {

  type byte = b: int | 0 <= b < 256
  type u32 = x: int | 0 <= x < 0x1_0000_0000

  /** enum qmi_elem_type; the seven integer types are coded alike and share `Basic`. */
  datatype Kind = Eoti | OptFlag | DataLen | Basic | Struct | String

  datatype ArrayType = NoArray | StaticArray | VarLenArray

  /** struct qmi_elem_info without its offset: slot i of a struct is the field of entry i. */
  datatype Elem = Elem(kind: Kind, elemLen: nat, elemSize: nat, arrayType: ArrayType, tlvType: byte, ei: seq<Elem>)

  /** A field: an optional flag, a 32-bit length, the bytes of an array of integers, an array of
      structs, or a character buffer. */
  datatype Slot =
    | Flag(flag: byte)
    | Len(n: u32)
    | Bytes(data: seq<byte>)
    | Structs(elems: seq<seq<Slot>>)
    | Chars(chars: seq<byte>)

  const HEADER: nat := 3
  const OPTIONAL_TLV_TYPE_START: nat := 0x10

  // ----- Well-formed tables: groups of [flag] [length] payload, closed by an end marker -----

  /** The entry after an optional flag. */
  function LenAt(t: seq<Elem>, g: nat): (l: nat)
    requires g < |t|
    ensures g <= l <= g + 1
  {
    if t[g].kind.OptFlag? then g + 1 else g
  }

  /** The payload entry of the group that starts at g. */
  function PayAt(t: seq<Elem>, g: nat): (p: nat)
    requires g < |t|
    ensures LenAt(t, g) <= p <= LenAt(t, g) + 1
  {
    var l := LenAt(t, g);
    if l < |t| && t[l].kind.DataLen? then l + 1 else l
  }

  predicate Counted(t: seq<Elem>, g: nat)
    requires g < |t|
  {
    PayAt(t, g) > LenAt(t, g)
  }

  function LenSize(e: Elem): nat { if e.elemSize == 1 then 1 else 2 }

  /** How many octets the count of a group takes. */
  function CountSize(t: seq<Elem>, g: nat): (n: nat)
    requires g < |t| && LenAt(t, g) < |t|
    ensures n <= 2
  {
    if Counted(t, g) then LenSize(t[LenAt(t, g)]) else 0
  }

  /** A nested string is preceded by one or two length octets. */
  function StrSize(e: Elem): nat { if e.elemLen <= 256 then 1 else 2 }

  predicate PayloadOk(e: Elem) {
    && (e.kind.Basic? || e.kind.Struct? || e.kind.String?)
    && 1 <= e.elemLen && 1 <= e.elemSize && e.elemLen * e.elemSize < 0x8000_0000
    && (e.kind.String? ==> e.elemSize == 1 && !e.arrayType.VarLenArray?)
  }

  /** The entries of one group; a length octet can count up to 255 elements, two up to 65535. */
  predicate GroupOk(t: seq<Elem>, g: nat)
    requires g < |t|
  {
    var l, p := LenAt(t, g), PayAt(t, g);
    && p + 1 < |t|
    && (g < l ==> t[g].arrayType.NoArray?)
    && (l < p ==>
          && t[l].arrayType.NoArray? && t[l].elemSize in {1, 2, 4}
          && t[p].elemLen < (if t[l].elemSize == 1 then 256 else 65536))
    && PayloadOk(t[p])
    && (Counted(t, g) <==> t[p].arrayType.VarLenArray?)
  }

  /** At the top level a group has one TLV type of its own; the skip loop stops at the next type. */
  predicate TypesOk(t: seq<Elem>, g: nat)
    requires g < |t| && GroupOk(t, g)
  {
    var p := PayAt(t, g);
    && (forall i :: g <= i <= p ==> t[i].tlvType == t[g].tlvType)
    && (forall i :: p < i < |t| - 1 ==> t[i].tlvType != t[g].tlvType)
    && (g < p ==> t[p+1].tlvType != t[g].tlvType)
  }

  predicate TableFrom(t: seq<Elem>, g: nat, top: bool)
    decreases t, |t| - g
  {
    && g < |t|
    && if t[g].kind.Eoti? then g == |t| - 1
       else
         && GroupOk(t, g)
         && (if top then TypesOk(t, g) else !t[g].kind.OptFlag?)
         && (t[PayAt(t, g)].kind.Struct? ==> NestedOk(t[PayAt(t, g)].ei))
         && TableFrom(t, PayAt(t, g) + 1, top)
  }

  /** The table of a nested struct: at least one element, no optional flags. */
  predicate NestedOk(t: seq<Elem>)
    decreases t, |t| + 1
  {
    TableFrom(t, 0, false) && !t[0].kind.Eoti?
  }

  /** The struct's memory has the shape the table says. */
  predicate SlotOk(e: Elem, s: Slot)
    decreases e, 0
  {
    match e.kind
    case Eoti => true
    case OptFlag => s.Flag?
    case DataLen => s.Len?
    case Basic => s.Bytes? && |s.data| == e.elemLen * e.elemSize
    case String => s.Chars?
    case Struct => s.Structs? && |s.elems| == e.elemLen && forall i :: 0 <= i < |s.elems| ==> StructOk(e.ei, s.elems[i])
  }

  predicate StructOk(t: seq<Elem>, v: seq<Slot>)
    decreases t, 1
  {
    |v| + 1 == |t| && forall i :: 0 <= i < |v| ==> SlotOk(t[i], v[i])
  }

  predicate AllOk(t: seq<Elem>, elems: seq<seq<Slot>>) { forall j :: 0 <= j < |elems| ==> StructOk(t, elems[j]) }

  lemma AllOkUpdate(t: seq<Elem>, elems: seq<seq<Slot>>, i: nat, w: seq<Slot>)
    requires AllOk(t, elems) && i < |elems| && StructOk(t, w)
    ensures AllOk(t, elems[i := w])
  {
  }

  // ----- Encoding -----

  /** The octets produced, and whether all of the struct was legal; if not, they stop where the
      encoder gives up. */
  datatype Enc = Enc(bytes: seq<byte>, ok: bool)

  function Then(a: Enc, b: Enc): Enc { if a.ok then Enc(a.bytes + b.bytes, b.ok) else a }

  /** A number in one or two little-endian octets. */
  function Le(n: nat, size: nat): (s: seq<byte>)
    ensures |s| == if size == 1 then 1 else 2
  {
    if size == 1 then [n % 256] else [n % 256, n / 256 % 256]
  }

  function FromLe(s: seq<byte>, size: nat): nat
    requires |s| >= if size == 1 then 1 else 2
  {
    var lo: int := s[0];
    if size == 1 then lo else var hi: int := s[1]; lo + 256 * hi
  }

  lemma FewerOctets(n: nat, m: nat, size: nat)
    requires n <= m
    ensures n * size <= m * size
  {
    assert n * size + (m - n) * size == m * size;
  }

  /** strlen */
  function StrLen(chars: seq<byte>): (n: nat)
    ensures n <= |chars|
  {
    if chars == [] || chars[0] == 0 then 0 else 1 + StrLen(chars[1..])
  }

  /** What `memcpy(&data_len_value, field, elem_size)` reads from a length field. */
  function ReadLen(e: Elem, n: u32): u32 {
    if e.elemSize == 1 then n % 256 else if e.elemSize == 2 then n % 65536 else n
  }

  /** The number of elements a group's payload has. */
  function CountAt(t: seq<Elem>, v: seq<Slot>, g: nat): nat
    requires g < |t| && !t[g].kind.Eoti? && GroupOk(t, g) && StructOk(t, v)
  {
    var l, p := LenAt(t, g), PayAt(t, g);
    if l < p then assert SlotOk(t[l], v[l]); ReadLen(t[l], v[l].n)
    else if t[p].arrayType.StaticArray? then t[p].elemLen
    else 1
  }

  predicate Present(t: seq<Elem>, v: seq<Slot>, g: nat)
    requires g < |t| && g < |v| && SlotOk(t[g], v[g])
  {
    t[g].kind.OptFlag? ==> v[g].flag != 0
  }

  /** Elements i to n - 1 of an array of structs. */
  function EncStructs(e: Elem, elems: seq<seq<Slot>>, i: nat, n: nat): Enc
    requires i <= n <= |elems| && NestedOk(e.ei) && AllOk(e.ei, elems)
    decreases e, n - i
  {
    if i == n then Enc([], true) else Then(EncFrom(e.ei, elems[i], 0, false), EncStructs(e, elems, i + 1, n))
  }

  function EncPayload(e: Elem, s: Slot, n: nat, top: bool): Enc
    requires PayloadOk(e) && SlotOk(e, s) && n <= e.elemLen && (e.kind.Struct? ==> NestedOk(e.ei))
    decreases e, n + 1
  {
    if e.kind.Basic? then
      FewerOctets(n, e.elemLen, e.elemSize);
      Enc(s.data[..n * e.elemSize], true)
    else if e.kind.Struct? then EncStructs(e, s.elems, 0, n)
    else
      var len := StrLen(s.chars);
      if len > e.elemLen then Enc([], false)
      else Enc((if top then [] else Le(len, StrSize(e))) + s.chars[..len], true)
  }

  /** The octets of a present group without a TLV header. */
  function Body(t: seq<Elem>, v: seq<Slot>, g: nat, top: bool): Enc
    requires TableFrom(t, g, top) && !t[g].kind.Eoti? && StructOk(t, v)
    decreases t, |t| - g, 0
  {
    var l, p := LenAt(t, g), PayAt(t, g);
    var n := CountAt(t, v, g);
    if l == p then EncPayload(t[p], v[p], n, top)
    else
      var count := Le(n, LenSize(t[l]));
      if n == 0 then Enc(count, true)
      else if n > t[p].elemLen then Enc(count, false)
      else Then(Enc(count, true), EncPayload(t[p], v[p], n, top))
  }

  function Tlv(tlvType: byte, body: seq<byte>): seq<byte> { [tlvType] + Le(|body|, 2) + body }

  function Framed(t: seq<Elem>, v: seq<Slot>, g: nat, top: bool): Enc
    requires TableFrom(t, g, top) && !t[g].kind.Eoti? && StructOk(t, v)
    decreases t, |t| - g, 1
  {
    var b := Body(t, v, g, top);
    if top then Enc(Tlv(t[g].tlvType, b.bytes), b.ok) else b
  }

  /** The encoding of the groups from g on. */
  function EncFrom(t: seq<Elem>, v: seq<Slot>, g: nat, top: bool): Enc
    requires TableFrom(t, g, top) && StructOk(t, v)
    decreases t, |t| - g, 2
  {
    if t[g].kind.Eoti? then Enc([], true)
    else if !Present(t, v, g) then EncFrom(t, v, PayAt(t, g) + 1, top)
    else Then(Framed(t, v, g, top), EncFrom(t, v, PayAt(t, g) + 1, top))
  }
}
