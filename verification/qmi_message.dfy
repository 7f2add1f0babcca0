/** lib/qmi.c: whole messages, a 7-octet header followed by the encoded struct. */
module QmiMessage {
  import opened Options
  import opened Qmi
  import opened QmiBuffer
  import opened QmiDecode
  import opened QmiDecoder
  import opened QmiRoom
  import opened QmiEncoder
  import opened QmiRoundTrip
  import opened QmiTlv
  import opened QmiTheorems
  import opened QmiMinimum

  const HDR: nat := 7
  const EMSGSIZE: int := -90

  /** struct qmi_header, packed: the low 8 or 16 bits of each field. */
  function Header(msgType: int, txn: int, id: int, len: nat): (s: seq<byte>)
    ensures |s| == HDR
  {
    [msgType % 256] + Low16(txn) + Low16(id) + Low16(len)
  }

  function Low16(n: int): (s: seq<byte>)
    ensures |s| == 2
  {
    Le(n % 65536, 2)
  }

  function Message(msgType: int, txn: int, id: int, payload: seq<byte>): seq<byte> {
    Header(msgType, txn, id, |payload|) + payload
  }

  /** qmi_decode_header: the message id. */
  function DecodeHeader(m: seq<byte>): Parse<nat> {
    if |m| < HDR then Overread
    else if FromLe(m[5..], 2) != |m| - HDR then Fail
    else Ok(FromLe(m[3..], 2), HDR)
  }

  /** qmi_decode_message into a zeroed struct: the struct and the transaction id. */
  function DecodeMessage(m: seq<byte>, msgType: int, id: int, t: seq<Elem>): Parse<(seq<Slot>, nat)>
    requires TableFrom(t, 0, true) && |m| < 0x1_0000_0000
  {
    if |m| == 0 then Fail
    else if |m| < HDR then Overread
    else if m[0] as int != msgType || FromLe(m[3..], 2) != id then Fail
    else
      var r := Decode(t, m[HDR..]);
      if r.Ok? then Ok((r.value, FromLe(m[1..], 2)), r.n) else if r.Fail? then Fail else Overread
  }

  lemma Low16Read(n: int, s: seq<byte>, i: nat)
    requires i + 2 <= |s| && s[i..i+2] == Low16(n)
    ensures FromLe(s[i..], 2) == n % 65536
  {
    assert s[i] == s[i..i+2][0] && s[i+1] == s[i..i+2][1];
  }

  lemma HeaderRead(msgType: int, txn: int, id: int, payload: seq<byte>)
    ensures var m := Message(msgType, txn, id, payload);
            && |m| == HDR + |payload| && m[HDR..] == payload && m[0] as int == msgType % 256
            && FromLe(m[1..], 2) == txn % 65536 && FromLe(m[3..], 2) == id % 65536
            && FromLe(m[5..], 2) == |payload| % 65536
  {
    var m := Message(msgType, txn, id, payload);
    Low16Read(txn, m, 1);
    Low16Read(id, m, 3);
    Low16Read(|payload|, m, 5);
  }

  lemma Low16Back(s: seq<byte>, i: nat)
    requires i + 2 <= |s|
    ensures FromLe(s[i..], 2) < 65536 && Low16(FromLe(s[i..], 2)) == s[i..i+2]
  {
    var n := FromLe(s[i..], 2);
    assert n == s[i] as int + 256 * s[i+1] as int;
  }

  /** Some message with this id, payload and transaction, of any type. */
  predicate IsMessage(m: seq<byte>, id: nat) {
    |m| >= HDR && exists msgType: byte, txn: nat | txn < 65536 :: m == Message(msgType, txn, id, m[HDR..])
  }

  /** Every message is the message of its own fields. */
  lemma FieldsBack(m: seq<byte>)
    requires |m| >= HDR && FromLe(m[5..], 2) == |m| - HDR
    ensures FromLe(m[1..], 2) < 65536 && FromLe(m[3..], 2) < 65536
    ensures m == Message(m[0], FromLe(m[1..], 2), FromLe(m[3..], 2), m[HDR..])
  {
    Low16Back(m, 1);
    Low16Back(m, 3);
    Low16Back(m, 5);
    assert m == [m[0]] + m[1..3] + m[3..5] + m[5..7] + m[HDR..];
  }

  /** The header is accepted exactly on messages whose payload fits its length field; the id is theirs. */
  lemma HeaderAccepts(m: seq<byte>, id: nat)
    requires id < 65536
    ensures DecodeHeader(m) == Ok(id, HDR) <==> IsMessage(m, id) && |m| - HDR < 65536
    ensures DecodeHeader(m).Ok? ==> DecodeHeader(m).value < 65536 && DecodeHeader(m).n == HDR
  {
    if DecodeHeader(m).Ok? {
      FieldsBack(m);
    }
    if IsMessage(m, id) && |m| - HDR < 65536 {
      var msgType: byte, txn: nat :| txn < 65536 && m == Message(msgType, txn, id, m[HDR..]);
      HeaderRead(msgType, txn, id, m[HDR..]);
    }
  }

  /** Where the fields of the header are: the type, and the transaction, the message id and the length of what
      follows, each with its low octet first. */
  lemma HeaderOctets(msgType: int, txn: int, id: int, payload: seq<byte>)
    requires 0 <= msgType < 256 && 0 <= txn < 65536 && 0 <= id < 65536 && |payload| < 65536
    ensures var m := Message(msgType, txn, id, payload);
            && |m| == 7 + |payload| && m[7..] == payload && m[0] as int == msgType
            && m[1] as int + 256 * m[2] as int == txn && m[3] as int + 256 * m[4] as int == id
            && m[5] as int + 256 * m[6] as int == |payload|
  {
    var m := Message(msgType, txn, id, payload);
    HeaderRead(msgType, txn, id, payload);
    assert FromLe(m[1..], 2) == m[1] as int + 256 * m[2] as int && FromLe(m[3..], 2) == m[3] as int + 256 * m[4] as int;
    assert FromLe(m[5..], 2) == m[5] as int + 256 * m[6] as int;
  }

  /** And where both decoders look for them: the header decoder for the length and the id, the message decoder
      for the type, the id and the transaction. */
  lemma MessageAhead(m: seq<byte>, msgType: int, id: int, t: seq<Elem>, w: seq<Slot>, txn: nat, n: nat)
    requires TableFrom(t, 0, true) && |m| < 0x1_0000_0000
    ensures DecodeHeader(m) == Ok(txn, n) <==>
            && |m| >= 7 && n == 7 && m[3] as int + 256 * m[4] as int == txn
            && m[5] as int + 256 * m[6] as int == |m| - 7
    ensures DecodeMessage(m, msgType, id, t) == Ok((w, txn), n) <==>
            && |m| >= 7 && m[0] as int == msgType && m[3] as int + 256 * m[4] as int == id
            && m[1] as int + 256 * m[2] as int == txn && Decode(t, m[7..]) == Ok(w, n)
  {
    if |m| >= 7 {
      assert FromLe(m[1..], 2) == m[1] as int + 256 * m[2] as int;
      assert FromLe(m[3..], 2) == m[3] as int + 256 * m[4] as int;
      assert FromLe(m[5..], 2) == m[5] as int + 256 * m[6] as int;
    }
  }

  lemma {:induction false} BodyIsPart(t: seq<Elem>, v: seq<Slot>, g0: nat, g: nat)
    requires Top(t, v) && TableFrom(t, g0, true) && Reaches(t, g0, g) && Present(t, v, g) && EncFrom(t, v, g0, true).ok
    ensures |Body(t, v, g, true).bytes| <= |EncFrom(t, v, g0, true).bytes|
    decreases |t| - g0
  {
    if g != g0 {
      BodyIsPart(t, v, PayAt(t, g0) + 1, g);
    }
  }

  /** Message round trip, at its full generality: an encoded message is accepted by both decoders
      with the same type, ids and struct, to the last octet, exactly when the type, the ids and the
      payload's length fit their header fields and the struct itself is kept. */
  lemma MessageRoundTrip(msgType: int, txn: int, id: int, t: seq<Elem>, v: seq<Slot>)
    requires Top(t, v) && EncFrom(t, v, 0, true).ok && |EncFrom(t, v, 0, true).bytes| + HDR < 0x1_0000_0000
    ensures var enc := EncFrom(t, v, 0, true).bytes;
            var m := Message(msgType, txn, id, enc);
            DecodeHeader(m) == Ok(id, HDR) && DecodeMessage(m, msgType, id, t) == Ok((Canon(t, v), txn), |enc|) <==>
            && 0 <= msgType < 256 && 0 <= txn < 65536 && 0 <= id < 65536 && |enc| < 65536
            && KeptFrom(t, v, 0, 0, true)
  {
    var enc := EncFrom(t, v, 0, true).bytes;
    HeaderRead(msgType, txn, id, enc);
    if |enc| < 65536 {
      ShortMessage(t, v);
      RoundTrip(t, v);
    }
  }

  lemma ShortMessage(t: seq<Elem>, v: seq<Slot>)
    requires Top(t, v) && EncFrom(t, v, 0, true).ok && |EncFrom(t, v, 0, true).bytes| < 65536
    ensures ShortBodies(t, v)
  {
    forall g | 0 <= g < |t| && Reaches(t, 0, g) && Present(t, v, g)
      ensures |Body(t, v, g, true).bytes| < 65536
    {
      BodyIsPart(t, v, 0, g);
    }
  }

  // ----- Packets -----

  /** The part of struct qrtr_packet the message functions use. */
  class Packet {
    const data: array<byte>
    var dataLen: nat

    constructor (data: array<byte>, dataLen: nat)
      ensures this.data == data && this.dataLen == dataLen
    {
      this.data := data;
      this.dataLen := dataLen;
    }

    ghost predicate Valid()
      reads this
    {
      dataLen <= data.Length < 0x7fff_fff0
    }
  }

  /** What goes after the header; nothing when there is no struct. */
  function Payload(t: seq<Elem>, c: Option<seq<Slot>>): Enc
    requires TableFrom(t, 0, true) && (c.Some? ==> StructOk(t, c.value))
  {
    if c.None? then Enc([], MinLen(t, 0, true) == 0) else EncFrom(t, c.value, 0, true)
  }

  lemma MessageInPlace(was: seq<byte>, mid: seq<byte>, now: seq<byte>, start: nat, header: seq<byte>,
                       payload: seq<byte>)
    requires start == 0 && header != [] && |header| + |payload| <= |was|
    requires mid == Splice(was, start + |header|, payload) && now == Splice(mid, start, header)
    ensures var n := |header| + |payload|; now[..n] == header + payload && now[n..] == was[n..]
  {
    PatchedIs(was, start, header, payload, mid, now);
    assert was[..start] == [];
  }

  /** How far the checks let the encoder get behind the header. */
  function TryMessage(t: seq<Elem>, c: Option<seq<Slot>>, room: u32): Trial
    requires TableFrom(t, 0, true) && (c.Some? ==> StructOk(t, c.value))
  {
    if c.None? then Trial(0, MinLen(t, 0, true) == 0) else TryFrom(t, c.value, 0, 0, room, true)
  }

  /** A message is accepted and stays inside the packet if and only if the struct is legal, or none is
      needed, and its message fits; without nested strings there is always room for it. */
  lemma MessageFits(t: seq<Elem>, c: Option<seq<Slot>>, room: u32)
    requires TableFrom(t, 0, true) && (c.Some? ==> StructOk(t, c.value))
    ensures var r, x := TryMessage(t, c, room), Payload(t, c);
            && (r.ok && r.size <= room <==> x.ok && |x.bytes| <= room)
            && (r.ok ==> x.ok && r.size == |x.bytes|)
            && (Guarded(t, true) ==> r.size <= room)
  {
    if c.Some? {
      RoomExact(t, c.value, room);
      if TryMessage(t, c, room).ok {
        Tried(t, c.value, 0, 0, room, true);
      }
    }
  }

  /** qmi_encode_message: succeeds exactly when there is room for the header and the encoder gets
      through its checks; it then writes the message and nothing after it. */
  method EncodeMessage(pkt: Packet, msgType: int, id: int, txn: int, c: Option<seq<Slot>>, t: seq<Elem>)
      returns (rc: int)
    requires pkt.Valid() && TableFrom(t, 0, true) && (c.Some? ==> StructOk(t, c.value))
    requires pkt.dataLen >= HDR ==> RoomFor(pkt.data[..], HDR, TryMessage(t, c, pkt.dataLen - HDR))
    modifies pkt, pkt.data
    ensures pkt.Valid()
    ensures rc >= 0 <==> old(pkt.dataLen) >= HDR && TryMessage(t, c, old(pkt.dataLen) - HDR).ok
    ensures rc >= 0 ==> rc == pkt.dataLen == HDR + |Payload(t, c).bytes|
                        && pkt.data[..rc] == Message(msgType, txn, id, Payload(t, c).bytes)
                        && pkt.data[rc..] == old(pkt.data[..])[rc..]
    ensures 0 <= rc <= old(pkt.dataLen) <==> Payload(t, c).ok && HDR + |Payload(t, c).bytes| <= old(pkt.dataLen)
    ensures Guarded(t, true) ==> rc <= old(pkt.dataLen)
    ensures rc < 0 ==> rc == (if old(pkt.dataLen) < HDR && (c.Some? || MinLen(t, 0, true) == 0) then -90
                              else -22)
                       && pkt.dataLen == old(pkt.dataLen)
                       && var r := if pkt.dataLen < HDR then 0 else TryMessage(t, c, pkt.dataLen - HDR).size;
                          Outside(old(pkt.data[..]), pkt.data[..], HDR, HDR + r)
  {
    if c.None? {
      var min := CalcMinMsgLen(t, true);
      if min != 0 {
        return EINVAL;
      }
    }
    if pkt.dataLen < HDR {
      return EMSGSIZE;
    }
    MessageFits(t, c, pkt.dataLen - HDR);
    rc := 0;
    if c.Some? {
      rc := Encode(t, pkt.data, HDR, c.value, pkt.dataLen - HDR, true);
      if rc < 0 {
        return;
      }
    }
    ghost var mid := pkt.data[..];
    Memcpy(pkt.data, 0, Header(msgType, txn, id, rc));
    MessageInPlace(old(pkt.data[..]), mid, pkt.data[..], 0, Header(msgType, txn, id, rc), Payload(t, c).bytes);
    pkt.dataLen := HDR + rc;
    rc := pkt.dataLen;
  }

  /** qmi_decode_header */
  method ReadHeader(pkt: Packet) returns (r: Parse<nat>)
    requires pkt.Valid()
    ensures r == DecodeHeader(pkt.data[..pkt.dataLen])
  {
    if pkt.dataLen < HDR {
      return Overread;
    }
    var m := pkt.data[..pkt.dataLen];
    if FromLe(m[5..], 2) != pkt.dataLen - HDR {
      return Fail;
    }
    return Ok(FromLe(m[3..], 2), HDR);
  }

  /** qmi_decode_message into a struct that was zeroed */
  method ReadMessage(pkt: Packet, msgType: int, id: int, t: seq<Elem>) returns (r: Parse<(seq<Slot>, nat)>)
    requires pkt.Valid() && TableFrom(t, 0, true)
    ensures r == DecodeMessage(pkt.data[..pkt.dataLen], msgType, id, t)
  {
    if pkt.dataLen == 0 {
      return Fail;
    }
    if pkt.dataLen < HDR {
      return Overread;
    }
    var m := pkt.data[..pkt.dataLen];
    if m[0] as int != msgType {
      return Fail;
    }
    if FromLe(m[3..], 2) != id {
      return Fail;
    }
    ZeroStructOk(t, 0, true);
    var one := DecodeStruct(t, ZeroStruct(t), m[HDR..], pkt.dataLen - HDR, 1);
    if one.Ok? {
      return Ok((one.value, FromLe(m[1..], 2)), one.n);
    }
    return if one.Fail? then Fail else Overread;
  }
}
