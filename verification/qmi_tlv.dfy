/** The top level of a QMI message: TLVs in any order, with unknown optional ones in between, and
    exactly when the decoder rebuilds the struct from them. */
module QmiTlv {
  import opened Qmi
  import opened QmiDecode
  import opened QmiRoundTrip

  // ----- Groups of a top-level table -----

  /** g is the start of one of the groups from g0 on. */
  predicate Reaches(t: seq<Elem>, g0: nat, g: nat): (b: bool)
    requires TableFrom(t, g0, true)
    ensures b ==> g0 <= g < |t| && TableFrom(t, g, true) && !t[g].kind.Eoti?
    ensures b && g != g0 ==> g > PayAt(t, g0)
    decreases |t| - g0
  {
    !t[g0].kind.Eoti? && (g == g0 || Reaches(t, PayAt(t, g0) + 1, g))
  }

  /** Different groups occupy different slots. */
  lemma {:induction false} GroupsApart(t: seq<Elem>, g0: nat, g: nat, h: nat)
    requires TableFrom(t, g0, true) && Reaches(t, g0, g) && Reaches(t, g0, h) && g < h
    ensures h < |t| && PayAt(t, g) < h
    decreases |t| - g0
  {
    if g != g0 {
      GroupsApart(t, PayAt(t, g0) + 1, g, h);
    }
  }

  /** Looking a group's type up finds the group. */
  lemma {:induction false} FindsGroup(t: seq<Elem>, g0: nat, g: nat)
    requires TableFrom(t, g0, true) && Reaches(t, g0, g)
    ensures g < |t| && FindEi(t, g0, t[g].tlvType) == g
    decreases |t| - g0
  {
    if g != g0 {
      FindSkips(t, g0, PayAt(t, g0) + 1, t[g].tlvType);
      FindsGroup(t, PayAt(t, g0) + 1, g);
    }
  }

  // ----- Messages as sequences of TLVs -----

  /** The TLV of the group at g, or one of a type the table does not know. */
  datatype Piece = Known(g: nat) | Alien(tlvType: byte, data: seq<byte>)

  predicate Top(t: seq<Elem>, v: seq<Slot>) { TableFrom(t, 0, true) && StructOk(t, v) }

  /** A TLV whose payload a 16-bit length can describe; unknown types must be optional ones. */
  predicate PieceOk(t: seq<Elem>, v: seq<Slot>, x: Piece)
    requires Top(t, v)
  {
    match x
    case Known(g) =>
      Reaches(t, 0, g) && Present(t, v, g) && Body(t, v, g, true).ok && |Body(t, v, g, true).bytes| < 65536
    case Alien(tlvType, data) => tlvType >= OPTIONAL_TLV_TYPE_START && FindEi(t, 0, tlvType) == |t| && |data| < 65536
  }

  function PieceType(t: seq<Elem>, v: seq<Slot>, x: Piece): byte
    requires Top(t, v) && PieceOk(t, v, x)
  {
    match x
    case Known(g) => t[g].tlvType
    case Alien(tlvType, _) => tlvType
  }

  function PieceBody(t: seq<Elem>, v: seq<Slot>, x: Piece): (b: seq<byte>)
    requires Top(t, v) && PieceOk(t, v, x)
    ensures |b| < 65536
  {
    match x
    case Known(g) => Body(t, v, g, true).bytes
    case Alien(_, data) => data
  }

  predicate AllPieces(t: seq<Elem>, v: seq<Slot>, ps: seq<Piece>)
    requires Top(t, v)
  {
    forall i :: 0 <= i < |ps| ==> PieceOk(t, v, ps[i])
  }

  /** The message. */
  function Cat(t: seq<Elem>, v: seq<Slot>, ps: seq<Piece>): seq<byte>
    requires Top(t, v) && AllPieces(t, v, ps)
    decreases |ps|
  {
    if ps == [] then [] else Tlv(PieceType(t, v, ps[0]), PieceBody(t, v, ps[0])) + Cat(t, v, ps[1..])
  }

  /** No group's TLV occurs twice. */
  predicate Distinct(ps: seq<Piece>) {
    forall i, j :: 0 <= i < j < |ps| && ps[i].Known? && ps[j].Known? ==> ps[i].g != ps[j].g
  }

  /** Every group is kept when its turn comes; `dl` is the data_len_value left by the TLV before. */
  predicate PiecesKept(t: seq<Elem>, v: seq<Slot>, ps: seq<Piece>, dl: nat)
    requires Top(t, v) && AllPieces(t, v, ps)
    decreases |ps|
  {
    ps == [] ||
    match ps[0]
    case Known(g) =>
      GroupKept(t, v, g, dl, true) && PiecesKept(t, v, ps[1..], CountAt(t, v, g))
    case Alien(_, _) => PiecesKept(t, v, ps[1..], dl)
  }

  // ----- One TLV -----

  lemma HeaderReads(tlvType: byte, body: seq<byte>, rest: seq<byte>)
    requires |body| < 65536
    ensures var src := Tlv(tlvType, body) + rest;
            && |src| == HEADER + |body| + |rest| && src[0] == tlvType && FromLe(src[1..], 2) == |body|
            && src[HEADER..] == body + rest && src[HEADER + |body|..] == rest
  {
    var src := Tlv(tlvType, body) + rest;
    assert src[1..][0] == |body| % 256 && src[1..][1] == |body| / 256 % 256;
  }

  /** At the top level a group either fails or consumes exactly its TLV, kept or not. */
  lemma GroupAligned(t: seq<Elem>, g: nat, w: seq<Slot>, v: seq<Slot>, tail: seq<byte>, dl: u32)
    requires TableFrom(t, g, true) && !t[g].kind.Eoti? && StructOk(t, v) && StructOk(t, w)
    requires var body := Body(t, v, g, true); body.ok && |body.bytes| < 65536
    ensures var body := Body(t, v, g, true).bytes;
            var r := DecGroup(t, g, w, body + tail, |body|, dl, 1);
            r.Ok? ==> r.n == |body| && r.value.1 == CountAt(t, v, g)
  {
    var p, n, size := PayAt(t, g), CountAt(t, v, g), CountSize(t, g);
    var body := Body(t, v, g, true).bytes;
    GroupFront(t, g, v, tail, dl, true);
    var r := DecGroup(t, g, w, body + tail, |body|, dl, 1);
    if r.Ok? {
      GroupInverse(t, g, w, body + tail, |body|, dl, 1);
      assert SlotOk(t[p], v[p]);
      PayloadAligned(t[p], w[p], v[p], n, (body + tail)[size..], |body| - size);
    }
  }

  lemma PayloadAligned(e: Elem, s: Slot, s0: Slot, n: nat, src: seq<byte>, tlvLen: u32)
    requires PayloadOk(e) && SlotOk(e, s) && SlotOk(e, s0) && n <= e.elemLen && (e.kind.Struct? ==> NestedOk(e.ei))
    requires EncPayload(e, s0, n, true).ok && |EncPayload(e, s0, n, true).bytes| == tlvLen
    ensures var r := DecPayload(e, s, n, src, tlvLen, 1); r.Ok? ==> r.n == tlvLen
  {
    if e.kind.Struct? {
      StructsFrame(e, s.elems, 0, n, src, tlvLen, 0, 2);
    } else if e.kind.Basic? {
      FewerOctets(n, e.elemLen, e.elemSize);
    }
  }

  /** An unknown optional TLV at the front of a message. */
  lemma AlienTlv(t: seq<Elem>, w: seq<Slot>, src: seq<byte>, tlvType: byte, data: seq<byte>, rest: seq<byte>,
                 limit: u32, d: nat, dl: u32)
    requires TableFrom(t, 0, true) && StructOk(t, w) && d < limit && src == Tlv(tlvType, data) + rest && |data| < 65536
    requires tlvType >= OPTIONAL_TLV_TYPE_START && FindEi(t, 0, tlvType) == |t|
    ensures DecTop(t, w, src, limit, d, dl) == DecTop(t, w, rest, limit, d + HEADER + |data|, dl)
  {
    HeaderReads(tlvType, data, rest);
    AtAlien(t, w, src, |data|, limit, d, dl);
  }

  /** A TLV of a type that is known, at the front of a message. */
  lemma FrontTlv(t: seq<Elem>, g: nat, w: seq<Slot>, src: seq<byte>, body: seq<byte>, rest: seq<byte>, limit: u32,
                 d: nat, dl: u32)
    requires TableFrom(t, 0, true) && TableFrom(t, g, true) && !t[g].kind.Eoti? && FindEi(t, 0, t[g].tlvType) == g
    requires StructOk(t, w) && d < limit && src == Tlv(t[g].tlvType, body) + rest && |body| < 65536
    ensures var r := DecEntry(t, g, w, body + rest, |body|, dl, 1);
            && (r.Ok? ==> r.n <= |body + rest| && StructOk(t, r.value.0))
            && DecTop(t, w, src, limit, d, dl) ==
               if r.Ok? then DecTop(t, r.value.0, (body + rest)[r.n..], limit, d + HEADER + r.n, r.value.1)
               else if r.Fail? then Fail else Overread
  {
    HeaderReads(t[g].tlvType, body, rest);
    AtKnown(t, w, g, src, |body|, limit, d, dl);
    var r := DecEntry(t, g, w, body + rest, |body|, dl, 1);
    if r.Ok? {
      assert src[HEADER + r.n..] == src[HEADER..][r.n..];
    }
  }

  /** The TLV of a group at the front of a message. */
  lemma KnownTlv(t: seq<Elem>, g: nat, w: seq<Slot>, v: seq<Slot>, src: seq<byte>, body: seq<byte>, rest: seq<byte>,
                 limit: u32, d: nat, dl: u32)
    requires TableFrom(t, 0, true) && TableFrom(t, g, true) && !t[g].kind.Eoti? && FindEi(t, 0, t[g].tlvType) == g
    requires StructOk(t, v) && StructOk(t, w) && d < limit && src == Tlv(t[g].tlvType, body) + rest
    requires Body(t, v, g, true) == Enc(body, true) && |body| < 65536
    ensures var r := DecEntry(t, g, w, body + rest, |body|, dl, 1);
            && (r.Ok? ==> r.value.1 == CountAt(t, v, g) && StructOk(t, r.value.0))
            && DecTop(t, w, src, limit, d, dl) ==
               if r.Ok? then DecTop(t, r.value.0, rest, limit, d + HEADER + |body|, r.value.1)
               else if r.Fail? then Fail else Overread
  {
    FrontTlv(t, g, w, src, body, rest, limit, d, dl);
    GroupAligned(t, g, w, v, rest, dl);
    assert (body + rest)[|body|..] == rest;
  }

  // ----- Whole messages -----

  /** Slot i belongs to the group of a TLV. */
  predicate Owns(t: seq<Elem>, x: Piece, i: nat) { x.Known? && x.g < |t| && x.g <= i <= PayAt(t, x.g) }

  /** Slot i belongs to a group whose TLV is among ps. */
  predicate Touched(t: seq<Elem>, ps: seq<Piece>, i: nat)
    decreases |ps|
  {
    ps != [] && (Owns(t, ps[0], i) || Touched(t, ps[1..], i))
  }

  lemma {:induction false} TouchedBy(t: seq<Elem>, ps: seq<Piece>, i: nat) returns (j: nat)
    requires Touched(t, ps, i)
    ensures j < |ps| && Owns(t, ps[j], i)
    decreases |ps|
  {
    if Owns(t, ps[0], i) {
      j := 0;
    } else {
      j := TouchedBy(t, ps[1..], i);
      j := j + 1;
    }
  }

  lemma {:induction false} TouchedAt(t: seq<Elem>, ps: seq<Piece>, i: nat, j: nat)
    requires j < |ps| && Owns(t, ps[j], i)
    ensures Touched(t, ps, i)
    decreases |ps|
  {
    if j > 0 {
      TouchedAt(t, ps[1..], i, j - 1);
    }
  }

  /** The payload slots of the groups still to come are zero. */
  predicate Awaiting(t: seq<Elem>, w: seq<Slot>, ps: seq<Piece>) {
    forall j :: 0 <= j < |ps| && ps[j].Known? && ps[j].g < |t| && PayAt(t, ps[j].g) < |w| && |w| < |t| ==>
      w[PayAt(t, ps[j].g)] == Zero(t[PayAt(t, ps[j].g)])
  }

  lemma CatFirst(t: seq<Elem>, v: seq<Slot>, ps: seq<Piece>)
    requires Top(t, v) && AllPieces(t, v, ps) && ps != []
    ensures PieceOk(t, v, ps[0]) && AllPieces(t, v, ps[1..])
    ensures Cat(t, v, ps) == Tlv(PieceType(t, v, ps[0]), PieceBody(t, v, ps[0])) + Cat(t, v, ps[1..])
    ensures |Cat(t, v, ps)| == HEADER + |PieceBody(t, v, ps[0])| + |Cat(t, v, ps[1..])|
  {
  }

  lemma FirstAlien(t: seq<Elem>, v: seq<Slot>, ps: seq<Piece>, w: seq<Slot>, limit: u32, d: nat, dl: u32)
    requires Top(t, v) && AllPieces(t, v, ps) && ps != [] && ps[0].Alien? && StructOk(t, w)
             && limit == d + |Cat(t, v, ps)|
    ensures limit == d + HEADER + |ps[0].data| + |Cat(t, v, ps[1..])|
    ensures DecTop(t, w, Cat(t, v, ps), limit, d, dl) ==
            DecTop(t, w, Cat(t, v, ps[1..]), limit, d + HEADER + |ps[0].data|, dl)
  {
    CatFirst(t, v, ps);
    assert PieceBody(t, v, ps[0]) == ps[0].data && PieceType(t, v, ps[0]) == ps[0].tlvType;
    AlienTlv(t, w, Cat(t, v, ps), ps[0].tlvType, ps[0].data, Cat(t, v, ps[1..]), limit, d, dl);
  }

  lemma FirstKnown(t: seq<Elem>, v: seq<Slot>, ps: seq<Piece>, w: seq<Slot>, limit: u32, d: nat, dl: u32)
    requires Top(t, v) && AllPieces(t, v, ps) && ps != [] && ps[0].Known? && StructOk(t, w)
             && limit == d + |Cat(t, v, ps)|
    ensures PieceOk(t, v, ps[0]) && limit == d + HEADER + |PieceBody(t, v, ps[0])| + |Cat(t, v, ps[1..])|
    ensures var g, body, rest := ps[0].g, PieceBody(t, v, ps[0]), Cat(t, v, ps[1..]);
            var r := DecGroup(t, g, w, body + rest, |body|, dl, 1);
            && (r.Ok? ==> r.value.1 == CountAt(t, v, g))
            && DecTop(t, w, Cat(t, v, ps), limit, d, dl) ==
               if r.Ok? then DecTop(t, r.value.0, rest, limit, d + HEADER + |body|, r.value.1)
               else if r.Fail? then Fail else Overread
  {
    CatFirst(t, v, ps);
    var g := ps[0].g;
    FindsGroup(t, 0, g);
    KnownTlv(t, g, w, v, Cat(t, v, ps), PieceBody(t, v, ps[0]), Cat(t, v, ps[1..]), limit, d, dl);
  }

  /** What the first TLV makes of the struct, if it decodes. */
  function AfterFirst(t: seq<Elem>, v: seq<Slot>, ps: seq<Piece>, w: seq<Slot>, dl: u32): Parse<(seq<Slot>, u32)>
    requires Top(t, v) && AllPieces(t, v, ps) && ps != [] && StructOk(t, w)
  {
    if ps[0].Alien? then Ok((w, dl), |ps[0].data|)
    else
      assert PieceOk(t, v, ps[0]);
      var body := PieceBody(t, v, ps[0]);
      DecGroup(t, ps[0].g, w, body + Cat(t, v, ps[1..]), |body|, dl, 1)
  }

  /** Decoding a message is decoding its first TLV and then the others. */
  lemma FirstPiece(t: seq<Elem>, v: seq<Slot>, ps: seq<Piece>, w: seq<Slot>, limit: u32, d: nat, dl: u32)
    requires Top(t, v) && AllPieces(t, v, ps) && ps != [] && StructOk(t, w) && limit == d + |Cat(t, v, ps)|
    ensures AllPieces(t, v, ps[1..]) && PieceOk(t, v, ps[0])
    ensures limit == d + HEADER + |PieceBody(t, v, ps[0])| + |Cat(t, v, ps[1..])|
    ensures var r := AfterFirst(t, v, ps, w, dl);
            var whole := DecTop(t, w, Cat(t, v, ps), limit, d, dl);
            if r.Ok? then
              && StructOk(t, r.value.0)
              && whole == DecTop(t, r.value.0, Cat(t, v, ps[1..]), limit, d + HEADER + |PieceBody(t, v, ps[0])|,
                                 r.value.1)
            else !whole.Ok?
  {
    CatFirst(t, v, ps);
    if ps[0].Alien? {
      FirstAlien(t, v, ps, w, limit, d, dl);
    } else {
      FirstKnown(t, v, ps, w, limit, d, dl);
    }
  }

  /** The first TLV writes its own group only. */
  lemma FirstFrame(t: seq<Elem>, v: seq<Slot>, ps: seq<Piece>, w: seq<Slot>, dl: u32)
    requires Top(t, v) && AllPieces(t, v, ps) && ps != [] && StructOk(t, w)
    ensures var r := AfterFirst(t, v, ps, w, dl);
            r.Ok? ==> StructOk(t, r.value.0) && forall i :: 0 <= i < |w| && !Owns(t, ps[0], i) ==> r.value.0[i] == w[i]
  {
    if ps[0].Known? {
      assert PieceOk(t, v, ps[0]);
      var body := PieceBody(t, v, ps[0]);
      GroupFrame(t, ps[0].g, w, body + Cat(t, v, ps[1..]), |body|, dl, 1);
    }
  }

  lemma NoPieces(t: seq<Elem>, v: seq<Slot>, w: seq<Slot>, limit: u32, dl: u32)
    requires Top(t, v) && StructOk(t, w)
    ensures DecTop(t, w, Cat(t, v, []), limit, limit, dl) == Ok(w, limit)
  {
  }

  /** Whatever the TLVs hold, decoding ends where the message ends and touches only their own groups. */
  lemma {:induction false} PiecesFrame(t: seq<Elem>, v: seq<Slot>, ps: seq<Piece>, w: seq<Slot>, limit: u32, d: nat,
                                       dl: u32, i: nat)
    requires Top(t, v) && AllPieces(t, v, ps) && StructOk(t, w) && limit == d + |Cat(t, v, ps)| && i < |w|
    ensures var r := DecTop(t, w, Cat(t, v, ps), limit, d, dl);
            r.Ok? ==> r.n == limit && (!Touched(t, ps, i) ==> r.value[i] == w[i])
    decreases |ps|
  {
    if ps == [] {
      NoPieces(t, v, w, limit, dl);
    } else {
      FirstPiece(t, v, ps, w, limit, d, dl);
      var r := AfterFirst(t, v, ps, w, dl);
      if r.Ok? {
        var next := d + HEADER + |PieceBody(t, v, ps[0])|;
        var whole := DecTop(t, w, Cat(t, v, ps), limit, d, dl);
        assert whole == DecTop(t, r.value.0, Cat(t, v, ps[1..]), limit, next, r.value.1);
        PiecesFrame(t, v, ps[1..], r.value.0, limit, next, r.value.1, i);
        FirstFrame(t, v, ps, w, dl);
      }
    }
  }

  lemma RestFrame(t: seq<Elem>, v: seq<Slot>, ps: seq<Piece>, w: seq<Slot>, limit: u32, d: nat, dl: u32)
    requires Top(t, v) && AllPieces(t, v, ps) && StructOk(t, w) && limit == d + |Cat(t, v, ps)|
    ensures var r := DecTop(t, w, Cat(t, v, ps), limit, d, dl);
            r.Ok? ==> |r.value| == |w| && forall i :: 0 <= i < |w| && !Touched(t, ps, i) ==> r.value[i] == w[i]
  {
    forall i | 0 <= i < |w| { PiecesFrame(t, v, ps, w, limit, d, dl, i); }
  }

  /** The struct with every group of ps rebuilt. */
  ghost predicate Rebuilt(t: seq<Elem>, v: seq<Slot>, ps: seq<Piece>, x: seq<Slot>)
    requires Top(t, v) && AllPieces(t, v, ps) && |x| + 1 == |t|
  {
    forall j :: 0 <= j < |ps| && ps[j].Known? ==> GroupRebuilt(t, v, ps[j].g, x)
  }

  ghost predicate GroupRebuilt(t: seq<Elem>, v: seq<Slot>, g: nat, x: seq<Slot>)
    requires Top(t, v) && |x| + 1 == |t| && Reaches(t, 0, g)
  {
    forall i :: g <= i <= PayAt(t, g) ==> x[i] == CanonGroup(t, v, g, true)[i - g]
  }

  /** The groups of later TLVs are not the first one's. */
  lemma FirstIsApart(t: seq<Elem>, v: seq<Slot>, ps: seq<Piece>, i: nat)
    requires Top(t, v) && AllPieces(t, v, ps) && Distinct(ps) && ps != [] && Owns(t, ps[0], i)
    ensures !Touched(t, ps[1..], i)
  {
    if Touched(t, ps[1..], i) {
      var j := TouchedBy(t, ps[1..], i);
      var g, h := ps[0].g, ps[j+1].g;
      assert PieceOk(t, v, ps[0]) && PieceOk(t, v, ps[j+1]) && h != g;
      GroupsApart(t, 0, if g < h then g else h, if g < h then h else g);
    }
  }

  lemma StillAwaiting(t: seq<Elem>, v: seq<Slot>, ps: seq<Piece>, w: seq<Slot>, dl: u32)
    requires Top(t, v) && AllPieces(t, v, ps) && Distinct(ps) && ps != [] && StructOk(t, w) && Awaiting(t, w, ps)
    requires AfterFirst(t, v, ps, w, dl).Ok?
    ensures Awaiting(t, AfterFirst(t, v, ps, w, dl).value.0, ps[1..])
  {
    var rest, x := ps[1..], AfterFirst(t, v, ps, w, dl).value.0;
    FirstFrame(t, v, ps, w, dl);
    forall j | 0 <= j < |rest| && rest[j].Known? && rest[j].g < |t| && PayAt(t, rest[j].g) < |x|
      ensures x[PayAt(t, rest[j].g)] == Zero(t[PayAt(t, rest[j].g)])
    {
      assert rest[j] == ps[j+1];
      TouchedAt(t, rest, PayAt(t, rest[j].g), j);
      if Owns(t, ps[0], PayAt(t, rest[j].g)) {
        FirstIsApart(t, v, ps, PayAt(t, rest[j].g));
      }
    }
  }

  lemma RestRebuilt(t: seq<Elem>, v: seq<Slot>, ps: seq<Piece>, w: seq<Slot>, limit: u32, d: nat, dl: u32)
    requires Top(t, v) && AllPieces(t, v, ps) && Distinct(ps) && ps != [] && AllPieces(t, v, ps[1..]) && StructOk(t, w)
    requires limit == d + |Cat(t, v, ps[1..])|
    requires ps[0].Known? ==> Reaches(t, 0, ps[0].g) && GroupRebuilt(t, v, ps[0].g, w)
    requires var r := DecTop(t, w, Cat(t, v, ps[1..]), limit, d, dl); r.Ok? && Rebuilt(t, v, ps[1..], r.value)
    ensures Rebuilt(t, v, ps, DecTop(t, w, Cat(t, v, ps[1..]), limit, d, dl).value)
  {
    RestFrame(t, v, ps[1..], w, limit, d, dl);
    RebuiltFirst(t, v, ps, w, DecTop(t, w, Cat(t, v, ps[1..]), limit, d, dl).value);
  }

  /** Kept TLVs rebuild their groups. */
  lemma {:induction false} PiecesBack(t: seq<Elem>, v: seq<Slot>, ps: seq<Piece>, w: seq<Slot>, limit: u32, d: nat,
                                      dl: u32)
    requires Top(t, v) && AllPieces(t, v, ps) && Distinct(ps) && StructOk(t, w) && limit == d + |Cat(t, v, ps)|
    requires Awaiting(t, w, ps) && PiecesKept(t, v, ps, dl)
    ensures var r := DecTop(t, w, Cat(t, v, ps), limit, d, dl);
            r.Ok? && r.n == limit && Rebuilt(t, v, ps, r.value)
    decreases |ps|
  {
    if ps == [] {
      NoPieces(t, v, w, limit, dl);
    } else {
      FirstBack(t, v, ps, w, dl);
      FirstPiece(t, v, ps, w, limit, d, dl);
      var r := AfterFirst(t, v, ps, w, dl);
      var next := d + HEADER + |PieceBody(t, v, ps[0])|;
      var whole := DecTop(t, w, Cat(t, v, ps), limit, d, dl);
      assert whole == DecTop(t, r.value.0, Cat(t, v, ps[1..]), limit, next, r.value.1);
      StillAwaiting(t, v, ps, w, dl);
      PiecesBack(t, v, ps[1..], r.value.0, limit, next, r.value.1);
      RestRebuilt(t, v, ps, r.value.0, limit, next, r.value.1);
    }
  }

  lemma FirstBack(t: seq<Elem>, v: seq<Slot>, ps: seq<Piece>, w: seq<Slot>, dl: u32)
    requires Top(t, v) && AllPieces(t, v, ps) && ps != [] && StructOk(t, w) && Awaiting(t, w, ps)
             && PiecesKept(t, v, ps, dl)
    ensures AllPieces(t, v, ps[1..])
    ensures var r := AfterFirst(t, v, ps, w, dl);
            && r.Ok? && PiecesKept(t, v, ps[1..], r.value.1)
            && (ps[0].Known? ==> GroupRebuilt(t, v, ps[0].g, r.value.0))
  {
    CatFirst(t, v, ps);
    if ps[0].Known? {
      var g := ps[0].g;
      GroupBack(t, g, w, v, Cat(t, v, ps[1..]), |PieceBody(t, v, ps[0])|, dl, 1);
    }
  }

  /** Later TLVs leave the first group as it was rebuilt. */
  lemma RebuiltFirst(t: seq<Elem>, v: seq<Slot>, ps: seq<Piece>, w: seq<Slot>, x: seq<Slot>)
    requires Top(t, v) && AllPieces(t, v, ps) && Distinct(ps) && ps != [] && AllPieces(t, v, ps[1..])
    requires |w| + 1 == |x| + 1 == |t| && (ps[0].Known? ==> Reaches(t, 0, ps[0].g) && GroupRebuilt(t, v, ps[0].g, w))
    requires Rebuilt(t, v, ps[1..], x) && forall i :: 0 <= i < |w| && !Touched(t, ps[1..], i) ==> x[i] == w[i]
    ensures Rebuilt(t, v, ps, x)
  {
    forall j | 0 <= j < |ps| && ps[j].Known?
      ensures PieceOk(t, v, ps[j]) && GroupRebuilt(t, v, ps[j].g, x)
    {
      assert PieceOk(t, v, ps[j]);
      if j == 0 {
        forall i | ps[0].g <= i <= PayAt(t, ps[0].g) { FirstIsApart(t, v, ps, i); }
      } else {
        assert ps[1..][j-1] == ps[j];
      }
    }
  }

  /** If every group comes back, every TLV was kept. */
  lemma {:induction false} PiecesOnly(t: seq<Elem>, v: seq<Slot>, ps: seq<Piece>, w: seq<Slot>, limit: u32, d: nat,
                                      dl: u32)
    requires Top(t, v) && AllPieces(t, v, ps) && Distinct(ps) && StructOk(t, w) && limit == d + |Cat(t, v, ps)|
    requires Awaiting(t, w, ps)
    requires var r := DecTop(t, w, Cat(t, v, ps), limit, d, dl);
             r.Ok? && Rebuilt(t, v, ps, r.value)
    ensures PiecesKept(t, v, ps, dl)
    decreases |ps|
  {
    if ps != [] {
      FirstPiece(t, v, ps, w, limit, d, dl);
      var r := AfterFirst(t, v, ps, w, dl);
      var next := d + HEADER + |PieceBody(t, v, ps[0])|;
      var x := DecTop(t, r.value.0, Cat(t, v, ps[1..]), limit, next, r.value.1).value;
      RestFrame(t, v, ps[1..], r.value.0, limit, next, r.value.1);
      FirstOnly(t, v, ps, w, dl, x);
      StillAwaiting(t, v, ps, w, dl);
      RebuiltRest(t, v, ps, x);
      PiecesOnly(t, v, ps[1..], r.value.0, limit, next, r.value.1);
    }
  }

  lemma RebuiltRest(t: seq<Elem>, v: seq<Slot>, ps: seq<Piece>, x: seq<Slot>)
    requires Top(t, v) && AllPieces(t, v, ps) && ps != [] && |x| + 1 == |t| && Rebuilt(t, v, ps, x)
    ensures AllPieces(t, v, ps[1..]) && Rebuilt(t, v, ps[1..], x)
  {
    var rest := ps[1..];
    forall j | 0 <= j < |rest| && rest[j].Known?
      ensures PieceOk(t, v, rest[j]) && GroupRebuilt(t, v, rest[j].g, x)
    {
      assert rest[j] == ps[j+1] && PieceOk(t, v, ps[j+1]);
    }
  }

  lemma FirstOnly(t: seq<Elem>, v: seq<Slot>, ps: seq<Piece>, w: seq<Slot>, dl: u32, x: seq<Slot>)
    requires Top(t, v) && AllPieces(t, v, ps) && Distinct(ps) && ps != [] && StructOk(t, w) && Awaiting(t, w, ps)
    requires AfterFirst(t, v, ps, w, dl).Ok? && |x| == |w| && |AfterFirst(t, v, ps, w, dl).value.0| == |w|
    requires Rebuilt(t, v, ps, x) && forall i :: 0 <= i < |w| && !Touched(t, ps[1..], i) ==>
             x[i] == AfterFirst(t, v, ps, w, dl).value.0[i]
    ensures ps[0].Known? ==>
              && PieceOk(t, v, ps[0])
              && GroupKept(t, v, ps[0].g, dl, true) && AfterFirst(t, v, ps, w, dl).value.1 == CountAt(t, v, ps[0].g)
    ensures ps[0].Alien? ==> AfterFirst(t, v, ps, w, dl).value.1 == dl
  {
    if ps[0].Known? {
      assert PieceOk(t, v, ps[0]);
      var g, p := ps[0].g, PayAt(t, ps[0].g);
      FirstIsApart(t, v, ps, p);
      assert GroupRebuilt(t, v, g, x);
      GroupOnly(t, g, w, v, Cat(t, v, ps[1..]), |PieceBody(t, v, ps[0])|, dl, 1);
      GroupAligned(t, g, w, v, Cat(t, v, ps[1..]), dl);
    }
  }
}
