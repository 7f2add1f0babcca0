/** Round trip, TLV order and forward compatibility of QMI messages. */
module QmiTheorems {
  import opened Qmi
  import opened QmiDecode
  import opened QmiRoundTrip
  import opened QmiTlv

  /** The struct a decoder should rebuild from v. */
  function Canon(t: seq<Elem>, v: seq<Slot>): seq<Slot>
    requires Top(t, v)
  {
    CanonFrom(t, v, 0, true)
  }

  /** qmi_decode of a whole message into a zeroed struct. */
  function Decode(t: seq<Elem>, src: seq<byte>): Parse<seq<Slot>>
    requires TableFrom(t, 0, true) && |src| < 0x1_0000_0000
  {
    ZeroStructOk(t, 0, true);
    DecTop(t, ZeroStruct(t), src, |src|, 0, 0)
  }

  /** A message with the TLV of every present group exactly once, in any order, and any number of
      TLVs of unknown optional types anywhere between them. */
  predicate Arranged(t: seq<Elem>, v: seq<Slot>, ps: seq<Piece>)
    requires Top(t, v)
  {
    && AllPieces(t, v, ps) && Distinct(ps)
    && (forall g :: 0 <= g < |t| && Reaches(t, 0, g) && Present(t, v, g) ==> Known(g) in ps)
    && |Cat(t, v, ps)| < 0x1_0000_0000
  }

  // ----- From rebuilt groups to the rebuilt struct -----

  lemma AbsentUntouched(t: seq<Elem>, v: seq<Slot>, ps: seq<Piece>, g: nat, i: nat)
    requires Top(t, v) && AllPieces(t, v, ps) && Reaches(t, 0, g) && !Present(t, v, g) && g <= i <= PayAt(t, g)
    ensures !Touched(t, ps, i)
  {
    if Touched(t, ps, i) {
      var j := TouchedBy(t, ps, i);
      var h := ps[j].g;
      assert PieceOk(t, v, ps[j]);
      GroupsApart(t, 0, if g < h then g else h, if g < h then h else g);
    }
  }

  /** A group whose TLV is there is rebuilt; the slots of one that is absent are still zero. */
  lemma GroupRebuilds(t: seq<Elem>, v: seq<Slot>, ps: seq<Piece>, x: seq<Slot>, g: nat)
    requires Top(t, v) && Arranged(t, v, ps) && |x| + 1 == |t| && TableFrom(t, g, true) && Reaches(t, 0, g)
    requires Rebuilt(t, v, ps, x) && forall i :: 0 <= i < |x| && !Touched(t, ps, i) ==> x[i] == ZeroStruct(t)[i]
    ensures GroupRebuilt(t, v, g, x)
  {
    if Present(t, v, g) {
      assert Known(g) in ps;
      var j :| 0 <= j < |ps| && ps[j] == Known(g);
      assert GroupRebuilt(t, v, ps[j].g, x);
    } else {
      forall i | g <= i <= PayAt(t, g)
        ensures x[i] == CanonGroup(t, v, g, true)[i - g]
      {
        AbsentUntouched(t, v, ps, g, i);
      }
    }
  }

  lemma {:induction false} RebuiltRebuilds(t: seq<Elem>, v: seq<Slot>, ps: seq<Piece>, x: seq<Slot>, g: nat)
    requires Top(t, v) && Arranged(t, v, ps) && |x| + 1 == |t| && TableFrom(t, g, true)
             && (t[g].kind.Eoti? || Reaches(t, 0, g))
    requires Rebuilt(t, v, ps, x) && forall i :: 0 <= i < |x| && !Touched(t, ps, i) ==> x[i] == ZeroStruct(t)[i]
    ensures Rebuilds(t, v, g, true, x)
    decreases |t| - g
  {
    if !t[g].kind.Eoti? {
      ReachesNext(t, 0, g);
      RebuiltRebuilds(t, v, ps, x, PayAt(t, g) + 1);
      GroupRebuilds(t, v, ps, x, g);
    }
  }

  lemma {:induction false} ReachesNext(t: seq<Elem>, g0: nat, g: nat)
    requires TableFrom(t, g0, true) && Reaches(t, g0, g)
    ensures PayAt(t, g) + 1 < |t| && (t[PayAt(t, g) + 1].kind.Eoti? || Reaches(t, g0, PayAt(t, g) + 1))
    decreases |t| - g0
  {
    if g != g0 {
      ReachesNext(t, PayAt(t, g0) + 1, g);
    }
  }

  lemma {:induction false} RebuildsGroup(t: seq<Elem>, v: seq<Slot>, x: seq<Slot>, g0: nat, g: nat)
    requires Top(t, v) && |x| + 1 == |t| && TableFrom(t, g0, true) && Rebuilds(t, v, g0, true, x) && Reaches(t, g0, g)
    ensures forall i :: g <= i <= PayAt(t, g) ==> x[i] == CanonGroup(t, v, g, true)[i - g]
    decreases |t| - g0
  {
    if g != g0 {
      RebuildsGroup(t, v, x, PayAt(t, g0) + 1, g);
    }
  }

  lemma CanonRebuilt(t: seq<Elem>, v: seq<Slot>, ps: seq<Piece>)
    requires Top(t, v) && AllPieces(t, v, ps)
    ensures |Canon(t, v)| + 1 == |t| && Rebuilt(t, v, ps, Canon(t, v))
  {
    var x := Canon(t, v);
    assert x[0..] == x;
    RebuildsCanon(t, v, 0, true, x);
    forall j | 0 <= j < |ps| && ps[j].Known?
      ensures PieceOk(t, v, ps[j]) && GroupRebuilt(t, v, ps[j].g, x)
    {
      assert PieceOk(t, v, ps[j]);
      RebuildsGroup(t, v, x, 0, ps[j].g);
    }
  }

  lemma ZeroAwaits(t: seq<Elem>, ps: seq<Piece>)
    requires |t| > 0
    ensures Awaiting(t, ZeroStruct(t), ps)
  {
  }

  /** Decoding any arrangement of a struct's TLVs gives the struct back and consumes the message,
      exactly when every TLV is kept in its place. */
  lemma DecodeExact(t: seq<Elem>, v: seq<Slot>, ps: seq<Piece>)
    requires Top(t, v) && Arranged(t, v, ps)
    ensures Decode(t, Cat(t, v, ps)) == Ok(Canon(t, v), |Cat(t, v, ps)|) <==> PiecesKept(t, v, ps, 0)
  {
    var src := Cat(t, v, ps);
    var r := Decode(t, src);
    ZeroStructOk(t, 0, true);
    ZeroAwaits(t, ps);
    if PiecesKept(t, v, ps, 0) {
      PiecesBack(t, v, ps, ZeroStruct(t), |src|, 0, 0);
      RestFrame(t, v, ps, ZeroStruct(t), |src|, 0, 0);
      RebuiltRebuilds(t, v, ps, r.value, 0);
      RebuildsCanon(t, v, 0, true, r.value);
      assert r.value[0..] == r.value;
    }
    if r == Ok(Canon(t, v), |src|) {
      CanonRebuilt(t, v, ps);
      PiecesOnly(t, v, ps, ZeroStruct(t), |src|, 0, 0);
    }
  }

  // ----- The encoder's own message -----

  /** The TLVs the encoder emits, in table order. */
  function Own(t: seq<Elem>, v: seq<Slot>, g: nat): seq<Piece>
    requires TableFrom(t, g, true) && StructOk(t, v)
    decreases |t| - g
  {
    if t[g].kind.Eoti? then []
    else (if Present(t, v, g) then [Known(g)] else []) + Own(t, v, PayAt(t, g) + 1)
  }

  /** Every TLV's payload fits its 16-bit length field. */
  ghost predicate ShortBodies(t: seq<Elem>, v: seq<Slot>)
    requires Top(t, v)
  {
    forall g :: 0 <= g < |t| && Reaches(t, 0, g) && Present(t, v, g) ==> |Body(t, v, g, true).bytes| < 65536
  }

  lemma OwnFirst(t: seq<Elem>, v: seq<Slot>, g: nat)
    requires Top(t, v) && ShortBodies(t, v) && TableFrom(t, g, true) && Reaches(t, 0, g) && Present(t, v, g)
    requires EncFrom(t, v, g, true).ok && AllPieces(t, v, Own(t, v, PayAt(t, g) + 1))
    ensures AllPieces(t, v, Own(t, v, g))
    ensures Cat(t, v, Own(t, v, g)) == Framed(t, v, g, true).bytes + Cat(t, v, Own(t, v, PayAt(t, g) + 1))
    ensures forall dl :: PiecesKept(t, v, Own(t, v, g), dl) <==>
                         GroupKept(t, v, g, dl, true) && PiecesKept(t, v, Own(t, v, PayAt(t, g) + 1), CountAt(t, v, g))
  {
    var ps := Own(t, v, g);
    assert ps == [Known(g)] + Own(t, v, PayAt(t, g) + 1) && ps[1..] == Own(t, v, PayAt(t, g) + 1);
    assert PieceOk(t, v, Known(g));
  }

  /** An encoded message is its TLVs one after the other, each present group once, in table order,
      each with the length of its payload in the header. */
  lemma {:induction false} Framing(t: seq<Elem>, v: seq<Slot>, g: nat)
    requires Top(t, v) && ShortBodies(t, v) && TableFrom(t, g, true) && (t[g].kind.Eoti? || Reaches(t, 0, g))
    requires EncFrom(t, v, g, true).ok
    ensures AllPieces(t, v, Own(t, v, g))
    ensures EncFrom(t, v, g, true).bytes == Cat(t, v, Own(t, v, g))
    ensures forall dl :: PiecesKept(t, v, Own(t, v, g), dl) <==> KeptFrom(t, v, g, dl, true)
    decreases |t| - g
  {
    if !t[g].kind.Eoti? {
      var next := PayAt(t, g) + 1;
      ReachesNext(t, 0, g);
      Framing(t, v, next);
      if Present(t, v, g) {
        OwnFirst(t, v, g);
      } else {
        assert Own(t, v, g) == Own(t, v, next);
      }
    }
  }

  lemma {:induction false} OwnGroups(t: seq<Elem>, v: seq<Slot>, g0: nat)
    requires TableFrom(t, g0, true) && StructOk(t, v)
    ensures forall x :: x in Own(t, v, g0) ==> x.Known? && x.g >= g0
    ensures Distinct(Own(t, v, g0))
    ensures forall g :: 0 <= g < |t| && Reaches(t, g0, g) && Present(t, v, g) ==> Known(g) in Own(t, v, g0)
    decreases |t| - g0
  {
    if !t[g0].kind.Eoti? {
      OwnGroups(t, v, PayAt(t, g0) + 1);
    }
  }

  lemma OwnArranged(t: seq<Elem>, v: seq<Slot>)
    requires Top(t, v) && ShortBodies(t, v) && EncFrom(t, v, 0, true).ok
             && |EncFrom(t, v, 0, true).bytes| < 0x1_0000_0000
    ensures Arranged(t, v, Own(t, v, 0)) && Cat(t, v, Own(t, v, 0)) == EncFrom(t, v, 0, true).bytes
  {
    Framing(t, v, 0);
    OwnGroups(t, v, 0);
  }

  /** Round trip: an encoded struct decodes to itself, with what the encoder ignores cleared, and
      to its last octet, exactly when no length is read over a larger left-over count and no
      nested string outgrows its length octets. */
  lemma RoundTrip(t: seq<Elem>, v: seq<Slot>)
    requires Top(t, v) && ShortBodies(t, v) && EncFrom(t, v, 0, true).ok
             && |EncFrom(t, v, 0, true).bytes| < 0x1_0000_0000
    ensures var enc := EncFrom(t, v, 0, true).bytes;
            Decode(t, enc) == Ok(Canon(t, v), |enc|) <==> KeptFrom(t, v, 0, 0, true)
  {
    Framing(t, v, 0);
    OwnArranged(t, v);
    DecodeExact(t, v, Own(t, v, 0));
  }

  // ----- Where the round trip fails -----

  /** A static array of 256 octets, then a counted array whose length takes one octet. */
  const CARRY_TABLE: seq<Elem> := [
    Elem(Basic, 256, 1, StaticArray, 1, []),
    Elem(DataLen, 1, 1, NoArray, 2, []),
    Elem(Basic, 10, 1, VarLenArray, 2, []),
    Elem(Eoti, 0, 0, NoArray, 0, [])
  ]

  function CarryStruct(): seq<Slot> { [Bytes(seq(256, i => 7)), Len(1), Bytes(seq(10, i => 7))] }

  lemma CarryTableOk()
    ensures Top(CARRY_TABLE, CarryStruct())
    ensures forall g :: Reaches(CARRY_TABLE, 0, g) <==> g == 0 || g == 1
    ensures Body(CARRY_TABLE, CarryStruct(), 0, true) == Enc(seq(256, i => 7), true)
    ensures Body(CARRY_TABLE, CarryStruct(), 1, true) == Enc([1, 7], true)
  {
    var t, v := CARRY_TABLE, CarryStruct();
    assert TableFrom(t, 3, true);
    assert TableFrom(t, 1, true);
    assert TableFrom(t, 0, true);
    assert Reaches(t, 0, 0) && Reaches(t, 1, 1) && Reaches(t, 0, 1);
    assert Le(1, 1) + v[2].data[..1] == [1, 7];
    assert v[0].data[..256] == v[0].data;
  }

  /** The one-octet length leaves the 256 of the first array in data_len_value, and decoding fails;
      with the two TLVs exchanged the same struct comes back. */
  lemma CarryExample()
    ensures Top(CARRY_TABLE, CarryStruct())
    ensures var t, v := CARRY_TABLE, CarryStruct();
            && Arranged(t, v, [Known(0), Known(1)]) && Arranged(t, v, [Known(1), Known(0)])
            && Decode(t, Cat(t, v, [Known(0), Known(1)])) != Ok(Canon(t, v), |Cat(t, v, [Known(0), Known(1)])|)
            && Decode(t, Cat(t, v, [Known(1), Known(0)])) == Ok(Canon(t, v), |Cat(t, v, [Known(1), Known(0)])|)
  {
    var t, v := CARRY_TABLE, CarryStruct();
    CarryTableOk();
    CarryOrders();
    DecodeExact(t, v, [Known(0), Known(1)]);
    DecodeExact(t, v, [Known(1), Known(0)]);
  }

  lemma CarryOrders()
    requires Top(CARRY_TABLE, CarryStruct())
    ensures var t, v := CARRY_TABLE, CarryStruct();
            && Arranged(t, v, [Known(0), Known(1)]) && !PiecesKept(t, v, [Known(0), Known(1)], 0)
            && Arranged(t, v, [Known(1), Known(0)]) && PiecesKept(t, v, [Known(1), Known(0)], 0)
  {
    var t, v := CARRY_TABLE, CarryStruct();
    CarryTableOk();
    CarryArranged(0);
    CarryArranged(1);
    CarryKept([Known(0), Known(1)], [Known(1), Known(0)]);
  }

  lemma CarryPieces(first: nat)
    requires Top(CARRY_TABLE, CarryStruct()) && first < 2
    ensures AllPieces(CARRY_TABLE, CarryStruct(), [Known(first), Known(1 - first)])
    ensures |Cat(CARRY_TABLE, CarryStruct(), [Known(first), Known(1 - first)])| < 1000
  {
    var t, v := CARRY_TABLE, CarryStruct();
    CarryTableOk();
    var ps := [Known(first), Known(1 - first)];
    assert PieceOk(t, v, Known(0)) && PieceOk(t, v, Known(1));
    assert ps[1..] == [Known(1 - first)] && ps[1..][1..] == [];
    CatFirst(t, v, ps);
    CatFirst(t, v, ps[1..]);
  }

  /** Both orders are arrangements of the message. */
  lemma CarryArranged(first: nat)
    requires Top(CARRY_TABLE, CarryStruct()) && first < 2
    ensures Arranged(CARRY_TABLE, CarryStruct(), [Known(first), Known(1 - first)])
  {
    CarryTableOk();
    CarryPieces(first);
    var ps := [Known(first), Known(1 - first)];
    assert Known(0) == ps[first] && Known(1) == ps[1 - first];
  }

  /** Only the second is kept. */
  lemma CarryKept(ps: seq<Piece>, qs: seq<Piece>)
    requires Top(CARRY_TABLE, CarryStruct()) && ps == [Known(0), Known(1)] && qs == [Known(1), Known(0)]
    requires AllPieces(CARRY_TABLE, CarryStruct(), ps) && AllPieces(CARRY_TABLE, CarryStruct(), qs)
    ensures !PiecesKept(CARRY_TABLE, CarryStruct(), ps, 0) && PiecesKept(CARRY_TABLE, CarryStruct(), qs, 0)
  {
    var t, v := CARRY_TABLE, CarryStruct();
    CarryTableOk();
    assert ps[1..] == [Known(1)] && qs[1..] == [Known(0)] && qs[1..][1..] == [];
    assert CountAt(t, v, 0) == 256 && CountAt(t, v, 1) == 1;
    assert PiecesKept(t, v, [], 256) && PiecesKept(t, v, [Known(0)], 1);
  }

  /** A struct holding a string of up to 256 characters, whose length takes one octet. */
  const STRING_TABLE: seq<Elem> := [
    Elem(Struct, 1, 257, NoArray, 1, [Elem(String, 256, 1, NoArray, 0, []), Elem(Eoti, 0, 0, NoArray, 0, [])]),
    Elem(Eoti, 0, 0, NoArray, 0, [])
  ]

  function Sevens(n: nat): (s: seq<byte>)
    ensures |s| == n && forall i :: 0 <= i < n ==> s[i] == 7
  {
    seq(n, i => 7)
  }

  lemma {:induction false} SevensLen(n: nat)
    ensures StrLen(Sevens(n)) == n
  {
    if n > 0 {
      assert Sevens(n)[1..] == Sevens(n - 1);
      SevensLen(n - 1);
    }
  }

  function StringStruct(): seq<Slot> { [Structs([[Chars(Sevens(256))]])] }

  /** The struct inside. */
  lemma StringInside()
    ensures var ei, w := STRING_TABLE[0].ei, StringStruct()[0].elems[0];
            && NestedOk(ei) && StructOk(ei, w) && EncFrom(ei, w, 0, false).ok && |EncFrom(ei, w, 0, false).bytes| == 257
            && !KeptFrom(ei, w, 0, 0, false)
  {
    var ei, w := STRING_TABLE[0].ei, StringStruct()[0].elems[0];
    assert TableFrom(ei, 1, false);
    assert TableFrom(ei, 0, false);
    StringPayload(ei[0], w[0]);
    assert EncFrom(ei, w, 1, false) == Enc([], true);
  }

  lemma StringTableOk()
    ensures Top(STRING_TABLE, StringStruct()) && NestedOk(STRING_TABLE[0].ei)
    ensures EncFrom(STRING_TABLE[0].ei, StringStruct()[0].elems[0], 0, false).ok
    ensures |EncFrom(STRING_TABLE[0].ei, StringStruct()[0].elems[0], 0, false).bytes| == 257
    ensures !KeptFrom(STRING_TABLE[0].ei, StringStruct()[0].elems[0], 0, 0, false)
  {
    var t, v := STRING_TABLE, StringStruct();
    StringInside();
    assert TableFrom(t, 1, true);
    assert TableFrom(t, 0, true);
    assert SlotOk(t[0], v[0]);
  }

  lemma StringPayload(e: Elem, s: Slot)
    requires e == Elem(String, 256, 1, NoArray, 0, []) && s == Chars(Sevens(256))
    ensures EncPayload(e, s, 1, false) == Enc([0] + Sevens(256), true) && !PayloadKept(e, s, 1, false)
  {
    SevensLen(256);
    assert Sevens(256)[..256] == Sevens(256);
  }

  /** A nested string of exactly 256 characters is encoded, but does not come back. */
  lemma NestedStringExample()
    ensures var t, v := STRING_TABLE, StringStruct();
            && Top(t, v) && EncFrom(t, v, 0, true).ok
            && Decode(t, EncFrom(t, v, 0, true).bytes) != Ok(Canon(t, v), |EncFrom(t, v, 0, true).bytes|)
  {
    var t, v := STRING_TABLE, StringStruct();
    StringTableOk();
    assert EncStructs(t[0], v[0].elems, 1, 1) == Enc([], true);
    assert Body(t, v, 0, true).ok && |Body(t, v, 0, true).bytes| == 257;
    assert TableFrom(t, 1, true) && EncFrom(t, v, 1, true) == Enc([], true);
    assert forall g :: Reaches(t, 0, g) <==> g == 0;
    RoundTrip(t, v);
    assert !KeptFrom(t, v, 0, 0, true);
  }
}
