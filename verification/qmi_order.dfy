/** The order of the TLVs of a QMI message, and TLVs the receiver does not know. */
module QmiOrder {
  import opened Qmi
  import opened QmiDecode
  import opened QmiRoundTrip
  import opened QmiTlv
  import opened QmiTheorems

  // ----- Rearranging a message -----

  lemma {:induction false} CatConcat(t: seq<Elem>, v: seq<Slot>, a: seq<Piece>, b: seq<Piece>)
    requires Top(t, v) && AllPieces(t, v, a) && AllPieces(t, v, b)
    ensures AllPieces(t, v, a + b) && Cat(t, v, a + b) == Cat(t, v, a) + Cat(t, v, b)
    decreases |a|
  {
    if a == [] {
      assert a + b == b;
    } else {
      assert (a + b)[1..] == a[1..] + b;
      CatConcat(t, v, a[1..], b);
    }
  }

  /** No TLV of the message is of the same group as x. */
  predicate Fresh(ps: seq<Piece>, x: Piece) {
    x.Known? ==> forall i :: 0 <= i < |ps| && ps[i].Known? ==> ps[i].g != x.g
  }

  lemma FirstIsFresh(ps: seq<Piece>)
    requires ps != []
    ensures Distinct(ps) <==> Distinct(ps[1..]) && Fresh(ps[1..], ps[0])
  {
    var x, rest := ps[0], ps[1..];
    assert forall i :: 0 <= i < |rest| ==> rest[i] == ps[i + 1];
    if Distinct(rest) && Fresh(rest, x) {
      forall i, j | 0 <= i < j < |ps| && ps[i].Known? && ps[j].Known?
        ensures ps[i].g != ps[j].g
      {
        assert ps[j] == rest[j - 1] && (i > 0 ==> ps[i] == rest[i - 1]);
      }
    }
  }

  lemma FreshInside(a: seq<Piece>, x: Piece, b: seq<Piece>)
    requires Distinct(a + b) && Fresh(a + b, x)
    ensures Distinct(a + [x] + b)
  {
    var all, rest := a + [x] + b, a + b;
    forall i, j | 0 <= i < j < |all| && all[i].Known? && all[j].Known?
      ensures all[i].g != all[j].g
    {
      assert i != |a| ==> all[i] == rest[if i < |a| then i else i - 1];
      assert j != |a| ==> all[j] == rest[if j < |a| then j else j - 1];
    }
  }

  lemma TakenOut(ps: seq<Piece>, qs: seq<Piece>) returns (j: nat)
    requires ps != [] && multiset(ps) == multiset(qs)
    ensures j < |qs| && qs == qs[..j] + [ps[0]] + qs[j + 1..]
    ensures multiset(qs[..j] + qs[j + 1..]) == multiset(ps[1..])
  {
    assert ps == [ps[0]] + ps[1..];
    assert ps[0] in multiset(qs);
    j :| 0 <= j < |qs| && qs[j] == ps[0];
    var a, b := qs[..j], qs[j + 1..];
    assert qs == a + [ps[0]] + b;
    var x := multiset([ps[0]]);
    assert multiset(qs) == multiset(a) + x + multiset(b);
    assert multiset(a + b) == multiset(qs) - x;
    assert multiset(ps) == x + multiset(ps[1..]);
    assert multiset(ps[1..]) == multiset(ps) - x;
  }

  lemma SameMembers(ps: seq<Piece>, qs: seq<Piece>, x: Piece)
    requires multiset(ps) == multiset(qs) && Fresh(ps, x)
    ensures Fresh(qs, x)
  {
    forall i | 0 <= i < |qs|
      ensures qs[i] in ps
    {
      assert qs[i] in multiset(qs);
    }
  }

  /** The same TLVs in another order make a message of the same length, without repetitions if there
      were none. */
  lemma {:induction false} Permuted(t: seq<Elem>, v: seq<Slot>, ps: seq<Piece>, qs: seq<Piece>)
    requires Top(t, v) && AllPieces(t, v, ps) && Distinct(ps) && multiset(ps) == multiset(qs)
    ensures AllPieces(t, v, qs) && Distinct(qs) && |Cat(t, v, qs)| == |Cat(t, v, ps)|
    decreases |ps|
  {
    if ps == [] {
      assert |multiset(qs)| == 0;
      assert qs == [];
    } else {
      var x, rest := ps[0], ps[1..];
      var j := TakenOut(ps, qs);
      var a, b := qs[..j], qs[j + 1..];
      FirstIsFresh(ps);
      Permuted(t, v, rest, a + b);
      SameMembers(rest, a + b, x);
      FreshInside(a, x, b);
      OneInside(t, v, a, x, b);
    }
  }

  lemma OneInside(t: seq<Elem>, v: seq<Slot>, a: seq<Piece>, x: Piece, b: seq<Piece>)
    requires Top(t, v) && AllPieces(t, v, a + b) && PieceOk(t, v, x)
    ensures AllPieces(t, v, [x] + (a + b)) && AllPieces(t, v, a + [x] + b)
    ensures |Cat(t, v, a + [x] + b)| == |Cat(t, v, [x] + (a + b))|
  {
    assert forall i :: 0 <= i < |a| ==> a[i] == (a + b)[i];
    assert forall i :: 0 <= i < |b| ==> b[i] == (a + b)[|a| + i];
    CatConcat(t, v, a, b);
    CatConcat(t, v, [x], a + b);
    CatConcat(t, v, a, [x]);
    CatConcat(t, v, a + [x], b);
  }

  lemma StillArranged(t: seq<Elem>, v: seq<Slot>, ps: seq<Piece>, qs: seq<Piece>)
    requires Top(t, v) && Arranged(t, v, ps) && multiset(ps) == multiset(qs)
    ensures Arranged(t, v, qs)
  {
    Permuted(t, v, ps, qs);
    forall g | 0 <= g < |t| && Reaches(t, 0, g) && Present(t, v, g)
      ensures Known(g) in qs
    {
      assert Known(g) in multiset(ps);
    }
  }

  /** Piece j put first, the others in order after it. */
  function Moved(ps: seq<Piece>, j: nat): (qs: seq<Piece>)
    requires j < |ps|
    ensures |qs| == |ps| && qs[0] == ps[j] && (j > 0 ==> qs[1] == ps[0])
  {
    [ps[j]] + ps[..j] + ps[j + 1..]
  }

  lemma MovedSame(ps: seq<Piece>, j: nat)
    requires j < |ps|
    ensures multiset(Moved(ps, j)) == multiset(ps)
  {
    assert ps == ps[..j] + [ps[j]] + ps[j + 1..];
    assert multiset(ps) == multiset(ps[..j]) + multiset([ps[j]]) + multiset(ps[j + 1..]);
  }

  /** Any TLV of an arranged message may come first, the others staying in order. */
  lemma MovedFirst(t: seq<Elem>, v: seq<Slot>, ps: seq<Piece>, j: nat)
    requires Top(t, v) && Arranged(t, v, ps) && j < |ps|
    ensures Arranged(t, v, Moved(ps, j))
  {
    MovedSame(ps, j);
    StillArranged(t, v, ps, Moved(ps, j));
  }

  // ----- When the order does not matter -----

  /** No present group leaves a count behind that the length octets of another would not overwrite. */
  ghost predicate Unhindered(t: seq<Elem>, v: seq<Slot>)
    requires Top(t, v)
  {
    forall g, h | 0 <= g < |t| && 0 <= h < |t| && Reaches(t, 0, g) && Reaches(t, 0, h) ::
      Present(t, v, g) && Present(t, v, h) && Body(t, v, g, true).ok ==> !Carried(t, h, CountAt(t, v, g))
  }

  /** What is left to ask of each payload on its own. */
  ghost predicate PayloadsKept(t: seq<Elem>, v: seq<Slot>)
    requires Top(t, v)
  {
    forall g :: 0 <= g < |t| && Reaches(t, 0, g) && Present(t, v, g) ==> GroupKept(t, v, g, 0, true)
  }

  /** This arrangement of the struct's TLVs decodes to the struct and to its last octet. */
  ghost predicate ComesBack(t: seq<Elem>, v: seq<Slot>, ps: seq<Piece>)
    requires Top(t, v) && Arranged(t, v, ps)
  {
    Decode(t, Cat(t, v, ps)) == Ok(Canon(t, v), |Cat(t, v, ps)|)
  }

  lemma {:induction false} KeptInAnyOrder(t: seq<Elem>, v: seq<Slot>, ps: seq<Piece>, dl: nat)
    requires Top(t, v) && AllPieces(t, v, ps) && Unhindered(t, v)
    requires dl == 0 ||
             exists g :: 0 <= g < |t| && Reaches(t, 0, g) && Present(t, v, g) &&
                         Body(t, v, g, true).ok && dl == CountAt(t, v, g)
    ensures PiecesKept(t, v, ps, dl) <==>
            forall j :: 0 <= j < |ps| && ps[j].Known? ==> PieceOk(t, v, ps[j]) && GroupKept(t, v, ps[j].g, 0, true)
    decreases |ps|
  {
    if ps != [] {
      assert PieceOk(t, v, ps[0]);
      var rest := ps[1..];
      assert forall j :: 0 <= j < |rest| ==> rest[j] == ps[j+1];
      assert forall j :: 1 <= j < |ps| ==> ps[j] == rest[j-1];
      if ps[0].Known? {
        KeptInAnyOrder(t, v, rest, CountAt(t, v, ps[0].g));
        assert GroupKept(t, v, ps[0].g, dl, true) <==> GroupKept(t, v, ps[0].g, 0, true);
      } else {
        KeptInAnyOrder(t, v, rest, dl);
      }
    }
  }

  lemma ArrangedKept(t: seq<Elem>, v: seq<Slot>, ps: seq<Piece>)
    requires Top(t, v) && Arranged(t, v, ps) && Unhindered(t, v)
    ensures PiecesKept(t, v, ps, 0) <==> PayloadsKept(t, v)
  {
    KeptInAnyOrder(t, v, ps, 0);
    if PiecesKept(t, v, ps, 0) {
      forall g | 0 <= g < |t| && Reaches(t, 0, g) && Present(t, v, g)
        ensures GroupKept(t, v, g, 0, true)
      {
        var j :| 0 <= j < |ps| && ps[j] == Known(g);
        assert GroupKept(t, v, ps[j].g, 0, true);
      }
    }
    if PayloadsKept(t, v) {
      forall j | 0 <= j < |ps| && ps[j].Known?
        ensures PieceOk(t, v, ps[j]) && GroupKept(t, v, ps[j].g, 0, true)
      {
        assert PieceOk(t, v, ps[j]);
      }
    }
  }

  /** The struct is legal, and each of its TLVs and the whole message fit their lengths. */
  ghost predicate Encodable(t: seq<Elem>, v: seq<Slot>) {
    Top(t, v) && ShortBodies(t, v) && EncFrom(t, v, 0, true).ok && |EncFrom(t, v, 0, true).bytes| < 0x1_0000_0000
  }

  /** A group that is not kept on its own is not kept when its TLV comes first. */
  lemma NotKeptFirst(t: seq<Elem>, v: seq<Slot>, ps: seq<Piece>, g: nat)
    requires Top(t, v) && Arranged(t, v, ps) && Known(g) in ps && PieceOk(t, v, Known(g))
             && !GroupKept(t, v, g, 0, true)
    ensures exists qs | Arranged(t, v, qs) :: !PiecesKept(t, v, qs, 0)
  {
    var j :| 0 <= j < |ps| && ps[j] == Known(g);
    MovedFirst(t, v, ps, j);
    assert !PiecesKept(t, v, Moved(ps, j), 0);
  }

  /** A group cannot hinder itself. */
  lemma NotItself(t: seq<Elem>, v: seq<Slot>, g: nat)
    requires Top(t, v) && TableFrom(t, g, true) && !t[g].kind.Eoti? && Body(t, v, g, true).ok
    ensures !Carried(t, g, CountAt(t, v, g))
  {
    assert SlotOk(t[LenAt(t, g)], v[LenAt(t, g)]);
  }

  lemma MovedKeeps(ps: seq<Piece>, j: nat, x: Piece)
    requires j < |ps| && x in ps && x != ps[j]
    ensures exists i :: 1 <= i < |ps| && Moved(ps, j)[i] == x
  {
    var qs := Moved(ps, j);
    var i :| 0 <= i < |ps| && ps[i] == x;
    assert qs[if i < j then i + 1 else i] == x;
  }

  lemma HinderedFirst(t: seq<Elem>, v: seq<Slot>, qs: seq<Piece>, g: nat, h: nat)
    requires Top(t, v) && AllPieces(t, v, qs) && |qs| >= 2 && qs[0] == Known(g) && qs[1] == Known(h)
    requires PieceOk(t, v, Known(g)) && PieceOk(t, v, Known(h)) && Carried(t, h, CountAt(t, v, g))
    ensures !PiecesKept(t, v, qs, 0)
  {
    assert qs[1..][0] == Known(h);
  }

  /** A group that another hinders is not kept when its TLV comes right after the other's. */
  lemma HinderedNext(t: seq<Elem>, v: seq<Slot>, ps: seq<Piece>, g: nat, h: nat)
    requires Top(t, v) && Arranged(t, v, ps) && Known(g) in ps && Known(h) in ps && g != h
    requires PieceOk(t, v, Known(g)) && PieceOk(t, v, Known(h)) && Carried(t, h, CountAt(t, v, g))
    ensures exists qs | Arranged(t, v, qs) :: !PiecesKept(t, v, qs, 0)
  {
    var j :| 0 <= j < |ps| && ps[j] == Known(h);
    MovedFirst(t, v, ps, j);
    MovedKeeps(ps, j, Known(g));
    var mid := Moved(ps, j);
    var i :| 1 <= i < |mid| && mid[i] == Known(g);
    MovedFirst(t, v, mid, i);
    HinderedFirst(t, v, Moved(mid, i), g, h);
  }

  /** Every order of a struct's TLVs, with whatever unknown optional TLVs between them, decodes back
      to the struct if and only if each payload is kept on its own and no group hinders another. */
  lemma OrderIndependence(t: seq<Elem>, v: seq<Slot>)
    requires Encodable(t, v)
    ensures (forall ps | Arranged(t, v, ps) :: ComesBack(t, v, ps)) <==> PayloadsKept(t, v) && Unhindered(t, v)
  {
    OwnArranged(t, v);
    var own := Own(t, v, 0);
    if PayloadsKept(t, v) && Unhindered(t, v) {
      forall ps | Arranged(t, v, ps)
        ensures ComesBack(t, v, ps)
      {
        ArrangedKept(t, v, ps);
        DecodeExact(t, v, ps);
      }
    } else {
      NotEveryOrder(t, v, own);
      var qs :| Arranged(t, v, qs) && !PiecesKept(t, v, qs, 0);
      DecodeExact(t, v, qs);
      assert !ComesBack(t, v, qs);
    }
  }

  lemma NotEveryOrder(t: seq<Elem>, v: seq<Slot>, ps: seq<Piece>)
    requires Top(t, v) && Arranged(t, v, ps) && !(PayloadsKept(t, v) && Unhindered(t, v))
    ensures exists qs | Arranged(t, v, qs) :: !PiecesKept(t, v, qs, 0)
  {
    if !PayloadsKept(t, v) {
      var g :| 0 <= g < |t| && Reaches(t, 0, g) && Present(t, v, g) && !GroupKept(t, v, g, 0, true);
      InPlace(t, v, ps, g);
      NotKeptFirst(t, v, ps, g);
    } else {
      var g, h :| 0 <= g < |t| && 0 <= h < |t| && Reaches(t, 0, g) && Reaches(t, 0, h) && Present(t, v, g)
                  && Present(t, v, h) && Body(t, v, g, true).ok && Carried(t, h, CountAt(t, v, g));
      NotItself(t, v, g);
      InPlace(t, v, ps, g);
      InPlace(t, v, ps, h);
      HinderedNext(t, v, ps, g, h);
    }
  }

  lemma InPlace(t: seq<Elem>, v: seq<Slot>, ps: seq<Piece>, g: nat)
    requires Top(t, v) && Arranged(t, v, ps) && Reaches(t, 0, g) && Present(t, v, g)
    ensures Known(g) in ps && PieceOk(t, v, Known(g))
  {
    assert g < |t|;
    var j :| 0 <= j < |ps| && ps[j] == Known(g);
    assert PieceOk(t, v, ps[j]);
  }

  // ----- An order that always works -----

  /** Groups counted in one octet come first, those counted in two next, then all others. */
  function Rank(t: seq<Elem>, x: Piece): nat
    requires x.Known? ==> x.g < |t| && LenAt(t, x.g) < |t|
  {
    if x.Known? && Counted(t, x.g) then CountSize(t, x.g) else 3
  }

  predicate Ordered(t: seq<Elem>, v: seq<Slot>, ps: seq<Piece>)
    requires Top(t, v) && AllPieces(t, v, ps)
    decreases |ps|
  {
    |ps| <= 1 ||
    (assert PieceOk(t, v, ps[0]) && PieceOk(t, v, ps[1]); Rank(t, ps[0]) <= Rank(t, ps[1]) && Ordered(t, v, ps[1..]))
  }

  function Insert(t: seq<Elem>, v: seq<Slot>, x: Piece, ps: seq<Piece>): (qs: seq<Piece>)
    requires Top(t, v) && PieceOk(t, v, x) && AllPieces(t, v, ps)
    ensures multiset(qs) == multiset([x] + ps)
    ensures AllPieces(t, v, qs)
    decreases |ps|
  {
    if ps == [] then [x]
    else
      assert PieceOk(t, v, ps[0]);
      assert ps == [ps[0]] + ps[1..];
      if Rank(t, x) <= Rank(t, ps[0]) then [x] + ps
      else [ps[0]] + Insert(t, v, x, ps[1..])
  }

  lemma {:induction false} InsertOrders(t: seq<Elem>, v: seq<Slot>, x: Piece, ps: seq<Piece>)
    requires Top(t, v) && PieceOk(t, v, x) && AllPieces(t, v, ps) && Ordered(t, v, ps)
    ensures Ordered(t, v, Insert(t, v, x, ps))
    ensures Insert(t, v, x, ps)[0] == x || (ps != [] && Insert(t, v, x, ps)[0] == ps[0])
    decreases |ps|
  {
    if ps != [] {
      assert PieceOk(t, v, ps[0]);
      var all := Insert(t, v, x, ps);
      if Rank(t, x) <= Rank(t, ps[0]) {
        assert all[1..] == ps;
      } else {
        InsertOrders(t, v, x, ps[1..]);
        assert all[1..] == Insert(t, v, x, ps[1..]);
        assert |ps| > 1 ==> ps[1] == ps[1..][0];
      }
    }
  }

  /** The TLVs of a message by rank. */
  function Sorted(t: seq<Elem>, v: seq<Slot>, ps: seq<Piece>): (qs: seq<Piece>)
    requires Top(t, v) && AllPieces(t, v, ps)
    ensures AllPieces(t, v, qs) && multiset(qs) == multiset(ps)
    decreases |ps|
  {
    if ps == [] then []
    else
      assert PieceOk(t, v, ps[0]) && ps == [ps[0]] + ps[1..];
      Insert(t, v, ps[0], Sorted(t, v, ps[1..]))
  }

  lemma {:induction false} SortedIsOrdered(t: seq<Elem>, v: seq<Slot>, ps: seq<Piece>)
    requires Top(t, v) && AllPieces(t, v, ps)
    ensures Ordered(t, v, Sorted(t, v, ps))
    decreases |ps|
  {
    if ps != [] {
      assert PieceOk(t, v, ps[0]);
      SortedIsOrdered(t, v, ps[1..]);
      InsertOrders(t, v, ps[0], Sorted(t, v, ps[1..]));
    }
  }

  /** What may be left over before a group of this rank. */
  predicate Clear(rank: nat, dl: nat) { (rank == 1 ==> dl < 256) && (rank == 2 ==> dl < 65536) }

  /** In the order of rank no count that is left over is too large for the length octets that follow. */
  lemma {:induction false} OrderedIsKept(t: seq<Elem>, v: seq<Slot>, ps: seq<Piece>, dl: nat)
    requires Top(t, v) && AllPieces(t, v, ps) && Ordered(t, v, ps) && PayloadsKept(t, v)
    requires ps != [] ==> PieceOk(t, v, ps[0]) && Clear(Rank(t, ps[0]), dl)
    ensures PiecesKept(t, v, ps, dl)
    decreases |ps|
  {
    if ps != [] {
      var rest := ps[1..];
      assert rest != [] ==> rest[0] == ps[1] && PieceOk(t, v, ps[1]);
      if ps[0].Known? {
        var g := ps[0].g;
        NotItself(t, v, g);
        OrderedIsKept(t, v, rest, CountAt(t, v, g));
        assert g < |t| && GroupKept(t, v, g, 0, true);
      } else {
        OrderedIsKept(t, v, rest, dl);
      }
    }
  }

  /** Some order of a struct's TLVs decodes back to it if and only if each payload is kept on its own. */
  lemma SomeOrder(t: seq<Elem>, v: seq<Slot>)
    requires Encodable(t, v)
    ensures (exists ps | Arranged(t, v, ps) :: ComesBack(t, v, ps)) <==> PayloadsKept(t, v)
  {
    OwnArranged(t, v);
    var own := Own(t, v, 0);
    if PayloadsKept(t, v) {
      var ps := Sorted(t, v, own);
      SortedIsOrdered(t, v, own);
      StillArranged(t, v, own, ps);
      OrderedIsKept(t, v, ps, 0);
      DecodeExact(t, v, ps);
      assert ComesBack(t, v, ps);
    }
    if ps :| Arranged(t, v, ps) && ComesBack(t, v, ps) {
      DecodeExact(t, v, ps);
      forall g | 0 <= g < |t| && Reaches(t, 0, g) && Present(t, v, g)
        ensures GroupKept(t, v, g, 0, true)
      {
        InPlace(t, v, ps, g);
        KeptAlone(t, v, ps, 0, g);
      }
    }
  }

  /** A group kept after others would be kept on its own. */
  lemma {:induction false} KeptAlone(t: seq<Elem>, v: seq<Slot>, ps: seq<Piece>, dl: nat, g: nat)
    requires Top(t, v) && AllPieces(t, v, ps) && PiecesKept(t, v, ps, dl) && Known(g) in ps && PieceOk(t, v, Known(g))
    ensures GroupKept(t, v, g, 0, true)
    decreases |ps|
  {
    if ps[0] != Known(g) {
      assert ps == [ps[0]] + ps[1..];
      KeptAlone(t, v, ps[1..], if ps[0].Known? then CountAt(t, v, ps[0].g) else dl, g);
    }
  }

  /** The order of the TLVs decides whether the struct comes back exactly when every payload is kept
      on its own but some group hinders another. */
  lemma OrderMatters(t: seq<Elem>, v: seq<Slot>)
    requires Encodable(t, v)
    ensures (exists ps, qs | Arranged(t, v, ps) && Arranged(t, v, qs) :: ComesBack(t, v, ps) && !ComesBack(t, v, qs))
            <==> PayloadsKept(t, v) && !Unhindered(t, v)
  {
    OrderIndependence(t, v);
    SomeOrder(t, v);
  }

  // ----- Unknown TLVs between a struct's own -----

  /** Putting one unknown optional TLV between any two TLVs of an arranged message never decides
      whether the struct comes back, and adds exactly its own size. */
  lemma AlienBetween(t: seq<Elem>, v: seq<Slot>, ps: seq<Piece>, qs: seq<Piece>, tlvType: byte, data: seq<byte>)
    requires Top(t, v) && Arranged(t, v, ps + qs) && PieceOk(t, v, Alien(tlvType, data))
    requires |Cat(t, v, ps + qs)| + HEADER + |data| < 0x1_0000_0000
    ensures Arranged(t, v, ps + [Alien(tlvType, data)] + qs)
    ensures var with, without := Cat(t, v, ps + [Alien(tlvType, data)] + qs), Cat(t, v, ps + qs);
            && |with| == |without| + HEADER + |data|
            && (Decode(t, with) == Ok(Canon(t, v), |with|) <==> Decode(t, without) == Ok(Canon(t, v), |without|))
  {
    var a := Alien(tlvType, data);
    AlienArranged(t, v, ps, qs, a);
    AlienInside(t, v, ps, qs, a, 0);
    DecodeExact(t, v, ps + [a] + qs);
    DecodeExact(t, v, ps + qs);
  }

  lemma AlienInside(t: seq<Elem>, v: seq<Slot>, ps: seq<Piece>, qs: seq<Piece>, a: Piece, dl: nat)
    requires Top(t, v) && AllPieces(t, v, ps + qs) && AllPieces(t, v, ps + [a] + qs) && a.Alien?
    ensures |Cat(t, v, ps + [a] + qs)| == |Cat(t, v, ps + qs)| + HEADER + |a.data|
    ensures PiecesKept(t, v, ps + [a] + qs, dl) <==> PiecesKept(t, v, ps + qs, dl)
    decreases |ps|
  {
    if ps == [] {
      assert ps + [a] + qs == [a] + qs && ps + qs == qs && ([a] + qs)[1..] == qs;
      CatFirst(t, v, [a] + qs);
    } else {
      var x := ps[0];
      assert (ps + [a] + qs)[0] == x && (ps + qs)[0] == x;
      assert (ps + [a] + qs)[1..] == ps[1..] + [a] + qs && (ps + qs)[1..] == ps[1..] + qs;
      CatFirst(t, v, ps + [a] + qs);
      CatFirst(t, v, ps + qs);
      AlienInside(t, v, ps[1..], qs, a, if x.Known? then CountAt(t, v, x.g) else dl);
    }
  }

  lemma AlienArranged(t: seq<Elem>, v: seq<Slot>, ps: seq<Piece>, qs: seq<Piece>, a: Piece)
    requires Top(t, v) && Arranged(t, v, ps + qs) && a.Alien? && PieceOk(t, v, a)
    requires |Cat(t, v, ps + qs)| + HEADER + |a.data| < 0x1_0000_0000
    ensures Arranged(t, v, ps + [a] + qs)
  {
    FreshInside(ps, a, qs);
    var all := ps + [a] + qs;
    forall i | 0 <= i < |all|
      ensures PieceOk(t, v, all[i])
    {
      assert all[i] == a || all[i] == (ps + qs)[if i < |ps| then i else i - 1];
    }
    forall g | 0 <= g < |t| && Reaches(t, 0, g) && Present(t, v, g)
      ensures Known(g) in all
    {
      assert Known(g) in ps + qs;
    }
    AlienInside(t, v, ps, qs, a, 0);
  }
}
