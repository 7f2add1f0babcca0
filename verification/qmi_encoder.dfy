/** lib/qmi.c, qmi_encode and its helpers writing into a buffer in place, headers back-patched,
    proved against `Qmi.EncFrom` and `QmiRoom.TryFrom`: when they succeed, what they write, and what
    they leave alone. */
module QmiEncoder {
  import opened Qmi
  import opened QmiBuffer
  import opened QmiRoom

  const EINVAL: int := -22

  /** Buffers are smaller than 2 GiB, so that no sum in a check wraps around at 32 bits. */
  predicate Small(s: seq<byte>) { |s| < 0x7fff_fff0 }

  /** What an encoding step does to a buffer: all of x if every check passes, else EINVAL and nothing
      beyond where it stopped. */
  ghost predicate Put(was: seq<byte>, now: seq<byte>, at: nat, x: Enc, r: Trial, rc: int) {
    && (rc >= 0 <==> r.ok)
    && (rc >= 0 ==> rc == |x.bytes| && Holds(was, at, x.bytes, now))
    && (rc < 0 ==> rc == EINVAL && Outside(was, now, at, at + r.size))
  }

  /** The buffer is as long as the encoder gets. */
  predicate RoomFor(s: seq<byte>, at: nat, r: Trial) { Small(s) && (r.size > 0 ==> at + r.size <= |s|) }

  /** What a whole struct encodes to, and how far the encoder gets in it. */
  ghost function Encoding(t: seq<Elem>, v: seq<Slot>, top: bool): Enc
    requires TableFrom(t, 0, top) && StructOk(t, v)
  {
    EncFrom(t, v, 0, top)
  }

  ghost function Attempt(t: seq<Elem>, v: seq<Slot>, cap: u32, top: bool): Trial
    requires TableFrom(t, 0, top) && StructOk(t, v)
  {
    TryFrom(t, v, 0, 0, cap, top)
  }

  // ----- What has been written so far -----

  /** One call of qmi_encode: the buffer before it, the table, the struct, where to write, how much. */
  datatype Call = Call(was: seq<byte>, t: seq<Elem>, v: seq<Slot>, off: nat, cap: u32, top: bool)

  ghost predicate CallOk(j: Call) {
    && TableFrom(j.t, 0, j.top) && StructOk(j.t, j.v) && (j.top || NestedOk(j.t))
    && RoomFor(j.was, j.off, Attempt(j.t, j.v, j.cap, j.top))
  }

  const NOTHING: seq<Elem> := [Elem(Eoti, 0, 0, NoArray, 0, [])]

  type Job = j: Call | CallOk(j) ghost witness Call([], NOTHING, [], 0, 0, true)

  ghost function All(j: Job): Enc { Encoding(j.t, j.v, j.top) }

  /** How far this call gets. */
  ghost function Goal(j: Job): Trial { Attempt(j.t, j.v, j.cap, j.top) }

  ghost function End(j: Job): nat { j.off + Goal(j).size }

  /** Finished groups, a gap for the next header, part of a group. */
  ghost predicate Written(j: Call, now: seq<byte>, done: seq<byte>, pend: seq<byte>) {
    var at := j.off + |done| + Hole(j.top);
    (|done| > 0 ==> j.off + |done| <= |j.was|) && Holds(Splice(j.was, j.off, done), at, pend, now)
  }

  lemma WrittenMore(j: Call, now: seq<byte>, done: seq<byte>, pend: seq<byte>, x: seq<byte>)
    requires Written(j, now, done, pend)
    requires x == [] || j.off + |done| + Hole(j.top) + |pend| + |x| <= |j.was|
    ensures Written(j, Splice(now, j.off + |done| + Hole(j.top) + |pend|, x), done, pend + x)
  {
    HoldsMore(Splice(j.was, j.off, done), j.off + |done| + Hole(j.top), pend, now, x);
  }

  /** Below the top level nothing separates a group from the next. */
  lemma WrittenNested(j: Call, now: seq<byte>, done: seq<byte>, pend: seq<byte>)
    requires Written(j, now, done, pend) && !j.top
    ensures Written(j, now, done + pend, [])
  {
    SpliceNext(j.was, j.off, done, pend);
  }

  /** The back-patched header completes the group's TLV. */
  lemma WrittenHeader(j: Call, now: seq<byte>, done: seq<byte>, pend: seq<byte>, tlvType: byte)
    requires Written(j, now, done, pend) && j.top && j.off + |done| + HEADER + |pend| <= |j.was|
    ensures Written(j, Splice(now, j.off + |done|, [tlvType] + Le(|pend|, 2)), done + Tlv(tlvType, pend), [])
  {
    var head := [tlvType] + Le(|pend|, 2);
    SplicePatched(j.was, j.off, done, head, pend);
    assert head + pend == Tlv(tlvType, pend);
  }

  lemma WrittenOutside(j: Call, now: seq<byte>, done: seq<byte>, pend: seq<byte>, end: nat)
    requires Written(j, now, done, pend)
    requires (done == [] || j.off + |done| <= end) && (pend == [] || j.off + |done| + Hole(j.top) + |pend| <= end)
    ensures Outside(j.was, now, j.off, end)
  {
    SpliceOutside(Splice(j.was, j.off, done), j.off + |done| + Hole(j.top), pend, j.off, end);
    OutsideAfter(j.was, j.off, done, now, j.off, end);
  }

  // ----- The position of the encoder in a table -----

  /** The groups before g have been encoded as `done`, and got through every check. */
  ghost predicate AtGroup(j: Job, g: nat, done: seq<byte>)
  {
    && TableFrom(j.t, g, j.top)
    && All(j) == Then(Enc(done, true), EncFrom(j.t, j.v, g, j.top))
    && Goal(j) == Join(Trial(|done|, true), TryFrom(j.t, j.v, g, |done|, j.cap, j.top))
  }

  ghost predicate AtPresent(j: Job, g: nat, done: seq<byte>)
  {
    AtGroup(j, g, done) && !j.t[g].kind.Eoti? && Present(j.t, j.v, g)
  }

  ghost function BodyOf(j: Job, g: nat): Enc
    requires TableFrom(j.t, g, j.top) && !j.t[g].kind.Eoti?
  {
    Body(j.t, j.v, g, j.top)
  }

  ghost function FramedOf(j: Job, g: nat): seq<byte>
    requires TableFrom(j.t, g, j.top) && !j.t[g].kind.Eoti?
  {
    Framed(j.t, j.v, g, j.top).bytes
  }

  /** How far the encoder gets in group g, `used` octets into the buffer. */
  ghost function TryOf(j: Job, g: nat, used: nat): Trial
    requires TableFrom(j.t, g, j.top) && !j.t[g].kind.Eoti?
  {
    TryBody(j.t, j.v, g, used, j.cap, j.top)
  }

  /** Entry k of the group g is next; `pend` is what was written of the group. */
  ghost predicate Within(t: seq<Elem>, v: seq<Slot>, g: nat, k: nat, dl: nat, pend: seq<byte>)
    requires g < |t| && !t[g].kind.Eoti? && GroupOk(t, g) && StructOk(t, v)
  {
    if k == PayAt(t, g) && Counted(t, g) then
      dl == CountAt(t, v, g) && dl > 0 && pend == Le(dl, CountSize(t, g))
    else
      pend == [] && (k == LenAt(t, g) || k == PayAt(t, g))
  }

  /** Everything the loop of qmi_encode keeps; entry k is next. */
  ghost predicate Midway(j: Job, now: seq<byte>, g: nat, k: nat, dl: nat, done: seq<byte>, pend: seq<byte>)
  {
    && AtGroup(j, g, done) && k < |j.t|
    && (if k == g then pend == [] else AtPresent(j, g, done) && Within(j.t, j.v, g, k, dl, pend))
    && Written(j, now, done, pend)
    && (pend != [] ==> Fits(|done| + |pend|, j.cap))
  }

  /** Group g is complete but for its header. */
  ghost predicate Closing(j: Job, now: seq<byte>, g: nat, done: seq<byte>)
  {
    && AtPresent(j, g, done) && TryOf(j, g, |done|).ok && Written(j, now, done, BodyOf(j, g).bytes)
    && (j.top ==> j.off + |done| + HEADER + |BodyOf(j, g).bytes| <= |j.was|)
  }

  /** The encoder may give up: a check fails. */
  ghost predicate Hopeless(j: Job, now: seq<byte>)
  {
    !Goal(j).ok && Outside(j.was, now, j.off, End(j))
  }

  lemma StartsAt(j: Job)
    ensures Midway(j, j.was, 0, 0, 0, [], [])
  {
    assert [] + All(j).bytes == All(j).bytes;
  }

  /** How far the encoder gets includes how far it gets in the group ahead. */
  lemma TryGroupAhead(j: Job, g: nat, done: seq<byte>)
    requires AtPresent(j, g, done)
    ensures var b := TryOf(j, g, |done|);
            && (b.ok || b.size > 0 ==> Goal(j).size >= |done| + Hole(j.top) + b.size)
            && (!b.ok ==> !Goal(j).ok)
            && (b.ok ==>
                  var used := |done| + Hole(j.top) + b.size;
                  Goal(j) == Join(Trial(used, true), TryFrom(j.t, j.v, PayAt(j.t, g) + 1, used, j.cap, j.top)))
  {
    var one := TryGroup(j.t, j.v, g, |done|, j.cap, j.top);
    var rest := TryFrom(j.t, j.v, PayAt(j.t, g) + 1, |done| + one.size, j.cap, j.top);
    assert TryFrom(j.t, j.v, g, |done|, j.cap, j.top) == Join(one, rest);
  }

  /** There is room for a group that passes every check. */
  lemma BodyInBuffer(j: Job, g: nat, done: seq<byte>)
    requires AtPresent(j, g, done) && TryOf(j, g, |done|).ok
    ensures |BodyOf(j, g).bytes| == TryOf(j, g, |done|).size
    ensures j.off + |done| + Hole(j.top) + |BodyOf(j, g).bytes| <= |j.was|
            || |done| + Hole(j.top) + |BodyOf(j, g).bytes| == 0
  {
    TryGroupAhead(j, g, done);
    BodyTried(j.t, j.v, g, |done|, j.cap, j.top);
  }

  /** The group ahead is all or part of what is still to be encoded. */
  lemma GroupAhead(j: Job, g: nat, done: seq<byte>)
    requires AtPresent(j, g, done)
    ensures var b := TryOf(j, g, |done|);
            && (b.ok || b.size > 0 ==> Goal(j).size >= |done| + Hole(j.top) + b.size)
            && if b.ok then BodyOf(j, g).ok && |BodyOf(j, g).bytes| == b.size
              && AtGroup(j, PayAt(j.t, g) + 1, done + FramedOf(j, g))
               else !Goal(j).ok
  {
    TryGroupAhead(j, g, done);
    if TryOf(j, g, |done|).ok {
      NextGroup(j, g, done);
    }
  }

  lemma NextGroup(j: Job, g: nat, done: seq<byte>)
    requires AtPresent(j, g, done) && TryOf(j, g, |done|).ok
    ensures BodyOf(j, g).ok && |BodyOf(j, g).bytes| == TryOf(j, g, |done|).size
    ensures AtGroup(j, PayAt(j.t, g) + 1, done + FramedOf(j, g))
  {
    TryGroupAhead(j, g, done);
    BodyTried(j.t, j.v, g, |done|, j.cap, j.top);
    EncGroupAhead(j.t, j.v, g, j.top, done);
  }

  lemma EncGroupAhead(t: seq<Elem>, v: seq<Slot>, g: nat, top: bool, done: seq<byte>)
    requires TableFrom(t, g, top) && StructOk(t, v) && !t[g].kind.Eoti? && Present(t, v, g) && Body(t, v, g, top).ok
    ensures var f, next := Framed(t, v, g, top).bytes, PayAt(t, g) + 1;
            && |f| == Hole(top) + |Body(t, v, g, top).bytes|
            && Then(Enc(done, true), EncFrom(t, v, g, top)) == Then(Enc(done + f, true), EncFrom(t, v, next, top))
  {
    var f, rest := Framed(t, v, g, top), EncFrom(t, v, PayAt(t, g) + 1, top);
    assert EncFrom(t, v, g, top) == Then(f, rest);
    assert done + (f.bytes + rest.bytes) == done + f.bytes + rest.bytes;
  }

  /** How far the encoder gets in a group, from its count on. */
  lemma TryAhead(t: seq<Elem>, v: seq<Slot>, g: nat, used: nat, cap: u32, top: bool)
    requires TableFrom(t, g, top) && !t[g].kind.Eoti? && StructOk(t, v)
    ensures var n, size, r := CountAt(t, v, g), CountSize(t, g), TryBody(t, v, g, used, cap, top);
            && (n > t[PayAt(t, g)].elemLen ==> Counted(t, g) && !r.ok)
            && (Counted(t, g) && !Fits(used + size, cap) ==> r == Trial(0, false))
            && (Counted(t, g) && Fits(used + size, cap) ==> r.size >= size)
            && (Counted(t, g) && Fits(used + size, cap) && n == 0 ==> r == Trial(size, true))
            && (0 < n <= t[PayAt(t, g)].elemLen && (Counted(t, g) ==> Fits(used + size, cap)) ==>
                  r == Join(Trial(size, true), TryPayload(t[PayAt(t, g)], v[PayAt(t, g)], n, used + size, cap, top)))
  {
    var p := PayAt(t, g);
    assert SlotOk(t[p], v[p]);
  }

  /** The body of a group, from its count on. */
  lemma BodyAhead(t: seq<Elem>, v: seq<Slot>, g: nat, top: bool)
    requires TableFrom(t, g, top) && !t[g].kind.Eoti? && StructOk(t, v)
    ensures var n, b, count := CountAt(t, v, g), Body(t, v, g, top), Le(CountAt(t, v, g), CountSize(t, g));
            && (Counted(t, g) ==> |b.bytes| >= |count|)
            && (Counted(t, g) && n == 0 ==> b == Enc(count, true))
            && (n > t[PayAt(t, g)].elemLen ==> Counted(t, g) && !b.ok)
            && (0 < n <= t[PayAt(t, g)].elemLen ==>
                  b == Then(Enc(if Counted(t, g) then count else [], true),
                            EncPayload(t[PayAt(t, g)], v[PayAt(t, g)], n, top)))
  {
    var p := PayAt(t, g);
    assert SlotOk(t[p], v[p]);
    var n := CountAt(t, v, g);
    if !Counted(t, g) {
      var x := EncPayload(t[p], v[p], n, top);
      assert [] + x.bytes == x.bytes;
    }
  }

  /** Which entry of group g entry k is. */
  lemma Where(j: Job, now: seq<byte>, g: nat, k: nat, dl: nat, done: seq<byte>, pend: seq<byte>)
    requires Midway(j, now, g, k, dl, done, pend) && !j.t[k].kind.Eoti?
    ensures !j.t[g].kind.Eoti? && k < |j.v| && SlotOk(j.t[k], j.v[k])
    ensures j.t[k].kind.OptFlag? ==> k == g < PayAt(j.t, g) && j.top && j.t[k].arrayType.NoArray?
    ensures !j.t[k].kind.OptFlag? ==> AtPresent(j, g, done)
    ensures j.t[k].kind.DataLen? ==> k == LenAt(j.t, g) && Counted(j.t, g) && pend == [] && j.t[k].arrayType.NoArray?
    ensures !j.t[k].kind.OptFlag? && !j.t[k].kind.DataLen? ==>
              k == PayAt(j.t, g) && PayloadOk(j.t[k]) && (j.t[k].kind.Struct? ==> NestedOk(j.t[k].ei))
              && (if Counted(j.t, g) then dl == CountAt(j.t, j.v, g) > 0 && pend == Le(dl, CountSize(j.t, g))
                  else pend == [])
  {
    assert SlotOk(j.t[k], j.v[k]);
  }

  /** What was written is inside what the encoder reaches. */
  lemma PrefixInside(j: Job, now: seq<byte>, g: nat, k: nat, dl: nat, done: seq<byte>, pend: seq<byte>)
    requires Midway(j, now, g, k, dl, done, pend)
    ensures Outside(j.was, now, j.off, End(j))
  {
    if pend != [] {
      TryAhead(j.t, j.v, g, |done|, j.cap, j.top);
      TryGroupAhead(j, g, done);
    }
    WrittenOutside(j, now, done, pend, End(j));
  }

  /** A flag either leads into its group or past it. */
  lemma PassFlag(j: Job, now: seq<byte>, g: nat, k: nat, dl: nat, done: seq<byte>, pend: seq<byte>)
    requires Midway(j, now, g, k, dl, done, pend) && j.t[k].kind.OptFlag?
    ensures k == g < PayAt(j.t, g) && j.top && k < |j.v| && j.v[k].Flag? && pend == []
    ensures var p := if j.v[k].flag != 0 then k + 1 else PayAt(j.t, g) + 1;
            Midway(j, now, if j.v[k].flag != 0 then g else p, p, 1, done, [])
  {
    Where(j, now, g, k, dl, done, pend);
  }

  /** A group that is complete joins those done. */
  lemma PassGroup(j: Job, now: seq<byte>, g: nat, dl: nat, done: seq<byte>)
    requires AtPresent(j, g, done) && TryOf(j, g, |done|).ok && Written(j, now, done + FramedOf(j, g), [])
    ensures Midway(j, now, PayAt(j.t, g) + 1, PayAt(j.t, g) + 1, dl, done + FramedOf(j, g), [])
  {
    NextGroup(j, g, done);
  }

  // ----- The position in an array of structs -----

  /** Structs before i have been encoded as `done`, and got through every check. */
  ghost predicate Among(was: seq<byte>, now: seq<byte>, at: nat, e: Elem, elems: seq<seq<Slot>>, i: nat, n: nat,
                        done: seq<byte>, cap: u32)
    requires i <= n <= |elems| && NestedOk(e.ei) && AllOk(e.ei, elems)
  {
    && RoomFor(was, at, TryStructs(e, elems, 0, n, 0, cap))
    && Holds(was, at, done, now)
    && EncStructs(e, elems, 0, n) == Then(Enc(done, true), EncStructs(e, elems, i, n))
    && TryStructs(e, elems, 0, n, 0, cap) == Join(Trial(|done|, true), TryStructs(e, elems, i, n, |done|, cap))
  }

  lemma TryStructAhead(e: Elem, elems: seq<seq<Slot>>, i: nat, n: nat, used: nat, cap: u32)
    requires i < n <= |elems| && NestedOk(e.ei) && AllOk(e.ei, elems)
    requires TryStructs(e, elems, 0, n, 0, cap) == Join(Trial(used, true), TryStructs(e, elems, i, n, used, cap))
    ensures var r, all := Attempt(e.ei, elems[i], Left(cap, used), false), TryStructs(e, elems, 0, n, 0, cap);
            && all.size >= used + r.size
            && if r.ok then all == Join(Trial(used + r.size, true), TryStructs(e, elems, i + 1, n, used + r.size, cap))
               else !all.ok && all.size == used + r.size
  {
    var r := Attempt(e.ei, elems[i], Left(cap, used), false);
    assert TryStructs(e, elems, i, n, used, cap) == Join(r, TryStructs(e, elems, i + 1, n, used + r.size, cap));
  }

  lemma EncStructAhead(e: Elem, elems: seq<seq<Slot>>, i: nat, n: nat, done: seq<byte>)
    requires i < n <= |elems| && NestedOk(e.ei) && AllOk(e.ei, elems) && Encoding(e.ei, elems[i], false).ok
    requires EncStructs(e, elems, 0, n) == Then(Enc(done, true), EncStructs(e, elems, i, n))
    ensures EncStructs(e, elems, 0, n) == Then(Enc(done + Encoding(e.ei, elems[i], false).bytes, true),
                                               EncStructs(e, elems, i + 1, n))
  {
    var x, rest := Encoding(e.ei, elems[i], false), EncStructs(e, elems, i + 1, n);
    assert EncStructs(e, elems, i, n) == Then(x, rest);
    assert done + (x.bytes + rest.bytes) == done + x.bytes + rest.bytes;
  }

  /** There is room for the struct ahead as far as the encoder gets in it. */
  lemma StructAhead(was: seq<byte>, now: seq<byte>, at: nat, e: Elem, elems: seq<seq<Slot>>, i: nat, n: nat,
                    done: seq<byte>, cap: u32)
    requires i < n <= |elems| && NestedOk(e.ei) && AllOk(e.ei, elems)
    requires Among(was, now, at, e, elems, i, n, done, cap)
    ensures RoomFor(now, at + |done|, Attempt(e.ei, elems[i], Left(cap, |done|), false))
  {
    TryStructAhead(e, elems, i, n, |done|, cap);
  }

  /** One more struct. */
  lemma StructDone(was: seq<byte>, mid: seq<byte>, now: seq<byte>, at: nat, e: Elem, elems: seq<seq<Slot>>,
                   i: nat, n: nat, done: seq<byte>, used: nat, cap: u32, x: Enc, r: Trial, rc: int)
    requires i < n <= |elems| && NestedOk(e.ei) && AllOk(e.ei, elems)
    requires Among(was, mid, at, e, elems, i, n, done, cap)
    requires x == Encoding(e.ei, elems[i], false) && r == Attempt(e.ei, elems[i], Left(cap, used), false)
    requires used == |done| && Put(mid, now, at + used, x, r, rc)
    ensures if rc < 0 then Put(was, now, at, EncStructs(e, elems, 0, n), TryStructs(e, elems, 0, n, 0, cap), rc)
            else Among(was, now, at, e, elems, i + 1, n, done + x.bytes, cap)
  {
    TryStructAhead(e, elems, i, n, |done|, cap);
    if rc < 0 {
      OutsideAfter(was, at, done, now, at + |done|, at + TryStructs(e, elems, 0, n, 0, cap).size);
    } else {
      Tried(e.ei, elems[i], 0, 0, Left(cap, |done|), false);
      EncStructAhead(e, elems, i, n, done);
      SpliceNext(was, at, done, x.bytes);
    }
  }

  lemma StructsStart(was: seq<byte>, at: nat, e: Elem, elems: seq<seq<Slot>>, n: nat, cap: u32)
    requires n <= |elems| && NestedOk(e.ei) && AllOk(e.ei, elems)
             && RoomFor(was, at, TryStructs(e, elems, 0, n, 0, cap))
    ensures Among(was, was, at, e, elems, 0, n, [], cap)
  {
    assert [] + EncStructs(e, elems, 0, n).bytes == EncStructs(e, elems, 0, n).bytes;
  }

  lemma StructsEnd(was: seq<byte>, now: seq<byte>, at: nat, e: Elem, elems: seq<seq<Slot>>, n: nat, done: seq<byte>,
                   cap: u32)
    requires n <= |elems| && NestedOk(e.ei) && AllOk(e.ei, elems) && Among(was, now, at, e, elems, n, n, done, cap)
    ensures EncStructs(e, elems, 0, n) == Enc(done, true) && TryStructs(e, elems, 0, n, 0, cap) == Trial(|done|, true)
  {
    assert done + [] == done;
  }

  // ----- The encoder -----

  /** skip_to_next_elem: below the top level the next entry; at the top level the next TLV type. */
  method SkipToNext(t: seq<Elem>, ghost g: nat, from: nat, top: bool) returns (k: nat)
    requires TableFrom(t, g, top) && !t[g].kind.Eoti?
    requires g <= from <= PayAt(t, g) && g < PayAt(t, g) && (!top ==> from == PayAt(t, g))
    ensures k == PayAt(t, g) + 1
  {
    k := from;
    if !top {
      k := k + 1;
    } else {
      var tlvType := t[k].tlvType;
      k := k + 1;
      while tlvType == t[k].tlvType
        invariant from < k <= PayAt(t, g) + 1 && tlvType == t[g].tlvType
        decreases |t| - k
      {
        tlvType := t[k].tlvType;
        k := k + 1;
      }
    }
  }

  lemma StringParts(s: seq<byte>, at: nat, e: Elem, chars: seq<byte>, top: bool)
    requires PayloadOk(e) && e.kind.String? && StrLen(chars) <= e.elemLen
    requires var x := EncPayload(e, Chars(chars), 1, top).bytes; x == [] || at + |x| <= |s|
    ensures var head, text := if top then [] else Le(StrLen(chars), StrSize(e)), chars[..StrLen(chars)];
            EncPayload(e, Chars(chars), 1, top) == Enc(head + text, true)
            && Splice(Splice(s, at, head), at + |head|, text) == Splice(s, at, head + text)
  {
    SpliceNext(s, at, if top then [] else Le(StrLen(chars), StrSize(e)), chars[..StrLen(chars)]);
  }

  /** qmi_encode_string_elem */
  method EncodeString(buf: array<byte>, at: nat, e: Elem, chars: seq<byte>, cap: u32, top: bool, ghost r: Trial)
      returns (rc: int)
    requires PayloadOk(e) && e.kind.String? && RoomFor(buf[..], at, r)
    requires r == if StrLen(chars) <= e.elemLen && StringCheck(e, StrLen(chars), cap, top)
                  then Trial(|EncPayload(e, Chars(chars), 1, top).bytes|, true) else Trial(0, false)
    modifies buf
    ensures Put(old(buf[..]), buf[..], at, EncPayload(e, Chars(chars), 1, top), r, rc)
  {
    var len := StrLen(chars);
    var lenSize := StrSize(e);
    if len > e.elemLen {
      return EINVAL;
    }
    ghost var was := buf[..];
    ghost var head := if top then [] else Le(len, lenSize);
    rc := 0;
    if !StringCheck(e, len, cap, top) {
      return EINVAL;
    }
    StringParts(was, at, e, chars, top);
    if !top {
      rc := EncodeCount(buf, at, len, lenSize);
    }
    var more := EncodeText(buf, at + rc, e, chars, len);
    rc := rc + more;
  }

  /** The payload cases of the switch in qmi_encode. */
  method EncodeElem(buf: array<byte>, at: nat, e: Elem, s: Slot, n: nat, enc: nat, cap: u32, top: bool)
      returns (rc: int)
    requires PayloadOk(e) && SlotOk(e, s) && 0 < n <= e.elemLen && (e.kind.Struct? ==> NestedOk(e.ei))
    requires RoomFor(buf[..], at, TryOn(e, s, n, enc, cap, top)) && enc < 0x7fff_fff0
    modifies buf
    ensures Put(old(buf[..]), buf[..], at, PayloadOf(e, s, n, top), TryOn(e, s, n, enc, cap, top), rc)
    decreases e, 2
  {
    if e.kind.Struct? {
      rc := EncodeStructs(buf, at, e, s.elems, n, Left(cap, enc));
    } else if e.kind.String? {
      rc := EncodeString(buf, at, e, s.chars, Left(cap, enc), top, TryPayload(e, s, n, enc, cap, top));
    } else {
      FewerOctets(n, e.elemLen, e.elemSize);
      var need: u32 := n * e.elemSize + enc + HEADER;
      if need > cap {
        return EINVAL;
      }
      rc := EncodeBasic(buf, at, s.data, n, e.elemSize);
    }
  }

  /** One round of the loop of qmi_encode_struct_elem. */
  method EncodeStruct(buf: array<byte>, at: nat, e: Elem, elems: seq<seq<Slot>>, i: nat, n: nat, encoded: nat, cap: u32,
                      ghost was: seq<byte>, ghost done: seq<byte>) returns (rc: int)
    requires i < n <= |elems| && NestedOk(e.ei) && AllOk(e.ei, elems) && encoded == |done|
    requires Among(was, buf[..], at, e, elems, i, n, done, cap)
    modifies buf
    ensures rc < 0 ==> Put(was, buf[..], at, EncStructs(e, elems, 0, n), TryStructs(e, elems, 0, n, 0, cap), rc)
    ensures rc >= 0 ==> rc == |Encoding(e.ei, elems[i], false).bytes|
                        && Among(was, buf[..], at, e, elems, i + 1, n,
                                 done + Encoding(e.ei, elems[i], false).bytes, cap)
    decreases e, 0
  {
    ghost var mid := buf[..];
    ghost var x, r := Encoding(e.ei, elems[i], false), Attempt(e.ei, elems[i], Left(cap, encoded), false);
    StructAhead(was, mid, at, e, elems, i, n, done, cap);
    rc := Encode(e.ei, buf, at + encoded, elems[i], Left(cap, encoded), false);
    StructDone(was, mid, buf[..], at, e, elems, i, n, done, encoded, cap, x, r, rc);
  }

  /** qmi_encode_struct_elem */
  method EncodeStructs(buf: array<byte>, at: nat, e: Elem, elems: seq<seq<Slot>>, n: nat, cap: u32) returns (rc: int)
    requires 0 < n <= |elems| && NestedOk(e.ei) && AllOk(e.ei, elems)
    requires RoomFor(buf[..], at, TryStructs(e, elems, 0, n, 0, cap))
    modifies buf
    ensures Put(old(buf[..]), buf[..], at, EncStructs(e, elems, 0, n), TryStructs(e, elems, 0, n, 0, cap), rc)
    decreases e, 1
  {
    ghost var was, done: seq<byte> := buf[..], [];
    var i, encoded := 0, 0;
    StructsStart(was, at, e, elems, n, cap);
    while i < n
      invariant 0 <= i <= n && encoded == |done|
      invariant Among(was, buf[..], at, e, elems, i, n, done, cap)
    {
      rc := EncodeStruct(buf, at, e, elems, i, n, encoded, cap, was, done);
      if rc < 0 {
        return;
      }
      done := done + Encoding(e.ei, elems[i], false).bytes;
      encoded := encoded + rc;
      i := i + 1;
    }
    StructsEnd(was, buf[..], at, e, elems, n, done, cap);
    rc := encoded;
  }

  lemma Entry(j: Job, now: seq<byte>, g: nat, k: nat, dl: nat, done: seq<byte>, pend: seq<byte>)
    requires Midway(j, now, g, k, dl, done, pend) && !j.t[k].kind.Eoti?
    ensures k < |j.v| && TableFrom(j.t, g, j.top) && !j.t[g].kind.Eoti?
            && (j.t[k].kind.OptFlag? ==> j.t[k].arrayType.NoArray?)
  {
    Where(j, now, g, k, dl, done, pend);
  }

  /** What a payload encodes to, and how far the encoder gets in it. */
  ghost function PayloadOf(e: Elem, s: Slot, n: nat, top: bool): Enc
    requires PayloadOk(e) && SlotOk(e, s) && n <= e.elemLen && (e.kind.Struct? ==> NestedOk(e.ei))
  {
    EncPayload(e, s, n, top)
  }

  ghost function TryOn(e: Elem, s: Slot, n: nat, used: nat, cap: u32, top: bool): Trial
    requires PayloadOk(e) && SlotOk(e, s) && n <= e.elemLen && (e.kind.Struct? ==> NestedOk(e.ei))
  {
    TryPayload(e, s, n, used, cap, top)
  }

  /** What is known of a payload before it is encoded. */
  lemma PayloadAhead(j: Job, now: seq<byte>, g: nat, k: nat, dl: nat, done: seq<byte>, pend: seq<byte>, n: nat)
    requires Midway(j, now, g, k, dl, done, pend) && AtPresent(j, g, done) && k == PayAt(j.t, g)
    requires n == CountAt(j.t, j.v, g) && 0 < n <= j.t[k].elemLen && PayloadOk(j.t[k]) && SlotOk(j.t[k], j.v[k])
    requires (j.t[k].kind.Struct? ==> NestedOk(j.t[k].ei)) && |pend| == CountSize(j.t, g)
    requires Counted(j.t, g) ==> pend == Le(n, CountSize(j.t, g))
    ensures var x := PayloadOf(j.t[k], j.v[k], n, j.top); BodyOf(j, g) == Enc(pend + x.bytes, x.ok)
  {
    var x := PayloadOf(j.t[k], j.v[k], n, j.top);
    BodyAhead(j.t, j.v, g, j.top);
    assert [] + x.bytes == x.bytes;
  }

  /** How far the encoder gets in a group is how far it gets in its payload. */
  lemma TryPayloadAhead(t: seq<Elem>, v: seq<Slot>, g: nat, used: nat, cap: u32, top: bool)
    requires TableFrom(t, g, top) && !t[g].kind.Eoti? && StructOk(t, v)
    requires 0 < CountAt(t, v, g) <= t[PayAt(t, g)].elemLen && (Counted(t, g) ==> Fits(used + CountSize(t, g), cap))
    ensures var p, n, size := PayAt(t, g), CountAt(t, v, g), CountSize(t, g);
            && SlotOk(t[p], v[p])
            && TryBody(t, v, g, used, cap, top) == Join(Trial(size, true), TryOn(t[p], v[p], n, used + size, cap, top))
  {
    TryAhead(t, v, g, used, cap, top);
  }

  /** There is room for it as far as the encoder gets in it. */
  lemma PayloadRoom(j: Job, g: nat, done: seq<byte>, pend: seq<byte>, r: Trial)
    requires AtPresent(j, g, done) && TryOf(j, g, |done|) == Join(Trial(|pend|, true), r)
    requires (done == [] || j.off + |done| <= |j.was|)
             && (pend == [] || j.off + |done| + Hole(j.top) + |pend| <= |j.was|)
    ensures RoomFor(j.was, j.off + |done| + Hole(j.top) + |pend|, r) && |done| + |pend| < 0x7fff_fff0
    ensures r.size > 0 ==> j.off + |done| + Hole(j.top) + |pend| + r.size <= End(j)
    ensures !r.ok ==> !Goal(j).ok
  {
    TryGroupAhead(j, g, done);
  }

  /** Once the payload is in the buffer. */
  lemma PayloadDone(j: Job, now: seq<byte>, g: nat, done: seq<byte>, pend: seq<byte>, x: seq<byte>)
    requires Written(j, now, done, pend) && AtPresent(j, g, done) && TryOf(j, g, |done|).ok
    requires BodyOf(j, g).bytes == pend + x
    ensures var at := j.off + |done| + Hole(j.top) + |pend|;
            (x == [] || at + |x| <= |now|) && Closing(j, Splice(now, at, x), g, done)
  {
    BodyInBuffer(j, g, done);
    WrittenMore(j, now, done, pend, x);
  }

  lemma RefusedInside(j: Job, now: seq<byte>, after: seq<byte>, at: nat, size: nat)
    requires Outside(j.was, now, j.off, End(j)) && Outside(now, after, at, at + size)
    requires j.off <= at && (size > 0 ==> at + size <= End(j))
    ensures Outside(j.was, after, j.off, End(j))
  {
  }

  /** Once the count is in the buffer. */
  lemma CountDone(j: Job, now: seq<byte>, g: nat, k: nat, dl: nat, done: seq<byte>, at: nat)
    requires Midway(j, now, g, k, dl, done, []) && AtPresent(j, g, done)
    requires k == LenAt(j.t, g) && Counted(j.t, g) && Fits(|done| + CountSize(j.t, g), j.cap)
             && at == j.off + |done| + Hole(j.top)
    ensures var n, size := CountAt(j.t, j.v, g), CountSize(j.t, g);
            && at + size <= |now|
            && var after := Splice(now, at, Le(n, size));
               if n == 0 then Closing(j, after, g, done) && size == |BodyOf(j, g).bytes|
                 else Midway(j, after, g, k + 1, n, done, Le(n, size))
  {
    var n, size := CountAt(j.t, j.v, g), CountSize(j.t, g);
    TryAhead(j.t, j.v, g, |done|, j.cap, j.top);
    TryGroupAhead(j, g, done);
    WrittenMore(j, now, done, [], Le(n, size));
    assert [] + Le(n, size) == Le(n, size);
    if n == 0 {
      BodyAhead(j.t, j.v, g, j.top);
    }
  }

  /** A count that does not fit. */
  lemma CountRefused(j: Job, now: seq<byte>, g: nat, k: nat, dl: nat, done: seq<byte>)
    requires Midway(j, now, g, k, dl, done, []) && AtPresent(j, g, done)
    requires Counted(j.t, g) && !Fits(|done| + CountSize(j.t, g), j.cap)
    ensures Hopeless(j, now)
  {
    TryAhead(j.t, j.v, g, |done|, j.cap, j.top);
    TryGroupAhead(j, g, done);
    PrefixInside(j, now, g, k, dl, done, []);
  }

  /** A count above the table's maximum. */
  lemma CountIllegal(j: Job, now: seq<byte>, g: nat, k: nat, dl: nat, done: seq<byte>, pend: seq<byte>)
    requires Midway(j, now, g, k, dl, done, pend) && !j.t[k].kind.Eoti?
    requires j.t[k].arrayType.VarLenArray? && (dl <= 0 || j.t[k].elemLen < dl)
    ensures Hopeless(j, now)
  {
    Where(j, now, g, k, dl, done, pend);
    TryAhead(j.t, j.v, g, |done|, j.cap, j.top);
    TryGroupAhead(j, g, done);
    PrefixInside(j, now, g, k, dl, done, pend);
  }

  /** The header, patched in, completes the group. */
  lemma TopGroupDone(j: Job, now: seq<byte>, after: seq<byte>, at: nat, len: nat, tlvType: byte, g: nat, dl: nat,
                     done: seq<byte>)
    requires Closing(j, now, g, done) && j.top
    requires at == j.off + |done| && len == |BodyOf(j, g).bytes| && tlvType == j.t[g].tlvType
    requires after == Splice(now, at, [tlvType] + Le(len, 2))
    ensures Midway(j, after, PayAt(j.t, g) + 1, PayAt(j.t, g) + 1, dl, done + FramedOf(j, g), [])
  {
    WrittenHeader(j, now, done, BodyOf(j, g).bytes, tlvType);
    PassGroup(j, after, g, dl, done);
  }

  lemma NestedGroupDone(j: Job, now: seq<byte>, g: nat, dl: nat, done: seq<byte>)
    requires Closing(j, now, g, done) && !j.top
    ensures Midway(j, now, PayAt(j.t, g) + 1, PayAt(j.t, g) + 1, dl, done + FramedOf(j, g), [])
  {
    WrittenNested(j, now, done, BodyOf(j, g).bytes);
    PassGroup(j, now, g, dl, done);
  }

  /** What has been encoded is in the buffer, so sums with it do not wrap around. */
  lemma UsedIsSmall(j: Job, now: seq<byte>, g: nat, k: nat, dl: nat, done: seq<byte>, pend: seq<byte>)
    requires Midway(j, now, g, k, dl, done, pend)
    ensures |done| < 0x7fff_fff0
  {
  }

  /** The QMI_DATA_LEN case: the count, or EINVAL if it does not fit. */
  method EncodeLen(buf: array<byte>, dst: nat, e: Elem, n: nat, encoded: nat, cap: u32,
                   ghost j: Job, ghost g: nat, ghost k: nat, ghost dl: nat, ghost done: seq<byte>) returns (rc: int)
    requires Midway(j, buf[..], g, k, dl, done, []) && AtPresent(j, g, done)
    requires k == LenAt(j.t, g) && Counted(j.t, g) && e == j.t[k] && n == CountAt(j.t, j.v, g)
    requires encoded == |done| && cap == j.cap && dst == j.off + |done| + Hole(j.top)
    modifies buf
    ensures rc < 0 ==> rc == EINVAL && Hopeless(j, buf[..])
    ensures rc >= 0 ==> rc == LenSize(e)
    ensures rc >= 0 && n == 0 ==> Closing(j, buf[..], g, done) && rc == |BodyOf(j, g).bytes|
    ensures rc >= 0 && n > 0 ==> Midway(j, buf[..], g, k + 1, n, done, Le(n, LenSize(e)))
  {
    var size := LenSize(e);
    UsedIsSmall(j, buf[..], g, k, dl, done, []);
    var need: u32 := size + encoded + HEADER;
    if need > cap {
      CountRefused(j, buf[..], g, k, dl, done);
      return EINVAL;
    }
    CountDone(j, buf[..], g, k, dl, done, dst);
    rc := EncodeCount(buf, dst, n, size);
  }

  /** The payload of group g is next: x is what it encodes to, r how far the encoder gets in it. */
  ghost predicate Paying(j: Job, now: seq<byte>, g: nat, done: seq<byte>, pend: seq<byte>, x: Enc, r: Trial)
  {
    && AtPresent(j, g, done) && Written(j, now, done, pend) && Outside(j.was, now, j.off, End(j))
    && BodyOf(j, g) == Enc(pend + x.bytes, x.ok) && TryOf(j, g, |done|) == Join(Trial(|pend|, true), r)
  }

  /** Before a payload is encoded. */
  lemma PayloadReady(j: Job, now: seq<byte>, g: nat, k: nat, dl: nat, done: seq<byte>, pend: seq<byte>, n: nat,
                     x: Enc, r: Trial)
    requires Midway(j, now, g, k, dl, done, pend) && AtPresent(j, g, done) && k == PayAt(j.t, g)
    requires n == CountAt(j.t, j.v, g) && 0 < n <= j.t[k].elemLen && PayloadOk(j.t[k]) && SlotOk(j.t[k], j.v[k])
    requires (j.t[k].kind.Struct? ==> NestedOk(j.t[k].ei)) && |pend| == CountSize(j.t, g)
    requires Counted(j.t, g) ==> pend == Le(n, CountSize(j.t, g))
    requires x == PayloadOf(j.t[k], j.v[k], n, j.top) && r == TryOn(j.t[k], j.v[k], n, |done| + |pend|, j.cap, j.top)
    ensures Paying(j, now, g, done, pend, x, r)
    ensures RoomFor(now, j.off + |done| + Hole(j.top) + |pend|, r) && |done| + |pend| < 0x7fff_fff0
  {
    PayloadAhead(j, now, g, k, dl, done, pend, n);
    TryPayloadAhead(j.t, j.v, g, |done|, j.cap, j.top);
    PrefixInside(j, now, g, k, dl, done, pend);
    PayloadRoom(j, g, done, pend, r);
  }

  /** What encoding a payload comes to. */
  ghost predicate Settled(j: Job, now: seq<byte>, g: nat, done: seq<byte>, pend: seq<byte>, rc: int)
  {
    if rc < 0 then rc == EINVAL && Hopeless(j, now)
    else Closing(j, now, g, done) && rc + |pend| == |BodyOf(j, g).bytes|
  }

  /** And after it. */
  lemma PayloadTaken(j: Job, now: seq<byte>, after: seq<byte>, g: nat, done: seq<byte>, pend: seq<byte>, x: Enc,
                     r: Trial, rc: int)
    requires Paying(j, now, g, done, pend, x, r) && Put(now, after, j.off + |done| + Hole(j.top) + |pend|, x, r, rc)
    ensures Settled(j, after, g, done, pend, rc)
  {
    if rc < 0 {
      PayloadRoom(j, g, done, pend, r);
      RefusedInside(j, now, after, j.off + |done| + Hole(j.top) + |pend|, r.size);
    } else {
      PayloadDone(j, now, g, done, pend, x.bytes);
    }
  }

  /** The cases of an integer, a struct and a string. */
  method EncodePayload(buf: array<byte>, dst: nat, e: Elem, s: Slot, n: nat, encoded: nat, cap: u32, top: bool,
                       ghost j: Job, ghost g: nat, ghost done: seq<byte>, ghost pend: seq<byte>, ghost x: Enc,
                           ghost r: Trial)
    returns (rc: int)
    requires PayloadOk(e) && SlotOk(e, s) && 0 < n <= e.elemLen && (e.kind.Struct? ==> NestedOk(e.ei))
    requires x == PayloadOf(e, s, n, top) && r == TryOn(e, s, n, encoded, cap, top)
    requires RoomFor(buf[..], dst, r) && encoded < 0x7fff_fff0
    requires Paying(j, buf[..], g, done, pend, x, r)
    requires dst == j.off + |done| + Hole(j.top) + |pend|
    modifies buf
    ensures Settled(j, buf[..], g, done, pend, rc)
    decreases e, 3
  {
    ghost var now := buf[..];
    rc := EncodeElem(buf, dst, e, s, n, encoded, cap, top);
    PayloadTaken(j, now, buf[..], g, done, pend, x, r, rc);
  }

  /** The switch of qmi_encode for an entry that is not a flag; encodeTlv: the group is complete. */
  method EncodeEntry(buf: array<byte>, dst: nat, e: Elem, s: Slot, n: nat, encoded: nat, cap: u32, top: bool,
                     ghost j: Job, ghost g: nat, ghost k: nat, ghost dl: nat, ghost done: seq<byte>,
                         ghost pend: seq<byte>)
    returns (rc: int, dataLen: nat, encodeTlv: bool)
    requires Midway(j, buf[..], g, k, dl, done, pend) && !j.t[k].kind.Eoti? && !j.t[k].kind.OptFlag?
    requires k < |j.v| && e == j.t[k] && s == j.v[k] && top == j.top
             && (n == if e.arrayType.NoArray? then 1 else if e.arrayType.StaticArray? then e.elemLen else dl)
    requires e.arrayType.VarLenArray? ==> 0 < n <= e.elemLen
    requires encoded == |done| + |pend| && cap == j.cap && dst == j.off + |done| + Hole(top) + |pend|
    modifies buf
    ensures AtPresent(j, g, done)
    ensures rc < 0 ==> rc == EINVAL && Hopeless(j, buf[..])
    ensures rc >= 0 && encodeTlv ==> Closing(j, buf[..], g, done) && rc + |pend| == |BodyOf(j, g).bytes|
    ensures rc >= 0 && !encodeTlv ==> k + 1 == PayAt(j.t, g) && pend == [] && rc == LenSize(e)
                                      && Midway(j, buf[..], g, k + 1, dataLen, done, Le(dataLen, LenSize(e)))
    ensures if e.kind.DataLen? then k + 1 == PayAt(j.t, g) else k == PayAt(j.t, g) && encodeTlv
    ensures e.kind.DataLen? ==> (encodeTlv <==> dataLen == 0)
    decreases e, 4
  {
    Where(j, buf[..], g, k, dl, done, pend);
    dataLen := n;
    if e.kind.DataLen? {
      dataLen := ReadLen(e, s.n);
      rc := EncodeLen(buf, dst, e, dataLen, encoded, cap, j, g, k, dl, done);
      encodeTlv := dataLen == 0;
    } else {
      ghost var x, r := PayloadOf(e, s, n, top), TryOn(e, s, n, encoded, cap, top);
      PayloadReady(j, buf[..], g, k, dl, done, pend, n, x, r);
      rc := EncodePayload(buf, dst, e, s, dataLen, encoded, cap, top, j, g, done, pend, x, r);
      encodeTlv := true;
    }
  }

  /** At the end marker all groups are done. */
  lemma Finished(j: Job, now: seq<byte>, g: nat, k: nat, dl: nat, done: seq<byte>, pend: seq<byte>)
    requires Midway(j, now, g, k, dl, done, pend) && j.t[k].kind.Eoti?
    ensures pend == [] && Put(j.was, now, j.off, All(j), Goal(j), |done|)
  {
    assert done + [] == done;
    assert All(j) == Enc(done, true) && Goal(j) == Trial(|done|, true);
    assert Splice(Splice(j.was, j.off, done), j.off + |done| + Hole(j.top), []) == Splice(j.was, j.off, done);
  }

  /** The locals of qmi_encode: the next entry, the octets written, where the next one goes, the
      open header and the octets after it, the current length. */
  datatype Cursor = Cursor(k: nat, encoded: nat, dst: nat, tlvPointer: nat, tlvLen: nat, dataLen: nat)

  /** Their meaning. */
  ghost predicate Sound(j: Job, now: seq<byte>, c: Cursor, g: nat, done: seq<byte>, pend: seq<byte>)
  {
    && Midway(j, now, g, c.k, c.dataLen, done, pend)
    && c.encoded == |done| + |pend| && c.dst == j.off + |done| + Hole(j.top) + |pend|
    && (j.top ==> c.tlvPointer == j.off + |done| && c.tlvLen == |pend|)
  }

  /** At the top level a finished group gets its header, and room is left for the next one. */
  method CloseGroup(buf: array<byte>, tlvType: byte, top: bool, c: Cursor, ghost j: Job, ghost g: nat,
                    ghost done: seq<byte>)
    returns (r: Cursor)
    requires j.top == top && Closing(j, buf[..], g, done) && c.k == PayAt(j.t, g) + 1
    requires c.encoded == |done| + |BodyOf(j, g).bytes| && c.dst == j.off + Hole(top) + c.encoded
    requires top ==> c.tlvPointer == j.off + |done| && c.tlvLen == |BodyOf(j, g).bytes| && tlvType == j.t[g].tlvType
    modifies buf
    ensures r.k == c.k && Sound(j, buf[..], r, c.k, done + FramedOf(j, g), [])
  {
    r := c;
    ghost var now := buf[..];
    if top {
      PutHeader(buf, c.tlvPointer, tlvType, c.tlvLen);
      TopGroupDone(j, now, buf[..], c.tlvPointer, c.tlvLen, tlvType, g, c.dataLen, done);
      r := c.(tlvPointer := c.dst, tlvLen := 0, encoded := c.encoded + HEADER, dst := c.dst + HEADER);
    } else {
      NestedGroupDone(j, now, g, c.dataLen, done);
    }
  }

  lemma FlagStep(j: Job, now: seq<byte>, c: Cursor, g: nat, done: seq<byte>, pend: seq<byte>)
    requires Sound(j, now, c, g, done, pend) && j.t[c.k].kind.OptFlag?
    ensures c.k == g < PayAt(j.t, g) && j.top && c.k < |j.v| && j.v[c.k].Flag?
    ensures if j.v[c.k].flag != 0 then Sound(j, now, c.(k := c.k + 1, dataLen := 1), g, done, pend)
            else var p := PayAt(j.t, g) + 1; Sound(j, now, c.(k := p, dataLen := 1), p, done, pend)
  {
    PassFlag(j, now, g, c.k, c.dataLen, done, pend);
  }

  /** The QMI_OPT_FLAG case: on into the group, or past it. */
  method EncodeFlag(t: seq<Elem>, v: seq<Slot>, top: bool, c: Cursor,
                    ghost now: seq<byte>, ghost j: Job, ghost g: nat, ghost done: seq<byte>, ghost pend: seq<byte>)
    returns (r: Cursor, ghost g': nat)
    requires Sound(j, now, c, g, done, pend) && t == j.t && v == j.v && top == j.top && t[c.k].kind.OptFlag?
    ensures c.k < r.k && Sound(j, now, r, g', done, pend)
  {
    FlagStep(j, now, c, g, done, pend);
    if v[c.k].flag != 0 {
      r, g' := c.(k := c.k + 1, dataLen := 1), g;
    } else {
      var k := SkipToNext(t, g, c.k, top);
      r, g' := c.(k := k, dataLen := 1), k;
    }
  }

  /** One round of the loop of qmi_encode for an entry that is not a flag. */
  method EncodeNext(buf: array<byte>, t: seq<Elem>, v: seq<Slot>, n: nat, cap: u32, top: bool, c: Cursor,
                    ghost j: Job, ghost g: nat, ghost done: seq<byte>, ghost pend: seq<byte>)
    returns (rc: int, r: Cursor, ghost g': nat, ghost done': seq<byte>, ghost pend': seq<byte>)
    requires Sound(j, buf[..], c, g, done, pend) && t == j.t && v == j.v && top == j.top && cap == j.cap && c.k < |v|
    requires !t[c.k].kind.Eoti? && !t[c.k].kind.OptFlag?
    requires n == if t[c.k].arrayType.NoArray? then 1 else if t[c.k].arrayType.StaticArray? then t[c.k].elemLen
             else c.dataLen
    requires t[c.k].arrayType.VarLenArray? ==> 0 < n <= t[c.k].elemLen
    modifies buf
    ensures rc < 0 ==> rc == EINVAL && Hopeless(j, buf[..])
    ensures rc >= 0 ==> c.k < r.k && Sound(j, buf[..], r, g', done', pend')
    decreases t, 0
  {
    var e := t[c.k];
    r, g', done', pend' := c, g, done, pend;
    var dataLen, encodeTlv;
    rc, dataLen, encodeTlv := EncodeEntry(buf, c.dst, e, v[c.k], n, c.encoded, cap, top,
                                          j, g, c.k, c.dataLen, done, pend);
    if rc < 0 {
      return;
    }
    var k := c.k + 1;
    if e.kind.DataLen? && dataLen == 0 {
      k := SkipToNext(t, g, k, top);
    }
    r := Cursor(k, c.encoded + rc, c.dst + rc, c.tlvPointer, c.tlvLen + rc, dataLen);
    if encodeTlv {
      r := CloseGroup(buf, e.tlvType, top, r, j, g, done);
      done', pend', g' := done + FramedOf(j, g), [], k;
    } else {
      pend' := Le(dataLen, LenSize(e));
    }
  }

  /** qmi_encode */
  method Encode(t: seq<Elem>, buf: array<byte>, off: nat, v: seq<Slot>, cap: u32, top: bool) returns (rc: int)
    requires TableFrom(t, 0, top) && StructOk(t, v) && (top || NestedOk(t))
    requires RoomFor(buf[..], off, Attempt(t, v, cap, top))
    modifies buf
    ensures Put(old(buf[..]), buf[..], off, Encoding(t, v, top), Attempt(t, v, cap, top), rc)
    decreases t, 1
  {
    ghost var j: Job := Call(buf[..], t, v, off, cap, top);
    ghost var g: nat, done: seq<byte>, pend: seq<byte> := 0, [], [];
    var c := Cursor(0, 0, off + Hole(top), off, 0, 0);
    StartsAt(j);
    while !t[c.k].kind.Eoti?
      invariant Sound(j, buf[..], c, g, done, pend)
      decreases |t| - c.k
    {
      var e := t[c.k];
      var n := c.dataLen;
      Entry(j, buf[..], g, c.k, c.dataLen, done, pend);
      if e.arrayType.NoArray? {
        n := 1;
      } else if e.arrayType.StaticArray? {
        n := e.elemLen;
      } else if n <= 0 || e.elemLen < n {
        CountIllegal(j, buf[..], g, c.k, c.dataLen, done, pend);
        return EINVAL;
      }
      if !e.kind.OptFlag? {
        rc, c, g, done, pend := EncodeNext(buf, t, v, n, cap, top, c, j, g, done, pend);
        if rc < 0 {
          return;
        }
      } else {
        c, g := EncodeFlag(t, v, top, c, buf[..], j, g, done, pend);
      }
    }
    Finished(j, buf[..], g, c.k, c.dataLen, done, pend);
    rc := c.encoded;
  }

  // ----- Where a check is not enough -----

  /** A struct of one string of two characters. */
  const NAME: seq<Elem> := [Elem(String, 16, 1, NoArray, 0, []), Elem(Eoti, 0, 0, NoArray, 0, [])]
  const NAMED: seq<Elem> := [Elem(Struct, 1, 16, NoArray, 1, NAME), Elem(Eoti, 0, 0, NoArray, 0, [])]
  const HI: seq<byte> := [104, 105]

  lemma NameParts()
    ensures TableFrom(NAME, 0, false) && NestedOk(NAME) && StructOk(NAME, [Chars(HI)])
    ensures EncFrom(NAME, [Chars(HI)], 0, false) == Enc([2, 104, 105], true)
    ensures TryFrom(NAME, [Chars(HI)], 0, 0, 3, false) == Trial(3, true)
  {
    assert StrLen(HI[1..][1..]) == 0;
    assert StrLen(HI[1..]) == 1;
    assert StrLen(HI) == 2;
    var w := [Chars(HI)];
    assert TableFrom(NAME, 1, false);
    assert PayAt(NAME, 0) == 0 && CountAt(NAME, w, 0) == 1;
    assert EncPayload(NAME[0], w[0], 1, false) == Enc(Le(2, 1) + HI[..2], true);
    assert EncFrom(NAME, w, 1, false) == Enc([], true);
    assert TryFrom(NAME, w, 1, 3, 3, false) == Trial(0, true);
    assert TryBody(NAME, w, 0, 0, 3, false) == Trial(3, true);
  }

  /** Three octets of capacity pass every check, and six are written. */
  lemma UncheckedStringExample()
    ensures var v := [Structs([[Chars(HI)]])];
            && TableFrom(NAMED, 0, true) && StructOk(NAMED, v)
            && TryFrom(NAMED, v, 0, 0, 3, true) == Trial(6, true)
            && EncFrom(NAMED, v, 0, true) == Enc([1, 3, 0, 2, 104, 105], true)
  {
    var v := [Structs([[Chars(HI)]])];
    NameParts();
    assert TableFrom(NAMED, 1, true);
    assert TableFrom(NAMED, 0, true);
    assert SlotOk(NAMED[0], v[0]);
    assert PayAt(NAMED, 0) == 0 && CountAt(NAMED, v, 0) == 1 && v[0].elems[0] == [Chars(HI)];
    assert EncStructs(NAMED[0], v[0].elems, 1, 1) == Enc([], true);
    assert EncStructs(NAMED[0], v[0].elems, 0, 1) == Enc([2, 104, 105], true);
    assert Body(NAMED, v, 0, true) == Enc([2, 104, 105], true);
    assert EncFrom(NAMED, v, 1, true) == Enc([], true);
    assert TryStructs(NAMED[0], v[0].elems, 1, 1, 3, 3) == Trial(0, true);
    assert TryBody(NAMED, v, 0, 0, 3, true) == Trial(3, true);
    assert TryFrom(NAMED, v, 1, 6, 3, true) == Trial(0, true);
  }

  /** So qmi_encode, told of three octets, changes the fourth to the sixth. */
  method WritesPastItsRoom(buf: array<byte>) returns (rc: int)
    requires buf.Length >= 6 && Small(buf[..])
    modifies buf
    ensures rc == 6 && buf[..] == [1, 3, 0, 2, 104, 105] + old(buf[..])[6..]
  {
    UncheckedStringExample();
    SpliceIs(buf[..], 0, [1, 3, 0, 2, 104, 105]);
    rc := Encode(NAMED, buf, 0, [Structs([[Chars(HI)]])], 3, true);
  }
}
