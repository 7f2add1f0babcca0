/** lib/qmi.c: writing into a buffer in place, and the helpers of qmi_encode that do nothing else. */
module QmiBuffer {
  import opened Qmi

  /** s with the octets of x written one after the other from position `at` on. */
  function Splice(s: seq<byte>, at: nat, x: seq<byte>): (r: seq<byte>)
    requires x == [] || at + |x| <= |s|
    ensures |r| == |s|
    decreases |x|
  {
    if x == [] then s else Splice(s[at := x[0]], at + 1, x[1..])
  }

  /** That replaces a slice. */
  lemma {:induction false} SpliceIs(s: seq<byte>, at: nat, x: seq<byte>)
    requires at + |x| <= |s|
    ensures Splice(s, at, x) == s[..at] + x + s[at + |x|..]
    decreases |x|
  {
    if x == [] {
      assert s == s[..at] + s[at..];
    } else {
      SpliceIs(s[at := x[0]], at + 1, x[1..]);
      assert s[at := x[0]][..at + 1] == s[..at] + [x[0]];
      assert x == [x[0]] + x[1..];
    }
  }

  lemma {:induction false} SpliceNext(s: seq<byte>, at: nat, x: seq<byte>, y: seq<byte>)
    requires x + y == [] || at + |x| + |y| <= |s|
    ensures Splice(Splice(s, at, x), at + |x|, y) == Splice(s, at, x + y)
    decreases |x|
  {
    if x == [] {
      assert x + y == y;
    } else {
      assert (x + y)[1..] == x[1..] + y;
      SpliceNext(s[at := x[0]], at + 1, x[1..], y);
    }
  }

  /** `now` is s with x written at position `at`. */
  predicate Holds(s: seq<byte>, at: nat, x: seq<byte>, now: seq<byte>) {
    (x == [] || at + |x| <= |s|) && now == Splice(s, at, x)
  }

  lemma HoldsMore(s: seq<byte>, at: nat, x: seq<byte>, now: seq<byte>, y: seq<byte>)
    requires Holds(s, at, x, now) && (y == [] || at + |x| + |y| <= |s|)
    ensures Holds(s, at, x + y, Splice(now, at + |x|, y))
  {
    if y == [] {
      assert x + y == x;
    } else {
      SpliceNext(s, at, x, y);
    }
  }

  /** Patching a header in front of what was written after a gap closes the gap. */
  lemma SplicePatch(s: seq<byte>, at: nat, h: seq<byte>, x: seq<byte>)
    requires at + |h| + |x| <= |s| && h != []
    ensures Splice(Splice(s, at + |h|, x), at, h) == Splice(s, at, h + x)
  {
    SpliceIs(s, at + |h|, x);
    SpliceIs(Splice(s, at + |h|, x), at, h);
    SpliceIs(s, at, h + x);
  }

  lemma PatchedIs(s: seq<byte>, at: nat, h: seq<byte>, x: seq<byte>, mid: seq<byte>, now: seq<byte>)
    requires at + |h| + |x| <= |s| && h != [] && mid == Splice(s, at + |h|, x) && now == Splice(mid, at, h)
    ensures now == s[..at] + (h + x) + s[at + |h| + |x|..]
  {
    SplicePatch(s, at, h, x);
    SpliceIs(s, at, h + x);
  }

  /** The same after what is already there. */
  lemma SplicePatched(s: seq<byte>, at: nat, done: seq<byte>, h: seq<byte>, x: seq<byte>)
    requires at + |done| + |h| + |x| <= |s| && h != []
    ensures Splice(Splice(Splice(s, at, done), at + |done| + |h|, x), at + |done|, h) == Splice(s, at, done + (h + x))
  {
    SplicePatch(Splice(s, at, done), at + |done|, h, x);
    SpliceNext(s, at, done, h + x);
  }

  /** Nothing outside positions lo to hi differs. */
  predicate Outside(s: seq<byte>, r: seq<byte>, lo: nat, hi: int) {
    |s| == |r| && forall i :: 0 <= i < |s| && !(lo <= i < hi) ==> r[i] == s[i]
  }

  lemma SpliceOutside(s: seq<byte>, at: nat, x: seq<byte>, lo: nat, hi: int)
    requires x == [] || (lo <= at && at + |x| <= hi && at + |x| <= |s|)
    ensures Outside(s, Splice(s, at, x), lo, hi)
  {
    if x != [] {
      SpliceIs(s, at, x);
    }
  }

  /** What changes later, further on, also stays outside. */
  lemma OutsideThrough(s: seq<byte>, m: seq<byte>, r: seq<byte>, mid: nat, lo: nat, hi: int)
    requires Outside(s, m, lo, hi) && Outside(m, r, mid, hi) && lo <= mid
    ensures Outside(s, r, lo, hi)
  {
  }

  lemma OutsideAfter(s: seq<byte>, at: nat, x: seq<byte>, r: seq<byte>, mid: nat, hi: int)
    requires x == [] || (at + |x| <= hi && at + |x| <= |s|)
    requires Outside(Splice(s, at, x), r, mid, hi) && at <= mid
    ensures Outside(s, r, at, hi)
  {
    SpliceOutside(s, at, x, at, hi);
    OutsideThrough(s, Splice(s, at, x), r, mid, at, hi);
  }

  method Memcpy(buf: array<byte>, at: nat, x: seq<byte>)
    requires at + |x| <= buf.Length
    modifies buf
    ensures buf[..] == Splice(old(buf[..]), at, x)
  {
    SpliceIs(buf[..], at, x);
    forall i | 0 <= i < |x| {
      buf[at + i] := x[i];
    }
  }

  lemma NextRow(i: nat, n: nat, size: nat)
    requires i < n
    ensures (i + 1) * size == i * size + size <= n * size
  {
    assert (i + 1) * size + (n - i - 1) * size == n * size;
  }

  lemma NextSlice(s: seq<byte>, at: nat, src: seq<byte>, m: nat, size: nat)
    requires m + size <= |src| && at + m + size <= |s|
    ensures Splice(Splice(s, at, src[..m]), at + m, src[m..m + size]) == Splice(s, at, src[..m + size])
  {
    SpliceNext(s, at, src[..m], src[m..m + size]);
    assert src[..m] + src[m..m + size] == src[..m + size];
  }

  /** QMI_ENCDEC_ENCODE_N_BYTES, `done` octets after the start of both buffers */
  method EncodeNBytes(buf: array<byte>, at: nat, src: seq<byte>, done: nat, size: nat, ghost was: seq<byte>)
    requires done + size <= |src| && at + done + size <= buf.Length == |was| && buf[..] == Splice(was, at, src[..done])
    modifies buf
    ensures buf[..] == Splice(was, at, src[..done + size])
  {
    NextSlice(was, at, src, done, size);
    Memcpy(buf, at + done, src[done..done + size]);
  }

  /** qmi_encode_basic_elem: elemLen elements of elemSize octets each. */
  method EncodeBasic(buf: array<byte>, at: nat, src: seq<byte>, elemLen: nat, elemSize: nat) returns (rc: nat)
    requires 1 <= elemSize
    requires elemLen * elemSize <= |src| && (elemLen * elemSize == 0 || at + elemLen * elemSize <= buf.Length)
    modifies buf
    ensures rc == elemLen * elemSize && buf[..] == Splice(old(buf[..]), at, src[..rc])
  {
    rc := 0;
    var i := 0;
    while i < elemLen
      invariant 0 <= i <= elemLen && rc == i * elemSize <= elemLen * elemSize
      invariant buf[..] == Splice(old(buf[..]), at, src[..rc])
    {
      NextRow(i, elemLen, elemSize);
      EncodeNBytes(buf, at, src, rc, elemSize, old(buf[..]));
      rc := rc + elemSize;
      i := i + 1;
    }
  }

  /** QMI_ENCDEC_ENCODE_TLV */
  method PutHeader(buf: array<byte>, at: nat, tlvType: byte, len: nat)
    requires at + HEADER <= buf.Length
    modifies buf
    ensures buf[..] == Splice(old(buf[..]), at, [tlvType] + Le(len, 2))
  {
    Memcpy(buf, at, [tlvType] + Le(len, 2));
  }

  /** qmi_encode_basic_elem on the low octets of a length */
  method EncodeCount(buf: array<byte>, at: nat, n: nat, size: nat) returns (rc: nat)
    requires 1 <= size <= 2 && at + size <= buf.Length
    modifies buf
    ensures rc == size && buf[..] == Splice(old(buf[..]), at, Le(n, size))
  {
    rc := EncodeBasic(buf, at, Le(n, size), 1, size);
    assert Le(n, size)[..rc] == Le(n, size);
  }

  method EncodeText(buf: array<byte>, at: nat, e: Elem, chars: seq<byte>, len: nat) returns (rc: nat)
    requires e.elemSize == 1 && len <= |chars| && (len == 0 || at + len <= buf.Length)
    modifies buf
    ensures rc == len && buf[..] == Splice(old(buf[..]), at, chars[..len])
  {
    rc := EncodeBasic(buf, at, chars, len, e.elemSize);
  }
}
