/** src/hash.c: the key functions of the hash tables. */
module Hash {

  const WORD: nat := 0x1_0000_0000
  const MULTIPLIER: nat := 2654435761
  /** The inverse of MULTIPLIER modulo 2^32. */
  const INVERSE: nat := 244002641

  type u32 = x: nat | x < WORD

  function HashU32(value: u32): u32 { value * MULTIPLIER % WORD }

  function UnhashU32(h: u32): u32 { h * INVERSE % WORD }

  lemma ModOfProduct(a: nat, b: nat)
    ensures (a % WORD) * b % WORD == a * b % WORD
  {
    var q := a / WORD;
    assert a * b == (a % WORD) * b + WORD * (q * b) by {
      assert a == WORD * q + a % WORD;
    }
    ModOfSum((a % WORD) * b, q * b);
  }

  lemma {:induction false} ModOfSum(x: nat, k: nat)
    ensures (x + WORD * k) % WORD == x % WORD
    decreases k
  {
    if k > 0 {
      ModOfSum(x, k - 1);
      assert x + WORD * k == x + WORD * (k - 1) + WORD;
    }
  }

  /** hash_u32 is a bijection on 32-bit values, so keying a table by the hash alone merges no two ids. */
  lemma HashU32Inverse(value: u32)
    ensures UnhashU32(HashU32(value)) == value && HashU32(UnhashU32(value)) == value
  {
    assert MULTIPLIER * INVERSE == 150801925 * WORD + 1;
    ModOfProduct(value * MULTIPLIER, INVERSE);
    ModOfProduct(value * INVERSE, MULTIPLIER);
    assert value * MULTIPLIER * INVERSE == value + WORD * (150801925 * value);
    ModOfSum(value, 150801925 * value);
  }

  lemma HashU32Injective(a: u32, b: u32)
    requires HashU32(a) == HashU32(b)
    ensures a == b
  {
    HashU32Inverse(a);
    HashU32Inverse(b);
  }

  // ----- hash_mem -----

  function Mix(h: bv32, octet: bv8): bv32 { ((h >> 27) ^ (h << 5)) ^ (octet as bv32) }

  function MixAll(h: bv32, data: seq<bv8>): bv32
    decreases |data|
  {
    if data == [] then h else Mix(MixAll(h, data[..|data|-1]), data[|data|-1])
  }

  method HashMem(data: array<bv8>) returns (h: bv32)
    requires data.Length < WORD
    ensures h == MixAll(data.Length as bv32, data[..])
  {
    h := data.Length as bv32;
    var i := 0;
    while i < data.Length
      invariant 0 <= i <= data.Length
      invariant h == MixAll(data.Length as bv32, data[..i])
    {
      assert data[..i+1][..i] == data[..i];
      h := ((h >> 27) ^ (h << 5)) ^ (data[i] as bv32);
      i := i + 1;
    }
    assert data[..i] == data[..];
  }

  lemma MixInjective(a: bv32, b: bv32, x: bv8, y: bv8)
    ensures Mix(a, x) == Mix(b, x) ==> a == b
    ensures Mix(a, x) == Mix(a, y) ==> x == y
  {
  }

  /** hash_mem by itself: one octet after the other is added without carry to what came before, rotated by five. */
  lemma {:induction false} HashMemRotates(h: bv32, data: seq<bv8>, octet: bv8)
    ensures MixAll(h, data + [octet]) == MixAll(h, data).RotateLeft(5) ^ (octet as bv32)
  {
    assert (data + [octet])[..|data|] == data;
  }

  /** Changing one octet of a buffer always changes its hash_mem. */
  lemma {:induction false} OneOctetChangesHash(h: bv32, data: seq<bv8>, i: nat, x: bv8)
    requires i < |data| && data[i] != x
    ensures MixAll(h, data[i := x]) != MixAll(h, data)
    decreases |data|
  {
    var n := |data| - 1;
    if i == n {
      assert data[i := x][..n] == data[..n];
      MixInjective(MixAll(h, data[..n]), 0, data[n], x);
    } else {
      assert data[i := x][..n] == data[..n][i := x];
      OneOctetChangesHash(h, data[..n], i, x);
      MixInjective(MixAll(h, data[..n]), MixAll(h, data[..n][i := x]), data[n], 0);
    }
  }
}
