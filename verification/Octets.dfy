/** Bytes as numbers, and numbers as little-endian bytes. */
module Octets {

  type Byte = x: int | 0 <= x < 256
  type Bytes = seq<Byte>

  function Power256(k: nat): (p: nat)
    ensures p > 0
  {
    if k == 0 then 1 else 256 * Power256(k - 1)
  }

  /** int.from_bytes(b, 'little'). */
  function Little(b: Bytes): nat {
    if |b| == 0 then 0 else b[0] + 256 * Little(b[1..])
  }

  /** n.to_bytes(k, 'little'). */
  function LittleBytes(n: nat, k: nat): (b: Bytes)
    ensures |b| == k
  {
    if k == 0 then [] else [n % 256] + LittleBytes(n / 256, k - 1)
  }

  lemma {:induction false} LittleBound(b: Bytes)
    ensures Little(b) < Power256(|b|)
  {
    if |b| > 0 {
      LittleBound(b[1..]);
    }
  }

  lemma {:induction false} LittleRoundTrip(n: nat, k: nat)
    requires n < Power256(k)
    ensures Little(LittleBytes(n, k)) == n
    decreases k
  {
    if k > 0 {
      LittleRoundTrip(n / 256, k - 1);
      assert LittleBytes(n, k)[1..] == LittleBytes(n / 256, k - 1);
    }
  }

  // ----- powers of two

  function Pow2(n: nat): (p: nat)
    ensures p > 0
  {
    if n == 0 then 1 else 2 * Pow2(n - 1)
  }

  lemma {:induction false} Pow2Sum(a: nat, b: nat)
    ensures Pow2(a + b) == Pow2(a) * Pow2(b)
  {
    if a > 0 {
      Pow2Sum(a - 1, b);
      TwiceProduct(Pow2(a - 1), Pow2(b));
    }
  }

  lemma TwiceProduct(x: nat, y: nat)
    ensures 2 * (x * y) == (2 * x) * y
  {
  }

  // ----- parts of data

  function Min(a: nat, b: nat): nat { if a < b then a else b }

  /** A Python slice, cut off at the end of the data. */
  function Slice(data: Bytes, start: nat, length: nat): Bytes {
    data[Min(start, |data|)..Min(start + length, |data|)]
  }

  /** The bytes s stand in the data at an offset. */
  ghost predicate At(data: Bytes, offset: nat, s: Bytes) {
    offset + |s| <= |data| && forall k | 0 <= k < |s| :: data[offset + k] == s[k]
  }

  lemma AtParts(data: Bytes, offset: nat, a: Bytes, b: Bytes)
    requires At(data, offset, a + b)
    ensures At(data, offset, a) && At(data, offset + |a|, b)
  {
    forall k | 0 <= k < |a| ensures data[offset + k] == a[k] {
      assert (a + b)[k] == a[k];
    }
    forall k | 0 <= k < |b| ensures data[offset + |a| + k] == b[k] {
      assert (a + b)[|a| + k] == b[k];
    }
  }

  lemma AtFirst(data: Bytes, offset: nat, first: Byte, rest: Bytes)
    requires At(data, offset, [first] + rest)
    ensures offset < |data| && data[offset] == first && At(data, offset + 1, rest)
  {
    AtParts(data, offset, [first], rest);
    assert [first][0] == first;
  }
}
