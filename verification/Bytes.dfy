/** Byte sequences as numbers, and their order reversed. */
module Bytes {
  import opened Sequences

  type byte = x: int | 0 <= x < 256

  const U32: nat := 0x1_0000_0000

  function Pow256(n: nat): (p: nat)
    ensures p > 0
  {
    if n == 0 then 1 else 256 * Pow256(n - 1)
  }

  /** The number whose big-endian bytes these are. */
  function Decode(bs: seq<byte>): nat {
    if bs == [] then 0 else Decode(bs[..|bs| - 1]) * 256 + bs[|bs| - 1]
  }

  /** The lowest `n` bytes of a number, big end first. */
  function Encode(v: nat, n: nat): (bs: seq<byte>)
    ensures |bs| == n
  {
    if n == 0 then [] else Encode(v / 256, n - 1) + [v % 256]
  }

  lemma {:induction false} DecodeBound(bs: seq<byte>)
    ensures Decode(bs) < Pow256(|bs|)
  {
    if bs != [] { DecodeBound(bs[..|bs| - 1]); }
  }

  /** Reading back what was written gives the number modulo 256^n. */
  lemma {:induction false} DecodeEncode(v: nat, n: nat)
    ensures Decode(Encode(v, n)) == v % Pow256(n)
  {
    if n != 0 {
      DecodeEncode(v / 256, n - 1);
      var p := Pow256(n - 1);
      assert Encode(v, n)[..n - 1] == Encode(v / 256, n - 1);
      LowBytes(v, p);
    }
  }

  lemma LowBytes(v: nat, p: nat)
    requires p > 0
    ensures (v / 256) % p * 256 + v % 256 == v % (256 * p)
  {
    var q := v / 256;
    var r := q % p * 256 + v % 256;
    var k := q / p;
    assert q == k * p + q % p;
    assert v == 256 * q + v % 256;
    assert v == k * (256 * p) + r by {
      assert 256 * (k * p) == k * (256 * p);
    }
    assert 0 <= r < 256 * p;
    DivUnique(v, 256 * p, k, r);
  }

  lemma MulGrows(d: int, m: int)
    requires m > 0
    ensures d >= 1 ==> d * m >= m
    ensures d <= -1 ==> d * m <= -m
  {
    assert d * m == (d - 1) * m + m && d * m == (d + 1) * m - m;
    if d >= 1 { assert (d - 1) * m >= 0; }
    if d <= -1 { assert (-1 - d) * m >= 0; }
  }

  lemma DivUnique(v: int, m: nat, k: int, r: nat)
    requires m > 0 && v == k * m + r && r < m
    ensures v % m == r
  {
    var k', r' := v / m, v % m;
    assert v == m * k' + r';
    assert (k' - k) * m == r - r';
    MulGrows(k' - k, m);
  }

  /** Every byte sequence is the encoding of its number, so encodings are unique. */
  lemma {:induction false} EncodeDecode(bs: seq<byte>)
    ensures Encode(Decode(bs), |bs|) == bs
  {
    if bs != [] {
      var front, last := bs[..|bs| - 1], bs[|bs| - 1];
      EncodeDecode(front);
      assert Decode(bs) / 256 == Decode(front) && Decode(bs) % 256 == last;
      assert bs == front + [last];
    }
  }

  /** A wide read is the two narrow reads put together. */
  lemma {:induction false} DecodeConcat(a: seq<byte>, b: seq<byte>)
    ensures Decode(a + b) == Decode(a) * Pow256(|b|) + Decode(b)
  {
    if b == [] {
      assert a + b == a;
    } else {
      var front := b[..|b| - 1];
      DecodeConcat(a, front);
      assert (a + b)[..|a + b| - 1] == a + front;
      assert Decode(a) * (256 * Pow256(|front|)) == 256 * (Decode(a) * Pow256(|front|));
    }
  }

  /** The number read when the bytes of `v` are taken in the opposite order. */
  function ByteReversal(v: nat, n: nat): nat {
    Decode(Reverse(Encode(v, n)))
  }

  lemma ReversalInvolutes(v: nat, n: nat)
    ensures ByteReversal(ByteReversal(v, n), n) == v % Pow256(n)
  {
    EncodeDecode(Reverse(Encode(v, n)));
    assert Reverse(Reverse(Encode(v, n))) == Encode(v, n);
    DecodeEncode(v, n);
  }

  function Shr(v: nat, j: nat): nat {
    if j == 0 then v else Shr(v, j - 1) / 256
  }

  lemma ShrDiv(v: nat, j: nat)
    ensures Shr(v / 256, j) == Shr(v, j + 1)
  {
  }

  /** The byte written in round `j` of the write loop. */
  lemma {:induction false} EncodeDigit(v: nat, n: nat, j: nat)
    requires j < n
    ensures Encode(v, n)[n - 1 - j] == Shr(v, j) % 256
  {
    if j > 0 {
      EncodeDigit(v / 256, n - 1, j - 1);
      ShrDiv(v, j - 1);
    }
  }

  /** The bytes of a number that is read. */
  lemma DecodeDigit(bs: seq<byte>, j: nat)
    requires j < |bs|
    ensures Shr(Decode(bs), j) % 256 == bs[|bs| - 1 - j]
  {
    EncodeDecode(bs);
    EncodeDigit(Decode(bs), |bs|, j);
  }

  /** Reversing the bytes puts the low ones where the high ones were. */
  lemma ReversalDigit(v: nat, n: nat, j: nat)
    requires j < n
    ensures Shr(ByteReversal(v, n), j) % 256 == Shr(v, n - 1 - j) % 256
  {
    DecodeDigit(Reverse(Encode(v, n)), j);
    EncodeDigit(v, n, n - 1 - j);
  }

  /** The C cast to a signed type of `n` bytes. */
  function Signed(v: nat, n: nat): int {
    if v * 2 >= Pow256(n) then v - Pow256(n) else v
  }

  /** It is the two's complement value: in range, and congruent to the unsigned one. */
  lemma SignedRange(v: nat, n: nat)
    requires n > 0 && v < Pow256(n)
    ensures 0 - Pow256(n) <= 2 * Signed(v, n) < Pow256(n)
    ensures Signed(v, n) % Pow256(n) == v
  {
    var p := Pow256(n);
    var k := if v * 2 >= p then -1 else 0;
    DivUnique(Signed(v, n), p, k, v);
  }
}
