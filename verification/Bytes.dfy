/** Byte strings, 32-byte digests and the fixed-width integer encodings shared by the
    commitment preimage and the governed parameters. */
module Bytes {

  newtype byte = x: int | 0 <= x < 256

  type ByteString = seq<byte>

  type Bytes32 = b: seq<byte> | |b| == 32 witness seq(32, _ => 0)

  datatype Digest = Digest(bytes: Bytes32)

  /** 2^k. */
  function Pow2(k: nat): (p: nat)
    ensures p >= 1
  {
    if k == 0 then 1 else 2 * Pow2(k - 1)
  }

  /** 256^k, the number of values a k-byte integer can hold. */
  function Pow256(k: nat): (p: nat)
    ensures p >= 1
  {
    if k == 0 then 1 else 256 * Pow256(k - 1)
  }

  /** `to_le_bytes` of a `width`-byte unsigned integer. */
  function LittleEndian(n: nat, width: nat): (b: ByteString)
    ensures |b| == width
  {
    if width == 0 then [] else [(n % 256) as byte] + LittleEndian(n / 256, width - 1)
  }

  /** `from_le_bytes`. */
  function FromLittleEndian(b: ByteString): (n: nat)
    ensures n < Pow256(|b|)
  {
    if b == [] then 0 else b[0] as nat + 256 * FromLittleEndian(b[1..])
  }

  /** `to_be_bytes` of a `width`-byte unsigned integer. */
  function BigEndian(n: nat, width: nat): (b: ByteString)
    ensures |b| == width
  {
    if width == 0 then [] else BigEndian(n / 256, width - 1) + [(n % 256) as byte]
  }

  /** `from_be_bytes`. */
  function FromBigEndian(b: ByteString): (n: nat)
    ensures n < Pow256(|b|)
  {
    if b == [] then 0 else b[|b| - 1] as nat + 256 * FromBigEndian(b[..|b| - 1])
  }

  /** Byte `i` of the encoding is digit `i` in base 256. */
  lemma {:induction false} LittleEndianByte(n: nat, width: nat, i: nat)
    requires i < width
    ensures LittleEndian(n, width)[i] as nat == n / Pow256(i) % 256
    decreases width
  {
    if i > 0 {
      LittleEndianByte(n / 256, width - 1, i - 1);
      DivideTwice(n, 256, Pow256(i - 1));
    }
  }

  lemma {:induction false} BigEndianByte(n: nat, width: nat, i: nat)
    requires i < width
    ensures BigEndian(n, width)[width - 1 - i] as nat == n / Pow256(i) % 256
    decreases width
  {
    if i > 0 {
      BigEndianByte(n / 256, width - 1, i - 1);
      DivideTwice(n, 256, Pow256(i - 1));
    }
  }

  lemma DivideTwice(n: nat, a: nat, b: nat)
    requires a > 0 && b > 0
    ensures a * b > 0 && n / a / b == n / (a * b)
  {
    var q := n / a / b;
    Nested(n, a, b, n / a, n % a, q, n / a % b);
    QuotientIs(n, a * b, q);
  }

  lemma Nested(n: nat, a: nat, b: nat, x: nat, y: nat, q: nat, s: nat)
    requires n == a * x + y && y < a && x == b * q + s && s < b
    ensures a * b > 0 && q * (a * b) <= n < q * (a * b) + a * b
  {
    Regroup(a, b, q, s);
    Apart(s, b, a);
    assert s * a == a * s && b * a == a * b;
  }

  lemma Regroup(a: nat, b: nat, q: nat, s: nat)
    ensures a * (b * q + s) == q * (a * b) + a * s
  {
    assert a * (b * q + s) == a * (b * q) + a * s;
    assert a * (b * q) == a * b * q;
  }

  lemma QuotientIs(n: nat, d: nat, q: nat)
    requires d > 0 && q * d <= n < q * d + d
    ensures n / d == q
  {
    assert n == n / d * d + n % d;
    Apart(n / d, q, d);
    Apart(q, n / d, d);
  }

  lemma Apart(p: nat, q: nat, d: nat)
    ensures p < q ==> p * d + d <= q * d
  {
    if p < q {
      assert (p + 1) * d <= q * d;
    }
  }

  lemma {:induction false} LittleEndianRoundTrip(n: nat, width: nat)
    requires n < Pow256(width)
    ensures FromLittleEndian(LittleEndian(n, width)) == n
  {
    if width > 0 {
      LittleEndianRoundTrip(n / 256, width - 1);
      assert LittleEndian(n, width)[1..] == LittleEndian(n / 256, width - 1);
    }
  }

  lemma {:induction false} BigEndianRoundTrip(n: nat, width: nat)
    requires n < Pow256(width)
    ensures FromBigEndian(BigEndian(n, width)) == n
  {
    if width > 0 {
      BigEndianRoundTrip(n / 256, width - 1);
      assert BigEndian(n, width)[..width - 1] == BigEndian(n / 256, width - 1);
    }
  }

  /** Reading bytes and writing them back at the same width gives the same bytes. */
  lemma {:induction false} BigEndianOfRead(b: ByteString)
    ensures BigEndian(FromBigEndian(b), |b|) == b
  {
    if b != [] {
      var n := FromBigEndian(b);
      BigEndianOfRead(b[..|b| - 1]);
      LastByte(n, b[|b| - 1] as nat, FromBigEndian(b[..|b| - 1]));
      assert b == b[..|b| - 1] + [b[|b| - 1]];
    }
  }

  lemma LastByte(n: nat, last: nat, rest: nat)
    requires n == last + 256 * rest && last < 256
    ensures n % 256 == last && n / 256 == rest
  {
  }

  lemma {:induction false} Pow2Add(a: nat, b: nat)
    ensures Pow2(a + b) == Pow2(a) * Pow2(b)
  {
    if a > 0 {
      Pow2Add(a - 1, b);
      assert Pow2(a + b) == 2 * (Pow2(a - 1) * Pow2(b));
    }
  }

  lemma {:induction false} Pow2Mono(a: nat, b: nat)
    requires a <= b
    ensures Pow2(a) <= Pow2(b)
    decreases b
  {
    if a < b {
      Pow2Mono(a, b - 1);
    }
  }
}
