/** Bytes, machine integers and big-endian numbers shared by the other modules. */
module Bytes {

  datatype Option<+T> = None | Some(value: T)

  type byte = b: int | 0 <= b < 256
  type bytes = seq<byte>

  const TWO63: nat := 0x8000_0000_0000_0000
  const TWO64: nat := 0x1_0000_0000_0000_0000

  type uint64 = n: int | 0 <= n < TWO64

  function Min(x: nat, y: nat): nat { if x < y then x else y }

  function Zeros(k: nat): (r: bytes)
    ensures |r| == k
  {
    seq(k, i => 0)
  }

  /** A 32-byte word: the unit of the Solidity ABI and the output of the hashes. */
  type word = b: bytes | |b| == 32 witness Zeros(32)

  function AsciiByte(c: char): byte { if c as int < 128 then c as int else 0 }

  /** The bytes of an ASCII text. */
  function Ascii(s: string): (r: bytes)
    ensures |r| == |s|
  {
    seq(|s|, i requires 0 <= i < |s| => AsciiByte(s[i]))
  }

  /** keccak256 and sha256 are parameters of this type; nothing is assumed of them. */
  type Hash = bytes -> word

  /** Two different inputs with one digest. */
  ghost predicate Collision(h: Hash, x: bytes, y: bytes) {
    x != y && h(x) == h(y)
  }

  function Pow256(k: nat): (r: nat)
    ensures r > 0
  {
    if k == 0 then 1 else 256 * Pow256(k - 1)
  }

  /** The low k bytes of n, most significant first. */
  function BigEndian(n: nat, k: nat): (r: bytes)
    ensures |r| == k
  {
    if k == 0 then [] else BigEndian(n / 256, k - 1) + [n % 256]
  }

  /** The number a byte string denotes, most significant byte first. */
  function Value(b: bytes): nat {
    if b == [] then 0 else 256 * Value(b[..|b| - 1]) + b[|b| - 1]
  }

  /** The shortest big-endian form; zero has no bytes (math/big Int.Bytes). */
  function MinimalBytes(n: nat): bytes {
    if n == 0 then [] else MinimalBytes(n / 256) + [n % 256]
  }

  lemma {:induction false} Pow256Monotone(j: nat, k: nat)
    requires j <= k
    ensures Pow256(j) <= Pow256(k)
  {
    if j < k {
      Pow256Monotone(j, k - 1);
    }
  }

  lemma Uint64Fits(n: uint64)
    ensures n < Pow256(8) <= Pow256(32)
  {
    assert Pow256(8) == TWO64;
    Pow256Monotone(8, 32);
  }

  lemma {:induction false} ValueOfBigEndian(n: nat, k: nat)
    requires n < Pow256(k)
    ensures Value(BigEndian(n, k)) == n
  {
    if k > 0 {
      ValueOfBigEndian(n / 256, k - 1);
      var b := BigEndian(n, k);
      assert b[..|b| - 1] == BigEndian(n / 256, k - 1);
    }
  }

  lemma {:induction false} BigEndianOfValue(b: bytes)
    ensures Value(b) < Pow256(|b|)
    ensures BigEndian(Value(b), |b|) == b
  {
    if b != [] {
      BigEndianOfValue(b[..|b| - 1]);
      assert b == b[..|b| - 1] + [b[|b| - 1]];
    }
  }

  /** The value of a string in two parts. */
  lemma {:induction false} ValueSplit(a: bytes, b: bytes)
    ensures Value(a + b) == Value(a) * Pow256(|b|) + Value(b)
  {
    if b == [] {
      assert a + b == a;
    } else {
      var t := b[..|b| - 1];
      ValueSplit(a, t);
      assert (a + b)[..|a + b| - 1] == a + t;
      assert 256 * (Value(a) * Pow256(|t|)) == Value(a) * (256 * Pow256(|t|));
    }
  }

  lemma {:induction false} ZerosInFront(k: nat, b: bytes)
    ensures Value(Zeros(k) + b) == Value(b)
  {
    if b == [] {
      assert Zeros(k) + b == Zeros(k);
      BigEndianZero(k);
      ValueOfBigEndian(0, k);
    } else {
      var t := b[..|b| - 1];
      ZerosInFront(k, t);
      assert (Zeros(k) + b)[..k + |b| - 1] == Zeros(k) + t;
    }
  }

  lemma MulAtLeast(k: int, n: int)
    requires k >= 1 && n > 0
    ensures k * n >= n
  {
  }

  lemma DistributeMinus(q: int, d: int, n: int)
    ensures (q - d) * n == q * n - d * n
  {
  }

  lemma ModUnique(a: int, n: int, q: int, r: int)
    requires 0 <= r < n && a == q * n + r
    ensures a % n == r
  {
    var d, m := a / n, a % n;
    assert a == d * n + m;
    DistributeMinus(q, d, n);
    DistributeMinus(d, q, n);
    if q > d {
      MulAtLeast(q - d, n);
    } else if q < d {
      MulAtLeast(d - q, n);
    }
  }

  /** The low part of a string in two parts. */
  lemma ValueLow(hi: bytes, lo: bytes)
    ensures Value(lo) == Value(hi + lo) % Pow256(|lo|)
  {
    ValueSplit(hi, lo);
    BigEndianOfValue(lo);
    ModUnique(Value(hi + lo), Pow256(|lo|), Value(hi), Value(lo));
  }

  /** A string of at most k bytes is below 256^k. */
  lemma ValueFits(b: bytes, k: nat)
    requires |b| <= k
    ensures Value(b) == Value(b) % Pow256(k)
  {
    BigEndianOfValue(b);
    Pow256Monotone(|b|, k);
    ModUnique(Value(b), Pow256(k), 0, Value(b));
  }

  lemma BigEndianInjective(m: nat, n: nat, k: nat)
    requires m < Pow256(k) && n < Pow256(k)
    requires BigEndian(m, k) == BigEndian(n, k)
    ensures m == n
  {
    ValueOfBigEndian(m, k);
    ValueOfBigEndian(n, k);
  }

  lemma {:induction false} BigEndianZero(k: nat)
    ensures BigEndian(0, k) == Zeros(k)
  {
    if k > 0 {
      BigEndianZero(k - 1);
    }
  }

  /** Left-padding the shortest form gives the fixed-width form. */
  lemma {:induction false} MinimalBytesPadded(n: nat, k: nat)
    requires n < Pow256(k)
    ensures |MinimalBytes(n)| <= k
    ensures Zeros(k - |MinimalBytes(n)|) + MinimalBytes(n) == BigEndian(n, k)
  {
    if n == 0 {
      BigEndianZero(k);
    } else {
      assert k > 0;
      MinimalBytesPadded(n / 256, k - 1);
      var m := MinimalBytes(n / 256);
      assert Zeros(k - (|m| + 1)) + (m + [n % 256]) == Zeros(k - 1 - |m|) + m + [n % 256];
    }
  }

  /** Leading zeros widen a number. */
  lemma {:induction false} Widen(n: nat, j: nat, k: nat)
    requires j <= k && n < Pow256(j)
    ensures Zeros(k - j) + BigEndian(n, j) == BigEndian(n, k)
  {
    if j == 0 {
      BigEndianZero(k);
    } else {
      Widen(n / 256, j - 1, k - 1);
      assert Zeros(k - j) + (BigEndian(n / 256, j - 1) + [n % 256]) == BigEndian(n / 256, k - 1) + [n % 256];
    }
  }
}
