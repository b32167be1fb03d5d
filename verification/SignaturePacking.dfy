/** Low-S normalisation and packing of an ECDSA signature, and the recovery byte. */
module SignaturePacking {
  import opened Bytes

  /** The order of secp256k1. */
  const N: nat := 0xFFFFFFFF_FFFFFFFF_FFFFFFFF_FFFFFFFE_BAAEDCE6_AF48A03B_BFD25E8C_D0364141

  const HALF_N: nat := N / 2

  function LowS(s: nat): nat
    requires s <= N
  {
    if s > HALF_N then N - s else s
  }

  /** EIP-2: the smaller of s and its twin, the same for both, and stable. */
  lemma LowSIsCanonical(s: nat)
    requires 1 <= s < N
    ensures LowS(s) == Min(s, N - s) == LowS(N - s)
    ensures 1 <= LowS(s) <= HALF_N && LowS(LowS(s)) == LowS(s)
  {
  }

  /** r then the low s, each in 32 bytes. */
  function Packed(r: nat, s: nat): (b: bytes)
    requires s <= N
    ensures |b| == 64
  {
    BigEndian(r, 32) + BigEndian(LowS(s), 32)
  }

  lemma OrderFits()
    ensures N < Pow256(32)
  {
    assert Pow256(8) == TWO64;
    assert Pow256(16) == TWO64 * TWO64;
    assert Pow256(24) == TWO64 * TWO64 * TWO64;
    assert Pow256(32) == TWO64 * TWO64 * TWO64 * TWO64;
  }

  /** The 64 bytes decode to (r, min(s, N - s)). */
  lemma PackedDecodes(r: nat, s: nat)
    requires 1 <= r < N && 1 <= s < N
    ensures Value(Packed(r, s)[..32]) == r && Value(Packed(r, s)[32..]) == Min(s, N - s)
  {
    OrderFits();
    LowSIsCanonical(s);
    ValueOfBigEndian(r, 32);
    ValueOfBigEndian(LowS(s), 32);
    assert Packed(r, s)[..32] == BigEndian(r, 32) && Packed(r, s)[32..] == BigEndian(LowS(s), 32);
  }

  /** Two signatures pack alike exactly when they are equal up to the twin of s. */
  lemma PackedIffTwins(r: nat, s: nat, r': nat, s': nat)
    requires 1 <= r < N && 1 <= s < N && 1 <= r' < N && 1 <= s' < N
    ensures Packed(r, s) == Packed(r', s') <==> r == r' && (s == s' || s == N - s')
  {
    PackedDecodes(r, s);
    PackedDecodes(r', s');
    LowSIsCanonical(s);
    LowSIsCanonical(s');
  }

  // ------------------------------------------------------------------ recovery

  /** Ecrecover of a message and a 65-byte candidate; the error case is None. */
  type Ecrecover = (bytes, bytes) -> Option<bytes>

  /** The compressed form of the point (x, y). */
  type Compress = (nat, nat) -> bytes

  /** The candidate recovers the expected key. */
  predicate Recovers(ecrecover: Ecrecover, compress: Compress, msg: bytes, candidate: bytes, key: bytes) {
    var p := ecrecover(msg, candidate);
    p.Some? && |p.value| == 65 && compress(Value(p.value[1..33]), Value(p.value[33..65])) == key
  }

  /** The recovered key is a tag byte, then x, then y, each in 32 bytes; it is the expected one
      if the point (x, y) compresses to it. No key, or one of another length, is not. */
  lemma RecoversMeans(ecrecover: Ecrecover, compress: Compress, msg: bytes, candidate: bytes, key: bytes,
                      tag: byte, x: nat, y: nat, width: nat)
    requires width == 32 && x < Pow256(width) && y < Pow256(width)
    ensures ecrecover(msg, candidate) == Some([tag] + BigEndian(x, width) + BigEndian(y, width)) ==>
              (Recovers(ecrecover, compress, msg, candidate, key) <==> compress(x, y) == key)
    ensures ecrecover(msg, candidate).None? || |ecrecover(msg, candidate).value| != 65 ==>
              !Recovers(ecrecover, compress, msg, candidate, key)
  {
    var p := [tag] + BigEndian(x, width) + BigEndian(y, width);
    assert p[1..33] == BigEndian(x, width) && p[33..65] == BigEndian(y, width);
    ValueOfBigEndian(x, width);
    ValueOfBigEndian(y, width);
  }

  /** recoverV: the first of 0 and 1 that recovers the key, or none. */
  method RecoverV(ecrecover: Ecrecover, compress: Compress, msg: bytes, rs: bytes, key: bytes) returns (v: Option<byte>)
    requires |rs| == 64
    ensures v.Some? ==> v.value < 2 && Recovers(ecrecover, compress, msg, rs + [v.value], key)
    ensures v.Some? ==> forall u: byte :: u < v.value ==> !Recovers(ecrecover, compress, msg, rs + [u], key)
    ensures v.None? ==> forall u: byte :: u < 2 ==> !Recovers(ecrecover, compress, msg, rs + [u], key)
  {
    var i: byte := 0;
    while i < 2
      invariant 0 <= i <= 2
      invariant forall u: byte :: u < i ==> !Recovers(ecrecover, compress, msg, rs + [u], key)
    {
      var candidate := rs + [i];
      var recovered := ecrecover(msg, candidate);
      if recovered.Some? && |recovered.value| == 65 {
        var x := Value(recovered.value[1..33]);
        var y := Value(recovered.value[33..65]);
        if compress(x, y) == key {
          return Some(i);
        }
      }
      i := i + 1;
    }
    return None;
  }

  /** b written over a from position `at` on. */
  function Splice(a: bytes, at: nat, b: bytes): bytes
    requires at + |b| <= |a|
  {
    a[..at] + b + a[at + |b|..]
  }

  lemma SpliceStep(a: bytes, at: nat, b: bytes, i: nat)
    requires at + |b| <= |a| && i < |b|
    ensures Splice(a, at, b[..i])[at + i := b[i]] == Splice(a, at, b[..i + 1])
  {
  }

  /** copy(a[at:], b) */
  method CopyAt(a: array<byte>, at: nat, b: bytes)
    requires at + |b| <= a.Length
    modifies a
    ensures a[..] == Splice(old(a[..]), at, b)
  {
    ghost var was := a[..];
    var i := 0;
    while i < |b|
      invariant 0 <= i <= |b|
      invariant a[..] == Splice(was, at, b[..i])
    {
      SpliceStep(was, at, b, i);
      ghost var before := a[..];
      a[at + i] := b[i];
      assert a[..] == before[at + i := b[i]];
      i := i + 1;
    }
    assert b[..i] == b;
  }

  /** The first window ends at `width` and leaves zeros behind it. */
  lemma FirstWindow(x: bytes, width: nat)
    requires |x| <= width
    ensures Splice(Zeros(2 * width + 1), width - |x|, x) == Zeros(width - |x|) + x + Zeros(width + 1)
  {
  }

  lemma SecondWindow(head: bytes, y: bytes, width: nat)
    requires |head| == width && |y| <= width
    ensures Splice(head + Zeros(width + 1), 2 * width - |y|, y)[..2 * width] == head + (Zeros(width - |y|) + y)
  {
  }

  /** Right-align x and y in two windows of a zeroed buffer, each `width` bytes. */
  method PackBytes(buffer: array<byte>, x: bytes, y: bytes, width: nat)
    requires buffer.Length == 2 * width + 1 && buffer[..] == Zeros(2 * width + 1) && |x| <= width && |y| <= width
    modifies buffer
    ensures buffer[..2 * width] == Zeros(width - |x|) + x + (Zeros(width - |y|) + y)
  {
    CopyAt(buffer, width - |x|, x);
    FirstWindow(x, width);
    CopyAt(buffer, 2 * width - |y|, y);
    SecondWindow(Zeros(width - |x|) + x, y, width);
    assert buffer[..2 * width] == buffer[..][..2 * width];
  }

  /** The shortest bytes of r and s, so placed, are their fixed-width forms; Ethereum's windows
      are 32 bytes wide. */
  method PackInto(buffer: array<byte>, r: nat, s: nat, width: nat)
    requires buffer.Length == 2 * width + 1 && buffer[..] == Zeros(2 * width + 1)
    requires r < Pow256(width) && s < Pow256(width)
    modifies buffer
    ensures buffer[..2 * width] == BigEndian(r, width) + BigEndian(s, width)
  {
    MinimalBytesPadded(r, width);
    MinimalBytesPadded(s, width);
    PackBytes(buffer, MinimalBytes(r), MinimalBytes(s), width);
  }

  /** Steps 1 and 2 of rsToEthSig: the low s, packed after r. */
  method PackLow(r: nat, s: nat) returns (buffer: array<byte>)
    requires 1 <= r < N && 1 <= s < N
    ensures fresh(buffer) && buffer.Length == 65 && buffer[..64] == Packed(r, s)
  {
    var low := s;
    if s > HALF_N {
      low := N - s;
    }
    OrderFits();
    buffer := new byte[65](i => 0);
    assert buffer[..] == Zeros(65);
    PackInto(buffer, r, low, 32);
  }

  /** rsToEthSig. On success the first 64 bytes are the packed signature and the last is 27 or
      28, whichever recovers the key. */
  method RsToEthSig(ecrecover: Ecrecover, compress: Compress, r: nat, s: nat, msg: bytes, key: bytes)
    returns (sig: Option<bytes>)
    requires 1 <= r < N && 1 <= s < N
    ensures sig.Some? ==>
              && |sig.value| == 65 && sig.value[..64] == Packed(r, s) && (sig.value[64] == 27 || sig.value[64] == 28)
              && Recovers(ecrecover, compress, msg, Packed(r, s) + [sig.value[64] - 27], key)
    ensures sig.None? <==>
              && !Recovers(ecrecover, compress, msg, Packed(r, s) + [0], key)
              && !Recovers(ecrecover, compress, msg, Packed(r, s) + [1], key)
  {
    var buffer := PackLow(r, s);
    var rs := buffer[..64];
    var v := RecoverV(ecrecover, compress, msg, rs, key);
    if v.None? {
      return None;
    }
    buffer[64] := v.value + 27;
    assert buffer[..][..64] == rs;
    sig := Some(buffer[..]);
  }
}
