/** The validator-set, domain-separator and checkpoint encodings, and what they determine. */
module Checkpoint {
  import opened Bytes
  import opened Abi
  import opened ValidatorOrder

  /** common.BytesToAddress: right-aligned in 20 bytes, cropped from the left. */
  function BytesToAddress(b: bytes): address {
    if |b| > 20 then b[|b| - 20..] else Zeros(20 - |b|) + b
  }

  /** copy into a [32]byte: front-aligned, zero-filled, cropped from the right. */
  function Fixed32(b: bytes): word {
    if |b| >= 32 then b[..32] else b + Zeros(32 - |b|)
  }

  /** Front-aligned: byte for byte as far as both go, then zeros. */
  lemma Fixed32At(b: bytes, i: nat)
    requires i < 32
    ensures Fixed32(b)[i] == if i < |b| then b[i] else 0
  {
  }

  /** An address is the low 160 bits of what it is taken from, whatever its length. */
  lemma AddressIsLowBytes(b: bytes, width: nat)
    requires width == 20
    ensures Value(BytesToAddress(b)) == Value(b) % Pow256(width)
  {
    if |b| > width {
      ValueLow(b[..|b| - width], b[|b| - width..]);
      assert b == b[..|b| - width] + b[|b| - width..];
    } else {
      ZerosInFront(width - |b|, b);
      ValueFits(b, width);
    }
  }

  predicate Addressed(vs: seq<Validator>) {
    forall v :: v in vs ==> |v.address| == 20
  }

  // ------------------------------------------------------------- the validator set

  function Pair(v: Validator): Term {
    Tuple([Address(BytesToAddress(v.address)), UInt(v.power)])
  }

  function Pairs(vs: seq<Validator>): seq<Term> {
    seq(|vs|, i requires 0 <= i < |vs| => Pair(vs[i]))
  }

  /** One argument of type (address, uint256)[]. */
  function ValidatorArray(vs: seq<Validator>): Term {
    Tuple([Array(Pairs(vs))])
  }

  function PairWords(v: Validator): seq<word> {
    [PadLeft(BytesToAddress(v.address)), Word(v.power)]
  }

  function SetWords(vs: seq<Validator>): (r: seq<word>)
    ensures |r| == 2 * |vs|
  {
    if vs == [] then [] else PairWords(vs[0]) + SetWords(vs[1..])
  }

  /** offset(32) || length || address word || power word || ... */
  function SetBytes(vs: seq<Validator>): bytes {
    Word(32) + Word(|vs|) + Concat(SetWords(vs))
  }

  lemma PairEncoding(v: Validator)
    ensures !Dynamic(Pair(v)) && Enc(Pair(v)) == Concat(PairWords(v))
  {
    var ts := [Address(BytesToAddress(v.address)), UInt(v.power)];
    SimpleRun(ts, HeadLength(ts));
    assert WordsOf(ts) == PairWords(v);
    assert Enc(Pair(v)) == EncSeq(ts);
  }

  lemma {:induction false} PairsEncoding(vs: seq<Validator>, offset: nat)
    ensures Heads(Pairs(vs), offset) == Concat(SetWords(vs)) && Tails(Pairs(vs)) == []
  {
    if vs != [] {
      PairEncoding(vs[0]);
      PairsEncoding(vs[1..], offset);
      assert Pairs(vs)[1..] == Pairs(vs[1..]);
      ConcatAppend(PairWords(vs[0]), SetWords(vs[1..]));
    }
  }

  /** The hand-rolled layout is the ABI encoding of the array, for every length. */
  lemma LayoutIsAbi(vs: seq<Validator>)
    ensures SetBytes(vs) == Enc(ValidatorArray(vs))
  {
    var ps := Pairs(vs);
    PairsEncoding(vs, HeadLength(ps));
    var a := Array(ps);
    assert Dynamic(a) && Enc(a) == Word(|vs|) + Concat(SetWords(vs));
    SingleDynamic(a, 32);
    assert Enc(ValidatorArray(vs)) == EncSeq([a]);
  }

  lemma {:induction false} SetWordsAppend(vs: seq<Validator>, v: Validator)
    ensures SetWords(vs + [v]) == SetWords(vs) + PairWords(v)
  {
    if vs == [] {
      assert vs + [v] == [v];
    } else {
      assert (vs + [v])[1..] == vs[1..] + [v];
      SetWordsAppend(vs[1..], v);
    }
  }

  /** PutUint64 into the last eight bytes of a zeroed word. */
  function Uint64Word(n: uint64): word {
    Zeros(24) + BigEndian(n, 8)
  }

  lemma Uint64WordIsWord(n: uint64)
    ensures Uint64Word(n) == Word(n)
  {
    Uint64Fits(n);
    Widen(n, 8, 32);
  }

  /** One turn of the loop. */
  lemma SetWordsStep(vs: seq<Validator>, i: nat)
    requires i < |vs|
    ensures Concat(SetWords(vs[..i + 1]))
            == Concat(SetWords(vs[..i])) + PadLeft(BytesToAddress(vs[i].address)) + Word(vs[i].power)
  {
    SetWordsAppend(vs[..i], vs[i]);
    ConcatAppend(SetWords(vs[..i]), PairWords(vs[i]));
    ConcatTwo(PadLeft(BytesToAddress(vs[i].address)), Word(vs[i].power));
    assert vs[..i + 1] == vs[..i] + [vs[i]];
  }

  /** The two words in front of the pairs. */
  lemma HeaderIsAbi(vs: seq<Validator>)
    requires |vs| < TWO63
    ensures Uint64Word(32) + Uint64Word(|vs|) + Concat(SetWords(vs)) == Enc(ValidatorArray(vs))
  {
    Uint64WordIsWord(32);
    Uint64WordIsWord(|vs|);
    LayoutIsAbi(vs);
  }

  /** encodeAndHashValidatorSet. A Go slice has fewer than 2^63 elements. */
  method EncodeAndHashValidatorSet(keccak: Hash, vs: seq<Validator>) returns (encoded: bytes, hash: word)
    requires |vs| < TWO63
    ensures encoded == Enc(ValidatorArray(vs)) && hash == keccak(encoded)
  {
    var encodedVals: bytes := [];
    var i := 0;
    while i < |vs|
      invariant 0 <= i <= |vs|
      invariant encodedVals == Concat(SetWords(vs[..i]))
    {
      var v := vs[i];
      encodedVals := encodedVals + PadLeft(BytesToAddress(v.address)) + Word(v.power);
      SetWordsStep(vs, i);
      i := i + 1;
    }
    assert vs[..i] == vs;
    HeaderIsAbi(vs);
    var offset := 32;
    encoded := Uint64Word(offset) + Uint64Word(|vs|) + encodedVals;
    hash := keccak(encoded);
  }

  // ------------------------------------------------------------------- the decoder

  function DecodePair(a: word, p: word): (r: Option<Validator>)
    ensures r.Some? ==> |r.value.address| == 20
  {
    if a[..12] != Zeros(12) || Value(p) >= TWO64 then None else Some(Validator(a[12..], Value(p)))
  }

  function DecodePairs(b: bytes, n: nat): (r: Option<seq<Validator>>)
    ensures r.Some? ==> |r.value| == n && Addressed(r.value)
    decreases n
  {
    if n == 0 then if b == [] then Some([]) else None
    else if |b| < 64 then None
    else
      match (DecodePair(b[..32], b[32..64]), DecodePairs(b[64..], n - 1))
      case (Some(v), Some(rest)) => Some([v] + rest)
      case _ => None
  }

  /** Accepts exactly the encodings of lists of 20-byte addresses with 64-bit powers. */
  function DecodeSet(b: bytes): Option<seq<Validator>> {
    if |b| < 64 || b[..32] != Word(32) then None
    else DecodePairs(b[64..], Value(b[32..64]))
  }

  lemma DecodePairOf(v: Validator)
    requires |v.address| == 20
    ensures DecodePair(PadLeft(BytesToAddress(v.address)), Word(v.power)) == Some(v)
  {
    var a := PadLeft(v.address);
    assert BytesToAddress(v.address) == v.address;
    assert a[..12] == Zeros(12) && a[12..] == v.address;
    Uint64Fits(v.power);
    ValueOfBigEndian(v.power, 32);
  }

  lemma DecodePairSound(a: word, p: word)
    requires DecodePair(a, p).Some?
    ensures var v := DecodePair(a, p).value;
            |v.address| == 20 && PadLeft(BytesToAddress(v.address)) == a && Word(v.power) == p
  {
    BigEndianOfValue(p);
    assert a == a[..12] + a[12..];
  }

  lemma ConsPair(v: Validator, rest: seq<Validator>)
    ensures Concat(SetWords([v] + rest)) == PadLeft(BytesToAddress(v.address)) + Word(v.power) + Concat(SetWords(rest))
  {
    ConcatAppend(PairWords(v), SetWords(rest));
    ConcatTwo(PadLeft(BytesToAddress(v.address)), Word(v.power));
    assert ([v] + rest)[1..] == rest;
  }

  lemma {:induction false} DecodePairsOf(vs: seq<Validator>)
    requires Addressed(vs)
    ensures DecodePairs(Concat(SetWords(vs)), |vs|) == Some(vs)
  {
    if vs != [] {
      var v, b, rest := vs[0], Concat(SetWords(vs)), Concat(SetWords(vs[1..]));
      assert vs == [v] + vs[1..];
      ConsPair(v, vs[1..]);
      DecodePairOf(v);
      assert b[..32] == PadLeft(BytesToAddress(v.address)) && b[32..64] == Word(v.power) && b[64..] == rest;
      DecodePairsOf(vs[1..]);
    }
  }

  /** Decoding recovers the list. */
  lemma SetRoundTrip(vs: seq<Validator>)
    requires Addressed(vs) && |vs| < TWO64
    ensures DecodeSet(SetBytes(vs)) == Some(vs)
  {
    var b := SetBytes(vs);
    assert b[..32] == Word(32) && b[32..64] == Word(|vs|) && b[64..] == Concat(SetWords(vs));
    Uint64Fits(|vs|);
    ValueOfBigEndian(|vs|, 32);
    DecodePairsOf(vs);
  }

  lemma SplitWords(b: bytes)
    requires |b| >= 64
    ensures b == b[..32] + b[32..64] + b[64..]
  {
  }

  /** A list that decodes begins with a pair that decodes, and goes on with a list that does. */
  lemma DecodePairsStep(b: bytes, n: nat) returns (v: Validator, rest: seq<Validator>)
    requires n > 0 && DecodePairs(b, n).Some?
    ensures |b| >= 64 && DecodePair(b[..32], b[32..64]) == Some(v) && DecodePairs(b[64..], n - 1) == Some(rest)
    ensures DecodePairs(b, n) == Some([v] + rest)
  {
    v, rest := DecodePair(b[..32], b[32..64]).value, DecodePairs(b[64..], n - 1).value;
  }

  lemma PairInFront(b: bytes, v: Validator, rest: seq<Validator>)
    requires |b| >= 64 && DecodePair(b[..32], b[32..64]) == Some(v) && Concat(SetWords(rest)) == b[64..]
    ensures Concat(SetWords([v] + rest)) == b
  {
    SplitWords(b);
    DecodePairSound(b[..32], b[32..64]);
    ConsPair(v, rest);
  }

  lemma {:induction false} DecodePairsSound(b: bytes, n: nat, vs: seq<Validator>)
    requires DecodePairs(b, n) == Some(vs)
    ensures Concat(SetWords(vs)) == b
    decreases n
  {
    if n == 0 {
      assert vs == [] && b == [];
    } else {
      var v, rest := DecodePairsStep(b, n);
      var tail := b[64..];
      DecodePairsSound(tail, n - 1, rest);
      PairInFront(b, v, rest);
      assert vs == [v] + rest;
    }
  }

  /** And nothing else decodes: the encoder and the decoder are inverse to each other. */
  lemma DecodeSetSound(b: bytes)
    requires DecodeSet(b).Some?
    ensures SetBytes(DecodeSet(b).value) == b && Addressed(DecodeSet(b).value)
  {
    DecodePairsSound(b[64..], Value(b[32..64]), DecodeSet(b).value);
    BigEndianOfValue(b[32..64]);
    SplitWords(b);
  }

  /** Two requests get the same set bytes exactly when their lists are permutations of each
      other. */
  lemma CanonicalBytesIffPermutation(vs: seq<Validator>, ws: seq<Validator>)
    requires Addressed(vs) && Addressed(ws) && |vs| < TWO64 && |ws| < TWO64
    ensures SetBytes(Canonical(vs)) == SetBytes(Canonical(ws)) <==> multiset(vs) == multiset(ws)
  {
    CanonicalIffPermutation(vs, ws);
    CanonicalAddressed(vs);
    CanonicalAddressed(ws);
    SetRoundTrip(Canonical(vs));
    SetRoundTrip(Canonical(ws));
  }

  lemma CanonicalAddressed(vs: seq<Validator>)
    ensures Addressed(vs) ==> Addressed(Canonical(vs))
    ensures |Canonical(vs)| == |vs|
  {
    CanonicalSorts(vs);
    assert |multiset(Canonical(vs))| == |multiset(vs)|;
    forall v | v in Canonical(vs) ensures v in vs {
      assert v in multiset(Canonical(vs));
    }
  }

  // ------------------------------------------------- domain separator and checkpoint

  /** "tellor-1" */
  const MAINNET: bytes := [0x74, 0x65, 0x6c, 0x6c, 0x6f, 0x72, 0x2d, 0x31]

  /** "checkpoint" */
  const CHECKPOINT: bytes := [0x63, 0x68, 0x65, 0x63, 0x6b, 0x70, 0x6f, 0x69, 0x6e, 0x74]

  /** The arguments (string, string) of the separator of a chain other than mainnet. */
  function DomainPreimage(chainId: bytes): bytes {
    Enc(Tuple([DynBytes(CHECKPOINT), DynBytes(chainId)]))
  }

  function DomainSeparator(keccak: Hash, chainId: bytes): word {
    if chainId == MAINNET then Fixed32(CHECKPOINT) else keccak(DomainPreimage(chainId))
  }

  /** The names, as text. */
  lemma NamesAreText()
    ensures MAINNET == Ascii("tellor-1") && CHECKPOINT == Ascii("checkpoint")
  {
  }

  /** Two offsets, then each string with its length in front and zeros behind. */
  lemma DomainLayout(tag: bytes, chainId: bytes)
    requires tag == CHECKPOINT
    ensures var x := Word(|tag|) + tag + Zeros((32 - |tag| % 32) % 32);
            var y := Word(|chainId|) + chainId + Zeros((32 - |chainId| % 32) % 32);
            DomainPreimage(chainId) == Concat([Word(64), Word(64 + |x|)]) + (x + y)
  {
    TwoLayout(tag, chainId);
  }

  /** A decoder recovers the two strings, and decodes nothing but such an encoding. */
  lemma DomainRoundTrip(chainId: bytes, b: bytes)
    requires |chainId| < TWO64
    ensures DecodeTwo(DomainPreimage(chainId)) == Some((CHECKPOINT, chainId))
    ensures DecodeTwo(b) == Some((CHECKPOINT, chainId)) ==> b == DomainPreimage(chainId)
  {
    TwoRoundTrip(CHECKPOINT, chainId);
    if DecodeTwo(b).Some? {
      TwoSound(b);
    }
  }

  /** Mainnet has a word of its own, the text "checkpoint" and zeros; every other chain has the
      hash of an encoding that decodes to that text and its own name. */
  lemma DomainSeparatorMeans(keccak: Hash, chainId: bytes)
    requires |chainId| < TWO64
    ensures chainId == Ascii("tellor-1") ==> DomainSeparator(keccak, chainId) == Ascii("checkpoint") + Zeros(22)
    ensures chainId != Ascii("tellor-1") ==>
              exists b :: DecodeTwo(b) == Some((Ascii("checkpoint"), chainId)) && DomainSeparator(keccak, chainId) == keccak(b)
  {
    NamesAreText();
    DomainRoundTrip(chainId, []);
    if chainId != MAINNET {
      var b := DomainPreimage(chainId);
      assert DecodeTwo(b) == Some((CHECKPOINT, chainId)) && DomainSeparator(keccak, chainId) == keccak(b);
    }
  }

  lemma DomainPreimageInjective(c: bytes, d: bytes)
    requires |c| < TWO64 && |d| < TWO64 && DomainPreimage(c) == DomainPreimage(d)
    ensures c == d
  {
    DomainRoundTrip(c, []);
    DomainRoundTrip(d, []);
  }

  /** One chain, or the hash collides on the two names or hits the mainnet constant. */
  ghost predicate OneChain(keccak: Hash, c: bytes, d: bytes) {
    || c == d
    || Collision(keccak, DomainPreimage(c), DomainPreimage(d))
    || (c == MAINNET && keccak(DomainPreimage(d)) == Fixed32(CHECKPOINT))
    || (d == MAINNET && keccak(DomainPreimage(c)) == Fixed32(CHECKPOINT))
  }

  /** A separator names one chain, unless the hash collides or hits the mainnet constant. */
  lemma DomainSeparatorBinds(keccak: Hash, c: bytes, d: bytes)
    requires |c| < TWO64 && |d| < TWO64 && DomainSeparator(keccak, c) == DomainSeparator(keccak, d)
    ensures OneChain(keccak, c, d)
  {
    if c != d && c != MAINNET && d != MAINNET && DomainPreimage(c) == DomainPreimage(d) {
      DomainPreimageInjective(c, d);
    }
  }

  function CheckpointPreimage(domainSep: bytes, threshold: uint64, ts: uint64, setHash: bytes): bytes {
    Enc(Tuple([Bytes32(Fixed32(domainSep)), UInt(threshold), UInt(ts), Bytes32(Fixed32(setHash))]))
  }

  function EncodeValsetCheckpoint(keccak: Hash, domainSep: bytes, threshold: uint64, ts: uint64, setHash: bytes): word {
    keccak(CheckpointPreimage(domainSep, threshold, ts, setHash))
  }

  lemma CheckpointLayout(domainSep: bytes, threshold: uint64, ts: uint64, setHash: bytes)
    ensures CheckpointPreimage(domainSep, threshold, ts, setHash)
            == Concat([Fixed32(domainSep), Word(threshold), Word(ts), Fixed32(setHash)])
  {
    var args := [Bytes32(Fixed32(domainSep)), UInt(threshold), UInt(ts), Bytes32(Fixed32(setHash))];
    AllSimple(args);
    assert WordsOf(args) == [Fixed32(domainSep), Word(threshold), Word(ts), Fixed32(setHash)];
  }

  lemma CheckpointHashes(keccak: Hash, d: word, p: uint64, t: uint64, h: word)
    ensures EncodeValsetCheckpoint(keccak, d, p, t, h) == keccak(Concat([d, Word(p), Word(t), h]))
  {
    CheckpointLayout(d, p, t, h);
    assert Fixed32(d) == d && Fixed32(h) == h;
  }

  lemma CheckpointPreimageInjective(d: word, p: uint64, t: uint64, h: word, d': word, p': uint64, t': uint64, h': word)
    requires CheckpointPreimage(d, p, t, h) == CheckpointPreimage(d', p', t', h')
    ensures d == d' && p == p' && t == t' && h == h'
  {
    CheckpointLayout(d, p, t, h);
    CheckpointLayout(d', p', t', h');
    var ws: seq<word>, vs: seq<word> := [d, Word(p), Word(t), h], [d', Word(p'), Word(t'), h'];
    assert Fixed32(d) == d && Fixed32(h) == h && Fixed32(d') == d' && Fixed32(h') == h';
    assert Concat(ws) + [] == Concat(ws) && Concat(vs) + [] == Concat(vs);
    ConcatInjective(ws, vs, [], []);
    assert ws[0] == vs[0] && ws[1] == vs[1] && ws[2] == vs[2] && ws[3] == vs[3];
    WordInjective(p, p');
    WordInjective(t, t');
  }

  /** The checkpoint of a request: the set is put in canonical order before it is hashed. */
  function CheckpointOf(keccak: Hash, domainSep: word, threshold: uint64, ts: uint64, vs: seq<Validator>): word {
    EncodeValsetCheckpoint(keccak, domainSep, threshold, ts, keccak(SetBytes(Canonical(vs))))
  }

  /** A checkpoint determines its domain separator, threshold, timestamp and validator
      multiset: two different ones with the same checkpoint exhibit a hash collision. */
  lemma CheckpointBinds(keccak: Hash, d: word, p: uint64, t: uint64, vs: seq<Validator>,
                        d': word, p': uint64, t': uint64, ws: seq<Validator>)
    requires Addressed(vs) && Addressed(ws) && |vs| < TWO64 && |ws| < TWO64
    requires CheckpointOf(keccak, d, p, t, vs) == CheckpointOf(keccak, d', p', t', ws)
    ensures || (d == d' && p == p' && t == t' && multiset(vs) == multiset(ws))
            || Collision(keccak, SetBytes(Canonical(vs)), SetBytes(Canonical(ws)))
            || Collision(keccak, CheckpointPreimage(d, p, t, keccak(SetBytes(Canonical(vs)))),
                         CheckpointPreimage(d', p', t', keccak(SetBytes(Canonical(ws)))))
  {
    var h, h' := keccak(SetBytes(Canonical(vs))), keccak(SetBytes(Canonical(ws)));
    if CheckpointPreimage(d, p, t, h) == CheckpointPreimage(d', p', t', h') {
      CheckpointPreimageInjective(d, p, t, h, d', p', t', h');
      CanonicalBytesIffPermutation(vs, ws);
    }
  }
}
