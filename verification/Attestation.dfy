/** The oracle attestation snapshot, and its separation from everything else that is hashed. */
module Attestation {
  import opened Bytes
  import opened Abi
  import opened ValidatorOrder
  import opened Checkpoint

  /** "tellorCurrentAttestation" */
  const DOMAIN: bytes := [
    0x74, 0x65, 0x6c, 0x6c, 0x6f, 0x72, 0x43, 0x75, 0x72, 0x72, 0x65, 0x6e,
    0x74, 0x41, 0x74, 0x74, 0x65, 0x73, 0x74, 0x61, 0x74, 0x69, 0x6f, 0x6e]

  datatype Report = Report(
    queryId: bytes, value: bytes, timestamp: uint64, aggregatePower: uint64,
    previousTimestamp: uint64, nextTimestamp: uint64, valsetCheckpoint: bytes,
    attestationTimestamp: uint64, lastConsensusTimestamp: uint64)

  function Front(r: Report): seq<Term> {
    [Bytes32(Fixed32(DOMAIN)), Bytes32(Fixed32(r.queryId))]
  }

  function Back(r: Report): seq<Term> {
    [UInt(r.timestamp), UInt(r.aggregatePower), UInt(r.previousTimestamp), UInt(r.nextTimestamp),
     Bytes32(Fixed32(r.valsetCheckpoint)), UInt(r.attestationTimestamp), UInt(r.lastConsensusTimestamp)]
  }

  /** abi.encode of the ten arguments, of which the third is dynamic. */
  function Preimage(r: Report): bytes {
    Enc(Tuple(Front(r) + ([DynBytes(r.value)] + Back(r))))
  }

  function EncodeOracleAttestation(keccak: Hash, r: Report): word {
    keccak(Preimage(r))
  }

  /** The ten words of the head, in the order of the arguments; the third is where the value
      begins. */
  function HeadWords(r: Report, domain: word, tail: nat): seq<word> {
    [domain, Fixed32(r.queryId), Word(tail), Word(r.timestamp), Word(r.aggregatePower), Word(r.previousTimestamp),
     Word(r.nextTimestamp), Fixed32(r.valsetCheckpoint), Word(r.attestationTimestamp), Word(r.lastConsensusTimestamp)]
  }

  lemma HeadIs(r: Report, h: nat)
    ensures WordsOf(Front(r)) + ([Word(h)] + WordsOf(Back(r))) == HeadWords(r, Fixed32(DOMAIN), h)
  {
  }

  /** Ten head words, then the length of the value, the value, and zeros. */
  lemma PreimageLayout(r: Report, tail: nat)
    requires tail == 320
    ensures Preimage(r) == Concat(HeadWords(r, Fixed32(DOMAIN), tail))
                           + (Word(|r.value|) + r.value + Zeros((32 - |r.value| % 32) % 32))
    ensures |Preimage(r)| == 352 + (|r.value| + 31) / 32 * 32
    ensures forall k :: 0 <= k < |r.value| ==> Preimage(r)[352 + k] == r.value[k]
    ensures forall k :: 352 + |r.value| <= k < |Preimage(r)| ==> Preimage(r)[k] == 0
  {
    OneDynamic(Front(r), DynBytes(r.value), Back(r));
    HeadIs(r, tail);
    DynLayout(r.value);
    PadRightLength(r.value);
  }

  lemma DomainIsText()
    ensures DOMAIN == Ascii("tellorCurrentAttestation")
  {
  }

  // ------------------------------------------------------------------- the decoder

  /** The number in a word, if it fits in 64 bits. */
  function Number(w: word): Option<uint64> {
    if Value(w) < TWO64 then Some(Value(w)) else None
  }

  /** Reads a snapshot preimage back, word by word. */
  function DecodeReport(b: bytes, domain: word, tail: nat): Option<Report>
    requires tail >= 320
  {
    if |b| < tail || WordAt(b, 0) != domain || WordAt(b, 2) != Word(tail) then None
    else
      match (Number(WordAt(b, 3)), Number(WordAt(b, 4)), Number(WordAt(b, 5)), Number(WordAt(b, 6)),
             Number(WordAt(b, 8)), Number(WordAt(b, 9)), DecodeDyn(b[tail..]))
      case (Some(timestamp), Some(power), Some(previous), Some(next), Some(attested), Some(last), Some(value)) =>
        Some(Report(WordAt(b, 1), value, timestamp, power, previous, next, WordAt(b, 7), attested, last))
      case _ => None
  }

  lemma NumberOfWord(n: uint64)
    ensures Number(Word(n)) == Some(n)
  {
    WordValue(n);
  }

  lemma WordOfNumber(w: word)
    requires Number(w).Some?
    ensures Word(Number(w).value) == w
  {
    BigEndianOfValue(w);
  }

  lemma ReadsHead(b: bytes, ws: seq<word>, t: bytes)
    requires b == Concat(ws) + t && |ws| == 10
    ensures WordAt(b, 0) == ws[0] && WordAt(b, 1) == ws[1] && WordAt(b, 2) == ws[2] && WordAt(b, 3) == ws[3]
    ensures WordAt(b, 4) == ws[4] && WordAt(b, 5) == ws[5] && WordAt(b, 6) == ws[6] && WordAt(b, 7) == ws[7]
    ensures WordAt(b, 8) == ws[8] && WordAt(b, 9) == ws[9] && b[320..] == t
  {
    forall i | 0 <= i < |ws| ensures WordAt(b, i) == ws[i] {
      WordAtConcat(ws, t, i);
    }
    assert b[320..] == t;
  }

  /** Decoding recovers every field; of query_id, the word it was padded to. */
  lemma ReportRoundTrip(r: Report, tail: nat)
    requires |r.value| < TWO64 && |r.valsetCheckpoint| == 32 && tail == 320
    ensures DecodeReport(Preimage(r), Fixed32(DOMAIN), tail) == Some(r.(queryId := Fixed32(r.queryId)))
  {
    PreimageLayout(r, tail);
    DynLayout(r.value);
    DynRoundTrip(r.value);
    ReadsHead(Preimage(r), HeadWords(r, Fixed32(DOMAIN), tail), Enc(DynBytes(r.value)));
    assert Fixed32(r.valsetCheckpoint) == r.valsetCheckpoint;
    NumberOfWord(r.timestamp);
    NumberOfWord(r.aggregatePower);
    NumberOfWord(r.previousTimestamp);
    NumberOfWord(r.nextTimestamp);
    NumberOfWord(r.attestationTimestamp);
    NumberOfWord(r.lastConsensusTimestamp);
  }

  /** And nothing but preimages decodes. */
  lemma DecodeReportSound(b: bytes, tail: nat)
    requires tail == 320 && DecodeReport(b, Fixed32(DOMAIN), tail).Some?
    ensures Preimage(DecodeReport(b, Fixed32(DOMAIN), tail).value) == b
  {
    var r := DecodeReport(b, Fixed32(DOMAIN), tail).value;
    PreimageLayout(r, tail);
    DynLayout(r.value);
    DynSound(b[tail..]);
    WordOfNumber(WordAt(b, 3));
    WordOfNumber(WordAt(b, 4));
    WordOfNumber(WordAt(b, 5));
    WordOfNumber(WordAt(b, 6));
    WordOfNumber(WordAt(b, 8));
    WordOfNumber(WordAt(b, 9));
    ConcatOfWordAt(HeadWords(r, Fixed32(DOMAIN), tail), b);
  }

  /** query_id enters front-aligned and zero-filled, so trailing zeros are all it can lose. */
  lemma Fixed32Iff(p: bytes, q: bytes)
    requires |p| <= |q| <= 32
    ensures Fixed32(p) == Fixed32(q) <==> q == p + Zeros(|q| - |p|)
  {
    if Fixed32(p) == Fixed32(q) {
      assert Fixed32(q)[..|q|] == q;
      assert Fixed32(p)[..|q|] == p + Zeros(|q| - |p|);
    }
  }

  /** The preimage determines every field, for values of any length. */
  lemma PreimageInjective(r: Report, s: Report)
    requires |r.value| < TWO64 && |s.value| < TWO64
    requires |r.valsetCheckpoint| == 32 && |s.valsetCheckpoint| == 32
    requires Preimage(r) == Preimage(s)
    ensures Fixed32(r.queryId) == Fixed32(s.queryId)
    ensures r == s.(queryId := r.queryId)
  {
    ReportRoundTrip(r, 320);
    ReportRoundTrip(s, 320);
  }

  /** A word for a number below 2^248 starts with a zero byte. */
  lemma WordStartsWithZero(n: nat)
    requires n < TWO64
    ensures Word(n)[0] == 0
  {
    Uint64Fits(n);
    Widen(n, 8, 32);
  }

  /** No attestation preimage is a checkpoint, validator-set or domain-separator preimage. */
  lemma PreimagesDisjoint(r: Report, d: bytes, p: uint64, t: uint64, h: bytes, vs: seq<Validator>, chainId: bytes)
    ensures Preimage(r) != CheckpointPreimage(d, p, t, h)
    ensures Preimage(r) != SetBytes(vs)
    ensures Preimage(r) != DomainPreimage(chainId)
  {
    StartsWithT(r, 320);
    CheckpointLayout(d, p, t, h);
    StartsWithOffset(vs, CHECKPOINT, chainId);
  }

  lemma StartsWithT(r: Report, tail: nat)
    requires tail == 320
    ensures |Preimage(r)| >= 352 && Preimage(r)[0] == 0x74
  {
    PreimageLayout(r, tail);
    assert Preimage(r)[0] == HeadWords(r, Fixed32(DOMAIN), tail)[0][0];
  }

  lemma StartsWithOffset(vs: seq<Validator>, tag: bytes, chainId: bytes)
    requires tag == CHECKPOINT
    ensures SetBytes(vs)[0] == 0 && DomainPreimage(chainId) != [] && DomainPreimage(chainId)[0] == 0
  {
    DomainLayout(tag, chainId);
    WordStartsWithZero(32);
    WordStartsWithZero(64);
    assert SetBytes(vs)[0] == Word(32)[0];
    assert DomainPreimage(chainId)[0] == Word(64)[0];
  }

  /** So a digest signed for an attestation never doubles as one signed for a checkpoint: if
      it did, one of the two hashes would exhibit a collision. */
  lemma AttestationIsNoCheckpoint(keccak: Hash, sha256: Hash, r: Report, d: bytes, p: uint64, t: uint64, h: bytes)
    requires sha256(EncodeOracleAttestation(keccak, r)) == sha256(EncodeValsetCheckpoint(keccak, d, p, t, h))
    ensures || Collision(sha256, EncodeOracleAttestation(keccak, r), EncodeValsetCheckpoint(keccak, d, p, t, h))
            || Collision(keccak, Preimage(r), CheckpointPreimage(d, p, t, h))
  {
    PreimagesDisjoint(r, d, p, t, h, [], []);
  }

  datatype Reply = Signature(signature: bytes, snapshot: word) | Refused

  /** SignOracleAttestation. `answer` is what the backend would return; `asked` is the digest
      it is handed, if it is called at all. */
  method SignOracleAttestation(keccak: Hash, sha256: Hash, r: Report, expectedSnapshot: bytes, answer: Option<bytes>)
    returns (reply: Reply, asked: Option<word>)
    ensures asked.Some? <==>
            && 1 <= |r.queryId| <= 32 && |r.valsetCheckpoint| == 32 && |expectedSnapshot| == 32
            && keccak(Preimage(r)) == expectedSnapshot
    ensures asked.Some? ==> asked.value == sha256(expectedSnapshot)
    ensures reply.Signature? <==> asked.Some? && answer.Some? && |answer.value| == 64
    ensures reply.Signature? ==> answer == Some(reply.signature) && reply.snapshot == expectedSnapshot
  {
    asked := None;
    if |r.queryId| == 0 || |r.queryId| > 32 || |r.valsetCheckpoint| != 32 || |expectedSnapshot| != 32 {
      return Refused, None;
    }
    var snapshot := EncodeOracleAttestation(keccak, r);
    if snapshot != expectedSnapshot {
      return Refused, None;
    }
    asked := Some(sha256(snapshot));
    if answer.None? || |answer.value| != 64 {
      return Refused, asked;
    }
    reply := Signature(answer.value, snapshot);
  }
}
