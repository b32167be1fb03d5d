/** The gates a SignBridgeCheckpoint request passes before the replay guard is consulted. */
module CheckpointRequest {
  import opened Bytes
  import opened Abi
  import opened ValidatorOrder
  import opened Checkpoint

  datatype Request = Request(
    chainId: bytes, domainSeparator: bytes, validatorSetHash: bytes, expectedCheckpoint: bytes,
    validatorSet: seq<Validator>, powerThreshold: uint64, validatorTimestamp: uint64)

  datatype Verdict =
    | Accept(checkpoint: word)
    | BadFormat
    | BadValidator
    | SetHashMismatch
    | ThresholdMismatch
    | DomainMismatch
    | NotMember
    | CheckpointMismatch

  // ---------------------------------------------------------------- the threshold

  /** The true sum of the powers. */
  function PowerSum(vs: seq<Validator>): nat {
    if vs == [] then 0 else PowerSum(vs[..|vs| - 1]) + vs[|vs| - 1].power
  }

  /** totalPower * 2 / 3 in 64-bit arithmetic. */
  function WrappedThreshold(sum: nat): uint64 {
    (sum % TWO64 * 2) % TWO64 / 3
  }

  /** The sum is additive, and one validator contributes its power. */
  lemma {:induction false} PowerSumAppend(vs: seq<Validator>, ws: seq<Validator>)
    ensures PowerSum(vs + ws) == PowerSum(vs) + PowerSum(ws)
    ensures |ws| == 1 ==> PowerSum(ws) == ws[0].power
  {
    if ws == [] {
      assert vs + ws == vs;
    } else {
      var rest := ws[..|ws| - 1];
      PowerSumAppend(vs, rest);
      assert (vs + ws)[..|vs + ws| - 1] == vs + rest;
      assert |ws| == 1 ==> rest == [];
    }
  }

  /** Equal powers sum to the number of validators times the power; the empty set to zero. */
  lemma {:induction false} PowerSumUniform(vs: seq<Validator>, p: uint64)
    requires forall v :: v in vs ==> v.power == p
    ensures PowerSum(vs) == |vs| * p
  {
    if vs != [] {
      PowerSumUniform(vs[..|vs| - 1], p);
      assert vs[|vs| - 1] in vs;
      assert (|vs| - 1) * p + p == |vs| * p;
    }
  }

  lemma WrapAdd(a: nat, b: nat)
    ensures (a % TWO64 + b) % TWO64 == (a + b) % TWO64
  {
  }

  lemma DoubleWraps(sum: nat, n: nat)
    requires n > 0
    ensures (sum % n * 2) % n == 2 * sum % n
    ensures 2 * sum >= n ==> 2 * sum % n <= 2 * sum - n
  {
    var q, r := sum / n, sum % n;
    var carry := if 2 * r < n then 0 else 1;
    assert sum == q * n + r;
    TwiceQuotient(q, n, carry);
    ModUnique(2 * sum, n, 2 * q + carry, 2 * r - carry * n);
    ModUnique(2 * r, n, carry, 2 * r - carry * n);
    if 2 * sum >= n && 2 * q + carry >= 1 {
      MulAtLeast(2 * q + carry, n);
    }
  }

  lemma TwiceQuotient(q: int, n: int, carry: int)
    ensures 2 * (q * n) + carry * n == (2 * q + carry) * n
  {
  }

  /** The wrapping result is a third of twice the sum modulo 2^64, and the true two thirds
      exactly when the powers sum below 2^63. */
  lemma ThresholdExact(sum: nat)
    ensures WrappedThreshold(sum) == 2 * sum % TWO64 / 3
    ensures WrappedThreshold(sum) == 2 * sum / 3 <==> sum < TWO63
  {
    DoubleWraps(sum, TWO64);
  }

  lemma {:induction false} InsertSum(vs: seq<Validator>, x: Validator)
    ensures PowerSum(Insert(vs, x)) == PowerSum(vs) + x.power
  {
    if vs == [] || !Before(x, vs[|vs| - 1]) {
      assert (vs + [x])[..|vs|] == vs;
    } else {
      var rest := vs[..|vs| - 1];
      InsertSum(rest, x);
      assert (Insert(rest, x) + [vs[|vs| - 1]])[..|Insert(rest, x)|] == Insert(rest, x);
    }
  }

  lemma {:induction false} CanonicalSum(vs: seq<Validator>)
    ensures PowerSum(Canonical(vs)) == PowerSum(vs)
  {
    if vs != [] {
      CanonicalSum(vs[..|vs| - 1]);
      InsertSum(Canonical(vs[..|vs| - 1]), vs[|vs| - 1]);
    }
  }

  method ComputeThreshold(vs: seq<Validator>) returns (t: uint64)
    ensures t == WrappedThreshold(PowerSum(vs)) == 2 * PowerSum(vs) % TWO64 / 3
    ensures t == 2 * PowerSum(vs) / 3 <==> PowerSum(vs) < TWO63
  {
    var totalPower: uint64 := 0;
    var i := 0;
    while i < |vs|
      invariant 0 <= i <= |vs|
      invariant totalPower == PowerSum(vs[..i]) % TWO64
    {
      WrapAdd(PowerSum(vs[..i]), vs[i].power);
      totalPower := (totalPower + vs[i].power) % TWO64;
      assert vs[..i + 1][..i] == vs[..i];
      i := i + 1;
    }
    assert vs[..i] == vs;
    ThresholdExact(PowerSum(vs));
    t := (totalPower * 2) % TWO64 / 3;
  }

  // -------------------------------------------------------------------- the gates

  predicate WellFormatted(req: Request) {
    && |req.domainSeparator| == 32 && |req.validatorSetHash| == 32 && |req.expectedCheckpoint| == 32
    && req.validatorSet != [] && req.chainId != []
  }

  predicate GoodValidators(vs: seq<Validator>) {
    forall v :: v in vs ==> |v.address| == 20 && v.power > 0
  }

  predicate Member(self: address, vs: seq<Validator>) {
    exists v :: v in vs && v.address == self
  }

  /** The verdict on a request, without loops or in-place sorting. */
  function Verify(keccak: Hash, self: address, req: Request): Verdict {
    var vs := req.validatorSet;
    var setHash := keccak(SetBytes(Canonical(vs)));
    var domainSep := DomainSeparator(keccak, req.chainId);
    if !WellFormatted(req) then BadFormat
    else if !GoodValidators(vs) then BadValidator
    else if setHash != req.validatorSetHash then SetHashMismatch
    else if WrappedThreshold(PowerSum(vs)) != req.powerThreshold then ThresholdMismatch
    else if domainSep != req.domainSeparator then DomainMismatch
    else if !Member(self, vs) then NotMember
    else
      var checkpoint := CheckpointOf(keccak, domainSep, req.powerThreshold, req.validatorTimestamp, vs);
      if checkpoint != req.expectedCheckpoint then CheckpointMismatch else Accept(checkpoint)
  }

  method CopyValidators(given: seq<Validator>) returns (vs: array<Validator>, ok: bool)
    ensures fresh(vs) && (ok <==> GoodValidators(given)) && (ok ==> vs[..] == given)
  {
    vs := new Validator[|given|](i => Validator([], 0));
    ok := true;
    var i := 0;
    while i < |given|
      invariant 0 <= i <= |given|
      invariant GoodValidators(given[..i])
      invariant vs[..i] == given[..i]
    {
      var v := given[i];
      if |v.address| != 20 || v.power == 0 {
        assert v in given;
        ok := false;
        return;
      }
      vs[i] := v;
      assert given[..i + 1] == given[..i] + [v];
      i := i + 1;
    }
    assert given[..i] == given;
  }

  method IsMember(self: address, vs: seq<Validator>) returns (member: bool)
    requires Addressed(vs)
    ensures member <==> Member(self, vs)
  {
    member := false;
    var i := 0;
    while i < |vs|
      invariant 0 <= i <= |vs|
      invariant !Member(self, vs[..i])
    {
      assert BytesToAddress(vs[i].address) == vs[i].address by {
        assert vs[i] in vs;
      }
      if BytesToAddress(vs[i].address) == self {
        assert vs[i] in vs;
        member := true;
        return;
      }
      assert vs[..i + 1] == vs[..i] + [vs[i]];
      i := i + 1;
    }
    assert vs[..i] == vs;
  }

  lemma MemberPermutes(self: address, vs: seq<Validator>, ws: seq<Validator>)
    requires multiset(vs) == multiset(ws)
    ensures Member(self, vs) == Member(self, ws) && GoodValidators(vs) == GoodValidators(ws)
  {
    assert forall v :: v in vs <==> v in multiset(vs);
    assert forall v :: v in ws <==> v in multiset(ws);
  }

  /** Everything the gates look at is the same for a permutation of the list. */
  lemma PermutationFacts(self: address, vs: seq<Validator>, ws: seq<Validator>)
    requires multiset(vs) == multiset(ws)
    ensures Canonical(vs) == Canonical(ws) && PowerSum(vs) == PowerSum(ws) && (vs == [] <==> ws == [])
    ensures Member(self, vs) == Member(self, ws) && GoodValidators(vs) == GoodValidators(ws)
  {
    CanonicalIffPermutation(vs, ws);
    CanonicalSum(vs);
    CanonicalSum(ws);
    MemberPermutes(self, vs, ws);
    assert |multiset(vs)| == |vs| && |multiset(ws)| == |ws|;
  }

  /** Steps (1) to (6) of SignBridgeCheckpoint. */
  method Validate(keccak: Hash, self: address, req: Request) returns (r: Verdict)
    requires |req.validatorSet| < TWO63
    ensures r == Verify(keccak, self, req)
  {
    if |req.domainSeparator| != 32 || |req.validatorSetHash| != 32 || |req.expectedCheckpoint| != 32
       || |req.validatorSet| == 0 || req.chainId == [] {
      return BadFormat;
    }
    var vs, ok := CopyValidators(req.validatorSet);
    if !ok {
      return BadValidator;
    }
    SortBridgeValidators(vs);
    var sorted := vs[..];
    CanonicalAddressed(req.validatorSet);
    CanonicalSorts(req.validatorSet);
    CanonicalSum(req.validatorSet);
    MemberPermutes(self, sorted, req.validatorSet);
    var _, valsetHash := EncodeAndHashValidatorSet(keccak, sorted);
    LayoutIsAbi(sorted);
    if valsetHash != req.validatorSetHash {
      return SetHashMismatch;
    }
    var wantThreshold := ComputeThreshold(sorted);
    if wantThreshold != req.powerThreshold {
      return ThresholdMismatch;
    }
    var domainSep := DomainSeparator(keccak, req.chainId);
    if domainSep != req.domainSeparator {
      return DomainMismatch;
    }
    var member := IsMember(self, sorted);
    if !member {
      return NotMember;
    }
    var checkpoint := EncodeValsetCheckpoint(keccak, domainSep, req.powerThreshold, req.validatorTimestamp, valsetHash);
    if checkpoint != req.expectedCheckpoint {
      return CheckpointMismatch;
    }
    return Accept(checkpoint);
  }

  // --------------------------------------------------------------- what a verdict means

  /** Reordering the validator list changes nothing: not the encoding, not the threshold, not
      the membership test, not the checkpoint, not the verdict. */
  lemma VerdictIgnoresOrder(keccak: Hash, self: address, req: Request, ws: seq<Validator>)
    requires multiset(req.validatorSet) == multiset(ws)
    ensures Verify(keccak, self, req) == Verify(keccak, self, req.(validatorSet := ws))
  {
    PermutationFacts(self, req.validatorSet, ws);
  }

  /** The request a node that follows the encoding sends for a chain, set and timestamp. */
  function Honest(keccak: Hash, chainId: bytes, vs: seq<Validator>, ts: uint64): Request {
    var domainSep, threshold := DomainSeparator(keccak, chainId), WrappedThreshold(PowerSum(vs));
    Request(chainId, domainSep, keccak(SetBytes(Canonical(vs))), CheckpointOf(keccak, domainSep, threshold, ts, vs),
            vs, threshold, ts)
  }

  /** The gates accept exactly the honest requests for sets the signer belongs to, and the
      threshold such a request names is the true two thirds exactly below 2^63. */
  lemma AcceptedMeans(keccak: Hash, self: address, req: Request)
    ensures Verify(keccak, self, req).Accept? <==>
            && req == Honest(keccak, req.chainId, req.validatorSet, req.validatorTimestamp)
            && req.chainId != [] && req.validatorSet != [] && GoodValidators(req.validatorSet) && Member(self, req.validatorSet)
    ensures Verify(keccak, self, req).Accept? <==>
            && req.chainId != [] && req.validatorSet != []
            && (forall v :: v in req.validatorSet ==> |v.address| == 20 && v.power > 0)
            && (exists v :: v in req.validatorSet && v.address == self)
            && req.domainSeparator == DomainSeparator(keccak, req.chainId)
            && req.validatorSetHash == keccak(SetBytes(Canonical(req.validatorSet)))
            && req.powerThreshold == 2 * PowerSum(req.validatorSet) % TWO64 / 3
            && req.expectedCheckpoint
               == keccak(Concat([DomainSeparator(keccak, req.chainId), Word(req.powerThreshold), Word(req.validatorTimestamp),
                                 keccak(SetBytes(Canonical(req.validatorSet)))]))
    ensures Verify(keccak, self, req).Accept? ==>
              && Verify(keccak, self, req).checkpoint == req.expectedCheckpoint
              && (req.powerThreshold == 2 * PowerSum(req.validatorSet) / 3 <==> PowerSum(req.validatorSet) < TWO63)
  {
    ThresholdExact(PowerSum(req.validatorSet));
    CheckpointHashes(keccak, DomainSeparator(keccak, req.chainId), req.powerThreshold, req.validatorTimestamp,
                     keccak(SetBytes(Canonical(req.validatorSet))));
  }

  /** A refused request is refused for the first of these that fails, in this order. */
  lemma RefusedMeans(keccak: Hash, self: address, req: Request)
    ensures var vs := req.validatorSet;
            var formatted := |req.domainSeparator| == 32 && |req.validatorSetHash| == 32 && |req.expectedCheckpoint| == 32
                             && vs != [] && req.chainId != [];
            var good := formatted && forall v :: v in vs ==> |v.address| == 20 && v.power > 0;
            var hashed := good && req.validatorSetHash == keccak(SetBytes(Canonical(vs)));
            var weighed := hashed && req.powerThreshold == 2 * PowerSum(vs) % TWO64 / 3;
            var bound := weighed && req.domainSeparator == DomainSeparator(keccak, req.chainId);
            var ours := bound && exists v :: v in vs && v.address == self;
            match Verify(keccak, self, req)
            case BadFormat => !formatted
            case BadValidator => formatted && !good
            case SetHashMismatch => good && !hashed
            case ThresholdMismatch => hashed && !weighed
            case DomainMismatch => weighed && !bound
            case NotMember => bound && !ours
            case CheckpointMismatch =>
              ours && req.expectedCheckpoint
                      != CheckpointOf(keccak, req.domainSeparator, req.powerThreshold, req.validatorTimestamp, vs)
            case Accept(_) => ours
  {
    ThresholdExact(PowerSum(req.validatorSet));
  }

  /** The two preimages behind a request's checkpoint. */
  function SetPreimage(req: Request): bytes { SetBytes(Canonical(req.validatorSet)) }

  function Preimage(keccak: Hash, req: Request): bytes {
    CheckpointPreimage(DomainSeparator(keccak, req.chainId), req.powerThreshold, req.validatorTimestamp, keccak(SetPreimage(req)))
  }

  /** Everything a checkpoint stands for. */
  predicate Agree(req: Request, other: Request) {
    && req.domainSeparator == other.domainSeparator && req.powerThreshold == other.powerThreshold
    && req.validatorTimestamp == other.validatorTimestamp
    && multiset(req.validatorSet) == multiset(other.validatorSet)
  }

  /** The preimages of two requests show a collision of the hash. */
  ghost predicate Collide(keccak: Hash, req: Request, other: Request) {
    || Collision(keccak, SetPreimage(req), SetPreimage(other))
    || Collision(keccak, Preimage(keccak, req), Preimage(keccak, other))
  }

  /** Requests accepted for one checkpoint agree on everything it stands for. */
  lemma AcceptedAgree(keccak: Hash, self: address, req: Request, other: Request)
    requires |req.validatorSet| < TWO64 && |other.validatorSet| < TWO64
    ensures Verify(keccak, self, req).Accept? && Verify(keccak, self, req) == Verify(keccak, self, other) ==>
              Agree(req, other) || Collide(keccak, req, other)
  {
    if Verify(keccak, self, req).Accept? && Verify(keccak, self, req) == Verify(keccak, self, other) {
      AcceptedMeans(keccak, self, req);
      AcceptedMeans(keccak, self, other);
      CheckpointBinds(keccak,
                      DomainSeparator(keccak, req.chainId), req.powerThreshold, req.validatorTimestamp, req.validatorSet,
                      DomainSeparator(keccak, other.chainId), other.powerThreshold, other.validatorTimestamp, other.validatorSet);
    }
  }
}
