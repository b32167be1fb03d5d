/**
 SignBridgeCheckpoint end to end: the sequential handler over the real guard, its place
 among the interleavings of module SigningProtocol, and what the whole promises.
 */
module CheckpointHandler {
  import opened Bytes
  import opened Abi
  import opened GuardFile
  import opened Disk
  import opened GuardSpec
  import AtomicFile
  import RG = ReplayGuard
  import C = Checkpoint
  import R = CheckpointRequest
  import P = SigningProtocol

  datatype Reply = Signature(signature: bytes) | Refused

  /** What steps (7) and (8) do to memory and disk, and what they answer. */
  function Handle(g: Guard, d: Disk<Guard>, ts: uint64, checkpoint: bytes, first: Fate, answer: Option<bytes>, second: Fate)
    : (Guard, Disk<Guard>, Reply)
  {
    var (g1, d1, r) := Advance(g, d, ts, first);
    match r
    case AdvanceRejected =>
      var hit := Cached(g1, ts, checkpoint);
      (g1, d1, if hit.Some? then Signature(hit.value) else Refused)
    case AdvanceUnsaved => (g1, d1, Refused)
    case AdvanceOk =>
      if answer.None? || |answer.value| != 64 then (g1, d1, Refused)
      else
        var (g2, d2, _) := Record(g1, d1, ts, Memo(checkpoint, answer.value), second);
        (g2, d2, Signature(answer.value))
  }

  class Server {
    const keccak: Hash
    const sha256: Hash
    const selfEVMAddr: address
    const checkpointGuard: RG.CheckpointReplayGuard

    constructor (keccak: Hash, sha256: Hash, self: address, guard: RG.CheckpointReplayGuard)
      ensures this.keccak == keccak && this.sha256 == sha256 && selfEVMAddr == self && checkpointGuard == guard
    {
      this.keccak, this.sha256, selfEVMAddr, checkpointGuard := keccak, sha256, self, guard;
    }

    /** `answer` is what the backend would return; `asked` is the digest it is handed, if it
        is called. `i` and `j` are the inodes of the two temp files, `f` and `h` the system
        calls that fail. A refused request leaves the guard and the file alone. */
    method SignBridgeCheckpoint(req: R.Request, i: nat, f: AtomicFile.Fault, answer: Option<bytes>, j: nat, h: AtomicFile.Fault)
      returns (reply: Reply, asked: Option<word>)
      requires checkpointGuard.Valid() && |req.validatorSet| < TWO63
      requires var file := checkpointGuard.file; file != null ==> i !in file.fs.inodes && j !in file.fs.inodes && i != j
      modifies checkpointGuard, checkpointGuard.file
      ensures checkpointGuard.Valid() && (old(checkpointGuard.Restartable()) ==> checkpointGuard.Restartable())
      ensures var verdict := R.Verify(keccak, selfEVMAddr, req);
              var g, d := old(checkpointGuard.State()), old(checkpointGuard.OnDisk());
              var first, second := checkpointGuard.WriteFate(f), checkpointGuard.WriteFate(h);
              if verdict.Accept? then
                && (checkpointGuard.State(), checkpointGuard.OnDisk(), reply)
                   == Handle(g, d, req.validatorTimestamp, verdict.checkpoint, first, answer, second)
                && (asked == if Advance(g, d, req.validatorTimestamp, first).2.AdvanceOk?
                             then Some(sha256(verdict.checkpoint)) else None)
              else
                && (checkpointGuard.State(), checkpointGuard.OnDisk()) == (g, d)
                && reply == Refused && asked == None
    {
      var verdict := R.Validate(keccak, selfEVMAddr, req);
      if !verdict.Accept? {
        return Refused, None;
      }
      var ts, checkpoint := req.validatorTimestamp, verdict.checkpoint;
      var r := checkpointGuard.CheckAndAdvance(ts, i, f);
      if r.AdvanceRejected? {
        var hit := checkpointGuard.CachedSignature(ts, checkpoint);
        if hit.Some? {
          return Signature(hit.value), None;
        }
        return Refused, None;
      }
      if r.AdvanceUnsaved? {
        return Refused, None;
      }
      asked := Some(sha256(checkpoint));
      if answer.None? || |answer.value| != 64 {
        return Refused, asked;
      }
      var recorded := checkpointGuard.RecordSignature(ts, checkpoint, answer.value, j, h);
      reply := Signature(answer.value);
    }
  }

  // ------------------------------------------ the handler as one run of the protocol

  function AdvanceRun(id: nat, fate: Fate): seq<P.Action> {
    match fate
    case FailsBeforeRename => [P.EnterAdvance(id), P.AdvanceFail(id)]
    case FailsAfterRename => [P.EnterAdvance(id), P.AdvanceRename(id), P.AdvanceFail(id)]
    case Succeeds => [P.EnterAdvance(id), P.AdvanceRename(id), P.AdvanceSync(id)]
  }

  function RecordRun(id: nat, fate: Fate): seq<P.Action> {
    match fate
    case FailsBeforeRename => [P.EnterRecord(id), P.RecordFail(id)]
    case FailsAfterRename => [P.EnterRecord(id), P.RecordRename(id), P.RecordFail(id)]
    case Succeeds => [P.EnterRecord(id), P.RecordRename(id), P.RecordSync(id)]
  }

  function SigningRun(id: nat, answer: Option<bytes>, second: Fate): seq<P.Action> {
    [P.CallBackend(id)]
    + if answer.None? then [P.BackendFail(id)]
      else [P.BackendReturn(id, answer.value)] + if |answer.value| != 64 then [] else RecordRun(id, second)
  }

  /** The steps the handler takes when nothing else runs. */
  function HandlerRun(mark: uint64, id: nat, ts: uint64, first: Fate, answer: Option<bytes>, second: Fate): seq<P.Action> {
    if ts <= mark then [P.EnterAdvance(id), P.Lookup(id)]
    else AdvanceRun(id, first) + if first.Succeeds? then SigningRun(id, answer, second) else []
  }

  /** The world seen from a request: what it may change. */
  predicate Outcome(w: P.World, id: nat, g: Guard, d: Disk<Guard>, s: P.Stage) {
    w.up && w.holder.None? && w.guard == g && w.disk == d && id in w.requests && w.requests[id].stage == s
  }

  lemma AdvanceSection(w: P.World, id: nat, fate: Fate)
    requires w.up && w.holder.None? && id in w.requests && w.requests[id].stage == P.Validated && w.requests[id].ts > w.guard.mark
    ensures P.ValidRun(w, AdvanceRun(id, fate))
    ensures var (g, d, r) := Advance(w.guard, w.disk, w.requests[id].ts, fate);
            var v := P.Run(w, AdvanceRun(id, fate));
            && Outcome(v, id, g, d, if fate.Succeeds? then P.Advanced else P.Failed)
            && v.requests[id].ts == w.requests[id].ts && v.requests[id].checkpoint == w.requests[id].checkpoint
            && v.returned == w.returned
  {
    match fate
    case FailsBeforeRename => P.Two(w, P.EnterAdvance(id), P.AdvanceFail(id));
    case FailsAfterRename => P.Three(w, P.EnterAdvance(id), P.AdvanceRename(id), P.AdvanceFail(id));
    case Succeeds => P.Three(w, P.EnterAdvance(id), P.AdvanceRename(id), P.AdvanceSync(id));
  }

  lemma RecordSection(w: P.World, id: nat, signature: bytes, fate: Fate)
    requires w.up && w.holder.None? && id in w.requests && w.requests[id].stage == P.Signed(signature)
    requires w.requests[id].ts == w.guard.mark
    ensures P.ValidRun(w, RecordRun(id, fate))
    ensures var r := w.requests[id];
            var (g, d, _) := Record(w.guard, w.disk, r.ts, Memo(r.checkpoint, signature), fate);
            var v := P.Run(w, RecordRun(id, fate));
            Outcome(v, id, g, d, P.Replied(signature)) && P.Entry(r.ts, r.checkpoint, signature) in v.returned
  {
    match fate
    case FailsBeforeRename => P.Two(w, P.EnterRecord(id), P.RecordFail(id));
    case FailsAfterRename => P.Three(w, P.EnterRecord(id), P.RecordRename(id), P.RecordFail(id));
    case Succeeds => P.Three(w, P.EnterRecord(id), P.RecordRename(id), P.RecordSync(id));
  }

  /** From the grant through a well-formed signature to the reply. */
  lemma RecordedSection(w: P.World, id: nat, signature: bytes, fate: Fate)
    requires w.up && w.holder.None? && id in w.requests && w.requests[id].stage == P.Advanced
    requires w.requests[id].ts == w.guard.mark && |signature| == 64
    ensures var xs := [P.CallBackend(id), P.BackendReturn(id, signature)];
            var r := w.requests[id];
            var (g, d, _) := Record(w.guard, w.disk, r.ts, Memo(r.checkpoint, signature), fate);
            && P.ValidRun(w, xs + RecordRun(id, fate))
            && var v := P.Run(w, xs + RecordRun(id, fate));
               Outcome(v, id, g, d, P.Replied(signature)) && P.Entry(r.ts, r.checkpoint, signature) in v.returned
  {
    var xs := [P.CallBackend(id), P.BackendReturn(id, signature)];
    P.Two(w, P.CallBackend(id), P.BackendReturn(id, signature));
    RecordSection(P.Run(w, xs), id, signature, fate);
    P.RunAppend(w, xs, RecordRun(id, fate));
  }

  /** From the grant to the reply. */
  lemma SigningSection(w: P.World, id: nat, answer: Option<bytes>, second: Fate)
    requires w.up && w.holder.None? && id in w.requests && w.requests[id].stage == P.Advanced
    requires w.requests[id].ts == w.guard.mark
    ensures P.ValidRun(w, SigningRun(id, answer, second))
    ensures var r, v := w.requests[id], P.Run(w, SigningRun(id, answer, second));
            if answer.None? || |answer.value| != 64 then Outcome(v, id, w.guard, w.disk, P.Failed)
            else
              var (g, d, _) := Record(w.guard, w.disk, r.ts, Memo(r.checkpoint, answer.value), second);
              Outcome(v, id, g, d, P.Replied(answer.value)) && P.Entry(r.ts, r.checkpoint, answer.value) in v.returned
  {
    if answer.None? {
      P.Two(w, P.CallBackend(id), P.BackendFail(id));
      assert [P.CallBackend(id)] + [P.BackendFail(id)] == [P.CallBackend(id), P.BackendFail(id)];
    } else {
      var signature := answer.value;
      var xs := [P.CallBackend(id), P.BackendReturn(id, signature)];
      P.Two(w, P.CallBackend(id), P.BackendReturn(id, signature));
      if |signature| != 64 {
        assert SigningRun(id, answer, second) == xs;
      } else {
        RecordedSection(w, id, signature, second);
        assert SigningRun(id, answer, second) == xs + RecordRun(id, second);
      }
    }
  }

  /** A request at or below the mark is answered from the memo or refused. */
  lemma RepeatSection(w: P.World, id: nat)
    requires w.up && w.holder.None? && id in w.requests && w.requests[id].stage == P.Validated
    requires w.requests[id].ts <= w.guard.mark
    ensures var r, run := w.requests[id], [P.EnterAdvance(id), P.Lookup(id)];
            var hit := Cached(w.guard, r.ts, r.checkpoint);
            && P.ValidRun(w, run)
            && Outcome(P.Run(w, run), id, w.guard, w.disk, if hit.Some? then P.Replied(hit.value) else P.Failed)
            && (hit.Some? ==> P.Entry(r.ts, r.checkpoint, hit.value) in P.Run(w, run).returned)
  {
    P.Two(w, P.EnterAdvance(id), P.Lookup(id));
  }

  /** The handler, run without interruption, is one run of the protocol machine: it ends with
      the same memory and disk, and the same answer. Handlers that interleave take the same
      steps, and SectionsExclude and SectionsAreCalls say what each of their sections does. */
  lemma HandlerIsARun(w: P.World, id: nat, first: Fate, answer: Option<bytes>, second: Fate)
    requires w.up && w.holder.None? && id in w.requests && w.requests[id].stage == P.Validated
    ensures var r := w.requests[id];
            var run := HandlerRun(w.guard.mark, id, r.ts, first, answer, second);
            var (g, d, reply) := Handle(w.guard, w.disk, r.ts, r.checkpoint, first, answer, second);
            && P.ValidRun(w, run)
            && Outcome(P.Run(w, run), id, g, d, if reply.Signature? then P.Replied(reply.signature) else P.Failed)
            && (reply.Signature? ==> P.Entry(r.ts, r.checkpoint, reply.signature) in P.Run(w, run).returned)
  {
    var r := w.requests[id];
    if r.ts <= w.guard.mark {
      RepeatSection(w, id);
    } else {
      AdvanceSection(w, id, first);
      if first.Succeeds? {
        var v := P.Run(w, AdvanceRun(id, first));
        SigningSection(v, id, answer, second);
        P.RunAppend(w, AdvanceRun(id, first), SigningRun(id, answer, second));
      } else {
        assert AdvanceRun(id, first) + [] == AdvanceRun(id, first);
      }
    }
  }

  // ------------------------------------------------------------------- end to end

  /** The gates accept the request, and it was answered with this signature. */
  predicate Answered(keccak: Hash, self: address, v: P.World, req: R.Request, signature: bytes) {
    && R.Verify(keccak, self, req).Accept? && |req.validatorSet| < TWO63
    && P.Entry(req.validatorTimestamp, req.expectedCheckpoint, signature) in v.returned
  }

  /** One timestamp, one validator set: two requests with the same timestamp that were ever
      answered, in any run, got the same signature and stand for the same domain, threshold and
      validator multiset and for one chain, or the hash exhibits a collision. */
  lemma OneSetPerTimestamp(keccak: Hash, self: address, w: P.World, run: seq<P.Action>,
                           req: R.Request, s: bytes, other: R.Request, t: bytes)
    requires P.Init(w) && P.ValidRun(w, run)
    ensures Answered(keccak, self, P.Run(w, run), req, s) && Answered(keccak, self, P.Run(w, run), other, t)
            && req.validatorTimestamp == other.validatorTimestamp ==>
              && s == t && (R.Agree(req, other) || R.Collide(keccak, req, other))
              && (R.Agree(req, other) && |req.chainId| < TWO64 && |other.chainId| < TWO64 ==>
                    C.OneChain(keccak, req.chainId, other.chainId))
  {
    if Answered(keccak, self, P.Run(w, run), req, s) && Answered(keccak, self, P.Run(w, run), other, t)
       && req.validatorTimestamp == other.validatorTimestamp {
      P.NoEquivocation(w, run, P.Entry(req.validatorTimestamp, req.expectedCheckpoint, s),
                       P.Entry(other.validatorTimestamp, other.expectedCheckpoint, t));
      R.AcceptedMeans(keccak, self, req);
      R.AcceptedMeans(keccak, self, other);
      R.AcceptedAgree(keccak, self, req, other);
      if R.Agree(req, other) && |req.chainId| < TWO64 && |other.chainId| < TWO64 {
        C.DomainSeparatorBinds(keccak, req.chainId, other.chainId);
      }
    }
  }
}
