/**
 Many in-flight SignBridgeCheckpoint requests over one replay guard and one state file.
 A request runs three critical sections, and a crash or power loss may fall between any
 two steps, including inside a section that is replacing the file. Files are represented
 by the guard state they load as; module ReplayGuard relates that to their text.
 */
module SigningProtocol {
  import opened Bytes
  import opened GuardFile
  import opened Disk
  import opened GuardSpec

  /** A signature the backend produced. */
  datatype Entry = Entry(ts: uint64, checkpoint: bytes, signature: bytes) {
    function State(): Guard { Guard(ts, Some(Memo(checkpoint, signature))) }
  }

  /** A call of the backend. */
  datatype Ask = Ask(ts: uint64, checkpoint: bytes)

  /** Where a request stands. `g0` is the state the section saves for its rollback; `d0` is
      the disk when the section began, kept only to state what the section did. */
  datatype Stage =
    | Validated
    | AdvanceWriting(g0: Guard, d0: Disk<Guard>)
    | AdvanceRenamed(g0: Guard, d0: Disk<Guard>)
    | Advanced
    | Signing
    | Signed(signature: bytes)
    | RecordWriting(signature: bytes, g0: Guard, d0: Disk<Guard>)
    | RecordRenamed(signature: bytes, g0: Guard, d0: Disk<Guard>)
    | Rejected
    | Replied(signature: bytes)
    | Failed
  {
    predicate Advancing() { AdvanceWriting? || AdvanceRenamed? }
    predicate Recording() { RecordWriting? || RecordRenamed? }
    predicate Critical() { Advancing() || Recording() }
    /** The mark was advanced for this request and no signature exists for it yet. */
    predicate Pending() { Advanced? || Signing? }
    /** The guard granted this request its timestamp. */
    predicate Granted() { Pending() || Signed? || Recording() }
  }

  datatype Request = Request(ts: uint64, checkpoint: bytes, stage: Stage)

  datatype World = World(
    up: bool,
    guard: Guard,
    disk: Disk<Guard>,
    holder: Option<nat>,
    requests: map<nat, Request>,
    asked: seq<Ask>,
    produced: set<Entry>,
    returned: set<Entry>)

  datatype Action =
    | Arrive(id: nat, ts: uint64, checkpoint: bytes)
    | EnterAdvance(id: nat)
    | AdvanceRename(id: nat)
    | AdvanceFail(id: nat)
    | AdvanceSync(id: nat)
    | CallBackend(id: nat)
    | BackendFail(id: nat)
    | BackendReturn(id: nat, signature: bytes)
    | EnterRecord(id: nat)
    | RecordRename(id: nat)
    | RecordFail(id: nat)
    | RecordSync(id: nat)
    | Lookup(id: nat)
    | Crash
    | PowerLoss(survivor: Guard)
    | Restart

  // ------------------------------------------------------------------------ the steps

  predicate Live(w: World, id: nat) {
    w.up && id in w.requests
  }

  predicate Enabled(w: World, a: Action) {
    match a
    case Arrive(id, ts, checkpoint) => w.up && id !in w.requests && |checkpoint| == 32
    case EnterAdvance(id) => w.holder.None? && Live(w, id) && w.requests[id].stage.Validated?
    case AdvanceRename(id) => Live(w, id) && w.requests[id].stage.AdvanceWriting?
    case AdvanceFail(id) => Live(w, id) && w.requests[id].stage.Advancing()
    case AdvanceSync(id) => Live(w, id) && w.requests[id].stage.AdvanceRenamed?
    case CallBackend(id) => Live(w, id) && w.requests[id].stage.Advanced?
    case BackendFail(id) => Live(w, id) && w.requests[id].stage.Signing?
    case BackendReturn(id, _) => Live(w, id) && w.requests[id].stage.Signing?
    case EnterRecord(id) => w.holder.None? && Live(w, id) && w.requests[id].stage.Signed?
    case RecordRename(id) => Live(w, id) && w.requests[id].stage.RecordWriting?
    case RecordFail(id) => Live(w, id) && w.requests[id].stage.Recording()
    case RecordSync(id) => Live(w, id) && w.requests[id].stage.RecordRenamed?
    case Lookup(id) => w.holder.None? && Live(w, id) && w.requests[id].stage.Rejected?
    case Crash => w.up
    case PowerLoss(survivor) => survivor in w.disk.durable
    case Restart => !w.up
  }

  function SetStage(w: World, id: nat, s: Stage): World
    requires id in w.requests
  {
    w.(requests := w.requests[id := w.requests[id].(stage := s)])
  }

  /** The handler returns `signature` to the caller of request `id`. */
  function Reply(w: World, id: nat, signature: bytes): World
    requires id in w.requests
  {
    var r := w.requests[id];
    SetStage(w, id, Replied(signature)).(returned := w.returned + {Entry(r.ts, r.checkpoint, signature)})
  }

  function Down(w: World): World {
    w.(up := false, holder := None, requests := map[])
  }

  function Next(w: World, a: Action): World
    requires Enabled(w, a)
  {
    match a
    case Arrive(id, ts, checkpoint) =>
      w.(requests := w.requests[id := Request(ts, checkpoint, Validated)])
    case EnterAdvance(id) =>
      var r := w.requests[id];
      if r.ts <= w.guard.mark then SetStage(w, id, Rejected)
      else SetStage(w, id, AdvanceWriting(w.guard, w.disk)).(guard := Guard(r.ts, None), holder := Some(id))
    case AdvanceRename(id) =>
      var s := w.requests[id].stage;
      SetStage(w, id, AdvanceRenamed(s.g0, s.d0)).(disk := Renamed(w.disk, w.guard))
    case AdvanceFail(id) =>
      SetStage(w, id, Failed).(guard := w.requests[id].stage.g0, holder := None)
    case AdvanceSync(id) =>
      SetStage(w, id, Advanced).(disk := Synced(w.disk), holder := None)
    case CallBackend(id) =>
      var r := w.requests[id];
      SetStage(w, id, Signing).(asked := w.asked + [Ask(r.ts, r.checkpoint)])
    case BackendFail(id) => SetStage(w, id, Failed)
    case BackendReturn(id, signature) =>
      var r := w.requests[id];
      if |signature| != 64 then SetStage(w, id, Failed)
      else SetStage(w, id, Signed(signature)).(produced := w.produced + {Entry(r.ts, r.checkpoint, signature)})
    case EnterRecord(id) =>
      var r := w.requests[id];
      if r.ts != w.guard.mark then Reply(w, id, r.stage.signature)
      else
        SetStage(w, id, RecordWriting(r.stage.signature, w.guard, w.disk))
        .(guard := Entry(r.ts, r.checkpoint, r.stage.signature).State(), holder := Some(id))
    case RecordRename(id) =>
      var s := w.requests[id].stage;
      SetStage(w, id, RecordRenamed(s.signature, s.g0, s.d0)).(disk := Renamed(w.disk, w.guard))
    case RecordFail(id) => Reply(w, id, w.requests[id].stage.signature).(holder := None)
    case RecordSync(id) => Reply(w, id, w.requests[id].stage.signature).(disk := Synced(w.disk), holder := None)
    case Lookup(id) =>
      var r := w.requests[id];
      var hit := Cached(w.guard, r.ts, r.checkpoint);
      if hit.None? then SetStage(w, id, Failed) else Reply(w, id, hit.value)
    case Crash => Down(w)
    case PowerLoss(survivor) => Down(w).(disk := Disk(survivor, {survivor}))
    case Restart => w.(up := true, guard := w.disk.visible)
  }

  /** A settled state file. If it holds a memo, that signature is the history so far. */
  predicate Init(w: World) {
    && !w.up && w.holder.None? && w.requests == map[]
    && w.disk.durable == {w.disk.visible} && w.disk.visible.WellFormed()
    && match w.disk.visible.memo
       case None => w.asked == [] && w.produced == {} && w.returned == {}
       case Some(m) =>
         var mark := w.disk.visible.mark;
         var e := Entry(mark, m.checkpoint, m.signature);
         w.asked == [Ask(mark, m.checkpoint)] && w.produced == {e} && w.returned <= {e}
  }

  predicate ValidRun(w: World, run: seq<Action>)
    decreases |run|
  {
    run != [] ==> Enabled(w, run[0]) && ValidRun(Next(w, run[0]), run[1..])
  }

  function Run(w: World, run: seq<Action>): World
    requires ValidRun(w, run)
    decreases |run|
  {
    if run == [] then w else Run(Next(w, run[0]), run[1..])
  }

  lemma Then(w: World, a: Action, rest: seq<Action>)
    requires Enabled(w, a) && ValidRun(Next(w, a), rest)
    ensures ValidRun(w, [a] + rest) && Run(w, [a] + rest) == Run(Next(w, a), rest)
  {
    assert ([a] + rest)[1..] == rest;
  }

  lemma {:induction false} RunAppend(w: World, xs: seq<Action>, ys: seq<Action>)
    requires ValidRun(w, xs) && ValidRun(Run(w, xs), ys)
    ensures ValidRun(w, xs + ys) && Run(w, xs + ys) == Run(Run(w, xs), ys)
    decreases |xs|
  {
    if xs == [] {
      assert xs + ys == ys;
    } else {
      RunAppend(Next(w, xs[0]), xs[1..], ys);
      Then(w, xs[0], xs[1..] + ys);
      assert [xs[0]] + (xs[1..] + ys) == xs + ys;
    }
  }

  lemma Two(w: World, a: Action, b: Action)
    requires Enabled(w, a) && Enabled(Next(w, a), b)
    ensures ValidRun(w, [a, b]) && Run(w, [a, b]) == Next(Next(w, a), b)
  {
    Then(Next(w, a), b, []);
    Then(w, a, [b]);
    assert [a] + [b] == [a, b] && [b] + [] == [b];
  }

  lemma Three(w: World, a: Action, b: Action, c: Action)
    requires Enabled(w, a) && Enabled(Next(w, a), b) && Enabled(Next(Next(w, a), b), c)
    ensures ValidRun(w, [a, b, c]) && Run(w, [a, b, c]) == Next(Next(Next(w, a), b), c)
  {
    Two(Next(w, a), b, c);
    Then(w, a, [b, c]);
    assert [a] + [b, c] == [a, b, c];
  }

  // -------------------------------------------------------------------- the invariant

  /** The mark a rollback would return to: what the guard has granted so far. */
  function Floor(w: World): uint64 {
    if w.holder.Some? && w.holder.value in w.requests && w.requests[w.holder.value].stage.Advancing() then
      w.requests[w.holder.value].stage.g0.mark
    else w.guard.mark
  }

  /** A memo, in memory or in a file image, is an entry of the log of produced signatures. */
  predicate Logged(w: World, g: Guard) {
    && g.WellFormed()
    && (g.memo.Some? ==> Entry(g.mark, g.memo.value.checkpoint, g.memo.value.signature) in w.produced)
  }

  /** Every content the file may come back with covers timestamp `ts`. */
  ghost predicate Covers(d: Disk<Guard>, ts: int) {
    forall x :: x in d.durable ==> ts <= x.mark
  }

  ghost predicate LogsOk(w: World) {
    && (forall i, j :: 0 <= i < j < |w.asked| ==> w.asked[i].ts != w.asked[j].ts)
    && (forall e :: e in w.produced ==> Ask(e.ts, e.checkpoint) in w.asked && |e.signature| == 64)
    && (forall e, f :: e in w.produced && f in w.produced && e.ts == f.ts ==> e == f)
    && w.returned <= w.produced
  }

  ghost predicate ImagesOk(w: World) {
    && w.disk.visible in w.disk.durable
    && (forall x :: x in w.disk.durable ==> Logged(w, x))
    && (forall a :: a in w.asked ==> Covers(w.disk, a.ts))
  }

  ghost predicate MemoryOk(w: World) {
    w.up ==>
      && Logged(w, w.guard)
      && (forall a :: a in w.asked ==> a.ts <= Floor(w))
      && Floor(w) <= w.disk.visible.mark
  }

  /** Inside a section, memory and disk are what the section made of `g0` and `d0`. */
  ghost predicate SectionOk(w: World, r: Request) {
    && (r.stage.Advancing() ==>
          Logged(w, r.stage.g0) && r.stage.g0.mark < r.ts && w.guard == Guard(r.ts, None))
    && (r.stage.Recording() ==>
          r.stage.g0.mark == r.ts && w.guard == Entry(r.ts, r.checkpoint, r.stage.signature).State())
    && (r.stage.AdvanceWriting? || r.stage.RecordWriting? ==> w.disk == r.stage.d0)
    && (r.stage.AdvanceRenamed? || r.stage.RecordRenamed? ==> w.disk == Renamed(r.stage.d0, w.guard))
  }

  ghost predicate LockOk(w: World) {
    && (!w.up ==> w.requests == map[] && w.holder.None?)
    && (w.holder.Some? ==> w.holder.value in w.requests)
    && (forall id :: id in w.requests ==>
          && (w.requests[id].stage.Critical() <==> w.holder == Some(id))
          && SectionOk(w, w.requests[id]))
  }

  ghost predicate RequestOk(w: World, r: Request) {
    && |r.checkpoint| == 32
    && (r.stage.Advanced? ==>
          r.ts <= Floor(w) && Covers(w.disk, r.ts) && (forall a :: a in w.asked ==> a.ts != r.ts))
    && (r.stage.Signing? ==>
          Ask(r.ts, r.checkpoint) in w.asked && (forall e :: e in w.produced ==> e.ts != r.ts))
    && (r.stage.Signed? || r.stage.Recording() ==> Entry(r.ts, r.checkpoint, r.stage.signature) in w.produced)
    && (r.stage.Replied? ==> Entry(r.ts, r.checkpoint, r.stage.signature) in w.returned)
  }

  ghost predicate RequestsOk(w: World) {
    && (forall id :: id in w.requests ==> RequestOk(w, w.requests[id]))
    && (forall i, j :: i in w.requests && j in w.requests && i != j
                       && w.requests[i].stage.Pending() && w.requests[j].stage.Pending()
                       ==> w.requests[i].ts != w.requests[j].ts)
  }

  ghost predicate Inv(w: World) {
    LogsOk(w) && ImagesOk(w) && MemoryOk(w) && LockOk(w) && RequestsOk(w)
  }

  lemma InitInv(w: World)
    requires Init(w)
    ensures Inv(w)
  {
  }

  /** A request is unaffected by a step of another that only adds to the logs. */
  lemma FrameRequest(w: World, w': World, r: Request)
    requires RequestOk(w, r)
    requires w'.disk == w.disk && Floor(w') == Floor(w) && w'.asked == w.asked
    requires w.returned <= w'.returned && w'.produced == w.produced
    ensures RequestOk(w', r)
  {
  }

  /** Ending a request outside the sections disturbs nothing else. */
  lemma DropInv(w: World, id: nat, s: Stage)
    requires Inv(w) && Live(w, id) && !w.requests[id].stage.Critical()
    requires s.Rejected? || s.Failed?
    ensures Inv(SetStage(w, id, s))
  {
    DropRequests(w, id, s);
    DropState(w, id, s);
  }

  lemma DropState(w: World, id: nat, s: Stage)
    requires Inv(w) && Live(w, id) && !w.requests[id].stage.Critical()
    requires s.Rejected? || s.Failed?
    ensures var v := SetStage(w, id, s); LogsOk(v) && ImagesOk(v) && MemoryOk(v) && LockOk(v)
  {
    assert Floor(SetStage(w, id, s)) == Floor(w);
  }

  lemma DropRequests(w: World, id: nat, s: Stage)
    requires RequestsOk(w) && Live(w, id) && !w.requests[id].stage.Critical()
    requires s.Rejected? || s.Failed?
    ensures RequestsOk(SetStage(w, id, s))
  {
    var w' := SetStage(w, id, s);
    assert Floor(w') == Floor(w);
    forall i | i in w'.requests ensures RequestOk(w', w'.requests[i]) {
      FrameRequest(w, w', w.requests[i]);
    }
  }

  /** Nor does answering one with a signature from the log. */
  lemma ReplyInv(w: World, id: nat, signature: bytes)
    requires Inv(w) && Live(w, id) && !w.requests[id].stage.Critical()
    requires Entry(w.requests[id].ts, w.requests[id].checkpoint, signature) in w.produced
    ensures Inv(Reply(w, id, signature))
  {
    var w' := Reply(w, id, signature);
    assert Floor(w') == Floor(w);
    forall i | i in w'.requests ensures RequestOk(w', w'.requests[i]) {
      FrameRequest(w, w', w.requests[i]);
    }
  }

  lemma ArriveInv(w: World, a: Action)
    requires Inv(w) && Enabled(w, a) && a.Arrive?
    ensures Inv(Next(w, a))
  {
    ArriveRequests(w, a);
    assert Floor(Next(w, a)) == Floor(w);
  }

  lemma ArriveRequests(w: World, a: Action)
    requires Inv(w) && Enabled(w, a) && a.Arrive?
    ensures RequestsOk(Next(w, a))
  {
    var w' := Next(w, a);
    assert Floor(w') == Floor(w);
    forall i | i in w.requests ensures RequestOk(w', w'.requests[i]) {
      FrameRequest(w, w', w.requests[i]);
    }
  }

  lemma EnterAdvanceInv(w: World, a: Action)
    requires Inv(w) && Enabled(w, a) && a.EnterAdvance?
    ensures Inv(Next(w, a))
  {
    if w.requests[a.id].ts <= w.guard.mark {
      DropInv(w, a.id, Rejected);
    } else {
      assert Floor(Next(w, a)) == Floor(w);
    }
  }

  lemma AdvanceRenameInv(w: World, a: Action)
    requires Inv(w) && Enabled(w, a) && a.AdvanceRename?
    ensures Inv(Next(w, a))
  {
    assert Floor(Next(w, a)) == Floor(w);
  }

  lemma AdvanceFailInv(w: World, a: Action)
    requires Inv(w) && Enabled(w, a) && a.AdvanceFail?
    ensures Inv(Next(w, a))
  {
    assert Floor(Next(w, a)) == Floor(w);
  }

  lemma AdvanceSyncInv(w: World, a: Action)
    requires Inv(w) && Enabled(w, a) && a.AdvanceSync?
    ensures Inv(Next(w, a))
  {
    assert Next(w, a).disk.durable == {w.guard};
  }

  lemma CallBackendLogs(w: World, a: Action)
    requires Inv(w) && Enabled(w, a) && a.CallBackend?
    ensures LogsOk(Next(w, a))
  {
  }

  lemma CallBackendInv(w: World, a: Action)
    requires Inv(w) && Enabled(w, a) && a.CallBackend?
    ensures Inv(Next(w, a))
  {
    CallBackendLogs(w, a);
    CallBackendRequests(w, a);
    CallBackendState(w, a);
  }

  lemma CallBackendState(w: World, a: Action)
    requires Inv(w) && Enabled(w, a) && a.CallBackend?
    ensures ImagesOk(Next(w, a)) && MemoryOk(Next(w, a)) && LockOk(Next(w, a))
  {
    assert Floor(Next(w, a)) == Floor(w);
    assert RequestOk(w, w.requests[a.id]);
  }

  lemma CallBackendRequests(w: World, a: Action)
    requires Inv(w) && Enabled(w, a) && a.CallBackend?
    ensures RequestsOk(Next(w, a))
  {
    assert Floor(Next(w, a)) == Floor(w);
  }

  lemma BackendReturnLogs(w: World, a: Action)
    requires Inv(w) && Enabled(w, a) && a.BackendReturn? && |a.signature| == 64
    ensures LogsOk(Next(w, a))
  {
  }

  lemma BackendReturnInv(w: World, a: Action)
    requires Inv(w) && Enabled(w, a) && a.BackendReturn?
    ensures Inv(Next(w, a))
  {
    if |a.signature| != 64 {
      DropInv(w, a.id, Failed);
    } else {
      BackendReturnLogs(w, a);
      var w' := Next(w, a);
      assert Floor(w') == Floor(w);
      forall i | i in w'.requests ensures RequestOk(w', w'.requests[i]) {
        assert RequestOk(w, w.requests[i]);
      }
    }
  }

  lemma EnterRecordInv(w: World, a: Action)
    requires Inv(w) && Enabled(w, a) && a.EnterRecord?
    ensures Inv(Next(w, a))
  {
    if w.requests[a.id].ts != w.guard.mark {
      ReplyInv(w, a.id, w.requests[a.id].stage.signature);
    } else {
      assert Floor(Next(w, a)) == Floor(w);
    }
  }

  lemma RecordRenameInv(w: World, a: Action)
    requires Inv(w) && Enabled(w, a) && a.RecordRename?
    ensures Inv(Next(w, a))
  {
    assert Floor(Next(w, a)) == Floor(w);
  }

  lemma RecordFailInv(w: World, a: Action)
    requires Inv(w) && Enabled(w, a) && a.RecordFail?
    ensures Inv(Next(w, a))
  {
    assert Floor(Next(w, a)) == Floor(w);
  }

  lemma RecordSyncInv(w: World, a: Action)
    requires Inv(w) && Enabled(w, a) && a.RecordSync?
    ensures Inv(Next(w, a))
  {
    var w' := Next(w, a);
    assert Floor(w') == Floor(w) && w'.disk.durable == {w.guard};
    forall i | i in w'.requests ensures RequestOk(w', w'.requests[i]) {
      assert RequestOk(w, w.requests[i]);
    }
  }

  lemma LookupInv(w: World, a: Action)
    requires Inv(w) && Enabled(w, a) && a.Lookup?
    ensures Inv(Next(w, a))
  {
    var r := w.requests[a.id];
    if Cached(w.guard, r.ts, r.checkpoint).None? {
      DropInv(w, a.id, Failed);
    } else {
      ReplyInv(w, a.id, Cached(w.guard, r.ts, r.checkpoint).value);
    }
  }

  lemma CrashInv(w: World, a: Action)
    requires Inv(w) && Enabled(w, a) && (a.Crash? || a.PowerLoss? || a.Restart?)
    ensures Inv(Next(w, a))
  {
  }

  lemma StepInv(w: World, a: Action)
    requires Inv(w) && Enabled(w, a)
    ensures Inv(Next(w, a))
  {
    match a
    case Arrive(_, _, _) => ArriveInv(w, a);
    case EnterAdvance(_) => EnterAdvanceInv(w, a);
    case AdvanceRename(_) => AdvanceRenameInv(w, a);
    case AdvanceFail(_) => AdvanceFailInv(w, a);
    case AdvanceSync(_) => AdvanceSyncInv(w, a);
    case CallBackend(_) => CallBackendInv(w, a);
    case BackendFail(id) => DropInv(w, id, Failed);
    case BackendReturn(_, _) => BackendReturnInv(w, a);
    case EnterRecord(_) => EnterRecordInv(w, a);
    case RecordRename(_) => RecordRenameInv(w, a);
    case RecordFail(_) => RecordFailInv(w, a);
    case RecordSync(_) => RecordSyncInv(w, a);
    case Lookup(_) => LookupInv(w, a);
    case _ => CrashInv(w, a);
  }

  lemma {:induction false} RunInv(w: World, run: seq<Action>)
    requires Inv(w) && ValidRun(w, run)
    ensures Inv(Run(w, run))
    decreases |run|
  {
    if run != [] {
      StepInv(w, run[0]);
      RunInv(Next(w, run[0]), run[1..]);
    }
  }

  // --------------------------------------------------------- sections are atomic

  /** The requests whose step this is; crashes, restarts and arrivals belong to none. */
  predicate StepOf(a: Action, id: nat) {
    !a.Arrive? && !a.Crash? && !a.PowerLoss? && !a.Restart? && a.id == id
  }

  /** While one request is in a section, no step of another request moves memory or disk. */
  lemma SectionsExclude(w: World, a: Action, id: nat)
    requires Inv(w) && Enabled(w, a) && w.holder == Some(id) && !StepOf(a, id)
    ensures Next(w, a).up ==> Next(w, a).guard == w.guard && Next(w, a).disk == w.disk && Next(w, a).holder == w.holder
  {
  }

  /** So a section, however it interleaves, does to the state it found exactly what the
      method does: one call of Advance or Record, with the fate its write met. A section that
      writes nothing is over in one step, and is that call for every fate. */
  lemma SectionsAreCalls(w: World, a: Action, fate: Fate)
    requires Inv(w) && Enabled(w, a)
    requires || a.AdvanceSync? || a.AdvanceFail? || a.RecordSync? || a.RecordFail? || a.Lookup?
             || (a.EnterAdvance? && w.requests[a.id].ts <= w.guard.mark)
             || (a.EnterRecord? && w.requests[a.id].ts != w.guard.mark)
    ensures var r, v := w.requests[a.id], Next(w, a);
            match a
            case EnterAdvance(_) =>
              (v.guard, v.disk, AdvanceRejected) == Advance(w.guard, w.disk, r.ts, fate) && v.requests[a.id].stage == Rejected
            case EnterRecord(_) =>
              && (v.guard, v.disk, true) == Record(w.guard, w.disk, r.ts, Memo(r.checkpoint, r.stage.signature), fate)
              && v.requests[a.id].stage == Replied(r.stage.signature)
            case Lookup(_) =>
              && (v.guard, v.disk) == (w.guard, w.disk)
              && v.requests[a.id].stage
                 == if r.ts == w.guard.mark && w.guard.memo.Some? && w.guard.memo.value.checkpoint == r.checkpoint
                    then Replied(w.guard.memo.value.signature) else Failed
            case AdvanceSync(_) => (v.guard, v.disk, AdvanceOk) == Advance(r.stage.g0, r.stage.d0, r.ts, Succeeds)
            case AdvanceFail(_) =>
              (v.guard, v.disk, AdvanceUnsaved)
              == Advance(r.stage.g0, r.stage.d0, r.ts, if r.stage.AdvanceRenamed? then FailsAfterRename else FailsBeforeRename)
            case RecordSync(_) =>
              (v.guard, v.disk, true)
              == Record(r.stage.g0, r.stage.d0, r.ts, Memo(r.checkpoint, r.stage.signature), Succeeds)
            case RecordFail(_) =>
              (v.guard, v.disk, false)
              == Record(r.stage.g0, r.stage.d0, r.ts, Memo(r.checkpoint, r.stage.signature),
                        if r.stage.RecordRenamed? then FailsAfterRename else FailsBeforeRename)
            case _ => true
  {
  }

  /** Over every run, whichever signed request records next and however its write fares, the
      memo it leaves in memory, and that of every content the file may then have, is a
      signature the backend produced for that very timestamp and checkpoint. */
  lemma RecordedIsProduced(w: World, run: seq<Action>, id: nat, fate: Fate)
    requires Init(w) && ValidRun(w, run) && Enabled(Run(w, run), EnterRecord(id))
    ensures var v := Run(w, run);
            var r := v.requests[id];
            var (g, d, _) := Record(v.guard, v.disk, r.ts, Memo(r.checkpoint, r.stage.signature), fate);
            && (g.memo.Some? ==> Entry(g.mark, g.memo.value.checkpoint, g.memo.value.signature) in v.produced)
            && (forall x :: x in d.durable && x.memo.Some? ==>
                  Entry(x.mark, x.memo.value.checkpoint, x.memo.value.signature) in v.produced)
            && (r.ts != v.guard.mark ==> g == v.guard && d == v.disk)
  {
    InitInv(w);
    RunInv(w, run);
    var v := Run(w, run);
    assert RequestOk(v, v.requests[id]);
    assert forall x :: x in v.disk.durable ==> Logged(v, x);
  }

  // --------------------------------------------------------- what the machine allows

  /** A request with any timestamp and checkpoint can arrive at any time. A crash or a power
      loss can fall between any two steps, inside a section or not, and a power loss can bring
      back every content that may be on disk. */
  lemma AnythingCanHappen(w: World, x: Guard, id: nat, ts: uint64, checkpoint: bytes)
    ensures w.up && id !in w.requests && |checkpoint| == 32 ==>
              && Enabled(w, Arrive(id, ts, checkpoint))
              && Next(w, Arrive(id, ts, checkpoint)) == w.(requests := w.requests[id := Request(ts, checkpoint, Validated)])
    ensures w.up ==> Enabled(w, Crash) && !Next(w, Crash).up && Next(w, Crash).disk == w.disk
    ensures x in w.disk.durable ==>
              Enabled(w, PowerLoss(x)) && !Next(w, PowerLoss(x)).up && Next(w, PowerLoss(x)).disk == Disk(x, {x})
    ensures !w.up ==> Enabled(w, Restart) && Next(w, Restart).up && Next(w, Restart).guard == w.disk.visible
  {
  }

  predicate Finished(r: Request) { r.stage.Replied? || r.stage.Failed? }

  /** A step of request `id` in its present stage: a write may fail at either point, and the
      backend may fail or return anything. */
  predicate StepsOf(w: World, id: nat, signature: bytes)
    requires id in w.requests
  {
    match w.requests[id].stage
    case Validated => Enabled(w, EnterAdvance(id))
    case AdvanceWriting(_, _) => Enabled(w, AdvanceRename(id)) && Enabled(w, AdvanceFail(id))
    case AdvanceRenamed(_, _) => Enabled(w, AdvanceSync(id)) && Enabled(w, AdvanceFail(id))
    case Advanced => Enabled(w, CallBackend(id))
    case Signing => Enabled(w, BackendFail(id)) && Enabled(w, BackendReturn(id, signature))
    case Signed(_) => Enabled(w, EnterRecord(id))
    case RecordWriting(_, _, _) => Enabled(w, RecordRename(id)) && Enabled(w, RecordFail(id))
    case RecordRenamed(_, _, _) => Enabled(w, RecordSync(id)) && Enabled(w, RecordFail(id))
    case Rejected => Enabled(w, Lookup(id))
    case _ => true
  }

  /** Nothing deadlocks. In every reachable state an unfinished request can go on, or else the
      request that holds the lock can, and then it is not the same one. */
  lemma NeverStuck(w: World, run: seq<Action>, id: nat, signature: bytes)
    requires Init(w) && ValidRun(w, run) && Run(w, run).up
    requires id in Run(w, run).requests && !Finished(Run(w, run).requests[id])
    ensures var v := Run(w, run);
            || StepsOf(v, id, signature)
            || (v.holder.Some? && v.holder.value != id && v.holder.value in v.requests
                && !Finished(v.requests[v.holder.value]) && StepsOf(v, v.holder.value, signature))
  {
    InitInv(w);
    RunInv(w, run);
    var v := Run(w, run);
    if v.holder.Some? {
      CanGoOn(v, v.holder.value, signature);
    } else {
      CanGoOn(v, id, signature);
    }
  }

  /** The holder of the lock can go on, and without one everybody can. */
  lemma CanGoOn(v: World, id: nat, signature: bytes)
    requires v.up && LockOk(v) && id in v.requests && (v.holder.None? || v.holder == Some(id))
    ensures StepsOf(v, id, signature) && (v.holder == Some(id) ==> !Finished(v.requests[id]))
  {
    assert v.requests[id].stage.Critical() <==> v.holder == Some(id);
  }

  // ------------------------------------------------------------ safety over whole runs

  /** No equivocation: over every interleaving of requests, failed writes, crashes and
      restarts, all signatures returned for one timestamp are for one checkpoint and are the
      same bytes, whether they came fresh from the backend or from the memo. */
  lemma NoEquivocation(w: World, run: seq<Action>, e: Entry, f: Entry)
    requires Init(w) && ValidRun(w, run)
    requires e in Run(w, run).returned && f in Run(w, run).returned && e.ts == f.ts
    ensures e == f
  {
    InitInv(w);
    RunInv(w, run);
  }

  /** The backend is asked at most once per timestamp, and only signatures it produced for
      that very question are ever returned. */
  lemma SignedAtMostOnce(w: World, run: seq<Action>)
    requires Init(w) && ValidRun(w, run)
    ensures var v := Run(w, run);
            && (forall i, j :: 0 <= i < j < |v.asked| ==> v.asked[i].ts != v.asked[j].ts)
            && (forall e :: e in v.returned ==> e in v.produced && Ask(e.ts, e.checkpoint) in v.asked)
  {
    InitInv(w);
    RunInv(w, run);
  }

  /** Whatever content the file comes back with, its mark covers every timestamp ever handed
      to the backend; and while the lock is free the visible file is not behind memory, even
      after a write that failed once its rename had taken effect. */
  lemma MarksCoverEverythingAsked(w: World, run: seq<Action>)
    requires Init(w) && ValidRun(w, run)
    ensures var v := Run(w, run);
            && (forall a, x :: a in v.asked && x in v.disk.durable ==> a.ts <= x.mark)
            && (v.up ==> forall a :: a in v.asked ==> a.ts <= v.guard.mark)
            && (v.up && v.holder.None? ==> v.guard.mark <= v.disk.visible.mark)
  {
    InitInv(w);
    RunInv(w, run);
    var v := Run(w, run);
    assert v.up ==> Floor(v) <= v.guard.mark;
    forall a, x | a in v.asked && x in v.disk.durable ensures a.ts <= x.mark {
      assert Covers(v.disk, a.ts);
    }
  }

  // -------------------------------------------------- when file and memory disagree

  /** Three facts about a run that its steps alone decide. `ahead`: an advance failed after
      its rename, and neither a completed advance, nor a memo renamed into place, nor a restart
      came after it. `unsettled`: a mark was renamed into place and nothing has made it durable
      since; a memo renamed at the mark in memory replaces it, and leaves only what is behind
      memory already. `behind`: the process restarted on an unsettled file, and no sync or power
      loss has left the file a single content since. */
  datatype Gap = Gap(ahead: bool, unsettled: bool, behind: bool)

  const NO_GAP := Gap(false, false, false)

  function Track(w: World, a: Action, gap: Gap): Gap
    requires Enabled(w, a)
  {
    match a
    case AdvanceRename(_) => gap.(unsettled := true)
    case AdvanceFail(id) => gap.(ahead := gap.ahead || w.requests[id].stage.AdvanceRenamed?)
    case AdvanceSync(_) => NO_GAP
    case RecordRename(_) => gap.(ahead := false, unsettled := gap.behind)
    case RecordSync(_) => gap.(unsettled := false, behind := false)
    case PowerLoss(_) => gap.(unsettled := false, behind := false)
    case Restart => gap.(ahead := false, behind := gap.unsettled)
    case _ => gap
  }

  function Tracked(w: World, run: seq<Action>, gap: Gap): Gap
    requires ValidRun(w, run)
    decreases |run|
  {
    if run == [] then gap else Tracked(Next(w, run[0]), run[1..], Track(w, run[0], gap))
  }

  /** The file's mark as it would be if the section under way rolled back now. */
  function FileMark(w: World): uint64 {
    if w.holder.Some? && w.holder.value in w.requests && w.requests[w.holder.value].stage.AdvanceRenamed? then
      w.requests[w.holder.value].stage.d0.visible.mark
    else w.disk.visible.mark
  }

  /** Some content the file may come back with has a mark below n. */
  ghost predicate Below(d: Disk<Guard>, n: int) {
    exists x :: x in d.durable && x.mark < n
  }

  ghost predicate AheadOk(w: World, gap: Gap) {
    w.up ==> (gap.ahead <==> Floor(w) < FileMark(w))
  }

  ghost predicate BehindOk(w: World, gap: Gap) {
    && (gap.unsettled <==> Below(w.disk, w.disk.visible.mark))
    && (w.up ==> (gap.behind <==> Below(w.disk, Floor(w))) && Below(w.disk, Floor(w) + 1))
  }

  lemma AheadRename(w: World, a: Action, gap: Gap)
    requires Inv(w) && Enabled(w, a) && AheadOk(w, gap) && (a.AdvanceRename? || a.RecordRename?)
    ensures AheadOk(Next(w, a), Track(w, a, gap))
  {
    assert w.holder == Some(a.id) && SectionOk(w, w.requests[a.id]);
  }

  lemma AheadReturn(w: World, a: Action, gap: Gap)
    requires Inv(w) && Enabled(w, a) && AheadOk(w, gap)
    requires a.AdvanceFail? || a.AdvanceSync? || a.RecordFail? || a.RecordSync?
    ensures AheadOk(Next(w, a), Track(w, a, gap))
  {
    assert w.holder == Some(a.id) && SectionOk(w, w.requests[a.id]);
  }

  lemma AheadStep(w: World, a: Action, gap: Gap)
    requires Inv(w) && Enabled(w, a) && AheadOk(w, gap)
    ensures AheadOk(Next(w, a), Track(w, a, gap))
  {
    if a.AdvanceRename? || a.RecordRename? {
      AheadRename(w, a, gap);
    } else if a.AdvanceFail? || a.AdvanceSync? || a.RecordFail? || a.RecordSync? {
      AheadReturn(w, a, gap);
    } else if a.Restart? {
      assert Next(w, a).holder.None?;
    } else if Next(w, a).up {
      assert Floor(Next(w, a)) == Floor(w) && FileMark(Next(w, a)) == FileMark(w);
    }
  }

  lemma BehindRename(w: World, a: Action, gap: Gap)
    requires Inv(w) && Enabled(w, a) && BehindOk(w, gap) && (a.AdvanceRename? || a.RecordRename?)
    ensures BehindOk(Next(w, a), Track(w, a, gap))
  {
    assert w.holder == Some(a.id) && SectionOk(w, w.requests[a.id]);
    var w' := Next(w, a);
    assert Floor(w') == Floor(w) && w'.disk.durable == w.disk.durable + {w.guard} && w.guard.mark >= Floor(w);
    BelowGrows(w.disk, w.guard, Floor(w));
    BelowGrows(w.disk, w.guard, Floor(w) + 1);
    BelowGrows(w.disk, w.guard, w.guard.mark);
    if a.AdvanceRename? {
      var x :| x in w.disk.durable && x.mark < Floor(w) + 1;
    }
  }

  /** A renamed content adds its own mark to those the file may come back with. */
  lemma BelowGrows(d: Disk<Guard>, g: Guard, n: int)
    ensures Below(Renamed(d, g), n) <==> Below(d, n) || g.mark < n
  {
    if Below(d, n) {
      var x :| x in d.durable && x.mark < n;
      assert x in Renamed(d, g).durable;
    }
    assert g in Renamed(d, g).durable;
  }

  lemma BelowSingle(g: Guard, n: int)
    ensures Below(Disk(g, {g}), n) <==> g.mark < n
  {
    assert g in Disk(g, {g}).durable;
  }

  lemma BehindSync(w: World, a: Action, gap: Gap)
    requires Inv(w) && Enabled(w, a) && BehindOk(w, gap) && (a.AdvanceSync? || a.RecordSync?)
    ensures BehindOk(Next(w, a), Track(w, a, gap))
  {
    assert w.holder == Some(a.id) && SectionOk(w, w.requests[a.id]);
    var w' := Next(w, a);
    assert w'.disk == Disk(w.guard, {w.guard}) && Floor(w') == w.guard.mark;
    BelowSingle(w.guard, w.guard.mark);
    BelowSingle(w.guard, w.guard.mark + 1);
  }

  lemma BehindCrash(w: World, a: Action, gap: Gap)
    requires Inv(w) && Enabled(w, a) && BehindOk(w, gap) && (a.Crash? || a.PowerLoss? || a.Restart?)
    ensures BehindOk(Next(w, a), Track(w, a, gap))
  {
    if a.PowerLoss? {
      BelowSingle(a.survivor, a.survivor.mark);
    } else if a.Restart? {
      assert w.disk.visible in w.disk.durable && Floor(Next(w, a)) == w.disk.visible.mark;
    }
  }

  lemma BehindStep(w: World, a: Action, gap: Gap)
    requires Inv(w) && Enabled(w, a) && BehindOk(w, gap)
    ensures BehindOk(Next(w, a), Track(w, a, gap))
  {
    if a.AdvanceRename? || a.RecordRename? {
      BehindRename(w, a, gap);
    } else if a.AdvanceSync? || a.RecordSync? {
      BehindSync(w, a, gap);
    } else if a.Crash? || a.PowerLoss? || a.Restart? {
      BehindCrash(w, a, gap);
    } else {
      assert Floor(Next(w, a)) == Floor(w) && Next(w, a).disk == w.disk;
    }
  }

  lemma {:induction false} GapInv(w: World, run: seq<Action>, gap: Gap)
    requires Inv(w) && ValidRun(w, run) && AheadOk(w, gap) && BehindOk(w, gap)
    ensures Inv(Run(w, run)) && AheadOk(Run(w, run), Tracked(w, run, gap)) && BehindOk(Run(w, run), Tracked(w, run, gap))
    decreases |run|
  {
    if run != [] {
      StepInv(w, run[0]);
      AheadStep(w, run[0], gap);
      BehindStep(w, run[0], gap);
      GapInv(Next(w, run[0]), run[1..], Track(w, run[0], gap));
    }
  }

  /** Exactly when file and memory disagree, over every run, while the lock is free. The
      visible file is ahead of memory, and otherwise equal to it, if and only if an advance
      failed after its rename and nothing since has put the two back in step. The file may come
      back with a mark below memory's if and only if the process restarted on a mark that was
      renamed but never made durable. */
  lemma FileVersusMemory(w: World, run: seq<Action>)
    requires Init(w) && ValidRun(w, run) && Run(w, run).up && Run(w, run).holder.None?
    ensures var v, gap := Run(w, run), Tracked(w, run, NO_GAP);
            && (if gap.ahead then v.guard.mark < v.disk.visible.mark else v.guard.mark == v.disk.visible.mark)
            && ((exists x :: x in v.disk.durable && x.mark < v.guard.mark) <==> gap.behind)
  {
    InitInv(w);
    BelowSingle(w.disk.visible, w.disk.visible.mark);
    GapInv(w, run, NO_GAP);
  }

  /** Both happen. The file can be strictly ahead of memory: a directory fsync that fails after the rename
      rolls memory back and leaves the file with the new mark. After a restart on that file, a
      power loss can still bring back the older image, which is then behind memory. Neither
      touches a timestamp the backend has seen. */
  lemma FileAheadOfMemory() returns (w: World, run: seq<Action>, more: seq<Action>)
    ensures Init(w) && ValidRun(w, run) && ValidRun(Run(w, run), more)
    ensures var v := Run(w, run); v.up && v.holder.None? && v.guard.mark < v.disk.visible.mark
    ensures var u := Run(Run(w, run), more); u.up && exists x :: x in u.disk.durable && x.mark < u.guard.mark
  {
    var old0, new0 := Guard(0, None), Guard(5, None);
    w := World(false, old0, Disk(old0, {old0}), None, map[], [], {}, {});
    var w2 := Next(Next(w, Restart), Arrive(1, 5, Zeros(32)));
    Two(w, Restart, Arrive(1, 5, Zeros(32)));
    Three(w2, EnterAdvance(1), AdvanceRename(1), AdvanceFail(1));
    var xs, ys := [Restart, Arrive(1, 5, Zeros(32))], [EnterAdvance(1), AdvanceRename(1), AdvanceFail(1)];
    RunAppend(w, xs, ys);
    run := xs + ys;
    var v := Run(w, run);
    assert v.guard == old0 && v.disk == Disk(new0, {old0, new0});
    Two(v, Crash, Restart);
    more := [Crash, Restart];
    assert old0 in Run(v, more).disk.durable;
  }

  /** The full log's answer to a repeat, as if nothing were ever forgotten. */
  ghost predicate LogAnswers(w: World, ts: uint64, checkpoint: bytes, signature: bytes) {
    Entry(ts, checkpoint, signature) in w.produced
  }

  /** The memo refines the log: a memo hit is the log's one answer for that timestamp, and a
      memo that is present answers precisely the entry logged at the mark. */
  lemma MemoRefinesLog(w: World, run: seq<Action>, ts: uint64, checkpoint: bytes)
    requires Init(w) && ValidRun(w, run) && Run(w, run).up
    ensures var v := Run(w, run);
            var hit := Cached(v.guard, ts, checkpoint);
            && (hit.Some? ==> LogAnswers(v, ts, checkpoint, hit.value)
                              && forall c, s :: LogAnswers(v, ts, c, s) ==> c == checkpoint && s == hit.value)
            && (v.guard.memo.Some? && ts == v.guard.mark ==>
                  forall s :: LogAnswers(v, ts, checkpoint, s) <==> hit == Some(s))
  {
    InitInv(w);
    RunInv(w, run);
    var v := Run(w, run);
    forall e, f | e in v.produced && f in v.produced && e.ts == f.ts ensures e == f {
    }
  }

  // ---------------------------------------------------------- abandoned timestamps

  /** Timestamp `ts` can never reach the backend again. */
  ghost predicate Burnt(w: World, ts: uint64) {
    && Covers(w.disk, ts)
    && (w.up ==> ts <= Floor(w))
    && (forall id :: id in w.requests && w.requests[id].ts == ts ==> !w.requests[id].stage.Advanced?)
  }

  /** A request that was granted its timestamp and then loses its signing, to a backend error,
      a malformed signature, a crash or a power loss, burns the timestamp. */
  lemma AbandonedBurns(w: World, a: Action, id: nat)
    requires Inv(w) && Enabled(w, a) && id in w.requests && w.requests[id].stage.Granted()
    requires a.Crash? || a.PowerLoss? || a == BackendFail(id) || (a.BackendReturn? && a.id == id && |a.signature| != 64)
    ensures Burnt(Next(w, a), w.requests[id].ts)
  {
    var ts := w.requests[id].ts;
    if w.requests[id].stage.Signed? || w.requests[id].stage.Recording() {
      var e := Entry(ts, w.requests[id].checkpoint, w.requests[id].stage.signature);
      assert Ask(e.ts, e.checkpoint) in w.asked;
    }
    assert Covers(w.disk, ts);
    if a.BackendFail? || a.BackendReturn? {
      assert Floor(Next(w, a)) == Floor(w);
      assert Ask(ts, w.requests[id].checkpoint) in w.asked;
    }
  }

  lemma BurntCrash(w: World, a: Action, ts: uint64)
    requires Inv(w) && Enabled(w, a) && Burnt(w, ts) && (a.Crash? || a.PowerLoss? || a.Restart?)
    ensures Burnt(Next(w, a), ts)
  {
    assert w.disk.visible in w.disk.durable;
  }

  /** Writing the file never uncovers a granted timestamp. */
  lemma BurntWrite(w: World, a: Action, ts: uint64)
    requires Inv(w) && Enabled(w, a) && Burnt(w, ts)
    requires a.AdvanceRename? || a.AdvanceSync? || a.RecordRename? || a.RecordSync?
    ensures Burnt(Next(w, a), ts)
  {
    assert SectionOk(w, w.requests[a.id]);
  }

  lemma BurntStep(w: World, a: Action, ts: uint64)
    requires Inv(w) && Enabled(w, a) && Burnt(w, ts)
    ensures Burnt(Next(w, a), ts)
  {
    if a.Crash? || a.PowerLoss? || a.Restart? {
      BurntCrash(w, a, ts);
    } else if a.AdvanceRename? || a.AdvanceSync? || a.RecordRename? || a.RecordSync? {
      BurntWrite(w, a, ts);
    } else {
      assert Floor(Next(w, a)) == Floor(w) && Next(w, a).disk == w.disk;
    }
  }

  lemma BurntNotAsked(w: World, a: Action, ts: uint64)
    requires Enabled(w, a) && Burnt(w, ts)
    ensures w.asked <= Next(w, a).asked
    ensures forall i :: |w.asked| <= i < |Next(w, a).asked| ==> Next(w, a).asked[i].ts != ts
  {
  }

  /** A burnt timestamp is never signed later, however the run goes on. */
  lemma {:induction false} BurntForever(w: World, run: seq<Action>, ts: uint64)
    requires Inv(w) && ValidRun(w, run) && Burnt(w, ts)
    ensures w.asked <= Run(w, run).asked
    ensures forall i :: |w.asked| <= i < |Run(w, run).asked| ==> Run(w, run).asked[i].ts != ts
    decreases |run|
  {
    if run != [] {
      StepInv(w, run[0]);
      BurntStep(w, run[0], ts);
      BurntNotAsked(w, run[0], ts);
      BurntForever(Next(w, run[0]), run[1..], ts);
    }
  }

  // ------------------------------------------------------------- recorded signatures

  /** Memory, the visible file and every durable image hold entry `e` as the memo. */
  predicate Settled(w: World, e: Entry) {
    && e in w.produced
    && w.disk == Disk(e.State(), {e.State()})
    && (w.up ==> w.guard == e.State())
  }

  /** The step takes the guard past timestamp `ts`. */
  predicate Supersedes(w: World, a: Action, ts: uint64)
    requires Enabled(w, a)
  {
    a.EnterAdvance? && w.requests[a.id].ts > ts
  }

  predicate NeverSuperseded(w: World, run: seq<Action>, ts: uint64)
    requires ValidRun(w, run)
    decreases |run|
  {
    run != [] ==> !Supersedes(w, run[0], ts) && NeverSuperseded(Next(w, run[0]), run[1..], ts)
  }

  /** RecordSignature returning nil settles the entry. */
  lemma RecordSettles(w: World, id: nat)
    requires Inv(w) && Enabled(w, RecordSync(id))
    ensures Settled(Next(w, RecordSync(id)), Entry(w.requests[id].ts, w.requests[id].checkpoint, w.requests[id].stage.signature))
  {
  }

  lemma SettledStep(w: World, a: Action, e: Entry)
    requires Inv(w) && Enabled(w, a) && Settled(w, e) && !Supersedes(w, a, e.ts)
    ensures Settled(Next(w, a), e)
  {
  }

  /** From then on, and through any number of crashes and restarts, every repeat of the
      request is rejected by the mark and answered with exactly that signature, until the
      guard is asked to advance past the timestamp. */
  lemma {:induction false} RepeatsAreAnswered(w: World, run: seq<Action>, e: Entry, id: nat)
    requires Inv(w) && Settled(w, e) && ValidRun(w, run) && NeverSuperseded(w, run, e.ts)
    ensures var v := Run(w, run);
            && Settled(v, e)
            && (id in v.requests && v.requests[id].ts == e.ts && v.requests[id].checkpoint == e.checkpoint ==>
                  && (Enabled(v, EnterAdvance(id)) ==> Next(v, EnterAdvance(id)).requests[id].stage == Rejected)
                  && (Enabled(v, Lookup(id)) ==>
                        Next(v, Lookup(id)).requests[id].stage == Replied(e.signature)
                        && e in Next(v, Lookup(id)).returned))
    decreases |run|
  {
    if run != [] {
      StepInv(w, run[0]);
      SettledStep(w, run[0], e);
      RepeatsAreAnswered(Next(w, run[0]), run[1..], e, id);
    }
  }
}
