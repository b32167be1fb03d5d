/**
 One dial loop per target, all sharing one arbiter. A loop dials, serves requests through
 the gated handler until the connection ends, and releases the role when it ends. Signing is
 a later step than the grant, so a granted request can be in flight when the role moves.
 */
module DialLoops {
  import opened Bytes
  import opened PrimaryArbiter

  /** A request frame. Pubkey and ping requests pass through the gate unconditionally. */
  datatype Message = SignVote(height: int) | SignProposal(height: int) | Passthrough

  /** notPrimaryResponse: the height a sign request is for, if it is one. */
  function GatedHeight(m: Message): Option<int> {
    match m
    case SignVote(height) => Some(height)
    case SignProposal(height) => Some(height)
    case Passthrough => None
  }

  /** `at` is the position of the grant in the log of arbiter calls. */
  datatype Stage =
    | Dialing
    | DialFailed
    | Serving
    | InFlight(height: int, at: nat)
    | Responding
    | Closing
    | Waiting
    | Stopped
  {
    /** Between the connect callback and the Release in the disconnect callback. */
    predicate Attached() { Serving? || InFlight? || Responding? || Closing? }
  }

  /** A vote or proposal passed on to the key: whose, its height, and its grant. */
  datatype Signing = Signing(id: string, height: int, at: nat)

  datatype World = World(clock: int, arbiter: Arbiter, loops: map<string, Stage>, calls: seq<Call>, signed: seq<Signing>)

  datatype Action =
    | Tick(elapsed: nat)
    | DialOk(id: string)
    | DialError(id: string)
    | ReportDialError(id: string)
    | Receive(id: string, message: Message)
    | Sign(id: string)
    | Written(id: string)
    | WriteError(id: string)
    | ReadError(id: string)
    | Disconnect(id: string)
    | Wake(id: string)
    | Cancel(id: string)

  predicate Enabled(w: World, a: Action) {
    if a.Tick? then true
    else
      a.id in w.loops
      && var s := w.loops[a.id];
         match a
         case DialOk(_) => s.Dialing?
         case DialError(_) => s.Dialing?
         case ReportDialError(_) => s.DialFailed?
         case Receive(_, _) => s.Serving?
         case Sign(_) => s.InFlight?
         case Written(_) => s.Responding?
         case WriteError(_) => s.Responding?
         case ReadError(_) => s.Serving?
         case Disconnect(_) => s.Closing?
         case Wake(_) => s.Waiting?
         case Cancel(_) => s.Dialing? || s.Waiting?
         case _ => false
  }

  function Move(w: World, id: string, s: Stage): World { w.(loops := w.loops[id := s]) }

  /** The disconnect callback. */
  function Release(w: World, id: string): World {
    Move(w, id, Waiting).(arbiter := AfterRelease(w.arbiter, id), calls := w.calls + [ReleaseCall(id)])
  }

  /** gatedHandler: a sign request goes on only if the arbiter grants it. */
  function Gate(w: World, id: string, height: int): World {
    var granted := Judge(w.arbiter, id, height, w.clock).Granted();
    Move(w, id, if granted then InFlight(height, |w.calls|) else Responding)
    .(arbiter := AfterAcquire(w.arbiter, id, height, w.clock), calls := w.calls + [AcquireCall(id, height, w.clock)])
  }

  function Next(w: World, a: Action): World
    requires Enabled(w, a)
  {
    match a
    case Tick(elapsed) => w.(clock := w.clock + elapsed)
    case DialOk(id) => Move(w, id, Serving)
    case DialError(id) => Move(w, id, DialFailed)
    case ReportDialError(id) => Release(w, id)
    case Receive(id, m) => if GatedHeight(m).Some? then Gate(w, id, GatedHeight(m).value) else Move(w, id, Responding)
    case Sign(id) => Move(w, id, Responding).(signed := w.signed + [Signing(id, w.loops[id].height, w.loops[id].at)])
    case Written(id) => Move(w, id, Serving)
    case WriteError(id) => Move(w, id, Closing)
    case ReadError(id) => Move(w, id, Closing)
    case Disconnect(id) => Release(w, id)
    case Wake(id) => Move(w, id, Dialing)
    case Cancel(id) => Move(w, id, Stopped)
  }

  /** Ids are distinct, being the keys of `loops`, and non-empty. */
  predicate Init(w: World) {
    && "" !in w.loops && (forall id :: id in w.loops ==> w.loops[id].Dialing?)
    && w.arbiter.primary == "" && w.arbiter.maxHeight == 0 && w.calls == [] && w.signed == []
  }

  predicate ValidRun(w: World, run: seq<Action>)
    decreases |run|
  {
    run != [] ==> Enabled(w, run[0]) && ValidRun(Next(w, run[0]), run[1..])
  }

  function Run(w: World, run: seq<Action>): World
    requires ValidRun(w, run)
    decreases |run|
  {
    if run == [] then w else Run(Next(w, run[0]), run[1..])
  }

  // -------------------------------------------------------------------- the invariant

  /** The arbiter is where its log of calls takes it; `a0` is its initial state. */
  ghost predicate LogOk(w: World, a0: Arbiter) {
    && w.arbiter == StateAt(a0, w.calls, |w.calls|) && NamedIds(w.calls)
    && forall k :: 0 <= k < |w.calls| ==> w.calls[k].id in w.loops
  }

  /** A request in flight was granted at its recorded call and its loop has not released. */
  ghost predicate GrantOk(w: World, a0: Arbiter, id: string)
    requires id in w.loops
  {
    var s := w.loops[id];
    s.InFlight? ==>
      && s.at < |w.calls| && w.calls[s.at].AcquireCall? && w.calls[s.at].id == id && w.calls[s.at].height == s.height
      && Grants(a0, w.calls, s.at)
      && s.height <= w.arbiter.maxHeight
      && forall m :: s.at < m < |w.calls| ==> w.calls[m] != ReleaseCall(id)
  }

  ghost predicate Inv(w: World, a0: Arbiter) {
    && "" !in w.loops
    && LogOk(w, a0)
    && (w.arbiter.primary != "" ==> w.arbiter.primary in w.loops && w.loops[w.arbiter.primary].Attached())
    && (forall id :: id in w.loops ==> GrantOk(w, a0, id))
    && (forall i :: 0 <= i < |w.signed| ==> w.signed[i].height <= w.arbiter.maxHeight)
  }

  lemma LogCall(w: World, a0: Arbiter, c: Call)
    requires LogOk(w, a0) && c.id != ""
    ensures StateAt(a0, w.calls + [c], |w.calls| + 1) == Apply(w.arbiter, c) && NamedIds(w.calls + [c])
    ensures forall i :: 0 <= i < |w.calls| && Grants(a0, w.calls, i) ==> Grants(a0, w.calls + [c], i)
  {
    Prefix(a0, w.calls, [c], |w.calls|);
    forall i | 0 <= i < |w.calls| && Grants(a0, w.calls, i) ensures Grants(a0, w.calls + [c], i) {
      Prefix(a0, w.calls, [c], i);
    }
  }

  lemma QuietInv(w: World, a: Action, a0: Arbiter)
    requires Inv(w, a0) && Enabled(w, a) && Next(w, a).calls == w.calls
    ensures Inv(Next(w, a), a0)
  {
  }

  lemma ReleaseInv(w: World, id: string, a0: Arbiter)
    requires Inv(w, a0) && id in w.loops && !w.loops[id].InFlight?
    ensures Inv(Release(w, id), a0)
  {
    LogCall(w, a0, ReleaseCall(id));
  }

  lemma GateInv(w: World, id: string, height: int, a0: Arbiter)
    requires Inv(w, a0) && id in w.loops && w.loops[id].Serving?
    ensures Inv(Gate(w, id, height), a0)
  {
    LogCall(w, a0, AcquireCall(id, height, w.clock));
    Prefix(a0, w.calls, [AcquireCall(id, height, w.clock)], |w.calls|);
  }

  lemma StepInv(w: World, a: Action, a0: Arbiter)
    requires Inv(w, a0) && Enabled(w, a)
    ensures Inv(Next(w, a), a0)
  {
    match a
    case ReportDialError(id) => ReleaseInv(w, id, a0);
    case Disconnect(id) => ReleaseInv(w, id, a0);
    case Receive(id, m) =>
      if GatedHeight(m).Some? {
        GateInv(w, id, GatedHeight(m).value, a0);
      } else {
        QuietInv(w, a, a0);
      }
    case _ => QuietInv(w, a, a0);
  }

  lemma {:induction false} RunInv(w: World, run: seq<Action>, a0: Arbiter)
    requires Inv(w, a0) && ValidRun(w, run)
    ensures Inv(Run(w, run), a0)
    decreases |run|
  {
    if run != [] {
      StepInv(w, run[0], a0);
      RunInv(Next(w, run[0]), run[1..], a0);
    }
  }

  // ----------------------------------------------------------- over every interleaving

  /** The primary, if any, is a target whose loop is connected and has not yet released; a
      loop that is dialing, waiting or stopped never holds the role. */
  lemma PrimaryIsAttached(w: World, run: seq<Action>, id: string)
    requires Init(w) && ValidRun(w, run)
    ensures var v := Run(w, run);
            && (v.arbiter.primary != "" ==> v.arbiter.primary in v.loops && v.loops[v.arbiter.primary].Attached())
            && (id in v.loops && !v.loops[id].Attached() ==> v.arbiter.primary != id)
  {
    RunInv(w, run, w.arbiter);
  }

  /** The gate, in every reachable state. Every vote and every proposal is put to the arbiter at
      its height, and is taken up exactly if it is justified; otherwise it is answered with a
      refusal and nothing is passed on. Any other message is no business of the arbiter. */
  lemma GateMeans(w: World, run: seq<Action>, id: string, m: Message)
    requires Init(w) && ValidRun(w, run) && Enabled(Run(w, run), Receive(id, m))
    ensures var v := Run(w, run);
            var u := Next(v, Receive(id, m));
            && (m.SignVote? || m.SignProposal? ==>
                  && u.calls == v.calls + [AcquireCall(id, m.height, v.clock)]
                  && u.arbiter == AfterAcquire(v.arbiter, id, m.height, v.clock)
                  && u.signed == v.signed && u.clock == v.clock
                  && u.loops == v.loops[id := if Justified(w.arbiter, v.calls, id, m.height, v.clock)
                                              then InFlight(m.height, |v.calls|) else Responding])
            && (m.Passthrough? ==> u == v.(loops := v.loops[id := Responding]))
  {
    RunInv(w, run, w.arbiter);
    if m.SignVote? || m.SignProposal? {
      var v := Run(w, run);
      GrantedIffJustified(w.arbiter, v.calls, id, m.height, v.clock);
    }
  }

  /** A connection that ends, or could not be made, gives up the role if it holds it, and
      changes nothing else about the arbiter. */
  lemma EndReleases(w: World, run: seq<Action>, a: Action)
    requires Init(w) && ValidRun(w, run) && Enabled(Run(w, run), a) && (a.Disconnect? || a.ReportDialError?)
    ensures var v := Run(w, run);
            var u := Next(v, a);
            && u.calls == v.calls + [ReleaseCall(a.id)] && u.loops == v.loops[a.id := Waiting]
            && u.arbiter.primary == (if v.arbiter.primary == a.id then "" else v.arbiter.primary)
            && u.arbiter.maxHeight == v.arbiter.maxHeight && u.arbiter.rank == v.arbiter.rank
            && (v.arbiter.primary != a.id ==> u.arbiter == v.arbiter)
  {
  }

  /** No loop waits for another: whatever its stage, it has its next step, time may pass, and
      an error may end a connection that is reading or answering. */
  lemma NeverStuck(w: World, id: string, m: Message, elapsed: nat)
    requires id in w.loops
    ensures Enabled(w, Tick(elapsed)) && Next(w, Tick(elapsed)).clock == w.clock + elapsed
    ensures match w.loops[id]
            case Dialing => Enabled(w, DialOk(id)) && Enabled(w, DialError(id)) && Enabled(w, Cancel(id))
            case DialFailed => Enabled(w, ReportDialError(id))
            case Serving => Enabled(w, Receive(id, m)) && Enabled(w, ReadError(id))
            case InFlight(_, _) => Enabled(w, Sign(id))
            case Responding => Enabled(w, Written(id)) && Enabled(w, WriteError(id))
            case Closing => Enabled(w, Disconnect(id))
            case Waiting => Enabled(w, Wake(id)) && Enabled(w, Cancel(id))
            case Stopped => true
  {
  }

  /** A connection serves one request after the other: the primary has its vote or proposal
      signed and answered, and is back to serving with the role still its own. */
  lemma ServesOn(w: World, id: string, m: Message)
    requires id in w.loops && w.loops[id].Serving? && w.arbiter.primary == id && (m.SignVote? || m.SignProposal?)
    ensures ValidRun(w, [Receive(id, m)] + ([Sign(id)] + ([Written(id)] + [])))
    ensures var v := Run(w, [Receive(id, m)] + ([Sign(id)] + ([Written(id)] + [])));
            && v.loops == w.loops[id := Serving] && v.arbiter.primary == id && v.arbiter.lastReq == w.clock
            && v.calls == w.calls + [AcquireCall(id, m.height, w.clock)]
            && v.signed == w.signed + [Signing(id, m.height, |w.calls|)]
  {
    var w1 := Next(w, Receive(id, m));
    var w2 := Next(w1, Sign(id));
    Then(w2, Written(id), []);
    Then(w1, Sign(id), [Written(id)] + []);
    Then(w, Receive(id, m), [Sign(id)] + ([Written(id)] + []));
    assert Next(w2, Written(id)).loops == w.loops[id := Serving];
  }

  /** A connection that fails while reading or answering is closed, gives up the role, waits
      and is dialled again. */
  lemma Redials(w: World, id: string, error: Action)
    requires id in w.loops && Enabled(w, error) && (error == ReadError(id) || error == WriteError(id)) && id != ""
    ensures ValidRun(w, [error] + ([Disconnect(id)] + ([Wake(id)] + [])))
    ensures var v := Run(w, [error] + ([Disconnect(id)] + ([Wake(id)] + [])));
            && v.loops == w.loops[id := Dialing] && v.signed == w.signed
            && v.arbiter.primary == (if w.arbiter.primary == id then "" else w.arbiter.primary)
  {
    var w1 := Next(w, error);
    var w2 := Next(w1, Disconnect(id));
    Then(w2, Wake(id), []);
    Then(w1, Disconnect(id), [Wake(id)] + []);
    Then(w, error, [Disconnect(id)] + ([Wake(id)] + []));
    assert Next(w2, Wake(id)).loops == w.loops[id := Dialing];
  }

  // ------------------------------------------------ what is granted is signed, once

  /** The grant at call k is outstanding: its loop has it in flight. */
  predicate Outstanding(w: World, k: nat)
    requires k < |w.calls|
  {
    && w.calls[k].AcquireCall? && w.calls[k].id in w.loops
    && w.loops[w.calls[k].id] == InFlight(w.calls[k].height, k)
  }

  ghost predicate IsSigned(w: World, k: nat) {
    exists i :: 0 <= i < |w.signed| && w.signed[i].at == k
  }

  ghost predicate SigningOk(w: World, a0: Arbiter, s: Signing) {
    && s.at < |w.calls| && Grants(a0, w.calls, s.at)
    && w.calls[s.at].id == s.id && w.calls[s.at].height == s.height && !Outstanding(w, s.at)
  }

  ghost predicate PassedOk(w: World, a0: Arbiter) {
    && (forall i :: 0 <= i < |w.signed| ==> SigningOk(w, a0, w.signed[i]))
    && (forall i, j :: 0 <= i < j < |w.signed| ==> w.signed[i].at != w.signed[j].at)
    && (forall k :: 0 <= k < |w.calls| && Grants(a0, w.calls, k) ==> Outstanding(w, k) || IsSigned(w, k))
  }

  lemma PassedQuiet(w: World, a: Action, a0: Arbiter)
    requires Inv(w, a0) && PassedOk(w, a0) && Enabled(w, a) && Next(w, a).calls == w.calls && !a.Sign?
    ensures PassedOk(Next(w, a), a0)
  {
    var u := Next(w, a);
    assert u.signed == w.signed;
    assert forall k :: 0 <= k < |w.calls| ==> Outstanding(u, k) == Outstanding(w, k);
    forall k | IsSigned(w, k) ensures IsSigned(u, k) {
    }
  }

  lemma PassedSign(w: World, id: string, a0: Arbiter)
    requires Inv(w, a0) && PassedOk(w, a0) && Enabled(w, Sign(id))
    ensures PassedOk(Next(w, Sign(id)), a0)
  {
    var u, at := Next(w, Sign(id)), w.loops[id].at;
    assert GrantOk(w, a0, id) && Outstanding(w, at);
    SignOutstanding(w, id, a0);
    SignLogged(w, u, Signing(id, w.loops[id].height, at));
    forall i | 0 <= i < |u.signed| ensures SigningOk(u, a0, u.signed[i]) {
      if i < |w.signed| {
        assert SigningOk(w, a0, w.signed[i]) && u.signed[i] == w.signed[i];
      }
    }
    forall i, j | 0 <= i < j < |u.signed| ensures u.signed[i].at != u.signed[j].at {
      if j == |w.signed| {
        assert SigningOk(w, a0, w.signed[i]);
      }
    }
  }

  lemma SignOutstanding(w: World, id: string, a0: Arbiter)
    requires Inv(w, a0) && Enabled(w, Sign(id))
    ensures var u := Next(w, Sign(id));
            forall k :: 0 <= k < |w.calls| ==> (Outstanding(u, k) <==> Outstanding(w, k) && k != w.loops[id].at)
  {
    assert GrantOk(w, a0, id);
  }

  lemma SignLogged(w: World, u: World, s: Signing)
    requires u.signed == w.signed + [s]
    ensures forall k :: IsSigned(u, k) <==> IsSigned(w, k) || k == s.at
  {
    assert u.signed[|w.signed|] == s;
    forall k | IsSigned(w, k) ensures IsSigned(u, k) {
      var i :| 0 <= i < |w.signed| && w.signed[i].at == k;
      assert u.signed[i].at == k;
    }
  }

  /** A further call by a loop with nothing in flight leaves earlier grants as they were. */
  lemma PassedCall(w: World, u: World, c: Call, a0: Arbiter)
    requires Inv(w, a0) && PassedOk(w, a0) && u.calls == w.calls + [c] && c.id != "" && u.signed == w.signed
    requires c.id in w.loops && !w.loops[c.id].InFlight?
    requires c.id in u.loops && u.loops == w.loops[c.id := u.loops[c.id]]
    requires u.loops[c.id].InFlight? ==> c.AcquireCall? && u.loops[c.id] == InFlight(c.height, |w.calls|)
    requires Grants(a0, u.calls, |w.calls|) <==> u.loops[c.id].InFlight?
    ensures PassedOk(u, a0)
  {
    GrantsKept(w, c, a0);
    forall k | 0 <= k < |w.calls| ensures Outstanding(u, k) == Outstanding(w, k) {
    }
    forall i | 0 <= i < |u.signed| ensures SigningOk(u, a0, u.signed[i]) {
      assert SigningOk(w, a0, w.signed[i]);
    }
    forall k | 0 <= k < |w.calls| && IsSigned(w, k) ensures IsSigned(u, k) {
    }
  }

  lemma GrantsKept(w: World, c: Call, a0: Arbiter)
    requires LogOk(w, a0)
    ensures forall k :: 0 <= k < |w.calls| ==> Grants(a0, w.calls + [c], k) == Grants(a0, w.calls, k)
  {
    forall k | 0 <= k < |w.calls| ensures Grants(a0, w.calls + [c], k) == Grants(a0, w.calls, k) {
      Prefix(a0, w.calls, [c], k);
    }
  }

  lemma PassedStep(w: World, a: Action, a0: Arbiter)
    requires Inv(w, a0) && PassedOk(w, a0) && Enabled(w, a)
    ensures PassedOk(Next(w, a), a0)
  {
    match a
    case Sign(id) => PassedSign(w, id, a0);
    case ReportDialError(id) => PassedCall(w, Next(w, a), ReleaseCall(id), a0);
    case Disconnect(id) => PassedCall(w, Next(w, a), ReleaseCall(id), a0);
    case Receive(id, m) =>
      if m.Passthrough? {
        PassedQuiet(w, a, a0);
      } else {
        Prefix(a0, w.calls, [AcquireCall(id, m.height, w.clock)], |w.calls|);
        PassedCall(w, Next(w, a), AcquireCall(id, m.height, w.clock), a0);
      }
    case _ => PassedQuiet(w, a, a0);
  }

  lemma {:induction false} PassedRun(w: World, run: seq<Action>, a0: Arbiter)
    requires Inv(w, a0) && PassedOk(w, a0) && ValidRun(w, run)
    ensures PassedOk(Run(w, run), a0)
    decreases |run|
  {
    if run != [] {
      StepInv(w, run[0], a0);
      PassedStep(w, run[0], a0);
      PassedRun(Next(w, run[0]), run[1..], a0);
    }
  }

  /** In every interleaving, a request is passed on to the key exactly if it was granted: every
      grant is in flight or signed, never both, no grant is signed twice, and nothing is signed
      without one or for another target or height. */
  lemma GrantedAreSignedOnce(w: World, run: seq<Action>)
    requires Init(w) && ValidRun(w, run)
    ensures var v := Run(w, run);
            && (forall k :: 0 <= k < |v.calls| ==>
                  && (Grants(w.arbiter, v.calls, k) <==> Outstanding(v, k) || IsSigned(v, k))
                  && !(Outstanding(v, k) && IsSigned(v, k)))
            && (forall i, j :: 0 <= i < j < |v.signed| ==> v.signed[i].at != v.signed[j].at)
            && (forall i :: 0 <= i < |v.signed| ==>
                  && v.signed[i].at < |v.calls| && v.calls[v.signed[i].at].AcquireCall?
                  && v.calls[v.signed[i].at].id == v.signed[i].id && v.calls[v.signed[i].at].height == v.signed[i].height)
  {
    RunInv(w, run, w.arbiter);
    PassedRun(w, run, w.arbiter);
    var v := Run(w, run);
    forall k | 0 <= k < |v.calls| && Outstanding(v, k) ensures Grants(w.arbiter, v.calls, k) {
      assert GrantOk(v, w.arbiter, v.calls[k].id);
    }
    assert forall i :: 0 <= i < |v.signed| ==> SigningOk(v, w.arbiter, v.signed[i]);
  }

  /** At a fail-back to a preferred target, the granted height is at least the height of every
      vote or proposal passed on so far or still in flight in any loop. */
  lemma FailBackOvertakesNothing(w: World, run: seq<Action>, id: string, m: Message)
    requires Init(w) && ValidRun(w, run) && Enabled(Run(w, run), Receive(id, m)) && (m.SignVote? || m.SignProposal?)
    requires var v := Run(w, run); Judge(v.arbiter, id, m.height, v.clock).FailedBack?
    ensures var v := Run(w, run);
            && (forall i :: 0 <= i < |v.signed| ==> v.signed[i].height <= m.height)
            && (forall other :: other in v.loops && v.loops[other].InFlight? ==> v.loops[other].height <= m.height)
  {
    RunInv(w, run, w.arbiter);
    var v := Run(w, run);
    forall other | other in v.loops && v.loops[other].InFlight? ensures v.loops[other].height <= m.height {
      assert GrantOk(v, w.arbiter, other);
    }
  }

  /** In every interleaving the arbiter goes through one sequence of atomic calls, so what
      holds of call sequences holds here: each change of grantee is justified, and each
      justified request is granted. */
  lemma InterleavingsAreJustified(w: World, run: seq<Action>, i: nat, k: nat)
    requires Init(w) && ValidRun(w, run)
    requires var calls := Run(w, run).calls;
             && i < k < |calls| && Grants(w.arbiter, calls, i) && calls[k].AcquireCall?
             && calls[i].id != calls[k].id && forall j :: i < j < k ==> !Grants(w.arbiter, calls, j)
    ensures var calls := Run(w, run).calls;
            Grants(w.arbiter, calls, k) <==>
            || Released(calls, i, k)
            || calls[k].now - calls[i].now > w.arbiter.timeout
            || (Preferred(w.arbiter.rank, calls[k].id, calls[i].id) && CaughtUp(w.arbiter, calls, k, calls[k].height))
  {
    RunInv(w, run, w.arbiter);
    GrantIffJustified(w.arbiter, Run(w, run).calls, i, k);
  }

  lemma {:induction false} LogGrows(w: World, run: seq<Action>)
    requires ValidRun(w, run)
    ensures w.calls <= Run(w, run).calls && Run(w, run).loops.Keys == w.loops.Keys
    decreases |run|
  {
    if run != [] {
      LogGrows(Next(w, run[0]), run[1..]);
    }
  }

  /** The calls a continuation of a run makes. */
  function CallsIn(v: World, run: seq<Action>): seq<Call>
    requires ValidRun(v, run)
  {
    if |v.calls| <= |Run(v, run).calls| then Run(v, run).calls[|v.calls|..] else []
  }

  lemma StretchOf(v: World, u: World, a0: Arbiter)
    requires LogOk(v, a0) && LogOk(u, a0) && v.calls <= u.calls
    ensures var more := u.calls[|v.calls|..];
            && u.arbiter == StateAt(v.arbiter, more, |more|) && v.arbiter.rank == a0.rank && NamedIds(more)
            && forall k :: 0 <= k < |more| ==> more[k].id in u.loops
  {
    var n := |v.calls|;
    var more := u.calls[n..];
    assert u.calls == v.calls + more;
    Prefix(a0, v.calls, more, n);
    Suffix(a0, u.calls, n, |more|);
    Constants(a0, v.calls, n);
  }

  /** A continuation takes the arbiter through exactly its own calls, all by the loops. */
  lemma StretchIsCalls(w: World, before: seq<Action>, after: seq<Action>)
    requires Init(w) && ValidRun(w, before) && ValidRun(Run(w, before), after)
    ensures var v := Run(w, before);
            var more := CallsIn(v, after);
            && Run(v, after).arbiter == StateAt(v.arbiter, more, |more|) && v.arbiter.rank == w.arbiter.rank
            && NamedIds(more) && (forall k :: 0 <= k < |more| ==> more[k].id in w.loops)
  {
    var v := Run(w, before);
    RunInv(w, before, w.arbiter);
    RunInv(v, after, w.arbiter);
    LogGrows(w, before);
    LogGrows(v, after);
    StretchOf(v, Run(v, after), w.arbiter);
    assert CallsIn(v, after) == Run(v, after).calls[|v.calls|..];
  }

  /** In any stretch of any run, from whatever point it starts, that sees no effective release
      and no idle takeover, the role moves at most once per listed target, and once more only
      if it starts with nobody and elects an unlisted one. With every target listed, as the
      program sets it up, the bound needs no exception. */
  lemma NoPingPong(w: World, before: seq<Action>, after: seq<Action>)
    requires Init(w) && ValidRun(w, before) && ValidRun(Run(w, before), after)
    ensures var v := Run(w, before);
            var more := CallsIn(v, after);
            Calm(v.arbiter, more, |more|) ==>
              && Changes(v.arbiter, more, |more|) <= |w.arbiter.rank| + (if OpensUnlisted(v.arbiter, more) then 1 else 0)
              && (w.loops.Keys <= w.arbiter.rank.Keys ==> Changes(v.arbiter, more, |more|) <= |w.arbiter.rank|)
  {
    StretchIsCalls(w, before, after);
    var v := Run(w, before);
    var more := CallsIn(v, after);
    if Calm(v.arbiter, more, |more|) {
      FewChanges(v.arbiter, more);
    }
  }

  /** And in such a stretch a target that lost the role does not regain it. */
  lemma PreemptedLoopStaysOut(w: World, before: seq<Action>, after: seq<Action>, i: nat, j: nat, k: nat)
    requires Init(w) && ValidRun(w, before) && ValidRun(Run(w, before), after)
    requires i <= j <= k <= |CallsIn(Run(w, before), after)|
    ensures var v := Run(w, before);
            var more := CallsIn(v, after);
            Calm(v.arbiter, more, k) && StateAt(v.arbiter, more, i).primary != StateAt(v.arbiter, more, j).primary ==>
              StateAt(v.arbiter, more, k).primary != StateAt(v.arbiter, more, i).primary
  {
    StretchIsCalls(w, before, after);
    PreemptedStaysOut(Run(w, before).arbiter, CallsIn(Run(w, before), after), i, j, k);
  }

  /** Two requests can be in flight at once, but only because the first loop was overtaken
      while its request was outstanding: it had gone idle past the timeout, or a preferred
      target took the role back. */
  lemma InFlightTogether(w: World, run: seq<Action>, p: string, q: string) returns (j: nat)
    requires Init(w) && ValidRun(w, run)
    requires var v := Run(w, run); p in v.loops && q in v.loops && v.loops[p].InFlight? && v.loops[q].InFlight?
    requires p != q && Run(w, run).loops[p].at <= Run(w, run).loops[q].at
    ensures var v := Run(w, run);
            && v.loops[p].at < j <= v.loops[q].at < |v.calls| && v.calls[j].AcquireCall?
            && StateAt(w.arbiter, v.calls, j).primary == p
            && (VerdictAt(w.arbiter, v.calls, j).FailedOver? || VerdictAt(w.arbiter, v.calls, j).FailedBack?)
  {
    RunInv(w, run, w.arbiter);
    var v := Run(w, run);
    assert GrantOk(v, w.arbiter, p) && GrantOk(v, w.arbiter, q);
    j := Overtaken(w.arbiter, v.calls, v.loops[p].at, v.loops[q].at);
  }

  /** And exactly when: while p has a request in flight, a sign request of another target q
      leaves both in flight if and only if the last grant, call i, was q's own, or its target
      was released since, or has been idle past the timeout, or q is preferred to it and has
      caught up with every grant. */
  lemma InFlightTogetherIff(w: World, run: seq<Action>, p: string, q: string, m: Message) returns (i: nat)
    requires Init(w) && ValidRun(w, run) && Enabled(Run(w, run), Receive(q, m)) && (m.SignVote? || m.SignProposal?)
    requires var v := Run(w, run); p in v.loops && v.loops[p].InFlight?
    ensures var v, height := Run(w, run), m.height;
            var u, calls := Next(v, Receive(q, m)), v.calls;
            && v.loops[p].at <= i < |calls| && Grants(w.arbiter, calls, i)
            && (forall j :: i < j < |calls| ==> !Grants(w.arbiter, calls, j))
            && (u.loops[p].InFlight? && u.loops[q].InFlight? <==>
                || q == calls[i].id
                || Released(calls, i, |calls|)
                || v.clock - calls[i].now > w.arbiter.timeout
                || (Preferred(w.arbiter.rank, q, calls[i].id) && CaughtUp(w.arbiter, calls, |calls|, height)))
  {
    RunInv(w, run, w.arbiter);
    var v := Run(w, run);
    assert GrantOk(v, w.arbiter, p);
    i := LastGrant(w.arbiter, v.calls, v.loops[p].at, |v.calls|);
    NextGrantIff(w.arbiter, v.calls, i, |v.calls|, q, m.height, v.clock);
  }

  lemma Then(w: World, a: Action, rest: seq<Action>)
    requires Enabled(w, a) && ValidRun(Next(w, a), rest)
    ensures ValidRun(w, [a] + rest) && Run(w, [a] + rest) == Run(Next(w, a), rest)
  {
    assert ([a] + rest)[1..] == rest;
  }

  /** That does happen, so the gate alone does not serialise signing: the standby's request is
      granted while the idle primary's is still outstanding. */
  lemma TwoCanBeInFlight() returns (w: World, run: seq<Action>)
    ensures Init(w) && ValidRun(w, run)
    ensures var v := Run(w, run); "a" in v.loops && "b" in v.loops && v.loops["a"].InFlight? && v.loops["b"].InFlight?
  {
    w := World(0, Arbiter(60, map[], "", 0, 0), map["a" := Dialing, "b" := Dialing], [], []);
    assert "a"[0] != "b"[0];
    var a0, a1, a2, a3, a4 := DialOk("a"), DialOk("b"), Receive("a", SignVote(1)), Tick(61), Receive("b", SignVote(2));
    var w1 := Next(w, a0);
    var w2 := Next(w1, a1);
    var w3 := Next(w2, a2);
    assert w3.arbiter == Arbiter(60, map[], "a", 0, 1);
    var w4 := Next(w3, a3);
    Then(w4, a4, []);
    Then(w3, a3, [a4] + []);
    Then(w2, a2, [a3] + ([a4] + []));
    Then(w1, a1, [a2] + ([a3] + ([a4] + [])));
    Then(w, a0, [a1] + ([a2] + ([a3] + ([a4] + []))));
    run := [a0] + ([a1] + ([a2] + ([a3] + ([a4] + []))));
  }
}
