/**
 The arbiter of active-passive signing: which dial target's vote and proposal requests are
 signed. Times and timeouts are integers of one unit; "" stands for no primary.
 */
module PrimaryArbiter {

  datatype Arbiter = Arbiter(timeout: int, rank: map<string, nat>, primary: string, lastReq: int, maxHeight: int) {
    /** Is id preferred over the current primary? */
    predicate Outranks(id: string) {
      id in rank && (primary in rank ==> rank[id] < rank[primary])
    }
  }

  datatype Verdict = Renewed | Elected | FailedOver | Deferred | FailedBack | Refused {
    predicate Granted() { Renewed? || Elected? || FailedOver? || FailedBack? }
  }

  /** Which case of Acquire a request falls under. */
  function Judge(a: Arbiter, id: string, height: int, now: int): Verdict {
    if a.primary == id then Renewed
    else if a.primary == "" then Elected
    else if now - a.lastReq > a.timeout then FailedOver
    else if a.Outranks(id) then if height < a.maxHeight then Deferred else FailedBack
    else Refused
  }

  function Max(x: int, y: int): int { if x < y then y else x }

  function AfterAcquire(a: Arbiter, id: string, height: int, now: int): Arbiter {
    if Judge(a, id, height, now).Granted() then
      a.(primary := id, lastReq := now, maxHeight := Max(a.maxHeight, height))
    else a
  }

  /** The zero time is a reading before every clock; no case looks at it while there is no
      primary. */
  function AfterRelease(a: Arbiter, id: string): Arbiter {
    if a.primary == id then a.(primary := "", lastReq := 0) else a
  }

  // ------------------------------------------------------------------------ the object

  class PrimaryArbiter {
    const timeout: int
    const rank: map<string, nat>
    var primary: string
    var lastReq: int
    var maxHeight: int

    ghost function State(): Arbiter
      reads this
    {
      Arbiter(timeout, rank, primary, lastReq, maxHeight)
    }

    /** The first position of an id in the preference list is its rank. */
    constructor (timeout: int, preferOrder: seq<string>)
      requires timeout > 0
      ensures State() == Arbiter(timeout, rank, "", 0, 0)
      ensures RanksFirst(rank, preferOrder)
    {
      var ranks: map<string, nat> := map[];
      var i := 0;
      while i < |preferOrder|
        invariant 0 <= i <= |preferOrder|
        invariant RanksFirst(ranks, preferOrder[..i])
      {
        assert preferOrder[..i + 1] == preferOrder[..i] + [preferOrder[i]];
        if preferOrder[i] !in ranks {
          ranks := ranks[preferOrder[i] := i];
        }
        i := i + 1;
      }
      assert preferOrder[..i] == preferOrder;
      this.timeout, rank := timeout, ranks;
      primary, lastReq, maxHeight := "", 0, 0;
    }

    predicate Outranks(id: string)
      reads this
    {
      if |rank| == 0 then false
      else if id !in rank then false
      else if primary !in rank then true
      else rank[id] < rank[primary]
    }

    method Grant(height: int)
      modifies this`maxHeight
      ensures maxHeight == Max(old(maxHeight), height)
    {
      if height > maxHeight {
        maxHeight := height;
      }
    }

    method Acquire(id: string, height: int, now: int) returns (granted: bool)
      modifies this
      ensures State() == AfterAcquire(old(State()), id, height, now)
      ensures granted <==> Judge(old(State()), id, height, now).Granted()
    {
      granted := true;
      if primary == id {
        lastReq := now;
        Grant(height);
      } else if primary == "" {
        primary, lastReq := id, now;
        Grant(height);
      } else if now - lastReq > timeout {
        primary, lastReq := id, now;
        Grant(height);
      } else if Outranks(id) && height < maxHeight {
        granted := false;
      } else if Outranks(id) {
        primary, lastReq := id, now;
        Grant(height);
      } else {
        granted := false;
      }
    }

    method Release(id: string) returns (released: bool)
      modifies this
      ensures State() == AfterRelease(old(State()), id) && (released <==> old(primary) == id)
    {
      released := primary == id;
      if released {
        primary, lastReq := "", 0;
      }
    }
  }

  // ------------------------------------------------------------------ the preference

  predicate FirstAt(order: seq<string>, i: nat) {
    i < |order| && forall j :: 0 <= j < i ==> order[j] != order[i]
  }

  /** The ranks are the first positions, whatever duplicates the list has. */
  ghost predicate RanksFirst(rank: map<string, nat>, order: seq<string>) {
    && (forall id :: id in order <==> id in rank)
    && (forall id :: id in rank ==> FirstAt(order, rank[id]) && order[rank[id]] == id)
  }

  /** Distinct ids have distinct ranks. */
  ghost predicate Injective(rank: map<string, nat>) {
    forall x, y :: x in rank && y in rank && rank[x] == rank[y] ==> x == y
  }

  lemma RanksAreDistinct(rank: map<string, nat>, order: seq<string>)
    requires RanksFirst(rank, order)
    ensures Injective(rank) && rank.Keys == set id | id in order
  {
  }

  /** q is preferred to p. */
  predicate Preferred(rank: map<string, nat>, q: string, p: string) {
    q in rank && (p in rank ==> rank[q] < rank[p])
  }

  /** The preference is a strict order. */
  lemma PreferenceIsStrict(rank: map<string, nat>, p: string, q: string, r: string)
    ensures !Preferred(rank, p, p)
    ensures Preferred(rank, p, q) && Preferred(rank, q, r) ==> Preferred(rank, p, r)
    ensures Injective(rank) && p in rank && q in rank && p != q ==> Preferred(rank, p, q) || Preferred(rank, q, p)
  {
  }

  // --------------------------------------------------------------- sequences of calls

  datatype Call = AcquireCall(id: string, height: int, now: int) | ReleaseCall(id: string)

  function Apply(a: Arbiter, c: Call): Arbiter {
    match c
    case AcquireCall(id, height, now) => AfterAcquire(a, id, height, now)
    case ReleaseCall(id) => AfterRelease(a, id)
  }

  /** The state before call k. */
  function StateAt(a: Arbiter, calls: seq<Call>, k: nat): Arbiter
    requires k <= |calls|
  {
    if k == 0 then a else Apply(StateAt(a, calls, k - 1), calls[k - 1])
  }

  predicate Grants(a: Arbiter, calls: seq<Call>, k: nat)
    requires k < |calls|
  {
    calls[k].AcquireCall? && Judge(StateAt(a, calls, k), calls[k].id, calls[k].height, calls[k].now).Granted()
  }

  function VerdictAt(a: Arbiter, calls: seq<Call>, k: nat): Verdict
    requires k < |calls| && calls[k].AcquireCall?
  {
    Judge(StateAt(a, calls, k), calls[k].id, calls[k].height, calls[k].now)
  }

  predicate NamedIds(calls: seq<Call>) {
    forall k :: 0 <= k < |calls| ==> calls[k].id != ""
  }

  lemma {:induction false} Constants(a: Arbiter, calls: seq<Call>, k: nat)
    requires k <= |calls|
    ensures StateAt(a, calls, k).rank == a.rank && StateAt(a, calls, k).timeout == a.timeout
  {
    if k > 0 {
      Constants(a, calls, k - 1);
    }
  }

  /** The height mark is at least every height granted so far. */
  lemma {:induction false} MarkCoversGrants(a: Arbiter, calls: seq<Call>, k: nat)
    requires k <= |calls|
    ensures a.maxHeight <= StateAt(a, calls, k).maxHeight
    ensures forall i :: 0 <= i < k && Grants(a, calls, i) ==> calls[i].height <= StateAt(a, calls, k).maxHeight
  {
    if k > 0 {
      MarkCoversGrants(a, calls, k - 1);
      var s, t := StateAt(a, calls, k - 1), StateAt(a, calls, k);
      assert s.maxHeight <= t.maxHeight && (Grants(a, calls, k - 1) ==> calls[k - 1].height <= t.maxHeight);
    }
  }

  /** A fail-back is granted only at a height no earlier grant exceeds. */
  lemma FailBackHasCaughtUp(a: Arbiter, calls: seq<Call>, k: nat, i: nat)
    requires i < k < |calls| && calls[k].AcquireCall? && VerdictAt(a, calls, k).FailedBack? && Grants(a, calls, i)
    ensures calls[i].height <= calls[k].height
  {
    MarkCoversGrants(a, calls, k);
  }

  /** After the last grant, and until the grantee is released, it is the primary and the idle
      timer runs from that grant. */
  lemma {:induction false} GranteeStays(a: Arbiter, calls: seq<Call>, i: nat, k: nat)
    requires i < k <= |calls| && Grants(a, calls, i)
    requires forall j :: i < j < k ==> !Grants(a, calls, j)
    requires forall j :: i < j < k ==> calls[j] != ReleaseCall(calls[i].id)
    ensures StateAt(a, calls, k).primary == calls[i].id && StateAt(a, calls, k).lastReq == calls[i].now
    decreases k
  {
    if k > i + 1 {
      GranteeStays(a, calls, i, k - 1);
      var c := calls[k - 1];
      assert !Grants(a, calls, k - 1) && c != ReleaseCall(calls[i].id);
      assert c.ReleaseCall? ==> c == ReleaseCall(c.id);
    }
  }

  /** Once the grantee is released, nobody holds the role until the next grant. */
  lemma {:induction false} ReleasedStaysFree(a: Arbiter, calls: seq<Call>, i: nat, j: nat, k: nat)
    requires i < j < k <= |calls| && Grants(a, calls, i) && NamedIds(calls)
    requires forall m :: i < m < k ==> !Grants(a, calls, m)
    requires calls[j] == ReleaseCall(calls[i].id)
    ensures StateAt(a, calls, k).primary == ""
    decreases k
  {
    if k > j + 1 {
      ReleasedStaysFree(a, calls, i, j, k - 1);
      assert !Grants(a, calls, k - 1);
    } else {
      FreeOrHeld(a, calls, i, j);
    }
  }

  lemma {:induction false} FreeOrHeld(a: Arbiter, calls: seq<Call>, i: nat, k: nat)
    requires i < k <= |calls| && Grants(a, calls, i)
    requires forall m :: i < m < k ==> !Grants(a, calls, m)
    ensures StateAt(a, calls, k).primary == calls[i].id || StateAt(a, calls, k).primary == ""
    decreases k
  {
    if k > i + 1 {
      FreeOrHeld(a, calls, i, k - 1);
      assert !Grants(a, calls, k - 1);
    }
  }

  /** The height mark is no higher than it has to be. */
  lemma {:induction false} MarkIsReached(a: Arbiter, calls: seq<Call>, k: nat, bound: int)
    requires k <= |calls| && a.maxHeight <= bound
    requires forall i :: 0 <= i < k && Grants(a, calls, i) ==> calls[i].height <= bound
    ensures StateAt(a, calls, k).maxHeight <= bound
  {
    if k > 0 {
      MarkIsReached(a, calls, k - 1, bound);
      assert Grants(a, calls, k - 1) ==> calls[k - 1].height <= bound;
    }
  }

  /** p was granted at i and released before k. */
  ghost predicate Released(calls: seq<Call>, i: nat, k: nat)
    requires i < k <= |calls|
  {
    exists j :: i < j < k && calls[j] == ReleaseCall(calls[i].id)
  }

  /** No grant before k, and no initial mark, exceeds the height. */
  ghost predicate CaughtUp(a: Arbiter, calls: seq<Call>, k: nat, height: int)
    requires k <= |calls|
  {
    a.maxHeight <= height && forall j :: 0 <= j < k && Grants(a, calls, j) ==> calls[j].height <= height
  }

  /** After the last grant before k, to calls[i].id, exactly these requests would be granted. */
  lemma NextGrantIff(a: Arbiter, calls: seq<Call>, i: nat, k: nat, id: string, height: int, now: int)
    requires i < k <= |calls| && Grants(a, calls, i) && NamedIds(calls)
    requires forall j :: i < j < k ==> !Grants(a, calls, j)
    ensures Judge(StateAt(a, calls, k), id, height, now).Granted() <==>
            || id == calls[i].id
            || Released(calls, i, k)
            || now - calls[i].now > a.timeout
            || (Preferred(a.rank, id, calls[i].id) && CaughtUp(a, calls, k, height))
  {
    Constants(a, calls, k);
    if Released(calls, i, k) {
      var j :| i < j < k && calls[j] == ReleaseCall(calls[i].id);
      ReleasedStaysFree(a, calls, i, j, k);
    } else {
      GranteeStays(a, calls, i, k);
      MarkCoversGrants(a, calls, k);
      if CaughtUp(a, calls, k, height) {
        MarkIsReached(a, calls, k, height);
      }
    }
  }

  /** Where there was a grant, there is a last one. */
  lemma {:induction false} LastGrant(a: Arbiter, calls: seq<Call>, j: nat, k: nat) returns (i: nat)
    requires j < k <= |calls| && Grants(a, calls, j)
    ensures j <= i < k && Grants(a, calls, i) && forall m :: i < m < k ==> !Grants(a, calls, m)
    decreases k
  {
    if Grants(a, calls, k - 1) {
      i := k - 1;
    } else {
      i := LastGrant(a, calls, j, k - 1);
    }
  }

  /** Without a grant nobody holds the role. */
  lemma {:induction false} NobodyGranted(a: Arbiter, calls: seq<Call>, k: nat)
    requires k <= |calls| && a.primary == "" && NamedIds(calls)
    requires forall j :: 0 <= j < k ==> !Grants(a, calls, j)
    ensures StateAt(a, calls, k).primary == ""
  {
    if k > 0 {
      NobodyGranted(a, calls, k - 1);
      assert !Grants(a, calls, k - 1);
    }
  }

  /** Call i is the last grant of `calls`. */
  ghost predicate IsLastGrant(a: Arbiter, calls: seq<Call>, i: nat) {
    i < |calls| && Grants(a, calls, i) && forall j :: i < j < |calls| ==> !Grants(a, calls, j)
  }

  /** A request of id after `calls`: nobody was ever granted, or the last grant was id's own, or
      its target was released since, or is idle past the timeout, or id is preferred to it and
      has caught up with every grant. */
  ghost predicate Justified(a: Arbiter, calls: seq<Call>, id: string, height: int, now: int) {
    || (forall j :: 0 <= j < |calls| ==> !Grants(a, calls, j))
    || exists i: nat :: IsLastGrant(a, calls, i)
                   && (|| id == calls[i].id
                       || Released(calls, i, |calls|)
                       || now - calls[i].now > a.timeout
                       || (Preferred(a.rank, id, calls[i].id) && CaughtUp(a, calls, |calls|, height)))
  }

  /** From an arbiter nobody has been elected by, exactly the justified requests are granted. */
  lemma GrantedIffJustified(a: Arbiter, calls: seq<Call>, id: string, height: int, now: int)
    requires a.primary == "" && NamedIds(calls)
    ensures Judge(StateAt(a, calls, |calls|), id, height, now).Granted() <==> Justified(a, calls, id, height, now)
  {
    if forall j :: 0 <= j < |calls| ==> !Grants(a, calls, j) {
      NobodyGranted(a, calls, |calls|);
    } else {
      var j :| 0 <= j < |calls| && Grants(a, calls, j);
      var i := LastGrant(a, calls, j, |calls|);
      NextGrantIff(a, calls, i, |calls|, id, height, now);
      assert IsLastGrant(a, calls, i);
      assert forall m :: IsLastGrant(a, calls, m) ==> m == i;
    }
  }

  /** Every change of grantee is justified, and every justified request is granted. After a
      grant to p, the next request, from another target q, is granted exactly when p was
      released, or p has been idle longer than the timeout, or q is preferred to p and asks at
      a height no earlier grant exceeds. */
  lemma GrantIffJustified(a: Arbiter, calls: seq<Call>, i: nat, k: nat)
    requires i < k < |calls| && Grants(a, calls, i) && calls[k].AcquireCall? && NamedIds(calls)
    requires forall j :: i < j < k ==> !Grants(a, calls, j)
    requires calls[i].id != calls[k].id
    ensures Grants(a, calls, k) <==>
            || Released(calls, i, k)
            || calls[k].now - calls[i].now > a.timeout
            || (Preferred(a.rank, calls[k].id, calls[i].id) && CaughtUp(a, calls, k, calls[k].height))
  {
    NextGrantIff(a, calls, i, k, calls[k].id, calls[k].height, calls[k].now);
  }

  // ------------------------------------------------------------------- no ping-pong

  /** The ids listed ahead of id. */
  function Ahead(rank: map<string, nat>, id: string): set<string> {
    set x | x in rank && Preferred(rank, x, id)
  }

  /** How many more times the role could move by election and preference alone. */
  function Score(rank: map<string, nat>, id: string): nat {
    if id == "" then |rank| + 1 else |Ahead(rank, id)|
  }

  /** Call j is neither a release that takes effect nor a takeover from an idle primary. */
  predicate CalmAt(a: Arbiter, calls: seq<Call>, j: nat)
    requires j < |calls|
  {
    if calls[j].ReleaseCall? then StateAt(a, calls, j).primary != calls[j].id
    else !VerdictAt(a, calls, j).FailedOver?
  }

  predicate Calm(a: Arbiter, calls: seq<Call>, k: nat)
    requires k <= |calls|
  {
    forall j :: 0 <= j < k ==> CalmAt(a, calls, j)
  }

  /** Call k changes the primary. */
  predicate Moves(a: Arbiter, calls: seq<Call>, k: nat)
    requires k < |calls|
  {
    StateAt(a, calls, k).primary != StateAt(a, calls, k + 1).primary
  }

  /** The number of times the primary changed before call k. */
  function Changes(a: Arbiter, calls: seq<Call>, k: nat): nat
    requires k <= |calls|
  {
    if k == 0 then 0 else Changes(a, calls, k - 1) + if Moves(a, calls, k - 1) then 1 else 0
  }

  lemma AheadBound(rank: map<string, nat>, id: string)
    ensures |Ahead(rank, id)| <= |rank|
  {
    SubsetSize(Ahead(rank, id), rank.Keys);
  }

  lemma {:induction false} SubsetSize(s: set<string>, t: set<string>)
    requires s <= t
    ensures |s| <= |t|
    ensures s != t ==> |s| < |t|
  {
    if s != {} {
      var x :| x in s;
      SubsetSize(s - {x}, t - {x});
    } else if t != {} {
      var x :| x in t;
      assert |t| == |t - {x}| + 1;
    }
  }

  /** Moving to a preferred id, or from none to any, lowers the score. */
  lemma ScoreDrops(rank: map<string, nat>, q: string, p: string)
    requires q != "" && (p == "" || Preferred(rank, q, p))
    ensures Score(rank, q) < Score(rank, p)
  {
    if p == "" {
      AheadBound(rank, q);
    } else {
      assert q in Ahead(rank, p) && q !in Ahead(rank, q);
      SubsetSize(Ahead(rank, q), Ahead(rank, p));
    }
  }

  function ScoreAt(a: Arbiter, calls: seq<Call>, k: nat): nat
    requires k <= |calls|
  {
    Score(a.rank, StateAt(a, calls, k).primary)
  }

  /** Changes so far plus changes still possible. */
  function Budget(a: Arbiter, calls: seq<Call>, k: nat): nat
    requires k <= |calls|
  {
    Changes(a, calls, k) + ScoreAt(a, calls, k)
  }

  /** Calm calls never raise the budget: every change is paid for by the score. */
  lemma CalmStep(a: Arbiter, calls: seq<Call>, k: nat, i: nat)
    requires i < k <= |calls| && NamedIds(calls) && Calm(a, calls, k)
    ensures Budget(a, calls, i + 1) <= Budget(a, calls, i)
  {
    assert CalmAt(a, calls, i);
    Constants(a, calls, i);
    if Moves(a, calls, i) {
      ScoreDrops(a.rank, StateAt(a, calls, i + 1).primary, StateAt(a, calls, i).primary);
    }
  }

  lemma {:induction false} Descends(s: seq<int>, j: nat, k: nat)
    requires j <= k < |s| && forall i :: 0 <= i < k ==> s[i + 1] <= s[i]
    ensures s[k] <= s[j]
    decreases k
  {
    if j < k {
      Descends(s, j, k - 1);
      assert s[k - 1 + 1] <= s[k - 1];
    }
  }

  lemma ChangesArePaid(a: Arbiter, calls: seq<Call>, j: nat, k: nat)
    requires j <= k <= |calls| && NamedIds(calls) && Calm(a, calls, k)
    ensures Budget(a, calls, k) <= Budget(a, calls, j)
  {
    var s := seq(k + 1, i requires 0 <= i <= k => Budget(a, calls, i));
    forall i | 0 <= i < k ensures s[i + 1] <= s[i] {
      CalmStep(a, calls, k, i);
    }
    Descends(s, j, k);
  }

  /** The position of the first request, or the length if there is none. */
  function FirstRequest(calls: seq<Call>): (f: nat)
    ensures f <= |calls| && (f < |calls| ==> calls[f].AcquireCall?)
    ensures forall j :: 0 <= j < f ==> calls[j].ReleaseCall?
  {
    if calls == [] || calls[0].AcquireCall? then 0 else 1 + FirstRequest(calls[1..])
  }

  /** Nobody holds the role, and the first to ask for it, who will be elected, is unlisted. */
  predicate OpensUnlisted(a: Arbiter, calls: seq<Call>) {
    a.primary == "" && FirstRequest(calls) < |calls| && calls[FirstRequest(calls)].id !in a.rank
  }

  /** While nobody holds the role, releases do nothing. */
  lemma {:induction false} ReleasesOfNobody(a: Arbiter, calls: seq<Call>, k: nat)
    requires k <= |calls| && a.primary == "" && NamedIds(calls)
    requires forall j :: 0 <= j < k ==> calls[j].ReleaseCall?
    ensures StateAt(a, calls, k) == a && Changes(a, calls, k) == 0
  {
    if k > 0 {
      ReleasesOfNobody(a, calls, k - 1);
      assert calls[k - 1].ReleaseCall? && calls[k - 1].id != "";
    }
  }

  /** Fewer ids are ahead of a listed one than are listed. */
  lemma ListedScore(rank: map<string, nat>, id: string)
    requires id in rank
    ensures |Ahead(rank, id)| < |rank|
  {
    assert id in rank.Keys && id !in Ahead(rank, id);
    SubsetSize(Ahead(rank, id), rank.Keys);
  }

  /** No ping-pong: without a release or an idle takeover the role moves at most once per
      distinct listed id. Only if nobody holds it and an unlisted id is elected first is there
      one change more. */
  lemma FewChanges(a: Arbiter, calls: seq<Call>)
    requires NamedIds(calls) && Calm(a, calls, |calls|)
    ensures Changes(a, calls, |calls|) <= |a.rank| + if OpensUnlisted(a, calls) then 1 else 0
  {
    var f := FirstRequest(calls);
    ChangesArePaid(a, calls, 0, |calls|);
    AheadBound(a.rank, a.primary);
    if a.primary == "" {
      ReleasesOfNobody(a, calls, f);
      if f < |calls| && calls[f].id in a.rank {
        ListedScore(a.rank, calls[f].id);
        assert StateAt(a, calls, f + 1).primary == calls[f].id;
        assert Changes(a, calls, f + 1) == 1;
        ChangesArePaid(a, calls, f + 1, |calls|);
      }
    }
  }

  // ------------------------------------------------ the bound is reached, so it is exact

  lemma {:induction false} LastRanked(rank: map<string, nat>, ids: set<string>) returns (t: string)
    requires ids != {} && ids <= rank.Keys
    ensures t in ids && forall x :: x in ids ==> rank[x] <= rank[t]
    decreases |ids|
  {
    t :| t in ids;
    if ids != {t} {
      var u := LastRanked(rank, ids - {t});
      if rank[u] > rank[t] {
        t := u;
      }
    }
  }

  /** Counting changes over a sequence that begins with one call. */
  lemma {:induction false} ChangesCons(a: Arbiter, c: Call, rest: seq<Call>, k: nat)
    requires k <= |rest|
    ensures Changes(a, [c] + rest, k + 1)
            == (if Apply(a, c).primary != a.primary then 1 else 0) + Changes(Apply(a, c), rest, k)
  {
    StateCons(a, c, rest, k);
    if k > 0 {
      ChangesCons(a, c, rest, k - 1);
      StateCons(a, c, rest, k - 1);
      assert Moves(a, [c] + rest, k) == Moves(Apply(a, c), rest, k - 1);
    } else {
      assert Changes(a, [c] + rest, 0) == 0 && StateAt(a, [c] + rest, 0) == a;
    }
  }

  lemma StateCons(a: Arbiter, c: Call, rest: seq<Call>, k: nat)
    requires k <= |rest|
    ensures StateAt(a, [c] + rest, k + 1) == StateAt(Apply(a, c), rest, k)
  {
    Suffix(a, [c] + rest, 1, k);
    assert ([c] + rest)[1..] == rest;
    assert StateAt(a, [c] + rest, 0) == a;
  }

  lemma CalmCons(a: Arbiter, c: Call, rest: seq<Call>)
    requires CalmAt(a, [c], 0) && Calm(Apply(a, c), rest, |rest|)
    ensures Calm(a, [c] + rest, |rest| + 1)
  {
    var calls := [c] + rest;
    forall j | 0 <= j < |rest| + 1 ensures CalmAt(a, calls, j) {
      if j > 0 {
        StateCons(a, c, rest, j - 1);
        assert CalmAt(Apply(a, c), rest, j - 1) && calls[j] == rest[j - 1];
      }
    }
  }

  /** The last ranked of `ids` fails back, and the others are still preferred to it. */
  lemma ClimbStep(a: Arbiter, ids: set<string>, t: string)
    requires Injective(a.rank) && ids <= a.rank.Keys && t in ids && t != ""
    requires a.primary != "" && a.timeout >= 0 && a.lastReq == 0 && Preferred(a.rank, t, a.primary)
    requires forall x :: x in ids ==> a.rank[x] <= a.rank[t]
    ensures var c := AcquireCall(t, a.maxHeight, 0);
            && Apply(a, c) == a.(primary := t) && a.primary != t && CalmAt(a, [c], 0)
            && forall x :: x in ids - {t} ==> Preferred(a.rank, x, t)
  {
    assert Judge(a, t, a.maxHeight, 0).FailedBack?;
    assert StateAt(a, [AcquireCall(t, a.maxHeight, 0)], 0) == a;
  }

  /** The requests of `ids`, from the last ranked to the first, each fail back in turn. */
  lemma {:induction false} Climb(a: Arbiter, ids: set<string>) returns (calls: seq<Call>)
    requires Injective(a.rank) && ids <= a.rank.Keys && "" !in ids
    requires a.primary != "" && a.timeout >= 0 && a.lastReq == 0
    requires forall x :: x in ids ==> Preferred(a.rank, x, a.primary)
    ensures NamedIds(calls) && Calm(a, calls, |calls|) && Changes(a, calls, |calls|) == |ids|
    ensures forall k :: 0 <= k < |calls| ==> calls[k].AcquireCall? && calls[k].id in ids
    decreases |ids|
  {
    calls := [];
    if ids != {} {
      var t := LastRanked(a.rank, ids);
      var c := AcquireCall(t, a.maxHeight, 0);
      ClimbStep(a, ids, t);
      var rest := Climb(Apply(a, c), ids - {t});
      calls := [c] + rest;
      ChangesCons(a, c, rest, |rest|);
      CalmCons(a, c, rest);
    }
  }

  /** For every preference list, and every unlisted id that is the first to ask while nobody
      holds the role, there is a calm sequence with one change more than ids are listed. */
  lemma OneMoreIsReached(a: Arbiter, unlisted: string) returns (calls: seq<Call>)
    requires Injective(a.rank) && "" !in a.rank && a.timeout >= 0
    requires a.primary == "" && unlisted != "" && unlisted !in a.rank
    ensures NamedIds(calls) && Calm(a, calls, |calls|) && Changes(a, calls, |calls|) == |a.rank| + 1
    ensures OpensUnlisted(a, calls)
    ensures forall k :: 0 <= k < |calls| ==> calls[k].AcquireCall? && (calls[k].id == unlisted || calls[k].id in a.rank)
  {
    var c := AcquireCall(unlisted, a.maxHeight, 0);
    var rest := Climb(Apply(a, c), a.rank.Keys);
    calls := [c] + rest;
    ChangesCons(a, c, rest, |rest|);
    CalmCons(a, c, rest);
  }

  /** Only these ids ask for the role. */
  predicate Among(calls: seq<Call>, ids: set<string>) {
    forall k :: 0 <= k < |calls| && calls[k].AcquireCall? ==> calls[k].id in ids
  }

  /** Every calm sequence of requests from `ids` stays within the number of listed ids. */
  ghost predicate AlwaysFew(a: Arbiter, ids: set<string>) {
    forall calls: seq<Call> :: NamedIds(calls) && Among(calls, ids) && Calm(a, calls, |calls|) ==>
      Changes(a, calls, |calls|) <= |a.rank|
  }

  /** The list without the ids that never ask. */
  function Within(rank: map<string, nat>, ids: set<string>): map<string, nat> {
    map x | x in rank && x in ids :: rank[x]
  }

  /** While the role is free or held by one of `ids`, their calls cannot tell the lists apart. */
  lemma SameCall(a: Arbiter, ids: set<string>, c: Call)
    requires (a.primary == "" || a.primary in ids) && (c.AcquireCall? ==> c.id in ids)
    ensures var b := a.(rank := Within(a.rank, ids));
            && (c.AcquireCall? ==> Judge(b, c.id, c.height, c.now) == Judge(a, c.id, c.height, c.now))
            && Apply(b, c) == Apply(a, c).(rank := b.rank)
            && (Apply(a, c).primary == "" || Apply(a, c).primary in ids) && Apply(a, c).rank == a.rank
  {
  }

  lemma {:induction false} SameCalls(a: Arbiter, ids: set<string>, calls: seq<Call>, k: nat)
    requires k <= |calls| && Among(calls, ids) && a.primary == ""
    ensures var b, s := a.(rank := Within(a.rank, ids)), StateAt(a, calls, k);
            && StateAt(b, calls, k) == s.(rank := b.rank) && s.rank == a.rank && (s.primary == "" || s.primary in ids)
            && Changes(b, calls, k) == Changes(a, calls, k)
  {
    if k > 0 {
      SameCalls(a, ids, calls, k - 1);
      SameCall(StateAt(a, calls, k - 1), ids, calls[k - 1]);
    }
  }

  lemma SameCalm(a: Arbiter, ids: set<string>, calls: seq<Call>)
    requires Among(calls, ids) && a.primary == "" && Calm(a, calls, |calls|)
    ensures Calm(a.(rank := Within(a.rank, ids)), calls, |calls|)
  {
    var b := a.(rank := Within(a.rank, ids));
    forall j | 0 <= j < |calls| ensures CalmAt(b, calls, j) {
      SameCalls(a, ids, calls, j);
      SameCall(StateAt(a, calls, j), ids, calls[j]);
      assert CalmAt(a, calls, j);
    }
  }

  /** A listed id that never asks makes up for the one change more. */
  lemma SilentPays(a: Arbiter, ids: set<string>, calls: seq<Call>)
    requires NamedIds(calls) && Among(calls, ids) && Calm(a, calls, |calls|)
    requires a.primary == "" && !(a.rank.Keys <= ids)
    ensures Changes(a, calls, |calls|) <= |a.rank|
  {
    var b := a.(rank := Within(a.rank, ids));
    var x :| x in a.rank && x !in ids;
    SameCalm(a, ids, calls);
    SameCalls(a, ids, calls, |calls|);
    FewChanges(b, calls);
    SubsetSize(b.rank.Keys + {x}, a.rank.Keys);
  }

  /** The exact condition, known before any call: the bound holds if and only if somebody holds
      the role, or nobody unlisted ever asks, or some listed id never does. */
  lemma FewChangesIff(a: Arbiter, ids: set<string>)
    requires Injective(a.rank) && a.timeout >= 0 && "" !in ids
    ensures AlwaysFew(a, ids) <==> a.primary != "" || ids <= a.rank.Keys || !(a.rank.Keys <= ids)
  {
    if a.primary != "" || ids <= a.rank.Keys || !(a.rank.Keys <= ids) {
      forall calls: seq<Call> | NamedIds(calls) && Among(calls, ids) && Calm(a, calls, |calls|)
        ensures Changes(a, calls, |calls|) <= |a.rank|
      {
        if a.primary == "" && !(a.rank.Keys <= ids) {
          SilentPays(a, ids, calls);
        } else {
          FewChanges(a, calls);
        }
      }
    } else {
      var u :| u in ids && u !in a.rank;
      var calls := OneMoreIsReached(a, u);
      assert NamedIds(calls) && Among(calls, ids) && Calm(a, calls, |calls|);
    }
  }

  lemma {:induction false} NoChangeNoMove(a: Arbiter, calls: seq<Call>, j: nat, k: nat)
    requires j <= k <= |calls| && Changes(a, calls, j) == Changes(a, calls, k)
    ensures StateAt(a, calls, j).primary == StateAt(a, calls, k).primary
    decreases k
  {
    if j < k {
      ChangesGrow(a, calls, j, k - 1);
      NoChangeNoMove(a, calls, j, k - 1);
    }
  }

  lemma {:induction false} ChangesGrow(a: Arbiter, calls: seq<Call>, j: nat, k: nat)
    requires j <= k <= |calls|
    ensures Changes(a, calls, j) <= Changes(a, calls, k)
    decreases k
  {
    if j < k {
      ChangesGrow(a, calls, j, k - 1);
    }
  }

  /** And an id that lost the role does not regain it. */
  lemma PreemptedStaysOut(a: Arbiter, calls: seq<Call>, i: nat, j: nat, k: nat)
    requires i <= j <= k <= |calls| && NamedIds(calls)
    ensures Calm(a, calls, k) && StateAt(a, calls, i).primary != StateAt(a, calls, j).primary ==>
              StateAt(a, calls, k).primary != StateAt(a, calls, i).primary
  {
    if Calm(a, calls, k) && StateAt(a, calls, i).primary != StateAt(a, calls, j).primary {
      CalmPrefix(a, calls, j, k);
      ChangesArePaid(a, calls, i, j);
      ChangesArePaid(a, calls, j, k);
      ChangesGrow(a, calls, i, j);
      ChangesGrow(a, calls, j, k);
      if Changes(a, calls, i) == Changes(a, calls, j) {
        NoChangeNoMove(a, calls, i, j);
      }
    }
  }

  lemma CalmPrefix(a: Arbiter, calls: seq<Call>, j: nat, k: nat)
    requires j <= k <= |calls| && Calm(a, calls, k)
    ensures Calm(a, calls, j)
  {
  }

  // ------------------------------------------------------------------- growing logs

  /** What happened before call k does not depend on later calls. */
  lemma {:induction false} Prefix(a: Arbiter, calls: seq<Call>, more: seq<Call>, k: nat)
    requires k <= |calls|
    ensures StateAt(a, calls + more, k) == StateAt(a, calls, k)
  {
    if k > 0 {
      Prefix(a, calls, more, k - 1);
    }
  }

  /** A sequence of calls can be cut anywhere. */
  lemma {:induction false} Suffix(a: Arbiter, calls: seq<Call>, i: nat, k: nat)
    requires i + k <= |calls|
    ensures StateAt(a, calls, i + k) == StateAt(StateAt(a, calls, i), calls[i..], k)
  {
    if k > 0 {
      Suffix(a, calls, i, k - 1);
      assert calls[i..][k - 1] == calls[i + k - 1];
    }
  }

  /** If p is granted at i and somebody else at k, with no release of p in between, then p was
      overtaken: by a request that found it idle, or by a preferred id. */
  lemma {:induction false} Overtaken(a: Arbiter, calls: seq<Call>, i: nat, k: nat) returns (j: nat)
    requires i < k < |calls| && Grants(a, calls, i) && Grants(a, calls, k)
    requires calls[i].id != calls[k].id && NamedIds(calls)
    requires forall m :: i < m <= k ==> calls[m] != ReleaseCall(calls[i].id)
    ensures i < j <= k && calls[j].AcquireCall? && StateAt(a, calls, j).primary == calls[i].id
    ensures VerdictAt(a, calls, j).FailedOver? || VerdictAt(a, calls, j).FailedBack?
  {
    var p := calls[i].id;
    j := i + 1;
    while StateAt(a, calls, j + 1).primary == p
      invariant i < j <= k && StateAt(a, calls, j).primary == p
      decreases k - j
    {
      assert StateAt(a, calls, k + 1).primary == calls[k].id;
      j := j + 1;
    }
    var c := calls[j];
    assert c != ReleaseCall(p) && (c.ReleaseCall? ==> c == ReleaseCall(c.id));
  }
}
