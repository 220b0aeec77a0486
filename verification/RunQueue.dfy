/**
 The browser automation run queue: workers claim runs under a lease with a fresh token, renew it, notice cancellation,
 and finalize. Workers may stall, crash, lose their lease and keep running.
 */
module RunQueue {
  import opened Options

  datatype Status =
    | Queued | Running | CancelRequested
    | Succeeded | Failed | Cancelled | ChallengeRequired | ManualReview | Drift | ReauthRequired

  predicate IsTerminal(s: Status) {
    s != Queued && s != Running && s != CancelRequested
  }

  type RunId = int
  type Worker = int
  type Token = int

  datatype ErrorCode =
    | AutomationCancelled | UncertainSideEffect | HumanChallenge | ContractDrift | Reauthentication | OtherError

  /** `finalStatusForAutomationError` */
  function FinalStatus(error: Option<ErrorCode>, cancelled: bool): (s: Status)
    ensures IsTerminal(s)
    ensures s == Cancelled <==> cancelled || error == Some(AutomationCancelled)
    ensures s == Succeeded <==> !cancelled && error == None
    ensures s == ManualReview <==> !cancelled && error == Some(UncertainSideEffect)
    ensures s == ChallengeRequired <==> !cancelled && error == Some(HumanChallenge)
    ensures s == Drift <==> !cancelled && error == Some(ContractDrift)
    ensures s == ReauthRequired <==> !cancelled && error == Some(Reauthentication)
    ensures s == Failed <==> !cancelled && error == Some(OtherError)
  {
    if cancelled || error == Some(AutomationCancelled) then Cancelled
    else match error
      case None => Succeeded
      case Some(UncertainSideEffect) => ManualReview
      case Some(HumanChallenge) => ChallengeRequired
      case Some(ContractDrift) => Drift
      case Some(Reauthentication) => ReauthRequired
      case Some(_) => Failed
  }

  datatype Row = Row(
    status: Status, owner: Option<Worker>, token: Option<Token>, leaseUntil: Option<int>, attempt: nat,
    cancelRequested: bool, error: Option<ErrorCode>)

  const NEW_ROW := Row(Queued, None, None, None, 0, false, None)

  predicate Holds(row: Row, worker: Worker, token: Token) {
    row.owner == Some(worker) && row.token == Some(token)
  }

  predicate Claimable(row: Row, now: int) {
    row.status == Queued || (row.status == Running && row.leaseUntil.Some? && row.leaseUntil.value < now)
  }

  function AfterClaim(row: Row, worker: Worker, token: Token, until: int): Row {
    row.(status := Running, owner := Some(worker), token := Some(token), leaseUntil := Some(until),
         attempt := row.attempt + 1)
  }

  function AfterCancel(row: Row): Row {
    if row.status == Queued then row.(status := Cancelled, cancelRequested := true)
    else if row.status == Running then row.(status := CancelRequested, cancelRequested := true)
    else row
  }

  predicate SeesCancelled(row: Row, worker: Worker, token: Token) {
    !Holds(row, worker, token) || row.status == CancelRequested || row.cancelRequested
  }

  function AfterRenew(row: Row, worker: Worker, token: Token, until: int): Row {
    if Holds(row, worker, token) && row.status == Running then row.(leaseUntil := Some(until)) else row
  }

  predicate Finalizable(row: Row, worker: Worker, token: Token) {
    Holds(row, worker, token) && (row.status == Running || row.status == CancelRequested)
  }

  function AfterFinalize(row: Row, worker: Worker, token: Token, status: Status, error: Option<ErrorCode>): Row {
    if Finalizable(row, worker, token) then row.(status := status, error := error, leaseUntil := None) else row
  }

  // ---------------------------------------------------------------------------------------------------------
  // The table
  // ---------------------------------------------------------------------------------------------------------

  class RunTable {
    var runs: map<RunId, Row>
    var now: int

    /** `requestBrowserAutomationCancel`; false means the run is missing or already terminal. */
    method RequestCancel(r: RunId) returns (accepted: bool)
      modifies this`runs
      ensures runs == if r in old(runs) then old(runs)[r := AfterCancel(old(runs)[r])] else old(runs)
      ensures accepted <==> r in old(runs) && !IsTerminal(old(runs)[r].status)
    {
      if r !in runs { return false; }
      var row := runs[r];
      if row.status == Queued {
        runs := runs[r := row.(status := Cancelled, cancelRequested := true)];
      } else if row.status == Running {
        runs := runs[r := row.(status := CancelRequested, cancelRequested := true)];
      } else {
        assert runs == runs[r := row];
        return row.status == CancelRequested;
      }
      return true;
    }

    /** `claimRun`, for the row its locking select found. */
    method ClaimRun(candidate: Option<RunId>, worker: Worker, token: Token, lease: int) returns (claimed: bool)
      modifies this`runs
      ensures claimed <==> candidate.Some? && candidate.value in old(runs) && Claimable(old(runs)[candidate.value], now)
      ensures runs == if claimed
                      then old(runs)[candidate.value := AfterClaim(old(runs)[candidate.value], worker, token, now + lease)]
                      else old(runs)
    {
      if candidate.None? || candidate.value !in runs { return false; }
      var row := runs[candidate.value];
      if row.status != Queued {
        if row.status != Running || row.leaseUntil.None? || row.leaseUntil.value >= now { return false; }
      }
      runs := runs[candidate.value := Row(Running, Some(worker), Some(token), Some(now + lease), row.attempt + 1,
                                          row.cancelRequested, row.error)];
      return true;
    }

    /** `isCancelled` */
    method IsCancelled(r: RunId, worker: Worker, token: Token) returns (cancelled: bool)
      ensures cancelled <==> r !in runs || SeesCancelled(runs[r], worker, token)
    {
      if r !in runs || runs[r].owner != Some(worker) || runs[r].token != Some(token) { return true; }
      return runs[r].status == CancelRequested || runs[r].cancelRequested;
    }

    /** `renewLease` */
    method RenewLease(r: RunId, worker: Worker, token: Token, lease: int) returns (renewed: bool)
      modifies this`runs
      ensures renewed <==> r in old(runs) && Holds(old(runs)[r], worker, token) && old(runs)[r].status == Running
      ensures runs == if r in old(runs) then old(runs)[r := AfterRenew(old(runs)[r], worker, token, now + lease)]
                      else old(runs)
    {
      renewed := false;
      if r in runs {
        var row := runs[r];
        if row.owner == Some(worker) && row.token == Some(token) && row.status == Running {
          runs := runs[r := row.(leaseUntil := Some(now + lease))];
          renewed := true;
        }
        assert !renewed ==> runs == runs[r := row];
      }
    }

    /** `finalizeRun` */
    method FinalizeRun(r: RunId, worker: Worker, token: Token, status: Status, error: Option<ErrorCode>)
      returns (finalized: bool)
      modifies this`runs
      ensures finalized <==> r in old(runs) && Finalizable(old(runs)[r], worker, token)
      ensures runs == if r in old(runs) then old(runs)[r := AfterFinalize(old(runs)[r], worker, token, status, error)]
                      else old(runs)
    {
      finalized := false;
      if r in runs {
        var row := runs[r];
        if row.owner == Some(worker) && row.token == Some(token)
           && (row.status == Running || row.status == CancelRequested) {
          runs := runs[r := row.(status := status, error := error, leaseUntil := None)];
          finalized := true;
        }
        assert !finalized ==> runs == runs[r := row];
      }
    }
  }

  // ---------------------------------------------------------------------------------------------------------
  // Workers at work
  // ---------------------------------------------------------------------------------------------------------

  /**
   A worker process after its claim: still executing (perhaps told to abort because it saw a cancellation), decided after
   its last look at the row, or done. A crashed or stalled worker is one that takes no further step.
   */
  datatype Phase =
    | Executing(sawCancel: bool)
    | Decided(cancelled: bool, error: Option<ErrorCode>)
    | Done

  datatype Session = Session(run: RunId, worker: Worker, phase: Phase)

  datatype Queue = Queue(runs: map<RunId, Row>, sessions: map<Token, Session>, now: int)

  datatype Step =
    | Create(run: RunId)
    | Cancel(run: RunId)
    | Tick(elapsed: nat)
    | Claim(run: RunId, worker: Worker, token: Token, lease: int)
    | Look(token: Token)
    | Renew(token: Token, lease: int)
    | Finish(token: Token, outcome: Option<ErrorCode>)
    | Finalize(token: Token)
    | FinalizeFails(token: Token)

  const EMPTY := Queue(map[], map[], 0)

  /** What `isCancelled` tells the session. */
  predicate SessionSeesCancel(q: Queue, t: Token)
    requires t in q.sessions
  {
    var s := q.sessions[t];
    s.run !in q.runs || SeesCancelled(q.runs[s.run], s.worker, t)
  }

  function Set(q: Queue, r: RunId, row: Row): Queue {
    q.(runs := q.runs[r := row])
  }

  function SetPhase(q: Queue, t: Token, phase: Phase): Queue
    requires t in q.sessions
  {
    q.(sessions := q.sessions[t := q.sessions[t].(phase := phase)])
  }

  /** One step; a step whose guard fails changes nothing. Claim tokens are fresh. */
  function Next(q: Queue, step: Step): Queue {
    match step
    case Create(r) => if r in q.runs then q else Set(q, r, NEW_ROW)
    case Cancel(r) => if r in q.runs then Set(q, r, AfterCancel(q.runs[r])) else q
    case Tick(elapsed) => q.(now := q.now + elapsed)
    case Claim(r, worker, t, lease) =>
      if !Claims(q, step) then q
      else Set(q, r, AfterClaim(q.runs[r], worker, t, q.now + lease)).(
             sessions := q.sessions[t := Session(r, worker, Executing(false))])
    case Look(t) =>
      if t in q.sessions && q.sessions[t].phase.Executing? && SessionSeesCancel(q, t) then
        SetPhase(q, t, Executing(true))
      else q
    case Renew(t, lease) =>
      if t in q.sessions && q.sessions[t].run in q.runs then
        var s := q.sessions[t];
        Set(q, s.run, AfterRenew(q.runs[s.run], s.worker, t, q.now + lease))
      else q
    case Finish(t, outcome) =>
      if t !in q.sessions || !q.sessions[t].phase.Executing? then q
      else if outcome == Some(AutomationCancelled) then
        // The runtime reports a cancellation only to a session that was aborted for one, and no further look is taken.
        if q.sessions[t].phase.sawCancel then SetPhase(q, t, Decided(true, outcome)) else q
      else if SessionSeesCancel(q, t) then SetPhase(q, t, Decided(true, Some(AutomationCancelled)))
      else SetPhase(q, t, Decided(false, outcome))
    case FinalizeFails(t) =>
      // The finalizing transaction throws: the error handler looks at the row and decides anew.
      if t in q.sessions && q.sessions[t].phase.Decided? then SetPhase(q, t, Executing(false)) else q
    case Finalize(t) =>
      if t !in q.sessions || !q.sessions[t].phase.Decided? then q
      else
        var s := q.sessions[t];
        var done := SetPhase(q, t, Done);
        if s.run !in q.runs then done
        else Set(done, s.run, AfterFinalize(q.runs[s.run], s.worker, t, FinalStatus(s.phase.error, s.phase.cancelled),
                                            s.phase.error))
  }

  predicate Claims(q: Queue, step: Step)
    requires step.Claim?
  {
    step.token !in q.sessions && step.run in q.runs && Claimable(q.runs[step.run], q.now)
  }

  /** The step is a finalization that takes effect on run r. */
  predicate Finalizes(q: Queue, step: Step, r: RunId) {
    && step.Finalize? && step.token in q.sessions && q.sessions[step.token].phase.Decided?
    && q.sessions[step.token].run == r && r in q.runs
    && Finalizable(q.runs[r], q.sessions[step.token].worker, step.token)
  }

  function Run(steps: seq<Step>): Queue {
    if steps == [] then EMPTY else Next(Run(steps[..|steps| - 1]), steps[|steps| - 1])
  }

  function Continue(q: Queue, steps: seq<Step>): Queue {
    if steps == [] then q else Next(Continue(q, steps[..|steps| - 1]), steps[|steps| - 1])
  }

  // ---------------------------------------------------------------------------------------------------------
  // What every interleaving keeps
  // ---------------------------------------------------------------------------------------------------------

  ghost predicate RowFits(q: Queue, r: RunId)
    requires r in q.runs
  {
    var row := q.runs[r];
    && (row.status == Queued ==> row == NEW_ROW)
    && (row.status == Running || row.status == CancelRequested ==> row.token.Some?)
    && (row.token.Some? ==>
          && row.token.value in q.sessions && q.sessions[row.token.value].run == r
          && row.owner == Some(q.sessions[row.token.value].worker))
    && (row.status == CancelRequested ==> row.cancelRequested)
    && (row.status == Running ==> !row.cancelRequested)
    && (row.token.None? <==> row.attempt == 0)
    && (row.leaseUntil.Some? <==> row.status == Running || row.status == CancelRequested)
    && (IsTerminal(row.status) && row.attempt > 0 ==> TellsError(row.status, row.error))
    && (row.attempt == 0 ==> row.error == None && (row.status == Queued || row.status == Cancelled))
  }

  /** The status of a finalized run and its stored error determine each other. */
  predicate TellsError(status: Status, error: Option<ErrorCode>) {
    && (status == Cancelled <==> error == Some(AutomationCancelled))
    && (status == ManualReview <==> error == Some(UncertainSideEffect))
    && (status == ChallengeRequired <==> error == Some(HumanChallenge))
    && (status == Drift <==> error == Some(ContractDrift))
    && (status == ReauthRequired <==> error == Some(Reauthentication))
    && (status == Succeeded <==> error == None)
    && (status == Failed <==> error == Some(OtherError))
  }

  /** A session decides on a cancellation exactly with the error that says so. */
  predicate DecisionFits(s: Session) {
    s.phase.Decided? ==> (s.phase.cancelled <==> s.phase.error == Some(AutomationCancelled))
  }

  ghost predicate Consistent(q: Queue) {
    && (forall r :: r in q.runs ==> RowFits(q, r))
    && (forall t :: t in q.sessions ==> q.sessions[t].run in q.runs && DecisionFits(q.sessions[t]))
  }

  lemma NextKeepsRow(q: Queue, step: Step, r: RunId)
    requires Consistent(q) && r in Next(q, step).runs
    ensures RowFits(Next(q, step), r)
  {
    assert r in q.runs ==> RowFits(q, r);
  }

  lemma NextKeepsSession(q: Queue, step: Step, t: Token)
    requires Consistent(q) && t in Next(q, step).sessions
    ensures Next(q, step).sessions[t].run in Next(q, step).runs && DecisionFits(Next(q, step).sessions[t])
  {
  }

  lemma NextKeepsConsistent(q: Queue, step: Step)
    requires Consistent(q)
    ensures Consistent(Next(q, step))
  {
    var q' := Next(q, step);
    forall r | r in q'.runs ensures RowFits(q', r) { NextKeepsRow(q, step, r); }
    forall t | t in q'.sessions ensures q'.sessions[t].run in q'.runs && DecisionFits(q'.sessions[t]) {
      NextKeepsSession(q, step, t);
    }
  }

  lemma {:induction false} AlwaysConsistent(steps: seq<Step>)
    ensures Consistent(Run(steps))
  {
    if steps != [] {
      AlwaysConsistent(steps[..|steps| - 1]);
      NextKeepsConsistent(Run(steps[..|steps| - 1]), steps[|steps| - 1]);
    }
  }

  // ---------------------------------------------------------------------------------------------------------
  // One finalization, by the latest claimant
  // ---------------------------------------------------------------------------------------------------------

  function ClaimCount(steps: seq<Step>, r: RunId): nat {
    if steps == [] then 0
    else
      var before, step := steps[..|steps| - 1], steps[|steps| - 1];
      ClaimCount(before, r) + if step.Claim? && step.run == r && Claims(Run(before), step) then 1 else 0
  }

  function LatestClaim(steps: seq<Step>, r: RunId): Option<Token> {
    if steps == [] then None
    else
      var before, step := steps[..|steps| - 1], steps[|steps| - 1];
      if step.Claim? && step.run == r && Claims(Run(before), step) then Some(step.token) else LatestClaim(before, r)
  }

  function FinalCount(steps: seq<Step>, r: RunId): nat {
    if steps == [] then 0
    else
      var before, step := steps[..|steps| - 1], steps[|steps| - 1];
      FinalCount(before, r) + if Finalizes(Run(before), step, r) then 1 else 0
  }

  /** What one step does to an existing run. */
  lemma StepOnRun(q: Queue, step: Step, r: RunId)
    requires Consistent(q) && r in q.runs
    ensures r in Next(q, step).runs
    ensures var row, row' := q.runs[r], Next(q, step).runs[r];
            var claimed := step.Claim? && step.run == r && Claims(q, step);
            && row'.attempt == row.attempt + (if claimed then 1 else 0)
            && row'.token == (if claimed then Some(step.token) else row.token)
            && (IsTerminal(row'.status) && row'.attempt > 0 <==>
                  (IsTerminal(row.status) && row.attempt > 0) || Finalizes(q, step, r))
            && (Finalizes(q, step, r) ==> !IsTerminal(row.status))
  {
    assert RowFits(q, r);
  }

  /**
   In every interleaving: `attempt` counts the claims, the row's token is the latest claim's, and a run is finalized at
   most once, which leaves it terminal.
   */
  lemma {:induction false} FinalizedAtMostOnce(steps: seq<Step>, r: RunId)
    ensures FinalCount(steps, r) <= 1
    ensures r in Run(steps).runs ==>
              var row := Run(steps).runs[r];
              && row.attempt == ClaimCount(steps, r) && row.token == LatestClaim(steps, r)
              && (FinalCount(steps, r) == 1 <==> IsTerminal(row.status) && row.attempt > 0)
    ensures r !in Run(steps).runs ==>
              ClaimCount(steps, r) == FinalCount(steps, r) == 0 && LatestClaim(steps, r) == None
  {
    if steps != [] {
      var before, step := steps[..|steps| - 1], steps[|steps| - 1];
      FinalizedAtMostOnce(before, r);
      AlwaysConsistent(before);
      if r in Run(before).runs { StepOnRun(Run(before), step, r); }
    }
  }

  /** A finalization that takes effect is made with the token of the latest claim. */
  lemma FinalizedByLatestClaimant(steps: seq<Step>, step: Step, r: RunId)
    requires Finalizes(Run(steps), step, r)
    ensures LatestClaim(steps, r) == Some(step.token)
  {
    FinalizedAtMostOnce(steps, r);
  }

  /** A session whose token is no longer on its row changes no run, whatever it has concluded. */
  lemma SupersededWorkerIsHarmless(q: Queue, step: Step)
    requires step.Look? || step.Renew? || step.Finish? || step.FinalizeFails? || step.Finalize?
    requires step.token in q.sessions ==>
               var r := q.sessions[step.token].run;
               r in q.runs ==> q.runs[r].token != Some(step.token)
    ensures Next(q, step).runs == q.runs
  {
    if step.token in q.sessions && q.sessions[step.token].run in q.runs {
      var r := q.sessions[step.token].run;
      assert q.runs == q.runs[r := q.runs[r]];
    }
  }

  /** The session's token is not on its row. */
  ghost predicate Superseded(q: Queue, t: Token) {
    && t in q.sessions && q.sessions[t].run in q.runs && q.runs[q.sessions[t].run].token != Some(t)
  }

  lemma StaysSuperseded(q: Queue, step: Step, t: Token)
    requires Consistent(q) && Superseded(q, t)
    ensures Superseded(Next(q, step), t) && Next(q, step).sessions[t].run == q.sessions[t].run
  {
    StepOnRun(q, step, q.sessions[t].run);
  }

  /** A token that has left its row never returns to it: tokens are fresh, and only a claim sets one. */
  lemma {:induction false} SupersededForGood(q: Queue, steps: seq<Step>, t: Token)
    requires Consistent(q) && Superseded(q, t)
    ensures Consistent(Continue(q, steps)) && Superseded(Continue(q, steps), t)
    ensures Continue(q, steps).sessions[t].run == q.sessions[t].run
  {
    if steps != [] {
      var before, step := steps[..|steps| - 1], steps[|steps| - 1];
      SupersededForGood(q, before, t);
      NextKeepsConsistent(Continue(q, before), step);
      StaysSuperseded(Continue(q, before), step, t);
    }
  }

  /** So a superseded worker is harmless for good: whatever has happened since, none of its steps changes a run. */
  lemma SupersededWorkerStaysHarmless(q: Queue, steps: seq<Step>, step: Step)
    requires step.Look? || step.Renew? || step.Finish? || step.FinalizeFails? || step.Finalize?
    requires Consistent(q) && Superseded(q, step.token)
    ensures Continue(q, steps + [step]).runs == Continue(q, steps).runs
  {
    SupersededForGood(q, steps, step.token);
    SupersededWorkerIsHarmless(Continue(q, steps), step);
    assert (steps + [step])[..|steps|] == steps;
  }

  // ---------------------------------------------------------------------------------------------------------
  // What a finalized run tells
  // ---------------------------------------------------------------------------------------------------------

  /** Step k finalizes r with this decision. */
  predicate FinalizedAt(steps: seq<Step>, r: RunId, k: int, cancelled: bool, error: Option<ErrorCode>) {
    && 0 <= k < |steps| && Finalizes(Run(steps[..k]), steps[k], r)
    && Run(steps[..k]).sessions[steps[k].token].phase == Decided(cancelled, error)
  }

  lemma {:induction false} WhenFinalized(steps: seq<Step>, r: RunId) returns (k: int, cancelled: bool)
    requires r in Run(steps).runs && IsTerminal(Run(steps).runs[r].status) && Run(steps).runs[r].attempt > 0
    ensures FinalizedAt(steps, r, k, cancelled, Run(steps).runs[r].error)
  {
    assert steps != [];
    var before, step := steps[..|steps| - 1], steps[|steps| - 1];
    AlwaysConsistent(before);
    var q := Run(before);
    if r in q.runs && IsTerminal(q.runs[r].status) && q.runs[r].attempt > 0 {
      k, cancelled := WhenFinalized(before, r);
      TerminalIsAbsorbing(q, [step], r);
      assert [step][..0] == [] && Continue(q, [step]) == Next(q, step);
      assert before[..k] == steps[..k] && before[k] == steps[k];
    } else {
      if r in q.runs { StepOnRun(q, step, r); }
      k, cancelled := |steps| - 1, q.sessions[step.token].phase.cancelled;
      assert steps[..k] == before;
    }
  }

  /**
   The status of a finalized run tells its stored error and is told by it, and that error is the one on which the session
   that finalized it had decided.
   */
  lemma FinalizedRunTellsItsError(steps: seq<Step>, r: RunId)
    requires r in Run(steps).runs && IsTerminal(Run(steps).runs[r].status) && Run(steps).runs[r].attempt > 0
    ensures var row := Run(steps).runs[r];
            && TellsError(row.status, row.error)
            && exists k, cancelled :: FinalizedAt(steps, r, k, cancelled, row.error)
  {
    AlwaysConsistent(steps);
    assert RowFits(Run(steps), r);
    var k, cancelled := WhenFinalized(steps, r);
  }

  /** A session's last look: it keeps its outcome exactly while it still holds the run and nobody asked to cancel it. */
  lemma LastLookDecides(q: Queue, t: Token, outcome: Option<ErrorCode>)
    requires Consistent(q) && t in q.sessions && q.sessions[t].phase.Executing? && outcome != Some(AutomationCancelled)
    ensures var row := q.runs[q.sessions[t].run];
            Next(q, Finish(t, outcome)) ==
            q.(sessions := q.sessions[t := q.sessions[t].(
                 phase := if row.token == Some(t) && !row.cancelRequested then Decided(false, outcome)
                          else Decided(true, Some(AutomationCancelled)))])
  {
    assert RowFits(q, q.sessions[t].run);
  }

  // ---------------------------------------------------------------------------------------------------------
  // Leases
  // ---------------------------------------------------------------------------------------------------------

  /** Run r is held under token t, and nobody may take it over before `until`. */
  ghost predicate HeldUntil(q: Queue, r: RunId, t: Token, until: int) {
    && r in q.runs && q.runs[r].token == Some(t) && q.runs[r].status != Queued
    && (q.runs[r].status == Running ==> q.runs[r].leaseUntil.Some? && q.runs[r].leaseUntil.value >= until)
  }

  lemma {:induction false} TimeGoesOn(q: Queue, steps: seq<Step>)
    ensures q.now <= Continue(q, steps).now
  {
    if steps != [] { TimeGoesOn(q, steps[..|steps| - 1]); }
  }

  /**
   Until its lease runs out, the holder of a run is not superseded, whatever the others try: it stays the latest
   claimant, as long as its own renewals do not give the time back.
   */
  lemma {:induction false} LeaseProtectsItsHolder(q: Queue, steps: seq<Step>, r: RunId, t: Token, until: int)
    requires HeldUntil(q, r, t, until) && Continue(q, steps).now <= until
    requires forall i :: 0 <= i < |steps| && steps[i].Renew? && steps[i].token == t ==>
               Continue(q, steps[..i]).now + steps[i].lease >= until
    ensures HeldUntil(Continue(q, steps), r, t, until)
  {
    if steps != [] {
      var before, step := steps[..|steps| - 1], steps[|steps| - 1];
      TimeGoesOn(Continue(q, before), [step]);
      assert [step][..0] == [] && Continue(Continue(q, before), [step]) == Next(Continue(q, before), step);
      forall i | 0 <= i < |before| && before[i].Renew? && before[i].token == t
        ensures Continue(q, before[..i]).now + before[i].lease >= until
      {
        assert before[i] == steps[i] && before[..i] == steps[..i];
      }
      LeaseProtectsItsHolder(q, before, r, t, until);
    }
  }

  /** A claim or a renewal gives its holder the whole lease from now. */
  lemma ClaimAndRenewalGrantTheLease(q: Queue, step: Step, r: RunId)
    requires Consistent(q)
    requires (step.Claim? && step.run == r && Claims(q, step))
          || (step.Renew? && r in q.runs && q.runs[r].token == Some(step.token) && q.runs[r].status == Running)
    ensures HeldUntil(Next(q, step), r, step.token, q.now + step.lease)
  {
    assert r in q.runs ==> RowFits(q, r);
  }

  /** A worker with a fresh token takes a run exactly when it is queued, or running under a lease that has run out. */
  lemma ClaimTakesExactly(q: Queue, r: RunId, worker: Worker, t: Token, lease: int)
    requires Consistent(q) && r in q.runs && t !in q.sessions
    ensures var row := q.runs[r];
            var due := row.status == Queued || (row.status == Running && row.leaseUntil.value < q.now);
            && (row.status == Running ==> row.leaseUntil.Some?)
            && Next(q, Claim(r, worker, t, lease)) ==
               if !due then q
               else q.(runs := q.runs[r := row.(status := Running, owner := Some(worker), token := Some(t),
                                                leaseUntil := Some(q.now + lease), attempt := row.attempt + 1)],
                       sessions := q.sessions[t := Session(r, worker, Executing(false))])
  {
    assert RowFits(q, r);
  }

  /** So a run whose holder has stopped is taken over once its lease has run out. */
  lemma AbandonedRunIsTakenOver(q: Queue, r: RunId, elapsed: nat, worker: Worker, t: Token, lease: int)
    requires Consistent(q) && r in q.runs && q.runs[r].status == Running && t !in q.sessions
    ensures q.runs[r].leaseUntil.Some?
    ensures var q' := Continue(q, [Tick(elapsed), Claim(r, worker, t, lease)]);
            r in q'.runs && (q'.runs[r].token == Some(t) <==> q.now + elapsed > q.runs[r].leaseUntil.value)
  {
    assert RowFits(q, r);
    ContinueTwo(q, Tick(elapsed), Claim(r, worker, t, lease));
    NextKeepsConsistent(q, Tick(elapsed));
    ClaimTakesExactly(Next(q, Tick(elapsed)), r, worker, t, lease);
  }

  // ---------------------------------------------------------------------------------------------------------
  // Terminal and cancelled runs
  // ---------------------------------------------------------------------------------------------------------

  lemma {:induction false} TerminalIsAbsorbing(q: Queue, steps: seq<Step>, r: RunId)
    requires r in q.runs && IsTerminal(q.runs[r].status)
    ensures r in Continue(q, steps).runs && Continue(q, steps).runs[r] == q.runs[r]
  {
    if steps != [] {
      TerminalIsAbsorbing(q, steps[..|steps| - 1], r);
    }
  }

  /** A run cancelled while still queued is never claimed. */
  lemma CancelledInQueueIsNeverClaimed(steps: seq<Step>, more: seq<Step>, r: RunId)
    requires r in Run(steps).runs && Run(steps).runs[r].status == Queued
    ensures var q := Continue(Next(Run(steps), Cancel(r)), more);
            r in q.runs && q.runs[r].status == Cancelled && q.runs[r].attempt == 0 && q.runs[r].token == None
  {
    AlwaysConsistent(steps);
    assert RowFits(Run(steps), r);
    TerminalIsAbsorbing(Next(Run(steps), Cancel(r)), more, r);
  }

  /** A run in CANCEL_REQUESTED is left only by the finalization of its lease holder; it is never claimed again. */
  lemma CancelRequestedIsLeftByItsHolder(q: Queue, step: Step, r: RunId)
    requires Consistent(q) && r in q.runs && q.runs[r].status == CancelRequested
    ensures r in Next(q, step).runs
    ensures Next(q, step).runs[r] != q.runs[r] <==> Finalizes(q, step, r)
    ensures Finalizes(q, step, r) ==> q.runs[r].token == Some(step.token)
    ensures step.Claim? && step.run == r ==> !Claims(q, step)
  {
    assert RowFits(q, r);
  }

  /** So when the holder of a run has crashed, a cancel request leaves the run in CANCEL_REQUESTED for good. */
  lemma {:induction false} CrashedHolderLeavesCancelRequested(q: Queue, steps: seq<Step>, r: RunId)
    requires Consistent(q) && r in q.runs && q.runs[r].status == CancelRequested
    requires forall i :: 0 <= i < |steps| && steps[i].Finalize? ==> Some(steps[i].token) != q.runs[r].token
    ensures Consistent(Continue(q, steps))
    ensures r in Continue(q, steps).runs && Continue(q, steps).runs[r] == q.runs[r]
  {
    if steps != [] {
      var before, step := steps[..|steps| - 1], steps[|steps| - 1];
      CrashedHolderLeavesCancelRequested(q, before, r);
      NextKeepsConsistent(Continue(q, before), step);
      CancelRequestedIsLeftByItsHolder(Continue(q, before), step, r);
    }
  }

  /** The holder of r has yet to take its last look, or took it and saw the cancellation. */
  ghost predicate WillSeeCancel(q: Queue, r: RunId) {
    && r in q.runs && q.runs[r].token.Some? && q.runs[r].token.value in q.sessions
    && var phase := q.sessions[q.runs[r].token.value].phase;
       || (q.runs[r].status == CancelRequested && (phase.Executing? || (phase.Decided? && phase.cancelled)))
       || q.runs[r].status == Cancelled
  }

  /** A cancel request that lands before the holder's last look at the row can only end in CANCELLED. */
  lemma {:induction false} EarlyCancelEndsInCancelled(q: Queue, steps: seq<Step>, r: RunId)
    requires Consistent(q) && WillSeeCancel(q, r)
    ensures var q' := Continue(q, steps);
            Consistent(q') && WillSeeCancel(q', r)
            && (q'.runs[r].status == CancelRequested || q'.runs[r].status == Cancelled)
  {
    if steps != [] {
      var before, step := steps[..|steps| - 1], steps[|steps| - 1];
      EarlyCancelEndsInCancelled(q, before, r);
      NextKeepsConsistent(Continue(q, before), step);
      CancelStepKeepsSeeing(Continue(q, before), step, r);
    }
  }

  lemma CancelStepKeepsSeeing(q: Queue, step: Step, r: RunId)
    requires Consistent(q) && WillSeeCancel(q, r)
    ensures WillSeeCancel(Next(q, step), r)
  {
    assert RowFits(q, r);
    if q.runs[r].status == CancelRequested {
      CancelRequestedIsLeftByItsHolder(q, step, r);
    } else {
      TerminalIsAbsorbing(q, [step], r);
    }
  }

  /** One that lands after that look is lost: the holder finalizes with the outcome it had already decided on. */
  lemma LateCancelIsLost(q: Queue, r: RunId)
    requires Consistent(q) && r in q.runs && q.runs[r].status == Running
    requires var s := q.sessions[q.runs[r].token.value]; s.phase.Decided? && !s.phase.cancelled
    ensures var t := q.runs[r].token.value;
            var q' := Continue(q, [Cancel(r), Finalize(t)]);
            && r in q'.runs && q'.runs[r].cancelRequested
            && q'.runs[r].error == q.sessions[t].phase.error && q'.runs[r].status != Cancelled
            && TellsError(q'.runs[r].status, q'.runs[r].error)
  {
    assert RowFits(q, r);
    var t := q.runs[r].token.value;
    ContinueTwo(q, Cancel(r), Finalize(t));
    assert Next(q, Cancel(r)).sessions == q.sessions;
  }

  lemma ContinueTwo(q: Queue, first: Step, second: Step)
    ensures Continue(q, [first, second]) == Next(Next(q, first), second)
  {
    var steps := [first, second];
    assert steps[..1] == [first];
    assert Continue(q, [first]) == Next(Continue(q, [first][..0]), first);
    assert [first][..0] == [];
    assert Continue(q, []) == q;
  }
}
