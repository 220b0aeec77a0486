/**
 When the control plane opens traffic: exactly which callback does, what must have happened before in every run, what
 the policy epoch fences off, and what it does not.
 */
module ControlEvidence {
  import opened CodeUnits
  import opened Options
  import opened CanonicalJson
  import opened Components
  import opened ControlPlane

  // ---------------------------------------------------------------------------------------------------------
  // The opening transaction
  // ---------------------------------------------------------------------------------------------------------

  predicate IsOpeningDispatch(p: Plane, d: Id) {
    d in p.dispatches && p.dispatches[d].command == Enable && !p.dispatches[d].probeOnly
  }

  /**
   The transaction is an accepted callback that supplies the last missing piece of evidence for an enable dispatch, or an
   observation of another component that names an enable dispatch whose evidence is complete already.
   */
  predicate CompletesEvidence(confirms: Confirms, p: Plane, a: Action) {
    match a
    case Ack(d, _, acked, _, _, _) =>
      && AckAccepted(p, a) && acked
      && IsOpeningDispatch(p, d) && QueryAnswered(confirms, p, d) && ChallengeAnswered(p, d)
    case Snapshot(d, _, _, _, _, payload) =>
      && p.component.activeRevision.Some? && SnapshotAccepted(p, a) && confirms(Enable, payload)
      && IsOpeningDispatch(p, d) && IsAcked(p, d) && ChallengeAnswered(p, d)
    case Observation(query, _, _, _, payload) =>
      && ObservationAccepted(p, a) && query.Some? && query.value in p.queries && confirms(Enable, payload)
      && IsOpeningDispatch(p, query.value) && IsAcked(p, query.value) && ChallengeAnswered(p, query.value)
    case HeartbeatPush(challenge, _, _, _, _) =>
      && HeartbeatAccepted(p, a) && challenge.Some?
      && IsOpeningDispatch(p, challenge.value) && IsAcked(p, challenge.value)
      && QueryAnswered(confirms, p, challenge.value)
    case ForeignObservation(d) => IsOpeningDispatch(p, d) && EvidenceComplete(confirms, p, d)
    case _ => false
  }

  /** Closed traffic opens exactly at such a transaction, for a non-probe enable dispatch. */
  lemma OpensExactlyOnCompleteEvidence(confirms: Confirms, p: Plane, a: Action)
    requires Sound(p) && !p.component.enabled
    ensures Next(confirms, p, a).component.enabled <==> CompletesEvidence(confirms, p, a)
  {
  }

  // ---------------------------------------------------------------------------------------------------------
  // Open traffic has a history
  // ---------------------------------------------------------------------------------------------------------

  /** The dispatches that were requested, acknowledged, confirmed by a state answer, and met in their challenge. */
  datatype History = History(requested: set<Id>, acked: set<Id>, confirmed: set<Id>, met: set<Id>)

  function Noted(confirms: Confirms, p: Plane, a: Action, h: History): History {
    match a
    case RequestActivation(d, enable, readiness, _, _) =>
      if d !in p.dispatches && enable && RequestAllowed(p, enable, readiness) then h.(requested := h.requested + {d})
      else h
    case Ack(d, _, acked, _, _, _) =>
      if AckAccepted(p, a) && acked then h.(acked := h.acked + {d}) else h
    case Snapshot(d, _, _, _, _, payload) =>
      if SnapshotAccepted(p, a) && confirms(Enable, payload) then h.(confirmed := h.confirmed + {d}) else h
    case Observation(query, _, _, _, payload) =>
      if ObservationAccepted(p, a) && query.Some? && query.value in p.queries && confirms(Enable, payload) then
        h.(confirmed := h.confirmed + {query.value})
      else h
    case HeartbeatPush(challenge, _, _, _, _) =>
      if HeartbeatAccepted(p, a) && challenge.Some? then h.(met := h.met + {challenge.value}) else h
    case _ => h
  }

  function HistoryOf(confirms: Confirms, p: Plane, actions: seq<Action>): History {
    if actions == [] then History({}, {}, {}, {})
    else
      var before := actions[..|actions| - 1];
      Noted(confirms, Run(confirms, p, before), actions[|actions| - 1], HistoryOf(confirms, p, before))
  }

  /** What the rows say about a dispatch did happen. */
  ghost predicate Traced(confirms: Confirms, p: Plane, h: History) {
    && (forall d :: d in p.dispatches && p.dispatches[d].command == Enable ==> d in h.requested)
    && (forall d :: IsAcked(p, d) ==> d in h.acked)
    && (forall d :: d in p.queries && p.queries[d].response.Some? && confirms(Enable, p.queries[d].response.value) ==>
          d in h.confirmed)
    && (forall d :: d in p.challenges && p.challenges[d].responded ==> d in h.met)
  }

  lemma FinalizedKeepsTraced(confirms: Confirms, p: Plane, d: Id, h: History)
    requires Traced(confirms, p, h)
    ensures Traced(confirms, Finalized(confirms, p, d), h)
  {
  }

  lemma CallbackKeepsTraced(confirms: Confirms, p: Plane, a: Action, h: History)
    requires Sound(p) && Traced(confirms, p, h) && IsCallback(a)
    ensures Traced(confirms, Next(confirms, p, a), Noted(confirms, p, a, h))
  {
    var h' := Noted(confirms, p, a, h);
    match a
    case Ack(d, _, acked, _, _, _) =>
      if AckAccepted(p, a) && acked { FinalizedKeepsTraced(confirms, AckRecorded(p, d, Acked), d, h'); }
    case Snapshot(d, _, _, _, _, payload) =>
      if SnapshotAccepted(p, a) { FinalizedKeepsTraced(confirms, QueryRecorded(p, d, payload), d, h'); }
    case Observation(query, _, _, _, payload) =>
      if ObservationAccepted(p, a) && query.Some? && query.value in p.queries {
        FinalizedKeepsTraced(confirms, QueryRecorded(p, query.value, payload), query.value, h');
      }
    case HeartbeatPush(challenge, _, _, _, _) =>
      if HeartbeatAccepted(p, a) && challenge.Some? {
        FinalizedKeepsTraced(confirms, ChallengeRecorded(p, challenge.value), challenge.value, h');
      }
  }

  lemma NextKeepsTraced(confirms: Confirms, p: Plane, a: Action, h: History)
    requires Sound(p) && Traced(confirms, p, h)
    ensures Traced(confirms, Next(confirms, p, a), Noted(confirms, p, a, h))
  {
    if IsCallback(a) {
      CallbackKeepsTraced(confirms, p, a, h);
    } else if a.ForeignObservation? {
      FinalizedKeepsTraced(confirms, p, a.query, h);
    }
  }

  /** One dispatch went through all four. */
  ghost predicate HasEvidence(h: History) {
    exists d :: d in h.requested && d in h.acked && d in h.confirmed && d in h.met
  }

  lemma NextKeepsEvidence(confirms: Confirms, p: Plane, a: Action, h: History)
    requires Sound(p) && Traced(confirms, p, h) && (p.component.enabled ==> HasEvidence(h))
    ensures Next(confirms, p, a).component.enabled ==> HasEvidence(Noted(confirms, p, a, h))
  {
    var h' := Noted(confirms, p, a, h);
    if p.component.enabled {
      var d :| d in h.requested && d in h.acked && d in h.confirmed && d in h.met;
      NotedGrows(confirms, p, a, h);
      assert d in h'.requested && d in h'.acked && d in h'.confirmed && d in h'.met;
    } else if Next(confirms, p, a).component.enabled {
      var d := OpenedDispatch(confirms, p, a, h);
    }
  }

  lemma NotedGrows(confirms: Confirms, p: Plane, a: Action, h: History)
    ensures var h' := Noted(confirms, p, a, h);
            h.requested <= h'.requested && h.acked <= h'.acked && h.confirmed <= h'.confirmed && h.met <= h'.met
  {
  }

  /**
   In every run of a component, open traffic means that one and the same enable request was filed, acknowledged,
   confirmed by a state answer, and answered in its heartbeat challenge.
   */
  lemma {:induction false} OpenTrafficIsEvidenced(confirms: Confirms, p: Plane, actions: seq<Action>)
    requires Fresh(p)
    ensures Sound(Run(confirms, p, actions))
    ensures Traced(confirms, Run(confirms, p, actions), HistoryOf(confirms, p, actions))
    ensures Run(confirms, p, actions).component.enabled ==> HasEvidence(HistoryOf(confirms, p, actions))
  {
    AlwaysSound(confirms, p, actions);
    if actions != [] {
      var before, a := actions[..|actions| - 1], actions[|actions| - 1];
      OpenTrafficIsEvidenced(confirms, p, before);
      NextKeepsTraced(confirms, Run(confirms, p, before), a, HistoryOf(confirms, p, before));
      NextKeepsEvidence(confirms, Run(confirms, p, before), a, HistoryOf(confirms, p, before));
    }
  }

  lemma OpenedDispatch(confirms: Confirms, p: Plane, a: Action, h: History) returns (d: Id)
    requires Sound(p) && Traced(confirms, p, h)
    requires !p.component.enabled && Next(confirms, p, a).component.enabled
    ensures var h' := Noted(confirms, p, a, h);
            d in h'.requested && d in h'.acked && d in h'.confirmed && d in h'.met
  {
    OpensExactlyOnCompleteEvidence(confirms, p, a);
    match a
    case Ack(id, _, _, _, _, _) => d := id;
    case Snapshot(id, _, _, _, _, _) => d := id;
    case Observation(query, _, _, _, _) => d := query.value;
    case HeartbeatPush(challenge, _, _, _, _) => d := challenge.value;
    case ForeignObservation(id) => d := id;
  }

  // ---------------------------------------------------------------------------------------------------------
  // What the epoch fences off
  // ---------------------------------------------------------------------------------------------------------

  /** A filed activation request or a permission toggle. */
  predicate Supersedes(p: Plane, a: Action) {
    match a
    case RequestActivation(d, enable, readiness, _, _) => d !in p.dispatches && RequestAllowed(p, enable, readiness)
    case TogglePermission => true
    case _ => false
  }

  lemma SupersedingRaisesEpoch(confirms: Confirms, p: Plane, a: Action)
    requires Supersedes(p, a)
    ensures Next(confirms, p, a).component.policyEpoch > p.component.policyEpoch
  {
  }

  /** Nothing of it is checked against the current epoch: a stale callback, or an observation of another component. */
  predicate OutOfEpoch(p: Plane, a: Action) {
    a.ForeignObservation? || (IsCallback(a) && a.epoch != p.component.policyEpoch)
  }

  /** A foreign observation that names an activation dispatch, no probe, whose evidence is complete. */
  predicate Refinalizes(confirms: Confirms, p: Plane, a: Action) {
    && a.ForeignObservation? && a.query in p.queries && EvidenceComplete(confirms, p, a.query)
    && !p.dispatches[a.query].probeOnly
    && (p.dispatches[a.query].command == Enable || p.dispatches[a.query].command == Disable)
  }

  /**
   A callback under another epoch changes no dispatch, query or challenge, no flag, and not the epoch. A foreign
   observation changes no query or challenge, and its flags are those of the command it finalizes again; it is inert,
   but for a dispatch state, exactly when it finalizes none or the component already stands as that command asks.
   */
  lemma StaleCallbackIsInert(confirms: Confirms, p: Plane, a: Action)
    requires Sound(p) && OutOfEpoch(p, a)
    ensures var q := Next(confirms, p, a);
            && q.queries == p.queries && q.challenges == p.challenges
            && (!a.ForeignObservation? ==> q.dispatches == p.dispatches)
            && (!Refinalizes(confirms, p, a) ==> q.component == p.component.(monitoring := q.component.monitoring))
            && (Refinalizes(confirms, p, a) ==> q.component.enabled == (p.dispatches[a.query].command == Enable))
            && (a.ForeignObservation? ==>
                  (q.component == p.component <==>
                     Refinalizes(confirms, p, a) ==>
                       p.component.SameState(Switched(p.component, p.dispatches[a.query].command == Enable))))
  {
  }

  lemma NextKeepsQueryEpoch(confirms: Confirms, p: Plane, a: Action, d: Id)
    requires Sound(p) && d in p.queries
    ensures var q := Next(confirms, p, a);
            d in q.queries && q.queries[d].requestedEpoch == p.queries[d].requestedEpoch
  {
  }

  /** From any moment after the query was filed up to its accepted snapshot, the epoch stood still. */
  lemma {:induction false} SnapshotIsFenced(confirms: Confirms, p: Plane, actions: seq<Action>, a: Action)
    requires Sound(p) && a.Snapshot? && a.id in p.queries
    requires SnapshotAccepted(Run(confirms, p, actions), a)
    ensures Run(confirms, p, actions).component.policyEpoch == p.component.policyEpoch
         == p.queries[a.id].requestedEpoch
    ensures forall i :: 0 <= i < |actions| ==> !Supersedes(Run(confirms, p, actions[..i]), actions[i])
  {
    QueryEpochSurvives(confirms, p, actions, a.id);
    AlwaysSound(confirms, p, actions);
    assert EpochsFit(p, a.id);
    forall i | 0 <= i < |actions| ensures !Supersedes(Run(confirms, p, actions[..i]), actions[i]) {
      EpochBetween(confirms, p, actions, i);
      EpochBetween(confirms, p, actions, i + 1);
      assert actions[..i + 1][..i] == actions[..i];
      if Supersedes(Run(confirms, p, actions[..i]), actions[i]) {
        SupersedingRaisesEpoch(confirms, Run(confirms, p, actions[..i]), actions[i]);
        assert false;
      }
    }
  }

  lemma {:induction false} QueryEpochSurvives(confirms: Confirms, p: Plane, actions: seq<Action>, d: Id)
    requires Sound(p) && d in p.queries
    ensures var q := Run(confirms, p, actions);
            d in q.queries && q.queries[d].requestedEpoch == p.queries[d].requestedEpoch
  {
    if actions != [] {
      var before := actions[..|actions| - 1];
      QueryEpochSurvives(confirms, p, before, d);
      AlwaysSound(confirms, p, before);
      NextKeepsQueryEpoch(confirms, Run(confirms, p, before), actions[|actions| - 1], d);
    }
  }

  /** The epoch never decreases along a run. */
  lemma {:induction false} EpochBetween(confirms: Confirms, p: Plane, actions: seq<Action>, i: nat)
    requires Sound(p) && i <= |actions|
    ensures p.component.policyEpoch <= Run(confirms, p, actions[..i]).component.policyEpoch
         <= Run(confirms, p, actions).component.policyEpoch
    decreases |actions|
  {
    AlwaysSound(confirms, p, actions[..i]);
    if i < |actions| {
      var before := actions[..|actions| - 1];
      EpochBetween(confirms, p, before, i);
      assert before[..i] == actions[..i];
      AlwaysSound(confirms, p, before);
      NextKeepsSound(confirms, Run(confirms, p, before), actions[|actions| - 1]);
    } else {
      assert actions[..i] == actions;
    }
  }

  /**
   A disable request leaves the component one epoch above the epoch it sends out, so its query is never answered by
   a snapshot, and an acknowledgement carrying the epoch of the command is refused.
   */
  lemma DisableOutrunsItsOwnEpoch(confirms: Confirms, p: Plane, actions: seq<Action>, a: Action)
    requires Sound(p)
    requires a.Snapshot? || a.Ack?
    requires var q := Run(confirms, p, actions);
             a.id in q.dispatches && q.dispatches[a.id].command == Disable
    ensures var q := Run(confirms, p, actions);
            && (a.Snapshot? ==> !SnapshotAccepted(q, a) && Next(confirms, q, a).queries == q.queries)
            && (a.Ack? && a.epoch == q.dispatches[a.id].requestedEpoch ==>
                  !AckAccepted(q, a) && Next(confirms, q, a) == q)
  {
    AlwaysSound(confirms, p, actions);
    assert EpochsFit(Run(confirms, p, actions), a.id);
  }

  // ---------------------------------------------------------------------------------------------------------
  // What it does not fence off
  // ---------------------------------------------------------------------------------------------------------

  /**
   A heartbeat answers its challenge whatever epoch the challenge was issued under, so an enable dispatch that a later
   disable request or a retirement overtook can still open traffic: exactly when that dispatch is acknowledged and
   its state answer confirms it.
   */
  lemma HeartbeatOpensForAnyAckedDispatch(confirms: Confirms, p: Plane, d: Id)
    requires Sound(p) && !p.component.enabled && d in p.challenges
    ensures var a := HeartbeatPush(Some(d), Some(p.challenges[d].nonce), p.component.policyEpoch, true, true);
            var q := Next(confirms, p, a);
            && (q.component.enabled <==> IsOpeningDispatch(p, d) && IsAcked(p, d) && QueryAnswered(confirms, p, d))
            && (q.component.enabled ==> q.component.lifecycle == Lifecycle.Active)
  {
    OpensExactlyOnCompleteEvidence(
      confirms, p, HeartbeatPush(Some(d), Some(p.challenges[d].nonce), p.component.policyEpoch, true, true));
  }

  const ALL_READY := Readiness(true, true, true, true)

  /** Enable request 1, acknowledged and confirmed by its state answer, but not yet answered in its challenge. */
  function Prepared(epoch: int, payload: Json): seq<Action> {
    [RequestActivation(1, true, ALL_READY, 10, 20),
     Ack(1, Enable, true, epoch + 1, true, true),
     Snapshot(1, 10, epoch + 1, true, true, payload)]
  }

  lemma RunExtended(confirms: Confirms, p: Plane, actions: seq<Action>, a: Action)
    ensures Run(confirms, p, actions + [a]) == Next(confirms, Run(confirms, p, actions), a)
  {
    assert (actions + [a])[..|actions|] == actions;
  }

  lemma RunOfThree(confirms: Confirms, p: Plane, a: Action, b: Action, c: Action)
    ensures Run(confirms, p, [a, b, c]) == Next(confirms, Next(confirms, Next(confirms, p, a), b), c)
  {
    RunExtended(confirms, p, [], a);
    RunExtended(confirms, p, [a], b);
    RunExtended(confirms, p, [a, b], c);
    assert [] + [a] == [a] && [a] + [b] == [a, b] && [a, b] + [c] == [a, b, c];
  }

  /** Enable request 1, acknowledged. */
  lemma AfterAck(confirms: Confirms, p: Plane)
    requires Fresh(p) && p.component.monitoring == Monitoring.Healthy && p.component.activeRevision.Some?
    ensures var e := p.component.policyEpoch + 1;
            var filed := Next(confirms, p, RequestActivation(1, true, ALL_READY, 10, 20));
            Next(confirms, filed, Ack(1, Enable, true, e, true, true)) ==
            Plane(p.component.WithFlags(false).(activation := Activation.EnableRequested,
                                                operational := Operational.Disabled, policyEpoch := e),
                  map[1 := Dispatch(Enable, e, false, Acked)],
                  map[1 := StateQuery(10, e, None)],
                  map[1 := Challenge(20, e, false)])
  {
    var filed := Next(confirms, p, RequestActivation(1, true, ALL_READY, 10, 20));
    assert filed.component.policyEpoch == p.component.policyEpoch + 1;
    assert filed.dispatches == map[1 := Dispatch(Enable, p.component.policyEpoch + 1, false, Queued)];
    var acked := AckRecorded(filed, 1, Acked);
    assert !acked.challenges[1].responded && Finalized(confirms, acked, 1) == acked;
  }

  lemma AfterAnswer(confirms: Confirms, p: Plane, epoch: int, payload: Json)
    requires p.component.activeRevision.Some? && p.component.policyEpoch == epoch
    requires p.queries == map[1 := StateQuery(10, epoch, None)]
    requires p.challenges == map[1 := Challenge(20, epoch, false)]
    requires p.dispatches == map[1 := Dispatch(Enable, epoch, false, Acked)]
    ensures Next(confirms, p, Snapshot(1, 10, epoch, true, true, payload)) == QueryRecorded(p, 1, payload)
  {
    var answered := QueryRecorded(p, 1, payload);
    assert !answered.challenges[1].responded && Finalized(confirms, answered, 1) == answered;
  }

  lemma AfterPrepared(confirms: Confirms, p: Plane, payload: Json)
    requires Fresh(p) && p.component.monitoring == Monitoring.Healthy && p.component.activeRevision.Some?
    requires confirms(Enable, payload)
    ensures var q := Run(confirms, p, Prepared(p.component.policyEpoch, payload));
            && Sound(q) && !q.component.enabled && q.component.activeRevision.Some?
            && q.component.policyEpoch == p.component.policyEpoch + 1
            && q.component.lifecycle == p.component.lifecycle
            && q.component.activation == Activation.EnableRequested
            && q.component.operational == Operational.Disabled
            && q.dispatches == map[1 := Dispatch(Enable, p.component.policyEpoch + 1, false, Acked)]
            && QueryAnswered(confirms, q, 1)
            && q.challenges == map[1 := Challenge(20, p.component.policyEpoch + 1, false)]
  {
    var actions := Prepared(p.component.policyEpoch, payload);
    RunOfThree(confirms, p, actions[0], actions[1], actions[2]);
    AfterAck(confirms, p);
    var acked := Next(confirms, Next(confirms, p, actions[0]), actions[1]);
    AfterAnswer(confirms, acked, p.component.policyEpoch + 1, payload);
    AlwaysSound(confirms, p, actions);
  }

  /** The latest request need not win: traffic opens after a disable request that is still waiting. */
  lemma SupersededEnableCanOpenTraffic(confirms: Confirms, p: Plane, payload: Json)
    requires Fresh(p) && p.component.monitoring == Monitoring.Healthy && p.component.activeRevision.Some?
    requires confirms(Enable, payload)
    ensures var e := p.component.policyEpoch;
            var disable := RequestActivation(2, false, ALL_READY, 30, 40);
            var answer := HeartbeatPush(Some(1), Some(20), e + 3, true, true);
            var q := Run(confirms, p, Prepared(e, payload) + [disable] + [answer]);
            && q.component.enabled
            && 2 in q.dispatches && q.dispatches[2].command == Disable && q.dispatches[2].state == Queued
  {
    var e := p.component.policyEpoch;
    var disable := RequestActivation(2, false, ALL_READY, 30, 40);
    AfterPrepared(confirms, p, payload);
    RunExtended(confirms, p, Prepared(e, payload), disable);
    RunExtended(confirms, p, Prepared(e, payload) + [disable], HeartbeatPush(Some(1), Some(20), e + 3, true, true));
    var q := Run(confirms, p, Prepared(e, payload));
    var r := Next(confirms, q, disable);
    assert r == Requested(q, 2, false, 30, 40);
    assert r.component.policyEpoch == e + 3;
    NextKeepsSound(confirms, q, disable);
    assert QueryAnswered(confirms, r, 1);
    HeartbeatOpensForAnyAckedDispatch(confirms, r, 1);
  }

  /** Nor is retirement final: answering the old challenge makes a retired component ACTIVE and open. */
  lemma RetirementIsNotFinal(confirms: Confirms, p: Plane, payload: Json)
    requires Fresh(p) && p.component.monitoring == Monitoring.Healthy && p.component.activeRevision.Some?
    requires confirms(Enable, payload) && p.component.lifecycle != Lifecycle.Deregistered
    ensures var e := p.component.policyEpoch;
            var retired := Prepared(e, payload) + [SetLifecycle(DoRetire)];
            var answer := HeartbeatPush(Some(1), Some(20), e + 2, true, true);
            && Run(confirms, p, retired).component.lifecycle == Lifecycle.Retired
            && Run(confirms, p, retired + [answer]).component.enabled
            && Run(confirms, p, retired + [answer]).component.lifecycle == Lifecycle.Active
  {
    var e := p.component.policyEpoch;
    var retired := Prepared(e, payload) + [SetLifecycle(DoRetire)];
    AfterPrepared(confirms, p, payload);
    RunExtended(confirms, p, Prepared(e, payload), SetLifecycle(DoRetire));
    RunExtended(confirms, p, retired, HeartbeatPush(Some(1), Some(20), e + 2, true, true));
    var q := Run(confirms, p, Prepared(e, payload));
    var r := Next(confirms, q, SetLifecycle(DoRetire));
    assert r == q.(component := LifecycleRow(q.component, DoRetire));
    assert r.component.policyEpoch == e + 2;
    NextKeepsSound(confirms, q, SetLifecycle(DoRetire));
    assert QueryAnswered(confirms, r, 1);
    HeartbeatOpensForAnyAckedDispatch(confirms, r, 1);
  }

  /**
   Not even a completed command is final: after it opened traffic and the component was retired, an observation of another
   component that names its query makes the component ACTIVE and open again, without any callback of its own.
   */
  lemma ForeignObservationReopensRetired(confirms: Confirms, p: Plane, payload: Json)
    requires Fresh(p) && p.component.monitoring == Monitoring.Healthy && p.component.activeRevision.Some?
    requires confirms(Enable, payload)
    ensures var e := p.component.policyEpoch;
            var running := Prepared(e, payload) + [HeartbeatPush(Some(1), Some(20), e + 1, true, true)];
            var retired := running + [SetLifecycle(DoRetire)];
            && Run(confirms, p, running).component.enabled
            && Run(confirms, p, retired).component.lifecycle == Lifecycle.Retired
            && Run(confirms, p, retired + [ForeignObservation(1)]).component.enabled
            && Run(confirms, p, retired + [ForeignObservation(1)]).component.lifecycle == Lifecycle.Active
  {
    var e := p.component.policyEpoch;
    var answer := HeartbeatPush(Some(1), Some(20), e + 1, true, true);
    var running := Prepared(e, payload) + [answer];
    var retired := running + [SetLifecycle(DoRetire)];
    var q := Run(confirms, p, Prepared(e, payload));
    AfterPrepared(confirms, p, payload);
    RunExtended(confirms, p, Prepared(e, payload), answer);
    RunExtended(confirms, p, running, SetLifecycle(DoRetire));
    RunExtended(confirms, p, retired, ForeignObservation(1));
    HeartbeatOpensForAnyAckedDispatch(confirms, q, 1);
    CompletedStaysComplete(confirms, q, answer, 1);
    NextKeepsSound(confirms, q, answer);
    ReopenedAfterRetirement(confirms, Next(confirms, q, answer), 1);
  }

  lemma ReopenedAfterRetirement(confirms: Confirms, p: Plane, d: Id)
    requires Sound(p) && p.component.enabled && IsOpeningDispatch(p, d) && EvidenceComplete(confirms, p, d)
    ensures var retired := Next(confirms, p, SetLifecycle(DoRetire));
            var again := Next(confirms, retired, ForeignObservation(d));
            && retired.component.lifecycle == Lifecycle.Retired
            && again.component.enabled && again.component.lifecycle == Lifecycle.Active
  {
    var retired := Next(confirms, p, SetLifecycle(DoRetire));
    NextKeepsSound(confirms, p, SetLifecycle(DoRetire));
    assert retired.dispatches == p.dispatches && retired.queries == p.queries && retired.challenges == p.challenges;
    OpensExactlyOnCompleteEvidence(confirms, retired, ForeignObservation(d));
  }

  /** The heartbeat that opens traffic leaves the evidence of its dispatch complete. */
  lemma CompletedStaysComplete(confirms: Confirms, p: Plane, a: Action, d: Id)
    requires Sound(p) && !p.component.enabled && a.HeartbeatPush? && a.challenge == Some(d)
    requires Next(confirms, p, a).component.enabled
    ensures var q := Next(confirms, p, a); IsOpeningDispatch(q, d) && EvidenceComplete(confirms, q, d)
  {
    OpensExactlyOnCompleteEvidence(confirms, p, a);
  }

  // ---------------------------------------------------------------------------------------------------------
  // The three callbacks in any order
  // ---------------------------------------------------------------------------------------------------------

  /** One outstanding enable request: its dispatch, the nonces it sent out, and the epoch it announced. */
  datatype Request = Request(id: Id, queryNonce: int, challengeNonce: int, epoch: int)

  predicate IsGoodAck(r: Request, a: Action) {
    a == Ack(r.id, Enable, true, r.epoch, true, true)
  }

  predicate IsGoodAnswer(confirms: Confirms, r: Request, a: Action) {
    || (a.Snapshot? && a == Snapshot(r.id, r.queryNonce, r.epoch, true, true, a.payload) && confirms(Enable, a.payload))
    || (a.Observation? && a == Observation(Some(r.id), r.epoch, true, true, a.payload) && confirms(Enable, a.payload))
  }

  predicate IsGoodHeartbeat(r: Request, a: Action) {
    a == HeartbeatPush(Some(r.id), Some(r.challengeNonce), r.epoch, true, true)
  }

  predicate Accepted(p: Plane, a: Action) {
    match a
    case Ack(_, _, _, _, _, _) => AckAccepted(p, a)
    case Snapshot(_, _, _, _, _, _) => p.component.activeRevision.Some? && SnapshotAccepted(p, a)
    case Observation(_, _, _, _, _) => ObservationAccepted(p, a)
    case HeartbeatPush(_, _, _, _, _) => HeartbeatAccepted(p, a)
    case _ => false
  }

  /** A callback that names no row of the component: a heartbeat or an observation of its own accord. */
  predicate NamesNothing(p: Plane, a: Action) {
    || (a.HeartbeatPush? && a.challenge.None?)
    || (a.Observation? && (a.own.None? || a.own.value !in p.queries))
  }

  /** A callback that the component refuses in its present state, for whatever reason, or that names nothing. */
  predicate IsRefused(p: Plane, a: Action) {
    IsCallback(a) && (!Accepted(p, a) || NamesNothing(p, a))
  }

  predicate IsExpected(confirms: Confirms, r: Request, p: Plane, a: Action) {
    IsGoodAck(r, a) || IsGoodAnswer(confirms, r, a) || IsGoodHeartbeat(r, a) || IsRefused(p, a)
  }

  /** Which of the three have arrived. */
  datatype Seen = Seen(ack: bool, answer: bool, heartbeat: bool) {
    predicate All() { ack && answer && heartbeat }
  }

  function SeenIn(confirms: Confirms, r: Request, actions: seq<Action>): Seen {
    if actions == [] then Seen(false, false, false)
    else
      SeenAfter(confirms, r, SeenIn(confirms, r, actions[..|actions| - 1]), actions[|actions| - 1])
  }

  ghost predicate Waiting(confirms: Confirms, r: Request, s: Seen, p: Plane) {
    && Sound(p) && p.component.activeRevision.Some?
    && IsOpeningDispatch(p, r.id) && r.id in p.queries && r.id in p.challenges
    && p.component.enabled == s.All()
    && p.component.policyEpoch == (if s.All() then r.epoch + 1 else r.epoch)
    && p.queries[r.id].nonce == r.queryNonce && p.queries[r.id].requestedEpoch == r.epoch
    && p.challenges[r.id].nonce == r.challengeNonce
    && (IsAcked(p, r.id) <==> s.ack)
    && (p.queries[r.id].response.Some? <==> s.answer)
    && (s.answer ==> confirms(Enable, p.queries[r.id].response.value))
    && (p.challenges[r.id].responded <==> s.heartbeat)
  }

  function SeenAfter(confirms: Confirms, r: Request, s: Seen, a: Action): Seen {
    Seen(s.ack || IsGoodAck(r, a), s.answer || IsGoodAnswer(confirms, r, a), s.heartbeat || IsGoodHeartbeat(r, a))
  }

  lemma RefusedKeepsWaiting(confirms: Confirms, r: Request, s: Seen, p: Plane, a: Action)
    requires Waiting(confirms, r, s, p) && IsRefused(p, a)
    ensures Waiting(confirms, r, s, Next(confirms, p, a))
  {
    NextKeepsSound(confirms, p, a);
  }

  lemma AckKeepsWaiting(confirms: Confirms, r: Request, s: Seen, p: Plane, a: Action)
    requires Waiting(confirms, r, s, p) && IsGoodAck(r, a)
    ensures Waiting(confirms, r, s.(ack := true), Next(confirms, p, a))
  {
    NextKeepsSound(confirms, p, a);
  }

  lemma AnswerKeepsWaiting(confirms: Confirms, r: Request, s: Seen, p: Plane, a: Action)
    requires Waiting(confirms, r, s, p) && IsGoodAnswer(confirms, r, a)
    ensures Waiting(confirms, r, s.(answer := true), Next(confirms, p, a))
  {
    NextKeepsSound(confirms, p, a);
  }

  lemma HeartbeatKeepsWaiting(confirms: Confirms, r: Request, s: Seen, p: Plane, a: Action)
    requires Waiting(confirms, r, s, p) && IsGoodHeartbeat(r, a)
    ensures Waiting(confirms, r, s.(heartbeat := true), Next(confirms, p, a))
  {
    NextKeepsSound(confirms, p, a);
  }

  lemma ExpectedCallbackKeepsWaiting(confirms: Confirms, r: Request, s: Seen, p: Plane, a: Action)
    requires Waiting(confirms, r, s, p) && IsExpected(confirms, r, p, a)
    ensures Waiting(confirms, r, SeenAfter(confirms, r, s, a), Next(confirms, p, a))
  {
    if IsGoodAck(r, a) {
      AckKeepsWaiting(confirms, r, s, p, a);
    } else if IsGoodAnswer(confirms, r, a) {
      AnswerKeepsWaiting(confirms, r, s, p, a);
    } else if IsGoodHeartbeat(r, a) {
      HeartbeatKeepsWaiting(confirms, r, s, p, a);
    } else {
      RefusedKeepsWaiting(confirms, r, s, p, a);
    }
  }

  /**
   After one enable request, whatever the order and repetition of its valid callbacks and among any that are refused when
   they arrive, traffic is open exactly when all three kinds have arrived: the last of the three opens it.
   */
  lemma {:induction false} LastOfThreeOpensTraffic(
    confirms: Confirms, p: Plane, d: Id, queryNonce: int, challengeNonce: int, readiness: Readiness,
    actions: seq<Action>)
    requires Sound(p) && d !in p.dispatches && RequestAllowed(p, true, readiness)
    requires var r := Request(d, queryNonce, challengeNonce, p.component.policyEpoch + 1);
             var start := Next(confirms, p, RequestActivation(d, true, readiness, queryNonce, challengeNonce));
             forall i :: 0 <= i < |actions| ==> IsExpected(confirms, r, Run(confirms, start, actions[..i]), actions[i])
    ensures var r := Request(d, queryNonce, challengeNonce, p.component.policyEpoch + 1);
            var start := Next(confirms, p, RequestActivation(d, true, readiness, queryNonce, challengeNonce));
            && Waiting(confirms, r, SeenIn(confirms, r, actions), Run(confirms, start, actions))
            && (Run(confirms, start, actions).component.enabled <==> SeenIn(confirms, r, actions).All())
  {
    var r := Request(d, queryNonce, challengeNonce, p.component.policyEpoch + 1);
    var request := RequestActivation(d, true, readiness, queryNonce, challengeNonce);
    var start := Next(confirms, p, request);
    if actions == [] {
      NextKeepsSound(confirms, p, request);
    } else {
      var before := actions[..|actions| - 1];
      assert forall i :: 0 <= i < |before| ==> before[..i] == actions[..i] && before[i] == actions[i];
      LastOfThreeOpensTraffic(confirms, p, d, queryNonce, challengeNonce, readiness, before);
      ExpectedCallbackKeepsWaiting(
        confirms, r, SeenIn(confirms, r, before), Run(confirms, start, before), actions[|actions| - 1]);
    }
  }
}
