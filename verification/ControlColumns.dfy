/**
 What each transaction does to a component and to its commands, said of the rows before and after it: which callbacks
 count, which commands complete and on what evidence, which state each transaction leaves, and when the epoch moves.
 */
module ControlColumns {
  import opened Options
  import opened CanonicalJson
  import opened Components
  import opened ControlPlane

  // ---------------------------------------------------------------------------------------------------------
  // Which callbacks count
  // ---------------------------------------------------------------------------------------------------------

  /** The callback comes from the component it claims to come from, and was sent under the epoch that is current. */
  predicate IsAuthentic(p: Plane, a: Action) {
    IsCallback(a) && a.epoch == p.component.policyEpoch && a.identityMatches
  }

  /** An acknowledgement is recorded exactly when it is authentic, fits its schema, and names a command by its kind. */
  lemma AckCountsExactly(confirms: Confirms, p: Plane, a: Action)
    requires Sound(p) && a.Ack?
    ensures var q := Next(confirms, p, a);
            var counts := IsAuthentic(p, a) && a.schemaMatches
                          && a.id in p.dispatches && p.dispatches[a.id].command == a.command;
            && (!counts ==> q == p)
            && (counts ==>
                  && q.dispatches.Keys == p.dispatches.Keys
                  && (forall d :: d in p.dispatches && d != a.id ==> q.dispatches[d] == p.dispatches[d])
                  && (if a.acked then q.dispatches[a.id].state == Acked || q.dispatches[a.id].state == Completed
                      else q.dispatches[a.id].state == Refused)
                  && q.queries == p.queries && q.challenges == p.challenges)
  {
  }

  /** A snapshot answers its query exactly when it is authentic, sent for this query and epoch, valid, and the first. */
  lemma SnapshotCountsExactly(confirms: Confirms, p: Plane, a: Action)
    requires Sound(p) && a.Snapshot? && p.component.activeRevision.Some?
    ensures var q := Next(confirms, p, a);
            var counts := IsAuthentic(p, a) && a.statesValid && a.id in p.queries
                          && p.queries[a.id] == StateQuery(a.nonce, a.epoch, None);
            && q.challenges == p.challenges
            && (!counts ==> q == p.(component := p.component.(monitoring := Monitoring.Degraded)))
            && (counts ==> q.queries == p.queries[a.id := StateQuery(a.nonce, a.epoch, Some(a.payload))])
  {
    if !SnapshotAccepted(p, a) { DegradedRow(p); }
  }

  lemma DegradedRow(p: Plane)
    ensures Degrade(p) == p.(component := p.component.(monitoring := Monitoring.Degraded))
  {
  }

  /** An observation answers the query it names, over any earlier answer, exactly when it is authentic and valid. */
  lemma ObservationCountsExactly(confirms: Confirms, p: Plane, a: Action)
    requires Sound(p) && a.Observation?
    ensures var q := Next(confirms, p, a);
            && q.challenges == p.challenges
            && (!(IsAuthentic(p, a) && a.stateValid) ==>
                  q == p.(component := p.component.(monitoring := Monitoring.Degraded)))
            && (IsAuthentic(p, a) && a.stateValid ==>
                  q.queries == match a.own
                    case Some(d) =>
                      if d in p.queries then p.queries[d := p.queries[d].(response := Some(a.payload))] else p.queries
                    case None => p.queries)
  {
  }

  /**
   A heartbeat is refused when it is not authentic, its clock is off, or it gives the wrong answer to a challenge or an
   answer to none; otherwise it answers the challenge it names.
   */
  lemma HeartbeatCountsExactly(confirms: Confirms, p: Plane, a: Action)
    requires Sound(p) && a.HeartbeatPush?
    ensures var q := Next(confirms, p, a);
            var counts := IsAuthentic(p, a) && a.clockAgrees
                          && match (a.challenge, a.challengeAnswer)
                             case (None, None) => true
                             case (Some(d), Some(n)) => d in p.challenges && p.challenges[d].nonce == n
                             case _ => false;
            && q.queries == p.queries
            && (!counts ==> q == p.(component := p.component.(monitoring := Monitoring.Degraded)))
            && (counts ==>
                  q.challenges == match a.challenge
                    case Some(d) => p.challenges[d := p.challenges[d].(responded := true)]
                    case None => p.challenges)
  {
  }

  // ---------------------------------------------------------------------------------------------------------
  // Which commands complete
  // ---------------------------------------------------------------------------------------------------------

  /** The command that a transaction may complete: an authentic callback or a foreign observation is about it. */
  predicate IsAbout(p: Plane, a: Action, d: Id) {
    match a
    case Ack(id, command, acked, _, _, schemaMatches) =>
      && id == d && acked && IsAuthentic(p, a) && schemaMatches && d in p.dispatches && p.dispatches[d].command == command
    case Snapshot(id, nonce, epoch, _, statesValid, _) =>
      && id == d && IsAuthentic(p, a) && statesValid && p.component.activeRevision.Some?
      && d in p.queries && p.queries[d] == StateQuery(nonce, epoch, None)
    case Observation(own, _, _, stateValid, _) => own == Some(d) && IsAuthentic(p, a) && stateValid && d in p.queries
    case HeartbeatPush(challenge, answer, _, _, clockAgrees) =>
      && challenge == Some(d) && IsAuthentic(p, a) && clockAgrees
      && d in p.challenges && answer == Some(p.challenges[d].nonce)
    case ForeignObservation(id) => id == d && d in p.queries
    case _ => false
  }

  /** The state answer that the rows hold for a command. */
  function AnswerTo(p: Plane, d: Id): Option<Json> {
    if d in p.queries then p.queries[d].response else None
  }

  /** The rows hold all that the command asks for: a state that confirms it, a challenge met, or both. */
  predicate IsProven(confirms: Confirms, p: Plane, d: Id)
    requires d in p.dispatches
  {
    var met := d in p.challenges && p.challenges[d].responded;
    && (p.dispatches[d].state == Acked || p.dispatches[d].state == Completed)
    && match p.dispatches[d].command
       case Enable => AnswerTo(p, d).Some? && confirms(Enable, AnswerTo(p, d).value) && met
       case Disable => AnswerTo(p, d).Some? && confirms(Disable, AnswerTo(p, d).value)
       case QueryState => AnswerTo(p, d).Some?
       case Heartbeat => met
  }

  /** The row of a component once its enable or disable command is proven. */
  function SettledRow(c: Component, command: Command): Component {
    match command
    case Enable =>
      Component(Lifecycle.Active, Activation.Active, Operational.Healthy, Monitoring.Healthy,
                true, true, true, true, c.policyEpoch, c.activeRevision)
    case Disable =>
      Component(if c.lifecycle == Lifecycle.Active then Lifecycle.Approved else c.lifecycle,
                Activation.Ready, Operational.Disabled, Monitoring.Pending,
                false, false, false, false, c.policyEpoch, c.activeRevision)
    case _ => c
  }

  ghost predicate SwitchesAsProven(confirms: Confirms, p: Plane, a: Action, d: Id) {
    var q, c := Next(confirms, p, a), p.component;
    && d in p.dispatches && q.dispatches.Keys == p.dispatches.Keys
    && (forall e :: e in p.dispatches && e != d ==> q.dispatches[e] == p.dispatches[e])
    && q.dispatches[d] == p.dispatches[d].(state := q.dispatches[d].state)
    && (!IsProven(confirms, q, d) ==>
          q.component == c && q.dispatches[d].state == if a.Ack? then Acked else p.dispatches[d].state)
    && (IsProven(confirms, q, d) ==>
          && q.dispatches[d].state == Completed
          && q.component.(policyEpoch := c.policyEpoch) ==
             if p.dispatches[d].probeOnly then c else SettledRow(c, p.dispatches[d].command))
  }

  lemma FinalizingSwitches(confirms: Confirms, p: Plane, d: Id)
    requires d in p.dispatches
    ensures var q, c := Finalized(confirms, p, d), p.component;
            && q.queries == p.queries && q.challenges == p.challenges
            && q.dispatches == p.dispatches[d := p.dispatches[d].(state := q.dispatches[d].state)]
            && (IsProven(confirms, q, d) <==> IsProven(confirms, p, d))
            && (!IsProven(confirms, p, d) ==> q == p)
            && (IsProven(confirms, p, d) ==>
                  && q.dispatches[d].state == Completed
                  && q.component.(policyEpoch := c.policyEpoch) ==
                     if p.dispatches[d].probeOnly then c else SettledRow(c, p.dispatches[d].command))
  {
  }

  /** The rows after the callback itself has been written down. */
  function Recorded(p: Plane, a: Action, d: Id): Plane {
    match a
    case Ack(_, _, _, _, _, _) => if d in p.dispatches then AckRecorded(p, d, Acked) else p
    case Snapshot(_, _, _, _, _, payload) => if d in p.queries then QueryRecorded(p, d, payload) else p
    case Observation(_, _, _, _, payload) => if d in p.queries then QueryRecorded(p, d, payload) else p
    case HeartbeatPush(_, _, _, _, _) => if d in p.challenges then ChallengeRecorded(p, d) else p
    case _ => p
  }

  lemma RecordedThenFinalized(confirms: Confirms, p: Plane, a: Action, d: Id)
    requires Sound(p) && IsAbout(p, a, d)
    ensures Next(confirms, p, a) == Finalized(confirms, Recorded(p, a, d), d) && d in p.dispatches
    ensures var r := Recorded(p, a, d);
            && r.component == p.component && r.dispatches.Keys == p.dispatches.Keys
            && (forall e :: e in p.dispatches && e != d ==> r.dispatches[e] == p.dispatches[e])
            && r.dispatches[d] == p.dispatches[d].(state := if a.Ack? then Acked else p.dispatches[d].state)
  {
  }

  /**
   A transaction about a command completes it exactly when the rows then hold all that it asks for. An enable or disable
   command that is no probe then switches the component; otherwise the component stays as it was.
   */
  lemma ProvenCommandSwitches(confirms: Confirms, p: Plane, a: Action, d: Id)
    requires Sound(p) && IsAbout(p, a, d)
    ensures SwitchesAsProven(confirms, p, a, d)
  {
    RecordedThenFinalized(confirms, p, a, d);
    FinalizingSwitches(confirms, Recorded(p, a, d), d);
  }

  /** Nothing else completes a command. */
  lemma CompletesOnlyWhenAbout(confirms: Confirms, p: Plane, a: Action, d: Id)
    requires Sound(p) && d in Next(confirms, p, a).dispatches && Next(confirms, p, a).dispatches[d].state == Completed
    requires d in p.dispatches ==> p.dispatches[d].state != Completed
    ensures IsAbout(p, a, d) && IsProven(confirms, Next(confirms, p, a), d)
  {
  }

  // ---------------------------------------------------------------------------------------------------------
  // Completed commands have their evidence in every run
  // ---------------------------------------------------------------------------------------------------------

  /** Transaction i was about the command, and an acknowledgement. */
  predicate AckedAt(confirms: Confirms, p: Plane, actions: seq<Action>, d: Id, i: int) {
    0 <= i < |actions| && actions[i].Ack? && IsAbout(Run(confirms, p, actions[..i]), actions[i], d)
  }

  /** Transaction i was about the command, and brought this state answer. */
  predicate AnsweredAt(confirms: Confirms, p: Plane, actions: seq<Action>, d: Id, i: int, answer: Json) {
    && 0 <= i < |actions| && (actions[i].Snapshot? || actions[i].Observation?) && actions[i].payload == answer
    && IsAbout(Run(confirms, p, actions[..i]), actions[i], d)
  }

  /** Transaction i was about the command, and met its challenge. */
  predicate MetAt(confirms: Confirms, p: Plane, actions: seq<Action>, d: Id, i: int) {
    0 <= i < |actions| && actions[i].HeartbeatPush? && IsAbout(Run(confirms, p, actions[..i]), actions[i], d)
  }

  ghost predicate WasAcked(confirms: Confirms, p: Plane, actions: seq<Action>, d: Id) {
    exists i :: AckedAt(confirms, p, actions, d, i)
  }

  ghost predicate WasAnswered(confirms: Confirms, p: Plane, actions: seq<Action>, d: Id, answer: Json) {
    exists i :: AnsweredAt(confirms, p, actions, d, i, answer)
  }

  ghost predicate WasMet(confirms: Confirms, p: Plane, actions: seq<Action>, d: Id) {
    exists i :: MetAt(confirms, p, actions, d, i)
  }

  /** Everything the command asks for happened. */
  ghost predicate WasEvidenced(confirms: Confirms, p: Plane, actions: seq<Action>, d: Id, command: Command) {
    && WasAcked(confirms, p, actions, d)
    && match command
       case Enable =>
         WasMet(confirms, p, actions, d) && exists r :: WasAnswered(confirms, p, actions, d, r) && confirms(Enable, r)
       case Disable => exists r :: WasAnswered(confirms, p, actions, d, r) && confirms(Disable, r)
       case QueryState => exists r :: WasAnswered(confirms, p, actions, d, r)
       case Heartbeat => WasMet(confirms, p, actions, d)
  }

  /** What the rows say of a command did happen. */
  ghost predicate IsTraced(confirms: Confirms, p: Plane, actions: seq<Action>, d: Id) {
    var q := Run(confirms, p, actions);
    && (IsAcknowledged(q, d) ==> WasAcked(confirms, p, actions, d))
    && (AnswerTo(q, d).Some? ==> WasAnswered(confirms, p, actions, d, AnswerTo(q, d).value))
    && (IsMet(q, d) ==> WasMet(confirms, p, actions, d))
    && (d in q.dispatches && q.dispatches[d].state == Completed ==>
          WasEvidenced(confirms, p, actions, d, q.dispatches[d].command))
  }

  lemma HappenedStays(confirms: Confirms, p: Plane, before: seq<Action>, a: Action, d: Id)
    ensures WasAcked(confirms, p, before, d) ==> WasAcked(confirms, p, before + [a], d)
    ensures forall r :: WasAnswered(confirms, p, before, d, r) ==> WasAnswered(confirms, p, before + [a], d, r)
    ensures WasMet(confirms, p, before, d) ==> WasMet(confirms, p, before + [a], d)
  {
    var actions := before + [a];
    forall i | 0 <= i < |before| ensures actions[..i] == before[..i] && actions[i] == before[i] {
    }
    if i :| AckedAt(confirms, p, before, d, i) { assert AckedAt(confirms, p, actions, d, i); }
    if i :| MetAt(confirms, p, before, d, i) { assert MetAt(confirms, p, actions, d, i); }
    forall r | WasAnswered(confirms, p, before, d, r) ensures WasAnswered(confirms, p, actions, d, r) {
      var i :| AnsweredAt(confirms, p, before, d, i, r);
      assert AnsweredAt(confirms, p, actions, d, i, r);
    }
  }

  lemma HappensNow(confirms: Confirms, p: Plane, before: seq<Action>, a: Action, d: Id)
    requires IsAbout(Run(confirms, p, before), a, d)
    ensures a.Ack? ==> WasAcked(confirms, p, before + [a], d)
    ensures a.Snapshot? || a.Observation? ==> WasAnswered(confirms, p, before + [a], d, a.payload)
    ensures a.HeartbeatPush? ==> WasMet(confirms, p, before + [a], d)
  {
    var actions, n := before + [a], |before|;
    assert actions[..n] == before && actions[n] == a;
    assert a.Ack? ==> AckedAt(confirms, p, actions, d, n);
    assert a.Snapshot? || a.Observation? ==> AnsweredAt(confirms, p, actions, d, n, a.payload);
    assert a.HeartbeatPush? ==> MetAt(confirms, p, actions, d, n);
  }

  predicate IsAcknowledged(p: Plane, d: Id) {
    d in p.dispatches && (p.dispatches[d].state == Acked || p.dispatches[d].state == Completed)
  }

  predicate IsMet(p: Plane, d: Id) {
    d in p.challenges && p.challenges[d].responded
  }

  // What a transaction newly says of a command comes from being about it.

  lemma NewlyAcked(confirms: Confirms, p: Plane, a: Action, d: Id)
    requires Sound(p) && IsAcknowledged(Next(confirms, p, a), d) && !IsAcknowledged(p, d)
    ensures a.Ack? && IsAbout(p, a, d)
  {
  }

  lemma NewlyAnswered(confirms: Confirms, p: Plane, a: Action, d: Id)
    requires Sound(p) && AnswerTo(Next(confirms, p, a), d) != AnswerTo(p, d)
    requires AnswerTo(Next(confirms, p, a), d).Some?
    ensures (a.Snapshot? || a.Observation?) && IsAbout(p, a, d) && AnswerTo(Next(confirms, p, a), d) == Some(a.payload)
  {
  }

  lemma NewlyMet(confirms: Confirms, p: Plane, a: Action, d: Id)
    requires Sound(p) && IsMet(Next(confirms, p, a), d) && !IsMet(p, d)
    ensures a.HeartbeatPush? && IsAbout(p, a, d)
  {
  }

  lemma CommandStays(confirms: Confirms, p: Plane, a: Action, d: Id)
    requires Sound(p) && d in p.dispatches
    ensures d in Next(confirms, p, a).dispatches
    ensures Next(confirms, p, a).dispatches[d].command == p.dispatches[d].command
  {
  }

  /**
   In every run a completed command had its evidence: it was acknowledged, and an authentic state answer confirmed it if it
   is an enable or a disable command, and its challenge was met if it is an enable or a heartbeat command.
   */
  lemma {:induction false} CompletedIsEvidenced(confirms: Confirms, p: Plane, actions: seq<Action>, d: Id)
    requires Fresh(p)
    ensures IsTraced(confirms, p, actions, d)
  {
    if actions != [] {
      var before, a := actions[..|actions| - 1], actions[|actions| - 1];
      assert actions == before + [a];
      CompletedIsEvidenced(confirms, p, before, d);
      AlwaysSound(confirms, p, before);
      RunOneMore(confirms, p, before, a);
      NextSaysNothingUnfounded(confirms, Run(confirms, p, before), a, d);
      NextIsTraced(confirms, p, before, a, d);
    }
  }

  /** A transaction from r to q says nothing new of the command unless it is about it. */
  ghost predicate SaysNothingUnfounded(confirms: Confirms, r: Plane, a: Action, q: Plane, d: Id) {
    && (IsAcknowledged(q, d) && !IsAcknowledged(r, d) ==> a.Ack? && IsAbout(r, a, d))
    && (AnswerTo(q, d).Some? && AnswerTo(q, d) != AnswerTo(r, d) ==>
          (a.Snapshot? || a.Observation?) && IsAbout(r, a, d) && AnswerTo(q, d) == Some(a.payload))
    && (IsMet(q, d) && !IsMet(r, d) ==> a.HeartbeatPush? && IsAbout(r, a, d))
    && (d in r.dispatches ==> d in q.dispatches && q.dispatches[d].command == r.dispatches[d].command)
    && (IsCompleted(q, d) && !IsCompleted(r, d) ==> IsProven(confirms, q, d))
  }

  lemma NextSaysNothingUnfounded(confirms: Confirms, p: Plane, a: Action, d: Id)
    requires Sound(p)
    ensures SaysNothingUnfounded(confirms, p, a, Next(confirms, p, a), d)
  {
    var q := Next(confirms, p, a);
    if IsAcknowledged(q, d) && !IsAcknowledged(p, d) { NewlyAcked(confirms, p, a, d); }
    if AnswerTo(q, d).Some? && AnswerTo(q, d) != AnswerTo(p, d) { NewlyAnswered(confirms, p, a, d); }
    if IsMet(q, d) && !IsMet(p, d) { NewlyMet(confirms, p, a, d); }
    if d in p.dispatches { CommandStays(confirms, p, a, d); }
    if IsCompleted(q, d) && !IsCompleted(p, d) { CompletesOnlyWhenAbout(confirms, p, a, d); }
  }

  lemma RunOneMore(confirms: Confirms, p: Plane, before: seq<Action>, a: Action)
    ensures Run(confirms, p, before + [a]) == Next(confirms, Run(confirms, p, before), a)
  {
    assert (before + [a])[..|before|] == before;
  }

  lemma NextIsTraced(confirms: Confirms, p: Plane, before: seq<Action>, a: Action, d: Id)
    requires IsTraced(confirms, p, before, d)
    requires SaysNothingUnfounded(confirms, Run(confirms, p, before), a, Run(confirms, p, before + [a]), d)
    ensures IsTraced(confirms, p, before + [a], d)
  {
    var r, q := Run(confirms, p, before), Run(confirms, p, before + [a]);
    HappenedStays(confirms, p, before, a, d);
    if IsAbout(r, a, d) { HappensNow(confirms, p, before, a, d); }
    if IsCompleted(r, d) {
      EvidenceStays(confirms, p, before, a, d, r.dispatches[d].command);
    } else if IsCompleted(q, d) {
      ProvenIsEvidenced(confirms, p, before + [a], d);
    }
  }

  predicate IsCompleted(p: Plane, d: Id) {
    d in p.dispatches && p.dispatches[d].state == Completed
  }

  lemma EvidenceStays(confirms: Confirms, p: Plane, before: seq<Action>, a: Action, d: Id, command: Command)
    requires WasEvidenced(confirms, p, before, d, command)
    ensures WasEvidenced(confirms, p, before + [a], d, command)
  {
    HappenedStays(confirms, p, before, a, d);
  }

  lemma ProvenIsEvidenced(confirms: Confirms, p: Plane, actions: seq<Action>, d: Id)
    requires var q := Run(confirms, p, actions);
             && d in q.dispatches && IsProven(confirms, q, d)
             && (IsAcknowledged(q, d) ==> WasAcked(confirms, p, actions, d))
             && (AnswerTo(q, d).Some? ==> WasAnswered(confirms, p, actions, d, AnswerTo(q, d).value))
             && (IsMet(q, d) ==> WasMet(confirms, p, actions, d))
    ensures WasEvidenced(confirms, p, actions, d, Run(confirms, p, actions).dispatches[d].command)
  {
  }

  // ---------------------------------------------------------------------------------------------------------
  // What the other transactions leave
  // ---------------------------------------------------------------------------------------------------------

  function Closed(c: Component): Component {
    c.(enabled := false, ingress := false, pulse := false, egress := false)
  }

  /** A failed acknowledgement closes traffic, and only the kind of its command shows in the activation. */
  lemma FailedAckCloses(confirms: Confirms, p: Plane, a: Action)
    requires Sound(p) && a.Ack? && !a.acked && Next(confirms, p, a) != p
    ensures Next(confirms, p, a).component == Closed(p.component).(
              monitoring := Monitoring.Degraded,
              activation := if a.command == Disable then Activation.DisableUnconfirmed else Activation.Blocked)
  {
  }

  /**
   An enable request is filed exactly for a component with an active revision whose monitoring is healthy and whose
   evidence is ready, a disable request for any with an active revision. It closes traffic, and sends out one dispatch,
   one state query and, to enable, one challenge, all under the next epoch.
   */
  lemma RequestFilesExactly(confirms: Confirms, p: Plane, a: Action)
    requires Sound(p) && a.RequestActivation? && a.id !in p.dispatches
    ensures var q, c, e := Next(confirms, p, a), p.component, p.component.policyEpoch + 1;
            var filed := c.activeRevision.Some?
                         && (a.enable ==>
                               && c.monitoring == Monitoring.Healthy && a.readiness.revisionApproved && a.readiness.gatesPassed
                               && a.readiness.auditContiguous && a.readiness.recertified);
            && (!filed ==> q == p)
            && (filed && a.enable ==>
                  q == Plane(Closed(c).(activation := Activation.EnableRequested, operational := Operational.Disabled,
                                        policyEpoch := e),
                             p.dispatches[a.id := Dispatch(Enable, e, false, Queued)],
                             p.queries[a.id := StateQuery(a.queryNonce, e, None)],
                             p.challenges[a.id := Challenge(a.challengeNonce, e, false)]))
            && (filed && !a.enable ==>
                  q == Plane(Closed(c).(activation := Activation.DisableRequested, operational := Operational.Disabled,
                                        lifecycle := if c.lifecycle == Lifecycle.Active then Lifecycle.Approved else c.lifecycle,
                                        policyEpoch := e + 1),
                             p.dispatches[a.id := Dispatch(Disable, e, false, Queued)],
                             p.queries[a.id := StateQuery(a.queryNonce, e, None)],
                             p.challenges))
  {
  }

  /** The states that probes, failures and the watchdog leave; none of them opens traffic or touches a command. */
  lemma HealthShows(confirms: Confirms, p: Plane, a: Action)
    requires Sound(p) && (a.MonitoringProbe? || a.PulseResult? || a.OperationEvent? || a.Watchdog?)
    ensures var q, c := Next(confirms, p, a), p.component;
            q == p.(component := q.component) && q.component.(policyEpoch := c.policyEpoch) == match a
              case MonitoringProbe(pass) =>
                if c.activeRevision.None? then c
                else c.(monitoring := if pass then Monitoring.Healthy else Monitoring.Failed)
              case PulseResult(success) =>
                if success then c else c.(operational := Operational.Unhealthy, monitoring := Monitoring.Failed)
              case OperationEvent(success) =>
                if success then c else c.(operational := Operational.Unhealthy, monitoring := Monitoring.Failed)
              case Watchdog(stale, disable) =>
                if c.lifecycle != Lifecycle.Active || !c.enabled || !stale then c
                else if disable then Closed(c).(operational := Operational.Disabled, monitoring := Monitoring.Failed)
                else c.(operational := Operational.Unhealthy, monitoring := Monitoring.Failed)
  {
  }

  /** A delivery worker that gives up closes traffic and blocks the component; any other mark touches the dispatch alone. */
  lemma WorkerGivesUp(confirms: Confirms, p: Plane, a: Action)
    requires Sound(p) && a.WorkerMarks? && a.id in p.dispatches
    requires a.state != Acked && a.state != Completed
    ensures Next(confirms, p, a) == p.(
              dispatches := p.dispatches[a.id := p.dispatches[a.id].(state := a.state)],
              component := if !a.blocks then p.component
                           else Closed(p.component).(activation := Activation.Blocked, operational := Operational.Unhealthy,
                                                     monitoring := Monitoring.Failed))
  {
  }

  /** The command that a callback or a foreign observation names. */
  function Target(a: Action): Option<Id> {
    match a
    case Ack(d, _, _, _, _, _) => Some(d)
    case Snapshot(d, _, _, _, _, _) => Some(d)
    case Observation(own, _, _, _, _) => own
    case HeartbeatPush(challenge, _, _, _, _) => challenge
    case ForeignObservation(d) => Some(d)
    case _ => None
  }

  /** The transaction proves a command of this kind that is no probe. */
  ghost predicate Proves(confirms: Confirms, p: Plane, a: Action, command: Command) {
    && Target(a).Some? && IsAbout(p, a, Target(a).value)
    && var q, d := Next(confirms, p, a), Target(a).value;
       d in q.dispatches && q.dispatches[d].command == command && !q.dispatches[d].probeOnly && IsProven(confirms, q, d)
  }

  lemma OtherCallbacksKeepLifecycle(confirms: Confirms, p: Plane, a: Action)
    requires Sound(p) && Target(a).Some? && !IsAbout(p, a, Target(a).value)
    ensures Next(confirms, p, a).component.lifecycle == p.component.lifecycle
  {
  }

  /** A query or a heartbeat probe is sent out under the current epoch, and leaves the component alone. */
  lemma ProbesAreQueued(confirms: Confirms, p: Plane, a: Action)
    requires Sound(p) && (a.QueueStateQuery? || a.QueueChallenge?) && a.id !in p.dispatches
    ensures Next(confirms, p, a) ==
            if p.component.activeRevision.None? then p
            else if a.QueueStateQuery? then
              p.(dispatches := p.dispatches[a.id := Dispatch(QueryState, p.component.policyEpoch, false, Queued)],
                 queries := p.queries[a.id := StateQuery(a.queryNonce, p.component.policyEpoch, None)])
            else
              p.(dispatches := p.dispatches[a.id := Dispatch(Heartbeat, p.component.policyEpoch, false, Queued)],
                 challenges := p.challenges[a.id := Challenge(a.challengeNonce, p.component.policyEpoch, false)])
  {
  }

  /** The lifecycle moves only along these edges, each taken by its own transactions. */
  lemma LifecycleMoves(confirms: Confirms, p: Plane, a: Action)
    requires Sound(p) && Next(confirms, p, a).component.lifecycle != p.component.lifecycle
    ensures var to, from := Next(confirms, p, a).component.lifecycle, p.component.lifecycle;
            match to
            case Active => Proves(confirms, p, a, Enable)
            case Approved =>
              || (from == Lifecycle.Active && ((a.RequestActivation? && !a.enable) || Proves(confirms, p, a, Disable)))
              || ((from == Lifecycle.Quarantined || from == Lifecycle.Suspended) && a == SetLifecycle(DoRestore))
            case Quarantined => a == SetLifecycle(DoQuarantine) || a == AuditConflict
            case Retired => from != Lifecycle.Deregistered && a == SetLifecycle(DoRetire)
            case Deregistered => from == Lifecycle.Retired && a == SetLifecycle(DoDeregister)
            case _ => false
  {
    if Target(a).Some? {
      if IsAbout(p, a, Target(a).value) {
        ProvenCommandSwitches(confirms, p, a, Target(a).value);
      } else {
        OtherCallbacksKeepLifecycle(confirms, p, a);
      }
    }
  }

  /** A lifecycle action is refused exactly off its edges, and otherwise leaves a closed component in its states. */
  lemma LifecycleActionLeaves(confirms: Confirms, p: Plane, a: Action)
    requires Sound(p) && a.SetLifecycle?
    ensures var q, c, from := Next(confirms, p, a), p.component, p.component.lifecycle;
            q == p.(component := q.component) && q.component.(policyEpoch := c.policyEpoch) == match a.lifecycleAction
              case DoQuarantine =>
                Closed(c).(lifecycle := Lifecycle.Quarantined, activation := Activation.Blocked,
                           operational := Operational.Quarantined)
              case DoRestore =>
                if from != Lifecycle.Quarantined && from != Lifecycle.Suspended then c
                else Closed(c).(lifecycle := Lifecycle.Approved, activation := Activation.Ready,
                                operational := Operational.Disabled)
              case DoRetire =>
                if from == Lifecycle.Deregistered then c
                else Closed(c).(lifecycle := Lifecycle.Retired, activation := Activation.Inactive,
                                operational := Operational.Retired)
              case DoDeregister =>
                if from != Lifecycle.Retired then c
                else Closed(c).(lifecycle := Lifecycle.Deregistered, activation := Activation.Inactive,
                                operational := Operational.Retired)
  {
  }

  /** The row differs in more than the epoch. */
  predicate HasMoved(c: Component, after: Component) {
    after.(policyEpoch := c.policyEpoch) != c
  }

  /** How far a transaction that leaves this row moves the epoch. */
  function EpochSteps(c: Component, a: Action, after: Component): int {
    match a
    case RequestActivation(_, enable, _, _, _) => if after == c then 0 else if enable then 1 else 2
    case TogglePermission => 1
    case Ack(_, _, acked, _, _, _) => if acked && HasMoved(c, after) then 1 else 0
    case Snapshot(_, _, _, _, _, _) => if IsRefusal(c, after) then 0 else 1
    case Observation(_, _, _, _, _) => if IsRefusal(c, after) then 0 else 1
    case HeartbeatPush(_, _, _, _, _) => if IsRefusal(c, after) then 0 else 1
    case ForeignObservation(_) => if HasMoved(c, after) then 1 else 0
    case PulseResult(_) => if HasMoved(c, after) then 1 else 0
    case SetLifecycle(_) => if HasMoved(c, after) then 1 else 0
    case AuditConflict => if HasMoved(c, after) then 1 else 0
    case _ => 0
  }

  lemma FinalizingMovesEpoch(confirms: Confirms, p: Plane, d: Id)
    ensures var c, after := p.component, Finalized(confirms, p, d).component;
            && after.policyEpoch - c.policyEpoch == (if HasMoved(c, after) then 1 else 0)
            && (HasMoved(c, after) ==> !IsRefusal(c, after))
  {
  }

  lemma CallbackMovesEpoch(confirms: Confirms, p: Plane, a: Action)
    requires Sound(p) && (IsCallback(a) || a.ForeignObservation?)
    ensures var c, after := p.component, Next(confirms, p, a).component;
            after.policyEpoch - c.policyEpoch == EpochSteps(c, a, after)
  {
    match a
    case Ack(d, _, _, _, _, _) => if AckAccepted(p, a) { FinalizingMovesEpoch(confirms, AckRecorded(p, d, Acked), d); }
    case Snapshot(d, _, _, _, _, payload) =>
      if SnapshotAccepted(p, a) { FinalizingMovesEpoch(confirms, QueryRecorded(p, d, payload), d); }
    case Observation(own, _, _, _, payload) =>
      if own.Some? && own.value in p.queries { FinalizingMovesEpoch(confirms, QueryRecorded(p, own.value, payload), own.value); }
    case HeartbeatPush(challenge, _, _, _, _) =>
      if challenge.Some? && challenge.value in p.challenges {
        FinalizingMovesEpoch(confirms, ChallengeRecorded(p, challenge.value), challenge.value);
      }
    case ForeignObservation(d) => FinalizingMovesEpoch(confirms, p, d);
  }

  /**
   The epoch counts filed requests, permission toggles, and every change of state, except those by refused and failed
   callbacks, the watchdog, probes, failed operations and delivery workers.
   */
  lemma EpochCountsStateChanges(confirms: Confirms, p: Plane, a: Action)
    requires Sound(p)
    ensures var c, after := p.component, Next(confirms, p, a).component;
            after.policyEpoch - c.policyEpoch == EpochSteps(c, a, after)
  {
    if IsCallback(a) || a.ForeignObservation? { CallbackMovesEpoch(confirms, p, a); }
  }

  /** The row stayed as it was, or only its monitoring became DEGRADED. */
  predicate IsRefusal(c: Component, after: Component) {
    !HasMoved(c, after) || !HasMoved(c.(monitoring := Monitoring.Degraded), after)
  }
}
