/**
 The control plane of one component: activation requests close all traffic and wait for an acknowledgement, a state
 answer and a heartbeat-challenge answer; whichever callback completes the evidence opens traffic.
 */
module ControlPlane {
  import opened CodeUnits
  import opened Options
  import opened CanonicalJson
  import opened Components

  datatype Command = Enable | Disable | QueryState | Heartbeat

  datatype DispatchState = Queued | Claimed | AckPending | Acked | Refused | Expired | Completed

  datatype Dispatch = Dispatch(command: Command, requestedEpoch: int, probeOnly: bool, state: DispatchState)

  /** A state query is RESPONDED once it has a response. */
  datatype StateQuery = StateQuery(nonce: int, requestedEpoch: int, response: Option<Json>)

  datatype Challenge = Challenge(nonce: int, requestedEpoch: int, responded: bool)

  type Id = int

  /**
   The rows of one component. A dispatch has at most one state query and at most one heartbeat challenge, and the model
   files them under the identifier of their dispatch.
   */
  datatype Plane = Plane(
    component: Component, dispatches: map<Id, Dispatch>, queries: map<Id, StateQuery>, challenges: map<Id, Challenge>)

  /** Whether a state payload confirms an enable or a disable command. */
  type Confirms = (Command, Json) -> bool

  /** The parts of an enable request that are checked against evidence outside these rows. */
  datatype Readiness = Readiness(revisionApproved: bool, gatesPassed: bool, auditContiguous: bool, recertified: bool) {
    predicate Holds() {
      revisionApproved && gatesPassed && auditContiguous && recertified
    }
  }

  datatype LifecycleAction = DoQuarantine | DoRestore | DoRetire | DoDeregister

  /**
   One transaction, as it reaches these rows. A foreign observation is an accepted observation of another component that
   names a state query of this one.
   */
  datatype Action =
    | RequestActivation(id: Id, enable: bool, readiness: Readiness, queryNonce: int, challengeNonce: int)
    | QueueStateQuery(id: Id, queryNonce: int)
    | QueueChallenge(id: Id, challengeNonce: int)
    | Ack(id: Id, command: Command, acked: bool, epoch: int, identityMatches: bool, schemaMatches: bool)
    | Snapshot(id: Id, nonce: int, epoch: int, identityMatches: bool, statesValid: bool, payload: Json)
    | Observation(own: Option<Id>, epoch: int, identityMatches: bool, stateValid: bool, payload: Json)
    | HeartbeatPush(challenge: Option<Id>, challengeAnswer: Option<int>, epoch: int, identityMatches: bool, clockAgrees: bool)
    | WorkerMarks(id: Id, state: DispatchState, blocks: bool)
    | ForeignObservation(query: Id)
    | Watchdog(stale: bool, disable: bool)
    | MonitoringProbe(pass: bool)
    | PulseResult(success: bool)
    | OperationEvent(success: bool)
    | SetLifecycle(lifecycleAction: LifecycleAction)
    | TogglePermission
    | AuditConflict

  // ---------------------------------------------------------------------------------------------------------
  // Evidence
  // ---------------------------------------------------------------------------------------------------------

  predicate IsAcked(p: Plane, d: Id) {
    d in p.dispatches && (p.dispatches[d].state == Acked || p.dispatches[d].state == Completed)
  }

  predicate QueryAnswered(confirms: Confirms, p: Plane, d: Id) {
    d in p.dispatches &&
    match p.dispatches[d].command
    case QueryState => d in p.queries && p.queries[d].response.Some?
    case Heartbeat => true
    case command => d in p.queries && p.queries[d].response.Some? && confirms(command, p.queries[d].response.value)
  }

  predicate ChallengeAnswered(p: Plane, d: Id) {
    d in p.dispatches &&
    (p.dispatches[d].command == Enable || p.dispatches[d].command == Heartbeat ==>
       d in p.challenges && p.challenges[d].responded)
  }

  predicate EvidenceComplete(confirms: Confirms, p: Plane, d: Id) {
    IsAcked(p, d) && QueryAnswered(confirms, p, d) && ChallengeAnswered(p, d)
  }

  /** The component row that a confirmed enable or disable command asks for. */
  function Switched(c: Component, open: bool): Component {
    c.WithFlags(open).(
      activation := if open then Activation.Active else Activation.Ready,
      lifecycle := if open then Lifecycle.Active else Demoted(c.lifecycle),
      operational := if open then Operational.Healthy else Operational.Disabled,
      monitoring := if open then Monitoring.Healthy else Monitoring.Pending)
  }

  function Demoted(lifecycle: Lifecycle): Lifecycle {
    if lifecycle == Lifecycle.Active then Lifecycle.Approved else lifecycle
  }

  function Finalized(confirms: Confirms, p: Plane, d: Id): Plane {
    if !EvidenceComplete(confirms, p, d) then p
    else
      var dispatch := p.dispatches[d];
      var switches := (dispatch.command == Enable || dispatch.command == Disable) && !dispatch.probeOnly;
      p.(component := if switches then Stored(p.component, Switched(p.component, dispatch.command == Enable), false)
                      else p.component,
         dispatches := p.dispatches[d := dispatch.(state := Completed)])
  }

  // ---------------------------------------------------------------------------------------------------------
  // Transactions
  // ---------------------------------------------------------------------------------------------------------

  predicate RequestAllowed(p: Plane, enable: bool, readiness: Readiness) {
    && p.component.activeRevision.Some?
    && (enable ==> readiness.Holds() && p.component.monitoring == Monitoring.Healthy)
  }

  function Requested(p: Plane, d: Id, enable: bool, queryNonce: int, challengeNonce: int): Plane {
    var c := p.component;
    var epoch := c.policyEpoch + 1;
    var closed := Stored(c, c.WithFlags(false).(
      activation := if enable then Activation.EnableRequested else Activation.DisableRequested,
      lifecycle := if enable then c.lifecycle else Demoted(c.lifecycle),
      operational := Operational.Disabled,
      policyEpoch := epoch), false);
    Plane(if enable then closed else Stored(closed, closed.(policyEpoch := closed.policyEpoch + 1), false),
          p.dispatches[d := Dispatch(if enable then Enable else Disable, epoch, false, Queued)],
          p.queries[d := StateQuery(queryNonce, epoch, None)],
          if enable then p.challenges[d := Challenge(challengeNonce, epoch, false)] else p.challenges)
  }

  /** A health transition: the watchdog mark keeps the policy epoch. */
  function Degrade(p: Plane): Plane {
    p.(component := Stored(p.component, p.component.(monitoring := Monitoring.Degraded), true))
  }

  predicate AckAccepted(p: Plane, a: Action)
    requires a.Ack?
  {
    && a.epoch == p.component.policyEpoch && a.identityMatches
    && a.id in p.dispatches && p.dispatches[a.id].command == a.command && a.schemaMatches
  }

  function AckRecorded(p: Plane, d: Id, state: DispatchState): Plane
    requires d in p.dispatches
  {
    p.(dispatches := p.dispatches[d := p.dispatches[d].(state := state)])
  }

  function AckRefused(p: Plane, command: Command): Plane {
    p.(component := Stored(p.component, p.component.WithFlags(false).(
         activation := if command == Disable then Activation.DisableUnconfirmed else Activation.Blocked,
         monitoring := Monitoring.Degraded), true))
  }

  predicate SnapshotAccepted(p: Plane, a: Action)
    requires a.Snapshot?
  {
    && a.id in p.queries && p.queries[a.id].nonce == a.nonce && p.queries[a.id].response.None?
    && a.epoch == p.component.policyEpoch && a.epoch == p.queries[a.id].requestedEpoch
    && a.identityMatches && a.statesValid
  }

  predicate ObservationAccepted(p: Plane, a: Action)
    requires a.Observation?
  {
    a.stateValid && a.epoch == p.component.policyEpoch && a.identityMatches
  }

  function QueryRecorded(p: Plane, d: Id, payload: Json): Plane
    requires d in p.queries
  {
    p.(queries := p.queries[d := p.queries[d].(response := Some(payload))])
  }

  predicate HeartbeatAccepted(p: Plane, a: Action)
    requires a.HeartbeatPush?
  {
    && a.clockAgrees && a.epoch == p.component.policyEpoch && a.identityMatches
    && (a.challenge.Some? || a.challengeAnswer.Some? ==>
          && a.challenge.Some? && a.challenge.value in p.challenges
          && a.challengeAnswer == Some(p.challenges[a.challenge.value].nonce))
  }

  function ChallengeRecorded(p: Plane, d: Id): Plane
    requires d in p.challenges
  {
    p.(challenges := p.challenges[d := p.challenges[d].(responded := true)])
  }

  function ProbeRow(c: Component, pass: bool): Component {
    Stored(c, c.(monitoring := if pass then Monitoring.Healthy else Monitoring.Failed), true)
  }

  /** The row after a failed operation; only the event writer marks its transaction as a health transition. */
  function FailureRow(c: Component, healthTransition: bool): Component {
    Stored(c, c.(operational := Operational.Unhealthy, monitoring := Monitoring.Failed), healthTransition)
  }

  function WatchdogRow(c: Component, disable: bool): Component {
    var failed := c.(operational := if disable then Operational.Disabled else Operational.Unhealthy,
                     monitoring := Monitoring.Failed);
    Stored(c, if disable then failed.WithFlags(false) else failed, true)
  }

  predicate LifecycleAllowed(c: Component, action: LifecycleAction) {
    match action
    case DoQuarantine => true
    case DoRestore => c.lifecycle == Lifecycle.Quarantined || c.lifecycle == Lifecycle.Suspended
    case DoRetire => c.lifecycle != Lifecycle.Deregistered
    case DoDeregister => c.lifecycle == Lifecycle.Retired
  }

  function LifecycleRow(c: Component, action: LifecycleAction): Component {
    var closed := c.WithFlags(false);
    Stored(c, match action
      case DoQuarantine => closed.(lifecycle := Lifecycle.Quarantined, activation := Activation.Blocked,
                                   operational := Operational.Quarantined)
      case DoRestore => closed.(lifecycle := Lifecycle.Approved, activation := Activation.Ready,
                                operational := Operational.Disabled)
      case DoRetire => closed.(lifecycle := Lifecycle.Retired, activation := Activation.Inactive,
                               operational := Operational.Retired)
      case DoDeregister => closed.(lifecycle := Lifecycle.Deregistered, activation := Activation.Inactive,
                                   operational := Operational.Retired),
      false)
  }

  /** The states a delivery worker writes: claim, delivered, retry, expiry, terminal failure. */
  predicate WorkerState(state: DispatchState) {
    state == Queued || state == Claimed || state == AckPending || state == Expired || state == Refused
  }

  function BlockedRow(c: Component): Component {
    Stored(c, c.WithFlags(false).(activation := Activation.Blocked, operational := Operational.Unhealthy,
                                  monitoring := Monitoring.Failed), true)
  }

  /** The rows after one transaction. A transaction that throws leaves them as they were. */
  function Next(confirms: Confirms, p: Plane, a: Action): Plane {
    match a
    case RequestActivation(d, enable, readiness, queryNonce, challengeNonce) =>
      if d in p.dispatches || !RequestAllowed(p, enable, readiness) then p
      else Requested(p, d, enable, queryNonce, challengeNonce)
    case QueueStateQuery(d, nonce) =>
      if d in p.dispatches || p.component.activeRevision.None? then p
      else p.(dispatches := p.dispatches[d := Dispatch(QueryState, p.component.policyEpoch, false, Queued)],
              queries := p.queries[d := StateQuery(nonce, p.component.policyEpoch, None)])
    case QueueChallenge(d, nonce) =>
      if d in p.dispatches || p.component.activeRevision.None? then p
      else p.(dispatches := p.dispatches[d := Dispatch(Heartbeat, p.component.policyEpoch, false, Queued)],
              challenges := p.challenges[d := Challenge(nonce, p.component.policyEpoch, false)])
    case Ack(d, command, acked, _, _, _) =>
      if !AckAccepted(p, a) then p
      else if acked then Finalized(confirms, AckRecorded(p, d, Acked), d)
      else AckRefused(AckRecorded(p, d, Refused), command)
    case Snapshot(d, _, _, _, _, payload) =>
      if p.component.activeRevision.None? then p
      else if SnapshotAccepted(p, a) then Finalized(confirms, QueryRecorded(p, d, payload), d)
      else Degrade(p)
    case Observation(query, _, _, _, payload) =>
      if !ObservationAccepted(p, a) then Degrade(p)
      else if query.Some? && query.value in p.queries then
        Finalized(confirms, QueryRecorded(p, query.value, payload), query.value)
      else p
    case HeartbeatPush(challenge, _, _, _, _) =>
      if !HeartbeatAccepted(p, a) then Degrade(p)
      else if challenge.Some? then Finalized(confirms, ChallengeRecorded(p, challenge.value), challenge.value)
      else p
    case ForeignObservation(d) => if d in p.queries then Finalized(confirms, p, d) else p
    case MonitoringProbe(pass) =>
      if p.component.activeRevision.Some? then p.(component := ProbeRow(p.component, pass)) else p
    case PulseResult(success) => if success then p else p.(component := FailureRow(p.component, false))
    case OperationEvent(success) => if success then p else p.(component := FailureRow(p.component, true))
    case WorkerMarks(d, state, blocks) =>
      if d !in p.dispatches || !WorkerState(state) then p
      else
        var q := AckRecorded(p, d, state);
        if blocks then q.(component := BlockedRow(q.component)) else q
    case Watchdog(stale, disable) =>
      if p.component.lifecycle == Lifecycle.Active && p.component.enabled && stale then
        p.(component := WatchdogRow(p.component, disable))
      else p
    case SetLifecycle(action) =>
      if LifecycleAllowed(p.component, action) then p.(component := LifecycleRow(p.component, action)) else p
    case TogglePermission =>
      p.(component := Stored(p.component, p.component.(policyEpoch := p.component.policyEpoch + 1), false))
    case AuditConflict => p.(component := Quarantine(p.component))
  }

  /** The same rows as tables that each transaction updates in place. */
  class ControlTables {
    const confirms: Confirms
    var component: Component
    var dispatches: map<Id, Dispatch>
    var queries: map<Id, StateQuery>
    var challenges: map<Id, Challenge>

    function Rows(): Plane
      reads this
    {
      Plane(component, dispatches, queries, challenges)
    }

    constructor (confirms: Confirms, component: Component)
      ensures this.confirms == confirms && Rows() == Plane(component, map[], map[], map[])
    {
      this.confirms, this.component := confirms, component;
      dispatches, queries, challenges := map[], map[], map[];
    }

    /** `update component`, with the trigger that runs before it. */
    method UpdateComponent(after: Component, healthTransition: bool)
      modifies this`component
      ensures component == Stored(old(component), after, healthTransition)
    {
      var changed := !component.SameState(after);
      if !healthTransition && changed {
        component := after.(policyEpoch := component.policyEpoch + 1);
      } else {
        component := after;
      }
    }

    method MarkDegraded()
      modifies this`component
      ensures Rows() == Degrade(old(Rows()))
    {
      UpdateComponent(component.(monitoring := Monitoring.Degraded), true);
    }

    /** `finalizeDispatchFromEvidence` */
    method FinalizeDispatch(d: Id)
      modifies this`component, this`dispatches
      ensures Rows() == Finalized(confirms, old(Rows()), d)
    {
      if d !in dispatches { return; }
      var dispatch := dispatches[d];
      var answered := d in queries && queries[d].response.Some?;
      var queryOkay := match dispatch.command
        case QueryState => answered
        case Heartbeat => true
        case command => answered && confirms(command, queries[d].response.value);
      var heartbeatOkay :=
        (dispatch.command != Enable && dispatch.command != Heartbeat) || (d in challenges && challenges[d].responded);
      var acked := dispatch.state == Acked || dispatch.state == Completed;
      if !acked || !queryOkay || !heartbeatOkay { return; }
      var activationCommand := dispatch.command == Enable || dispatch.command == Disable;
      if activationCommand && !dispatch.probeOnly {
        UpdateComponent(Switched(component, dispatch.command == Enable), false);
      }
      dispatches := dispatches[d := dispatch.(state := Completed)];
    }

    /** `setComponentActivation`; the result says whether the request was filed. */
    method SetActivation(d: Id, enable: bool, readiness: Readiness, queryNonce: int, challengeNonce: int)
      returns (filed: bool)
      requires d !in dispatches
      modifies this
      ensures filed <==> RequestAllowed(old(Rows()), enable, readiness)
      ensures Rows() == Next(confirms, old(Rows()), RequestActivation(d, enable, readiness, queryNonce, challengeNonce))
    {
      if component.activeRevision.None? { return false; }
      if enable {
        if !readiness.revisionApproved || !readiness.gatesPassed { return false; }
        if component.monitoring != Monitoring.Healthy || !readiness.auditContiguous || !readiness.recertified {
          return false;
        }
      }
      var requestedEpoch := component.policyEpoch + 1;
      dispatches := dispatches[d := Dispatch(if enable then Enable else Disable, requestedEpoch, false, Queued)];
      queries := queries[d := StateQuery(queryNonce, requestedEpoch, None)];
      if enable {
        challenges := challenges[d := Challenge(challengeNonce, requestedEpoch, false)];
      }
      UpdateComponent(
        component.WithFlags(false).(
          activation := if enable then Activation.EnableRequested else Activation.DisableRequested,
          lifecycle := if enable then component.lifecycle else Demoted(component.lifecycle),
          operational := Operational.Disabled,
          policyEpoch := requestedEpoch),
        false);
      if !enable {
        UpdateComponent(component.(policyEpoch := component.policyEpoch + 1), false);
      }
      return true;
    }

    /** `recordComponentControlAck` */
    method RecordAck(d: Id, command: Command, acked: bool, epoch: int, identityMatches: bool, schemaMatches: bool)
      returns (accepted: bool)
      modifies this
      ensures var a := Action.Ack(d, command, acked, epoch, identityMatches, schemaMatches);
              Rows() == Next(confirms, old(Rows()), a) && (accepted <==> AckAccepted(old(Rows()), a))
    {
      if epoch != component.policyEpoch || !identityMatches { return false; }
      if d !in dispatches || dispatches[d].command != command { return false; }
      if !schemaMatches { return false; }
      dispatches := dispatches[d := dispatches[d].(state := if acked then Acked else Refused)];
      if !acked {
        UpdateComponent(
          component.WithFlags(false).(
            activation := if command == Disable then Activation.DisableUnconfirmed else Activation.Blocked,
            monitoring := Monitoring.Degraded),
          true);
      } else {
        FinalizeDispatch(d);
      }
      return true;
    }

    /** `recordComponentStateSnapshot` */
    method RecordSnapshot(d: Id, nonce: int, epoch: int, identityMatches: bool, statesValid: bool, payload: Json)
      returns (accepted: bool)
      modifies this
      ensures var a := Action.Snapshot(d, nonce, epoch, identityMatches, statesValid, payload);
              && Rows() == Next(confirms, old(Rows()), a)
              && (accepted <==> old(Rows()).component.activeRevision.Some? && SnapshotAccepted(old(Rows()), a))
    {
      if component.activeRevision.None? { return false; }
      var rejected := true;
      if d !in queries || queries[d].nonce != nonce || queries[d].response.Some? {
      } else if epoch != component.policyEpoch || epoch != queries[d].requestedEpoch {
      } else if identityMatches && statesValid {
        rejected := false;
      }
      if rejected {
        MarkDegraded();
        return false;
      }
      queries := queries[d := queries[d].(response := Some(payload))];
      FinalizeDispatch(d);
      return true;
    }

    /** `recordComponentStateObservation` */
    method RecordObservation(query: Option<Id>, epoch: int, identityMatches: bool, stateValid: bool, payload: Json)
      returns (accepted: bool)
      modifies this
      ensures var a := Action.Observation(query, epoch, identityMatches, stateValid, payload);
              Rows() == Next(confirms, old(Rows()), a) && (accepted <==> ObservationAccepted(old(Rows()), a))
    {
      accepted := stateValid;
      if epoch != component.policyEpoch { accepted := false; }
      if !identityMatches { accepted := false; }
      if query.Some? && accepted {
        if query.value in queries {
          queries := queries[query.value := queries[query.value].(response := Some(payload))];
          FinalizeDispatch(query.value);
        }
      }
      if !accepted {
        MarkDegraded();
      }
    }

    /** `recordComponentHeartbeat` */
    method RecordHeartbeat(challenge: Option<Id>, challengeAnswer: Option<int>, epoch: int, identityMatches: bool,
                           clockAgrees: bool)
      returns (accepted: bool)
      modifies this
      ensures var a := Action.HeartbeatPush(challenge, challengeAnswer, epoch, identityMatches, clockAgrees);
              Rows() == Next(confirms, old(Rows()), a) && (accepted <==> HeartbeatAccepted(old(Rows()), a))
    {
      accepted := clockAgrees && epoch == component.policyEpoch && identityMatches;
      if challenge.Some? || challengeAnswer.Some? {
        if challenge.None? || challenge.value !in challenges
           || challengeAnswer != Some(challenges[challenge.value].nonce) {
          accepted := false;
        } else if accepted {
          challenges := challenges[challenge.value := challenges[challenge.value].(responded := true)];
        }
      }
      if !accepted {
        MarkDegraded();
        return;
      }
      if challenge.Some? {
        FinalizeDispatch(challenge.value);
      }
    }

    /** `recordComponentMonitoringWatchdog` */
    method RecordProbe(pass: bool)
      modifies this`component
      ensures Rows() == Next(confirms, old(Rows()), MonitoringProbe(pass))
    {
      if component.activeRevision.None? { return; }
      UpdateComponent(component.(monitoring := if pass then Monitoring.Healthy else Monitoring.Failed), true);
    }

    /** The component update of `ingestComponentPulse`, which also writes the row of a success. */
    method RecordPulse(success: bool)
      modifies this`component
      ensures Rows() == Next(confirms, old(Rows()), PulseResult(success))
    {
      var after := component;
      if !success {
        after := after.(operational := Operational.Unhealthy, monitoring := Monitoring.Failed);
      }
      UpdateComponent(after, false);
    }

    /** The component update of `ingestComponentOperationEvent` */
    method RecordOperationEvent(success: bool)
      modifies this`component
      ensures Rows() == Next(confirms, old(Rows()), OperationEvent(success))
    {
      if success { return; }
      UpdateComponent(component.(operational := Operational.Unhealthy, monitoring := Monitoring.Failed), true);
    }

    /** `markStaleComponentHeartbeats`, for this component */
    method MarkStale(stale: bool, disable: bool)
      modifies this`component
      ensures Rows() == Next(confirms, old(Rows()), Watchdog(stale, disable))
    {
      if component.lifecycle != Lifecycle.Active || !component.enabled || !stale { return; }
      var after := component.(operational := if disable then Operational.Disabled else Operational.Unhealthy,
                              monitoring := Monitoring.Failed);
      if disable {
        after := after.WithFlags(false);
      }
      UpdateComponent(after, true);
    }

    /** `setComponentLifecycle`; the result says whether the action was allowed. */
    method ChangeLifecycle(action: LifecycleAction) returns (allowed: bool)
      modifies this`component
      ensures Rows() == Next(confirms, old(Rows()), SetLifecycle(action))
      ensures allowed <==> LifecycleAllowed(old(component), action)
    {
      if action.DoRestore? && component.lifecycle != Lifecycle.Quarantined && component.lifecycle != Lifecycle.Suspended {
        return false;
      }
      if action.DoRetire? && component.lifecycle == Lifecycle.Deregistered { return false; }
      if action.DoDeregister? && component.lifecycle != Lifecycle.Retired { return false; }
      var closed := component.WithFlags(false);
      match action {
        case DoQuarantine =>
          closed := closed.(lifecycle := Lifecycle.Quarantined, activation := Activation.Blocked,
                            operational := Operational.Quarantined);
        case DoRestore =>
          closed := closed.(lifecycle := Lifecycle.Approved, activation := Activation.Ready,
                            operational := Operational.Disabled);
        case DoRetire =>
          closed := closed.(lifecycle := Lifecycle.Retired, activation := Activation.Inactive,
                            operational := Operational.Retired);
        case DoDeregister =>
          closed := closed.(lifecycle := Lifecycle.Deregistered, activation := Activation.Inactive,
                            operational := Operational.Retired);
      }
      UpdateComponent(closed, false);
      return true;
    }
  }

  /**
   `recordComponentStateObservation` of one component that names a state query of another. The response is written only
   to a query of the sender, but the dispatch of the named query is looked up without its component and finalized.
   */
  method RecordForeignObservation(sender: ControlTables, owner: ControlTables, query: Id, epoch: int,
                                  identityMatches: bool, stateValid: bool, payload: Json)
    returns (accepted: bool)
    requires sender != owner && query in owner.queries && query !in sender.queries
    modifies sender, owner
    ensures var a := Action.Observation(Some(query), epoch, identityMatches, stateValid, payload);
            && sender.Rows() == Next(sender.confirms, old(sender.Rows()), a)
            && (accepted <==> ObservationAccepted(old(sender.Rows()), a))
    ensures owner.Rows() == if accepted then Next(owner.confirms, old(owner.Rows()), ForeignObservation(query))
                            else old(owner.Rows())
  {
    accepted := stateValid;
    if epoch != sender.component.policyEpoch { accepted := false; }
    if !identityMatches { accepted := false; }
    if accepted {
      // The sender has no such query, so no response is written.
      owner.FinalizeDispatch(query);
    } else {
      sender.MarkDegraded();
    }
  }

  function Run(confirms: Confirms, p: Plane, actions: seq<Action>): Plane {
    if actions == [] then p
    else Next(confirms, Run(confirms, p, actions[..|actions| - 1]), actions[|actions| - 1])
  }

  /** A component before its first control command. */
  predicate Fresh(p: Plane) {
    p.dispatches == map[] && p.queries == map[] && p.challenges == map[]
    && p.component.FlagsAgree() && !p.component.enabled
  }

  // ---------------------------------------------------------------------------------------------------------
  // What every transaction keeps
  // ---------------------------------------------------------------------------------------------------------

  ghost predicate Sound(p: Plane) {
    && p.component.FlagsAgree()
    && (p.component.enabled ==>
          p.component.lifecycle == Lifecycle.Active && p.component.activation == Activation.Active)
    && p.queries.Keys <= p.dispatches.Keys && p.challenges.Keys <= p.dispatches.Keys
    && (forall d :: d in p.dispatches ==> EpochsFit(p, d))
  }

  /** A query and a challenge carry the epoch of their dispatch; a disable request is left behind by its own second bump. */
  ghost predicate EpochsFit(p: Plane, d: Id)
    requires d in p.dispatches
  {
    var dispatch := p.dispatches[d];
    && dispatch.requestedEpoch <= p.component.policyEpoch
    && (dispatch.command == Disable ==> dispatch.requestedEpoch < p.component.policyEpoch)
    && (d in p.queries ==> p.queries[d].requestedEpoch == dispatch.requestedEpoch)
    && (d in p.challenges ==> p.challenges[d].requestedEpoch == dispatch.requestedEpoch)
  }

  lemma FinalizedKeepsSound(confirms: Confirms, p: Plane, d: Id)
    requires Sound(p)
    ensures Sound(Finalized(confirms, p, d))
    ensures p.component.policyEpoch <= Finalized(confirms, p, d).component.policyEpoch
  {
    var q := Finalized(confirms, p, d);
    forall e | e in q.dispatches ensures EpochsFit(q, e) {
      assert EpochsFit(p, e);
    }
  }

  predicate IsCallback(a: Action) {
    a.Ack? || a.Snapshot? || a.Observation? || a.HeartbeatPush?
  }

  lemma AnswerKeepsSound(confirms: Confirms, p: Plane, q: Plane, d: Id)
    requires Sound(p) && q.component == p.component && q.dispatches == p.dispatches
    requires q.queries.Keys == p.queries.Keys && q.challenges.Keys == p.challenges.Keys
    requires forall e :: e in p.queries ==> q.queries[e].requestedEpoch == p.queries[e].requestedEpoch
    requires forall e :: e in p.challenges ==> q.challenges[e].requestedEpoch == p.challenges[e].requestedEpoch
    ensures Sound(Finalized(confirms, q, d))
    ensures p.component.policyEpoch <= Finalized(confirms, q, d).component.policyEpoch
  {
    RecordingKeepsSound(p, q);
    FinalizedKeepsSound(confirms, q, d);
  }

  lemma AckKeepsSound(confirms: Confirms, p: Plane, a: Action)
    requires Sound(p) && a.Ack?
    ensures Sound(Next(confirms, p, a))
    ensures p.component.policyEpoch <= Next(confirms, p, a).component.policyEpoch
  {
    if AckAccepted(p, a) {
      var q := AckRecorded(p, a.id, if a.acked then Acked else Refused);
      RecordingKeepsSound(p, q);
      if a.acked { FinalizedKeepsSound(confirms, q, a.id); } else { RecordingKeepsSound(q, AckRefused(q, a.command)); }
    }
  }

  lemma CallbackKeepsSound(confirms: Confirms, p: Plane, a: Action)
    requires Sound(p) && IsCallback(a)
    ensures Sound(Next(confirms, p, a))
    ensures p.component.policyEpoch <= Next(confirms, p, a).component.policyEpoch
  {
    RecordingKeepsSound(p, Degrade(p));
    match a
    case Ack(_, _, _, _, _, _) => AckKeepsSound(confirms, p, a);
    case Snapshot(d, _, _, _, _, payload) =>
      if SnapshotAccepted(p, a) { AnswerKeepsSound(confirms, p, QueryRecorded(p, d, payload), d); }
    case Observation(query, _, _, _, payload) =>
      if query.Some? && query.value in p.queries {
        AnswerKeepsSound(confirms, p, QueryRecorded(p, query.value, payload), query.value);
      }
    case HeartbeatPush(challenge, _, _, _, _) =>
      if challenge.Some? && challenge.value in p.challenges {
        AnswerKeepsSound(confirms, p, ChallengeRecorded(p, challenge.value), challenge.value);
      }
  }

  lemma RequestKeepsSound(confirms: Confirms, p: Plane, a: Action)
    requires Sound(p) && a.RequestActivation?
    ensures Sound(Next(confirms, p, a))
    ensures p.component.policyEpoch <= Next(confirms, p, a).component.policyEpoch
  {
    var q := Requested(p, a.id, a.enable, a.queryNonce, a.challengeNonce);
    if Next(confirms, p, a) != p {
      assert q.component.policyEpoch == p.component.policyEpoch + (if a.enable then 1 else 2);
      QueueingKeepsSound(p, q, a.id);
    }
  }

  lemma QueueKeepsSound(confirms: Confirms, p: Plane, a: Action)
    requires Sound(p) && (a.QueueStateQuery? || a.QueueChallenge?)
    ensures Sound(Next(confirms, p, a))
    ensures p.component.policyEpoch <= Next(confirms, p, a).component.policyEpoch
  {
    QueueingKeepsSound(p, Next(confirms, p, a), a.id);
  }

  /** The transactions that write the component row only. */
  predicate IsRowUpdate(a: Action) {
    || a.Watchdog? || a.MonitoringProbe? || a.PulseResult? || a.OperationEvent? || a.SetLifecycle? || a.TogglePermission?
    || a.AuditConflict?
  }

  lemma RowUpdateKeepsFlags(confirms: Confirms, p: Plane, a: Action)
    requires Sound(p) && IsRowUpdate(a)
    ensures var q := Next(confirms, p, a);
            && q == p.(component := q.component)
            && q.component.policyEpoch >= p.component.policyEpoch && q.component.FlagsAgree()
            && (q.component.enabled ==>
                  q.component.lifecycle == Lifecycle.Active && q.component.activation == Activation.Active)
  {
  }

  lemma RowUpdateKeepsSound(confirms: Confirms, p: Plane, a: Action)
    requires Sound(p) && IsRowUpdate(a)
    ensures Sound(Next(confirms, p, a))
    ensures p.component.policyEpoch <= Next(confirms, p, a).component.policyEpoch
  {
    RowUpdateKeepsFlags(confirms, p, a);
    RecordingKeepsSound(p, Next(confirms, p, a));
  }

  lemma WorkerKeepsSound(confirms: Confirms, p: Plane, a: Action)
    requires Sound(p) && a.WorkerMarks?
    ensures Sound(Next(confirms, p, a))
    ensures p.component.policyEpoch <= Next(confirms, p, a).component.policyEpoch
  {
    RecordingKeepsSound(p, Next(confirms, p, a));
  }

  lemma NextKeepsSound(confirms: Confirms, p: Plane, a: Action)
    requires Sound(p)
    ensures Sound(Next(confirms, p, a))
    ensures p.component.policyEpoch <= Next(confirms, p, a).component.policyEpoch
  {
    if IsCallback(a) {
      CallbackKeepsSound(confirms, p, a);
    } else if a.ForeignObservation? {
      FinalizedKeepsSound(confirms, p, a.query);
    } else if a.RequestActivation? {
      RequestKeepsSound(confirms, p, a);
    } else if a.QueueStateQuery? || a.QueueChallenge? {
      QueueKeepsSound(confirms, p, a);
    } else if a.WorkerMarks? {
      WorkerKeepsSound(confirms, p, a);
    } else {
      RowUpdateKeepsSound(confirms, p, a);
    }
  }

  /** Changing states and answers of existing rows, and any sound change of the component row. */
  lemma RecordingKeepsSound(p: Plane, q: Plane)
    requires Sound(p)
    requires q.dispatches.Keys == p.dispatches.Keys && q.queries.Keys == p.queries.Keys
    requires q.challenges.Keys == p.challenges.Keys
    requires forall d :: d in p.dispatches ==> q.dispatches[d] == p.dispatches[d].(state := q.dispatches[d].state)
    requires forall d :: d in p.queries ==> q.queries[d].requestedEpoch == p.queries[d].requestedEpoch
    requires forall d :: d in p.challenges ==> q.challenges[d].requestedEpoch == p.challenges[d].requestedEpoch
    requires q.component.policyEpoch >= p.component.policyEpoch && q.component.FlagsAgree()
    requires q.component.enabled ==>
               q.component.lifecycle == Lifecycle.Active && q.component.activation == Activation.Active
    ensures Sound(q)
  {
    forall d | d in q.dispatches ensures EpochsFit(q, d) {
      assert EpochsFit(p, d);
    }
  }

  /** Filing the rows of one fresh dispatch. */
  lemma QueueingKeepsSound(p: Plane, q: Plane, d: Id)
    requires Sound(p)
    requires q == p || (d !in p.dispatches && d in q.dispatches && EpochsFit(q, d))
    requires q.dispatches.Keys == p.dispatches.Keys + (if q == p then {} else {d})
    requires q.queries.Keys <= q.dispatches.Keys && q.challenges.Keys <= q.dispatches.Keys
    requires forall e :: e in p.dispatches ==> q.dispatches[e] == p.dispatches[e]
    requires forall e :: e in p.dispatches ==> (e in q.queries <==> e in p.queries)
    requires forall e :: e in p.dispatches ==> (e in q.challenges <==> e in p.challenges)
    requires forall e :: e in p.dispatches && e in p.queries ==> q.queries[e] == p.queries[e]
    requires forall e :: e in p.dispatches && e in p.challenges ==> q.challenges[e] == p.challenges[e]
    requires q.component.policyEpoch >= p.component.policyEpoch && q.component.FlagsAgree()
    requires q == p || !q.component.enabled || q.component == p.component
    ensures Sound(q)
  {
    forall e | e in q.dispatches ensures EpochsFit(q, e) {
      assert e != d || q == p ==> EpochsFit(p, e);
    }
  }

  /** In every interleaving the four flags agree, and open traffic means ACTIVE in both state columns. */
  lemma {:induction false} AlwaysSound(confirms: Confirms, p: Plane, actions: seq<Action>)
    requires Sound(p)
    ensures Sound(Run(confirms, p, actions))
    ensures p.component.policyEpoch <= Run(confirms, p, actions).component.policyEpoch
  {
    if actions != [] {
      AlwaysSound(confirms, p, actions[..|actions| - 1]);
      NextKeepsSound(confirms, Run(confirms, p, actions[..|actions| - 1]), actions[|actions| - 1]);
    }
  }
}
