/**
 What the audit stream promises over whole delivery histories: it follows one fixed log, its head binds the history,
 and its gap marker remembers exactly the latest delivery that came too early.
 */
module AuditDelivery {
  import opened CodeUnits
  import opened Options
  import opened CanonicalJson
  import opened Components
  import opened AuditStreams

  // ---------------------------------------------------------------------------------------------------------
  // Redelivery and the chain head
  // ---------------------------------------------------------------------------------------------------------

  /** The row is closed and quarantined, and its epoch has moved on unless it was so already. */
  predicate IsQuarantined(before: Component, after: Component) {
    && after.(policyEpoch := 0) ==
       Component(Lifecycle.Quarantined, Activation.Blocked, Operational.Quarantined, before.monitoring,
                 false, false, false, false, 0, before.activeRevision)
    && after.policyEpoch - before.policyEpoch == if after.(policyEpoch := 0) == before.(policyEpoch := 0) then 0 else 1
  }

  lemma QuarantineTells(c: Component)
    ensures IsQuarantined(c, Quarantine(c))
  {
  }

  /** A sequence number already passed is answered as a duplicate exactly when the canonical form is the stored one. */
  lemma RedeliveryIsDecidedByCanonicalForm(hash: Hash, id: Text, s: Stream, e: AuditEvent)
    requires Injective(hash) && Consistent(HasherOf(hash, id), s)
    requires e.sequenceNumber < s.expectedNext
    ensures var n := e.sequenceNumber;
            var (s', outcome) := Ingested(HasherOf(hash, id), s, e);
            if n !in s.events then
              n < 1 && s' == s && outcome == Failure(SequenceRewind)
            else if SameCanonical(e, s.events[n].event) then
              s' == s && outcome == Answer(true, true, s.gapState, s.expectedNext, s.gapFrom)
            else
              && outcome == Failure(StreamConflict) && s'.integrity == Conflict
              && s' == s.(integrity := Conflict, component := s'.component)
              && IsQuarantined(s.component, s'.component)
  {
    var n := e.sequenceNumber;
    QuarantineTells(s.component);
    if n in s.events {
      var row := s.events[n];
      assert Linked(HasherOf(hash, id), s.events, n);
      assert row.hash == EventHash(hash, id, row.revision, row.previousHash, row.event);
      if SameCanonical(e, row.event) {
        SameCanonicalSameHash(hash, id, row.revision, row.previousHash, e, row.event);
      } else if row.hash == EventHash(hash, id, row.revision, row.previousHash, e) {
        EventHashBinds(hash, id, row.revision, row.previousHash, row.event, id, row.revision, row.previousHash, e);
        assert false;
      }
    }
  }

  /** Row k has the same content in both histories, and was accepted under the same revision. */
  ghost predicate SameRow(a: map<int, StoredEvent>, b: map<int, StoredEvent>, k: int) {
    && k in a && k in b
    && SameCanonical(a[k].event, b[k].event) && a[k].revision == b[k].revision && a[k].hash == b[k].hash
  }

  ghost predicate SameHistory(a: map<int, StoredEvent>, b: map<int, StoredEvent>, n: int) {
    forall k :: 1 <= k <= n ==> SameRow(a, b, k)
  }

  lemma LinkedRowsBind(eventHash: Hasher, a: map<int, StoredEvent>, m: int, b: map<int, StoredEvent>, n: int)
    requires Binds(eventHash) && Linked(eventHash, a, m) && Linked(eventHash, b, n)
    requires m in a && n in b && a[m].hash == b[n].hash
    ensures m == n && SameRow(a, b, n) && Head(a, m - 1) == Head(b, n - 1)
  {
    var x, y := a[m], b[n];
    assert eventHash(x.revision, x.previousHash, x.event) == eventHash(y.revision, y.previousHash, y.event);
  }

  lemma {:induction false} EqualHeadsEqualChains(
    eventHash: Hasher, a: map<int, StoredEvent>, lastA: nat, b: map<int, StoredEvent>, lastB: nat, m: nat, n: nat)
    requires Binds(eventHash) && ChainHolds(eventHash, a, lastA) && ChainHolds(eventHash, b, lastB)
    requires m <= lastA && n <= lastB && Head(a, m) == Head(b, n)
    ensures m == n && SameHistory(a, b, n)
    decreases m
  {
    if m > 0 && n > 0 {
      assert Linked(eventHash, a, m) && Linked(eventHash, b, n);
      LinkedRowsBind(eventHash, a, m, b, n);
      EqualHeadsEqualChains(eventHash, a, lastA, b, lastB, m - 1, n - 1);
    }
  }

  /** Two reachable streams with one current hash have one length and one canonical history. */
  lemma HeadBindsHistory(
    hash: Hash,
    id: Text, component: Component, inputs: seq<Input>,
    id': Text, component': Component, inputs': seq<Input>)
    requires Injective(hash)
    requires Run(HasherOf(hash, id), component, inputs).currentHash
          == Run(HasherOf(hash, id'), component', inputs').currentHash
    ensures var s, s' := Run(HasherOf(hash, id), component, inputs), Run(HasherOf(hash, id'), component', inputs');
            && s.expectedNext == s'.expectedNext
            && SameHistory(s.events, s'.events, s.expectedNext - 1)
            && (s.expectedNext > 1 ==> id == id')
  {
    var s, s' := Run(HasherOf(hash, id), component, inputs), Run(HasherOf(hash, id'), component', inputs');
    AlwaysConsistent(HasherOf(hash, id), component, inputs);
    AlwaysConsistent(HasherOf(hash, id'), component', inputs');
    var m, n := s.expectedNext - 1, s'.expectedNext - 1;
    if m > 0 && n > 0 {
      assert Linked(HasherOf(hash, id), s.events, m) && Linked(HasherOf(hash, id'), s'.events, n);
      var x, y := s.events[m], s'.events[n];
      EventHashBinds(hash, id, x.revision, x.previousHash, x.event, id', y.revision, y.previousHash, y.event);
      HasherBinds(hash, id);
      EqualHeadsEqualChains(HasherOf(hash, id), s.events, m, s'.events, n, m, n);
    }
  }

  // ---------------------------------------------------------------------------------------------------------
  // Delivery of one fixed log
  // ---------------------------------------------------------------------------------------------------------

  ghost predicate IsLog(log: seq<AuditEvent>) {
    forall i :: 0 <= i < |log| ==> log[i].sequenceNumber == i + 1
  }

  /** Every delivery is some entry of the log: entries may be lost, repeated and reordered at will. */
  ghost predicate DrawnFrom(log: seq<AuditEvent>, inputs: seq<Input>) {
    forall i :: 0 <= i < |inputs| && inputs[i].Deliver? ==> inputs[i].event in log
  }

  /** The stored events are the first entries of the log, and nothing was ever found in conflict. */
  ghost predicate FollowsLog(log: seq<AuditEvent>, component: Component, s: Stream) {
    && s.expectedNext - 1 <= |log|
    && (forall n :: 1 <= n < s.expectedNext ==> n in s.events && s.events[n].event == log[n - 1])
    && s.integrity == Valid
    && s.component == component.(activeRevision := s.component.activeRevision)
  }

  lemma StepFollowsLog(eventHash: Hasher, log: seq<AuditEvent>, component: Component, s: Stream, input: Input)
    requires IsLog(log) && Consistent(eventHash, s) && FollowsLog(log, component, s)
    requires input.Deliver? ==> input.event in log
    ensures FollowsLog(log, component, Step(eventHash, s, input))
  {
    if input.Deliver? {
      var n := input.event.sequenceNumber;
      assert input.event == log[n - 1];
      if n < s.expectedNext {
        assert Linked(eventHash, s.events, n);
      }
    }
  }

  /**
   Whatever is lost, duplicated or reordered, and whatever revision is active, the stored events are exactly the first
   `expectedNext - 1` entries of the log, and neither conflict nor quarantine ever occurs.
   */
  lemma {:induction false} StoredEventsAreALogPrefix(
    eventHash: Hasher, log: seq<AuditEvent>, component: Component, inputs: seq<Input>)
    requires IsLog(log) && DrawnFrom(log, inputs)
    ensures FollowsLog(log, component, Run(eventHash, component, inputs))
  {
    if inputs != [] {
      var before := inputs[..|inputs| - 1];
      StoredEventsAreALogPrefix(eventHash, log, component, before);
      AlwaysConsistent(eventHash, component, before);
      StepFollowsLog(eventHash, log, component, Run(eventHash, component, before), inputs[|inputs| - 1]);
    }
  }

  /** `positions` picks the deliveries of 1, 2, ..., |positions| in this order. */
  ghost predicate DeliversInOrder(inputs: seq<Input>, positions: seq<int>) {
    && (forall i :: 0 <= i < |positions| ==>
          && 0 <= positions[i] < |inputs|
          && inputs[positions[i]].Deliver? && inputs[positions[i]].event.sequenceNumber == i + 1)
    && (forall i, j :: 0 <= i < j < |positions| ==> positions[i] < positions[j])
  }

  /** A binding hash never makes the unique index refuse the next event. */
  lemma NextEventIsAccepted(eventHash: Hasher, s: Stream, e: AuditEvent)
    requires Binds(eventHash) && Consistent(eventHash, s) && e.sequenceNumber == s.expectedNext
    ensures var (s', outcome) := Ingested(eventHash, s, e);
            && outcome == Answer(true, false, Contiguous, s.expectedNext + 1, None)
            && s'.expectedNext == s.expectedNext + 1
            && s'.integrity == Valid
            && s'.events.Keys == s.events.Keys + {s.expectedNext} && s'.events[s.expectedNext].event == e
            && s'.events[s.expectedNext].revision == s.component.activeRevision && s'.component == s.component
            && s'.events[s.expectedNext].previousHash == s.currentHash
            && s'.currentHash == Some(eventHash(s.component.activeRevision, s.currentHash, e))
            && (forall n :: n in s.events ==> s'.events[n] == s.events[n])
            && s'.highestReceived == Max(s.highestReceived, e.sequenceNumber)
  {
    var row := eventHash(s.component.activeRevision, s.currentHash, e);
    forall n | n in s.events ensures s.events[n].hash != row {
      assert Linked(eventHash, s.events, n);
    }
  }

  /**
   What the answer to a delivery tells of the stream: it is accepted exactly when its event is stored afterwards, a duplicate
   exactly when it was stored before; the expected number is the new one; and a replay is asked for whenever the delivery is
   not accepted, always from the expected number, which is not stored. A failure stores nothing and moves no counter.
   The gap state it gives is that of the stream, except that a newly stored event is answered CONTIGUOUS while the gap
   stays open.
   */
  lemma AnswerTellsTheStream(eventHash: Hasher, component: Component, inputs: seq<Input>, e: AuditEvent)
    ensures var s := Run(eventHash, component, inputs);
            var (s', outcome) := Ingested(eventHash, s, e);
            match outcome
            case Answer(accepted, duplicate, gapState, expectedNext, replayFrom) =>
              && (accepted <==> e.sequenceNumber in s'.events)
              && (duplicate <==> e.sequenceNumber in s.events)
              && expectedNext == s'.expectedNext && expectedNext !in s'.events
              && (replayFrom.Some? ==> replayFrom.value == expectedNext)
              && (replayFrom.Some? <==> !accepted || (duplicate && s.gapTo.Some?))
              && (gapState != s'.gapState <==> accepted && !duplicate && s'.gapTo.Some?)
            case Failure(_) =>
              s' == s.(integrity := s'.integrity, component := s'.component)
  {
    AlwaysConsistent(eventHash, component, inputs);
    StepKeepsConsistent(eventHash, Run(eventHash, component, inputs), Deliver(e));
  }

  lemma {:induction false} RunNeverGoesBack(eventHash: Hasher, component: Component, inputs: seq<Input>, shorter: nat)
    requires shorter <= |inputs|
    ensures Run(eventHash, component, inputs[..shorter]).expectedNext <= Run(eventHash, component, inputs).expectedNext
    decreases |inputs|
  {
    if shorter < |inputs| {
      var before := inputs[..|inputs| - 1];
      RunNeverGoesBack(eventHash, component, before, shorter);
      assert before[..shorter] == inputs[..shorter];
    } else {
      assert inputs[..shorter] == inputs;
    }
  }

  lemma {:induction false} DeliveredInOrderIsStored(
    eventHash: Hasher, component: Component, inputs: seq<Input>, positions: seq<int>)
    requires Binds(eventHash) && DeliversInOrder(inputs, positions)
    ensures Run(eventHash, component, inputs).expectedNext > |positions|
    decreases |positions|
  {
    AlwaysConsistent(eventHash, component, inputs);
    if positions != [] {
      var last := |positions| - 1;
      var p := positions[last];
      var before, upto := inputs[..p], inputs[..p + 1];
      assert DeliversInOrder(before, positions[..last]);
      DeliveredInOrderIsStored(eventHash, component, before, positions[..last]);
      assert upto[..p] == before && upto[|upto| - 1] == inputs[p];
      var s := Run(eventHash, component, before);
      AlwaysConsistent(eventHash, component, before);
      if s.expectedNext == |positions| {
        NextEventIsAccepted(eventHash, s, inputs[p].event);
      }
      RunNeverGoesBack(eventHash, component, inputs, p + 1);
    }
  }

  lemma ExtendDelivery(inputs: seq<Input>, positions: seq<int>)
    requires inputs != [] && DeliversInOrder(inputs[..|inputs| - 1], positions)
    ensures DeliversInOrder(inputs, positions)
    ensures var last := inputs[|inputs| - 1];
            last.Deliver? && last.event.sequenceNumber == |positions| + 1 ==>
              DeliversInOrder(inputs, positions + [|inputs| - 1])
  {
  }

  lemma {:induction false} StoredWasDeliveredInOrder(
    eventHash: Hasher, component: Component, inputs: seq<Input>) returns (positions: seq<int>)
    ensures DeliversInOrder(inputs, positions)
    ensures |positions| == Run(eventHash, component, inputs).expectedNext - 1
  {
    if inputs == [] {
      positions := [];
    } else {
      var before, input := inputs[..|inputs| - 1], inputs[|inputs| - 1];
      positions := StoredWasDeliveredInOrder(eventHash, component, before);
      ExtendDelivery(inputs, positions);
      var s := Run(eventHash, component, before);
      if Step(eventHash, s, input).expectedNext != s.expectedNext {
        positions := positions + [|inputs| - 1];
      }
    }
  }

  /** The stored prefix reaches n exactly when 1, ..., n occur in this order among the deliveries. */
  lemma PrefixReached(hash: Hash, id: Text, component: Component, inputs: seq<Input>, n: nat)
    requires Injective(hash)
    ensures Run(HasherOf(hash, id), component, inputs).expectedNext > n
       <==> exists positions :: |positions| == n && DeliversInOrder(inputs, positions)
  {
    var eventHash := HasherOf(hash, id);
    HasherBinds(hash, id);
    if exists positions :: |positions| == n && DeliversInOrder(inputs, positions) {
      var positions :| |positions| == n && DeliversInOrder(inputs, positions);
      DeliveredInOrderIsStored(eventHash, component, inputs, positions);
    }
    if Run(eventHash, component, inputs).expectedNext > n {
      var positions := StoredWasDeliveredInOrder(eventHash, component, inputs);
      assert |positions[..n]| == n && DeliversInOrder(inputs, positions[..n]);
    }
  }

  // ---------------------------------------------------------------------------------------------------------
  // What the gap marker remembers
  // ---------------------------------------------------------------------------------------------------------

  /** The sequence number of the latest delivery that came before its turn; 0 when there was none. */
  function LatestEarly(eventHash: Hasher, component: Component, inputs: seq<Input>): int {
    if inputs == [] then 0
    else
      var before, input := inputs[..|inputs| - 1], inputs[|inputs| - 1];
      if input.Deliver? && input.event.sequenceNumber > Run(eventHash, component, before).expectedNext then
        input.event.sequenceNumber
      else LatestEarly(eventHash, component, before)
  }

  function LargestDelivered(inputs: seq<Input>): int {
    if inputs == [] then 0
    else
      var before, input := LargestDelivered(inputs[..|inputs| - 1]), inputs[|inputs| - 1];
      if input.Deliver? then Max(before, input.event.sequenceNumber) else before
  }

  /**
   The gap is open exactly while the latest early delivery is still ahead, and then it runs from the next expected
   number to just below that delivery: an earlier, larger one is forgotten.
   */
  lemma {:induction false} GapMarkerIsLatestEarly(eventHash: Hasher, component: Component, inputs: seq<Input>)
    ensures var s := Run(eventHash, component, inputs);
            var early := LatestEarly(eventHash, component, inputs);
            && (s.gapState == GapDetected <==> early > s.expectedNext)
            && (s.gapState == GapDetected ==> s.gapFrom == Some(s.expectedNext) && s.gapTo == Some(early - 1))
            && (s.gapState == Contiguous ==> s.gapFrom == None && s.gapTo == None)
  {
    AlwaysConsistent(eventHash, component, inputs);
    if inputs != [] {
      var before := inputs[..|inputs| - 1];
      GapMarkerIsLatestEarly(eventHash, component, before);
      AlwaysConsistent(eventHash, component, before);
    }
  }

  /** The highest received number is the largest one ever delivered. */
  lemma {:induction false} HighestReceivedIsLargestDelivered(eventHash: Hasher, component: Component, inputs: seq<Input>)
    requires Binds(eventHash)
    ensures Run(eventHash, component, inputs).highestReceived == LargestDelivered(inputs)
  {
    if inputs != [] {
      var before, input := inputs[..|inputs| - 1], inputs[|inputs| - 1];
      HighestReceivedIsLargestDelivered(eventHash, component, before);
      var s := Run(eventHash, component, before);
      AlwaysConsistent(eventHash, component, before);
      if input.Deliver? && input.event.sequenceNumber == s.expectedNext {
        NextEventIsAccepted(eventHash, s, input.event);
      }
    }
  }

  /** Every delivered event is stored exactly when the received and the acknowledged maximum agree. */
  lemma AllReceivedIsStored(hash: Hash, id: Text, component: Component, inputs: seq<Input>)
    requires Injective(hash)
    ensures var s := Run(HasherOf(hash, id), component, inputs);
            && (s.highestReceived == s.highestAcknowledged <==>
                  forall i :: 0 <= i < |inputs| && inputs[i].Deliver? && inputs[i].event.sequenceNumber >= 1 ==>
                    inputs[i].event.sequenceNumber in s.events)
  {
    HasherBinds(hash, id);
    AlwaysConsistent(HasherOf(hash, id), component, inputs);
    HighestReceivedIsLargestDelivered(HasherOf(hash, id), component, inputs);
    LargestIsDelivered(inputs);
  }

  lemma {:induction false} LargestIsDelivered(inputs: seq<Input>)
    ensures LargestDelivered(inputs) >= 0
    ensures forall i :: 0 <= i < |inputs| && inputs[i].Deliver? ==>
              inputs[i].event.sequenceNumber <= LargestDelivered(inputs)
    ensures LargestDelivered(inputs) > 0 ==>
              exists i :: 0 <= i < |inputs| && inputs[i].Deliver?
                          && inputs[i].event.sequenceNumber == LargestDelivered(inputs)
  {
    if inputs != [] {
      LargestIsDelivered(inputs[..|inputs| - 1]);
    }
  }

  /** CONTIGUOUS alone does not say so: event 2 arrives early, event 1 closes the gap, event 2 is still missing. */
  lemma ContiguousCanMissAReceivedEvent(eventHash: Hasher, component: Component, first: AuditEvent, second: AuditEvent)
    requires first.sequenceNumber == 1 && second.sequenceNumber == 2
    ensures var s := Run(eventHash, component, [Deliver(second), Deliver(first)]);
            && s.gapState == Contiguous && s.gapTo == None
            && 2 !in s.events && s.highestReceived == 2 && s.highestAcknowledged == 1
  {
    var inputs := [Deliver(second), Deliver(first)];
    assert inputs[..1] == [Deliver(second)] && inputs[..1][..0] == [];
    var s0 := Run(eventHash, component, []);
    var s1 := Run(eventHash, component, inputs[..1]);
    assert s1 == Step(eventHash, s0, Deliver(second));
    assert Run(eventHash, component, inputs) == Step(eventHash, s1, Deliver(first));
  }
}
