/**
 The audit stream of one component: sequence-numbered events accepted into a hash chain, with gap markers,
 idempotent redelivery, and quarantine on a conflicting redelivery.
 */
module AuditStreams {
  import opened CodeUnits
  import opened Options
  import opened CanonicalJson
  import opened Components

  type Payload = j: Json | WellFormed(j) witness Null

  /** A delivered event; `payload` is its canonical audit payload. */
  datatype AuditEvent = AuditEvent(
    sequenceNumber: int, eventType: Text, occurredAt: Text, correlationId: Text, payload: Payload)

  datatype StoredEvent = StoredEvent(
    event: AuditEvent, revision: Option<Text>, previousHash: Option<Text>, hash: Text)

  datatype GapState = Contiguous | GapDetected

  datatype Integrity = Valid | Conflict

  datatype Stream = Stream(
    expectedNext: int, highestReceived: int, highestAcknowledged: int,
    gapState: GapState, gapFrom: Option<int>, gapTo: Option<int>,
    currentHash: Option<Text>, integrity: Integrity,
    events: map<int, StoredEvent>, component: Component)

  datatype AuditError = SequenceRewind | StreamConflict | EventHashTaken

  datatype Outcome =
    | Answer(accepted: bool, duplicate: bool, gapState: GapState, expectedNext: int, replayFrom: Option<int>)
    | Failure(error: AuditError)

  // ---------------------------------------------------------------------------------------------------------
  // The event hash
  // ---------------------------------------------------------------------------------------------------------

  const KEY_COMPONENT_ID: Text := [99, 111, 109, 112, 111, 110, 101, 110, 116, 73, 100]
  const KEY_REVISION_ID: Text := [114, 101, 118, 105, 115, 105, 111, 110, 73, 100]
  const KEY_SEQUENCE_NUMBER: Text := [115, 101, 113, 117, 101, 110, 99, 101, 78, 117, 109, 98, 101, 114]
  const KEY_PREVIOUS_HASH: Text := [112, 114, 101, 118, 105, 111, 117, 115, 72, 97, 115, 104]
  const KEY_EVENT_TYPE: Text := [101, 118, 101, 110, 116, 84, 121, 112, 101]
  const KEY_OCCURRED_AT: Text := [111, 99, 99, 117, 114, 114, 101, 100, 65, 116]
  const KEY_CORRELATION_ID: Text := [99, 111, 114, 114, 101, 108, 97, 116, 105, 111, 110, 73, 100]
  const KEY_PAYLOAD_DIGEST: Text := [112, 97, 121, 108, 111, 97, 100, 68, 105, 103, 101, 115, 116]
  const KEY_PAYLOAD: Text := [112, 97, 121, 108, 111, 97, 100]

  function Nullable(t: Option<Text>): Json {
    if t.Some? then Str(t.value) else Null
  }

  function HashedRecord(componentId: Text, revision: Option<Text>, previous: Option<Text>, e: AuditEvent,
                        payloadDigest: Text): Json {
    Obj([Member(KEY_COMPONENT_ID, Str(componentId)),
         Member(KEY_REVISION_ID, Nullable(revision)),
         Member(KEY_SEQUENCE_NUMBER, Num(e.sequenceNumber)),
         Member(KEY_PREVIOUS_HASH, Nullable(previous)),
         Member(KEY_EVENT_TYPE, Str(e.eventType)),
         Member(KEY_OCCURRED_AT, Str(e.occurredAt)),
         Member(KEY_CORRELATION_ID, Str(e.correlationId)),
         Member(KEY_PAYLOAD_DIGEST, Str(payloadDigest)),
         Member(KEY_PAYLOAD, e.payload)])
  }

  function EventHash(hash: Hash, componentId: Text, revision: Option<Text>, previous: Option<Text>,
                     e: AuditEvent): Text {
    Digest(hash, HashedRecord(componentId, revision, previous, e, Digest(hash, e.payload)))
  }

  /** Two events with one canonical form. */
  ghost predicate SameCanonical(a: AuditEvent, b: AuditEvent) {
    && a.sequenceNumber == b.sequenceNumber && a.eventType == b.eventType && a.occurredAt == b.occurredAt
    && a.correlationId == b.correlationId && Meaning(a.payload) == Meaning(b.payload)
  }

  /** Enough of a key to tell the keys of the record apart. */
  function Signature(key: Text): int {
    if key == [] then 0 else 0x1_0000 * |key| + key[0]
  }

  lemma DistinctBySignature(keys: seq<Text>, signatures: seq<int>)
    requires |keys| == |signatures| && Distinct(signatures)
    requires forall i :: 0 <= i < |keys| ==> Signature(keys[i]) == signatures[i]
    ensures Distinct(keys)
  {
    assert forall i, j :: 0 <= i < j < |keys| ==> Signature(keys[i]) != Signature(keys[j]);
  }

  const RECORD_KEYS: seq<Text> := [
    KEY_COMPONENT_ID, KEY_REVISION_ID, KEY_SEQUENCE_NUMBER, KEY_PREVIOUS_HASH, KEY_EVENT_TYPE, KEY_OCCURRED_AT,
    KEY_CORRELATION_ID, KEY_PAYLOAD_DIGEST, KEY_PAYLOAD]

  lemma RecordKeysDistinct()
    ensures Distinct(RECORD_KEYS)
  {
    DistinctBySignature(RECORD_KEYS, [
      0xB_0063, 0xA_0072, 0xE_0073, 0xC_0070, 0x9_0065, 0xA_006F, 0xD_0063, 0xD_0070, 0x7_0070]);
  }

  lemma HashedRecordKeys(componentId: Text, revision: Option<Text>, previous: Option<Text>, e: AuditEvent, d: Text)
    ensures Keys(HashedRecord(componentId, revision, previous, e, d).members) == RECORD_KEYS
    ensures Distinct(RECORD_KEYS)
  {
    RecordKeysDistinct();
    assert Keys(HashedRecord(componentId, revision, previous, e, d).members) == RECORD_KEYS;
  }

  lemma MeaningByPosition(v: Json, i: nat)
    requires v.Obj? && i < |v.members| && Distinct(Keys(v.members))
    ensures Keys(v.members)[i] == v.members[i].key
    ensures Meaning(v).VObj?
    ensures v.members[i].key in Meaning(v).members
    ensures Meaning(v).members[v.members[i].key] == Meaning(v.members[i].value)
  {
    GetByPosition(v.members, i);
  }

  ghost predicate SameFields(ms: seq<Member>, ns: seq<Member>) {
    |ms| == |ns| && forall i :: 0 <= i < |ms| ==> Meaning(ms[i].value) == Meaning(ns[i].value)
  }

  lemma EqualRecordsHaveSameFields(v: Json, w: Json)
    requires v.Obj? && w.Obj? && Keys(v.members) == Keys(w.members) && Distinct(Keys(v.members))
    requires Meaning(v) == Meaning(w)
    ensures SameFields(v.members, w.members)
  {
    assert |Keys(v.members)| == |Keys(w.members)|;
    forall i | 0 <= i < |v.members| ensures Meaning(v.members[i].value) == Meaning(w.members[i].value) {
      MeaningByPosition(v, i);
      MeaningByPosition(w, i);
    }
  }

  lemma NullableMeaning(a: Option<Text>, b: Option<Text>)
    requires Meaning(Nullable(a)) == Meaning(Nullable(b))
    ensures a == b
  {
  }

  lemma RecordFieldsBind(
    id: Text, rev: Option<Text>, prev: Option<Text>, e: AuditEvent, d: Text,
    id': Text, rev': Option<Text>, prev': Option<Text>, e': AuditEvent, d': Text)
    requires SameFields(HashedRecord(id, rev, prev, e, d).members, HashedRecord(id', rev', prev', e', d').members)
    ensures id == id' && rev == rev' && prev == prev' && SameCanonical(e, e')
  {
    var ms, ns := HashedRecord(id, rev, prev, e, d).members, HashedRecord(id', rev', prev', e', d').members;
    assert ms[0].value == Str(id) && ms[1].value == Nullable(rev) && ms[2].value == Num(e.sequenceNumber);
    assert ms[3].value == Nullable(prev) && ms[4].value == Str(e.eventType) && ms[5].value == Str(e.occurredAt);
    assert ms[6].value == Str(e.correlationId) && ms[8].value == e.payload;
    assert ns[0].value == Str(id') && ns[1].value == Nullable(rev') && ns[2].value == Num(e'.sequenceNumber);
    assert ns[3].value == Nullable(prev') && ns[4].value == Str(e'.eventType) && ns[5].value == Str(e'.occurredAt);
    assert ns[6].value == Str(e'.correlationId) && ns[8].value == e'.payload;
    NullableMeaning(rev, rev');
    NullableMeaning(prev, prev');
  }

  lemma HashedRecordWellFormed(id: Text, rev: Option<Text>, prev: Option<Text>, e: AuditEvent, d: Text)
    ensures WellFormed(HashedRecord(id, rev, prev, e, d))
  {
    HashedRecordKeys(id, rev, prev, e, d);
  }

  /** With an injective hash, an event hash binds everything that went into it. */
  lemma EventHashBinds(
    hash: Hash,
    id: Text, rev: Option<Text>, prev: Option<Text>, e: AuditEvent,
    id': Text, rev': Option<Text>, prev': Option<Text>, e': AuditEvent)
    requires Injective(hash)
    requires EventHash(hash, id, rev, prev, e) == EventHash(hash, id', rev', prev', e')
    ensures id == id' && rev == rev' && prev == prev' && SameCanonical(e, e')
  {
    var d, d' := Digest(hash, e.payload), Digest(hash, e'.payload);
    HashedRecordWellFormed(id, rev, prev, e, d);
    HashedRecordWellFormed(id', rev', prev', e', d');
    var v, w := HashedRecord(id, rev, prev, e, d), HashedRecord(id', rev', prev', e', d');
    DigestDecidesEquality(hash, v, w);
    HashedRecordKeys(id, rev, prev, e, d);
    HashedRecordKeys(id', rev', prev', e', d');
    EqualRecordsHaveSameFields(v, w);
    RecordFieldsBind(id, rev, prev, e, d, id', rev', prev', e', d');
  }

  /** Events with one canonical form hash alike in one position of the chain, whatever the hash function. */
  lemma SameCanonicalSameHash(hash: Hash, id: Text, rev: Option<Text>, prev: Option<Text>,
                              e: AuditEvent, f: AuditEvent)
    requires SameCanonical(e, f)
    ensures EventHash(hash, id, rev, prev, e) == EventHash(hash, id, rev, prev, f)
  {
    DigestDecidesEquality(hash, e.payload, f.payload);
    var d := Digest(hash, e.payload);
    var v, w := HashedRecord(id, rev, prev, e, d), HashedRecord(id, rev, prev, f, d);
    HashedRecordKeys(id, rev, prev, e, d);
    HashedRecordKeys(id, rev, prev, f, d);
    HashedRecordWellFormed(id, rev, prev, e, d);
    HashedRecordWellFormed(id, rev, prev, f, d);
    SamePositionsSameMeaning(v.members, w.members);
    DigestDecidesEquality(hash, v, w);
  }

  lemma SamePositionsSameMeaning(ms: seq<Member>, ns: seq<Member>)
    requires Distinct(Keys(ms)) && Keys(ms) == Keys(ns)
    requires forall i :: 0 <= i < |ms| ==> Meaning(ms[i].value) == Meaning(ns[i].value)
    ensures MeaningOfMembers(ms) == MeaningOfMembers(ns)
  {
    forall key | key in Keys(ms)
      ensures Meaning(Get(ms, key)) == Meaning(Get(ns, key))
    {
      var i :| 0 <= i < |ms| && Keys(ms)[i] == key;
      GetByPosition(ms, i);
      GetByPosition(ns, i);
    }
  }

  // ---------------------------------------------------------------------------------------------------------
  // Ingestion
  // ---------------------------------------------------------------------------------------------------------

  /** The event hash of one component as a function of the revision, the previous hash and the event. */
  type Hasher = (Option<Text>, Option<Text>, AuditEvent) -> Text

  function HasherOf(hash: Hash, id: Text): Hasher {
    (revision, previous, e) => EventHash(hash, id, revision, previous, e)
  }

  /** Distinguishes revisions, previous hashes, and events up to canonical form. */
  ghost predicate Binds(eventHash: Hasher) {
    forall rev, prev, e, rev', prev', e' ::
      eventHash(rev, prev, e) == eventHash(rev', prev', e') ==> rev == rev' && prev == prev' && SameCanonical(e, e')
  }

  lemma HasherBinds(hash: Hash, id: Text)
    requires Injective(hash)
    ensures Binds(HasherOf(hash, id))
  {
    forall rev, prev, e, rev', prev', e'
      | HasherOf(hash, id)(rev, prev, e) == HasherOf(hash, id)(rev', prev', e')
      ensures rev == rev' && prev == prev' && SameCanonical(e, e')
    {
      EventHashBinds(hash, id, rev, prev, e, id, rev', prev', e');
    }
  }

  /** The new state and the answer to one delivery. */
  function Ingested(eventHash: Hasher, s: Stream, e: AuditEvent): (Stream, Outcome) {
    var n := e.sequenceNumber;
    if n < s.expectedNext then
      if n !in s.events then (s, Failure(SequenceRewind))
      else
        var row := s.events[n];
        if row.hash != eventHash(row.revision, row.previousHash, e) then
          (s.(integrity := Conflict, component := Quarantine(s.component)), Failure(StreamConflict))
        else (s, Answer(true, true, s.gapState, s.expectedNext, s.gapFrom))
    else if n > s.expectedNext then
      (s.(gapState := GapDetected, gapFrom := Some(s.expectedNext), gapTo := Some(n - 1),
          highestReceived := Max(s.highestReceived, n)),
       Answer(false, false, GapDetected, s.expectedNext, Some(s.expectedNext)))
    else
      var row := StoredEvent(e, s.component.activeRevision, s.currentHash,
                             eventHash(s.component.activeRevision, s.currentHash, e));
      if n in s.events || HashTaken(s.events, row.hash) then (s, Failure(EventHashTaken))
      else
        var closed := s.gapTo.None? || n >= s.gapTo.value;
        (Stream(n + 1, Max(s.highestReceived, n), Max(s.highestAcknowledged, n),
                if closed then Contiguous else s.gapState,
                if closed then None else Some(n + 1),
                if closed then None else s.gapTo,
                Some(row.hash), Valid, s.events[n := row], s.component),
         Answer(true, false, Contiguous, n + 1, None))
  }

  function Max(a: int, b: int): int {
    if a < b then b else a
  }

  /** The unique index on (stream, event hash) refuses a second row with one hash. */
  predicate HashTaken(events: map<int, StoredEvent>, h: Text) {
    exists n :: n in events && events[n].hash == h
  }

  /** The stream row, its event rows, and the component row, as one transaction sees them. */
  class AuditStream {
    const eventHash: Hasher
    var expectedNext: int
    var highestReceived: int
    var highestAcknowledged: int
    var gapState: GapState
    var gapFrom: Option<int>
    var gapTo: Option<int>
    var currentHash: Option<Text>
    var integrity: Integrity
    var events: map<int, StoredEvent>
    var component: Component

    function State(): Stream
      reads this
    {
      Stream(expectedNext, highestReceived, highestAcknowledged, gapState, gapFrom, gapTo, currentHash, integrity,
             events, component)
    }

    constructor (eventHash: Hasher, component: Component)
      ensures this.eventHash == eventHash
      ensures State() == Initial(component)
    {
      this.eventHash, this.component := eventHash, component;
      expectedNext, highestReceived, highestAcknowledged := 1, 0, 0;
      gapState, gapFrom, gapTo := Contiguous, None, None;
      currentHash, integrity, events := None, Valid, map[];
    }

    /** `ingestComponentAuditEvent` */
    method Ingest(e: AuditEvent) returns (outcome: Outcome)
      modifies this
      ensures (State(), outcome) == Ingested(eventHash, old(State()), e)
    {
      var expected := expectedNext;
      if e.sequenceNumber < expected {
        if e.sequenceNumber !in events {
          return Failure(SequenceRewind);
        }
        var existing := events[e.sequenceNumber];
        var duplicateHash := eventHash(existing.revision, existing.previousHash, e);
        if existing.hash != duplicateHash {
          integrity := Conflict;
          component := Quarantine(component);
          return Failure(StreamConflict);
        }
        return Answer(true, true, gapState, expected, gapFrom);
      }
      var previousHash := currentHash;
      var computedHash := eventHash(component.activeRevision, previousHash, e);
      if e.sequenceNumber > expected {
        gapState, gapFrom, gapTo := GapDetected, Some(expected), Some(e.sequenceNumber - 1);
        highestReceived := Max(highestReceived, e.sequenceNumber);
        return Answer(false, false, GapDetected, expected, Some(expected));
      }
      if e.sequenceNumber in events || HashTaken(events, computedHash) {
        return Failure(EventHashTaken);
      }
      events := events[e.sequenceNumber := StoredEvent(e, component.activeRevision, previousHash, computedHash)];
      var next := e.sequenceNumber + 1;
      expectedNext := next;
      highestReceived := Max(highestReceived, e.sequenceNumber);
      highestAcknowledged := Max(highestAcknowledged, e.sequenceNumber);
      if gapTo.None? || e.sequenceNumber >= gapTo.value {
        gapState, gapFrom, gapTo := Contiguous, None, None;
      } else {
        gapFrom := Some(next);
      }
      currentHash, integrity := Some(computedHash), Valid;
      return Answer(true, false, Contiguous, next, None);
    }
  }

  // ---------------------------------------------------------------------------------------------------------
  // Runs
  // ---------------------------------------------------------------------------------------------------------

  /** The row defaults of a new stream. */
  function Initial(component: Component): Stream {
    Stream(1, 0, 0, Contiguous, None, None, None, Valid, map[], component)
  }

  datatype Input =
    | Deliver(event: AuditEvent)
    | SetRevision(revision: Option<Text>)

  function Step(eventHash: Hasher, s: Stream, input: Input): Stream {
    match input
    case Deliver(e) => Ingested(eventHash, s, e).0
    case SetRevision(r) => s.(component := s.component.(activeRevision := r))
  }

  function Run(eventHash: Hasher, component: Component, inputs: seq<Input>): Stream {
    if inputs == [] then Initial(component)
    else Step(eventHash, Run(eventHash, component, inputs[..|inputs| - 1]), inputs[|inputs| - 1])
  }

  /** The hash the chain has after its n-th event. */
  function Head(events: map<int, StoredEvent>, n: int): Option<Text> {
    if n in events then Some(events[n].hash) else None
  }

  /** Row n is in its place, refers to the row before it, and carries its own hash. */
  ghost predicate Linked(eventHash: Hasher, events: map<int, StoredEvent>, n: int) {
    n in events ==>
      && events[n].event.sequenceNumber == n
      && events[n].previousHash == Head(events, n - 1)
      && events[n].hash == eventHash(events[n].revision, events[n].previousHash, events[n].event)
  }

  ghost predicate ChainHolds(eventHash: Hasher, events: map<int, StoredEvent>, last: int) {
    && (forall n :: n in events <==> 1 <= n <= last)
    && (forall n {:trigger Linked(eventHash, events, n)} :: Linked(eventHash, events, n))
  }

  /** What holds of every reachable stream. */
  ghost predicate Consistent(eventHash: Hasher, s: Stream) {
    && s.highestAcknowledged == s.expectedNext - 1 <= s.highestReceived
    && s.expectedNext >= 1
    && (s.gapState == GapDetected <==> s.gapTo.Some?)
    && (s.gapFrom.Some? <==> s.gapTo.Some?)
    && (s.gapTo.Some? ==> s.gapFrom == Some(s.expectedNext) && s.expectedNext <= s.gapTo.value < s.highestReceived)
    && s.currentHash == Head(s.events, s.expectedNext - 1)
    && ChainHolds(eventHash, s.events, s.expectedNext - 1)
  }

  lemma StepKeepsConsistent(eventHash: Hasher, s: Stream, input: Input)
    requires Consistent(eventHash, s)
    ensures Consistent(eventHash, Step(eventHash, s, input))
  {
    if input.Deliver? && input.event.sequenceNumber == s.expectedNext {
      var s' := Step(eventHash, s, input);
      if s' != s {
        ExtendChain(eventHash, s.events, s.expectedNext - 1, s'.events[s.expectedNext]);
      }
    }
  }

  lemma ExtendChain(eventHash: Hasher, events: map<int, StoredEvent>, last: int, row: StoredEvent)
    requires ChainHolds(eventHash, events, last) && last >= 0
    requires row.event.sequenceNumber == last + 1 && row.previousHash == Head(events, last)
    requires row.hash == eventHash(row.revision, row.previousHash, row.event)
    ensures ChainHolds(eventHash, events[last + 1 := row], last + 1)
  {
    var events' := events[last + 1 := row];
    forall n ensures Linked(eventHash, events', n) {
      assert Linked(eventHash, events, n);
    }
  }

  /** Every delivery sequence, however lossy, duplicated or reordered, keeps counters, markers and chain together. */
  lemma {:induction false} AlwaysConsistent(eventHash: Hasher, component: Component, inputs: seq<Input>)
    ensures Consistent(eventHash, Run(eventHash, component, inputs))
  {
    if inputs != [] {
      var before := inputs[..|inputs| - 1];
      AlwaysConsistent(eventHash, component, before);
      StepKeepsConsistent(eventHash, Run(eventHash, component, before), inputs[|inputs| - 1]);
    }
  }
}
