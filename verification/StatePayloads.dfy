/**
 When a state payload confirms an enable or a disable command: three fields are looked up in the payload and in the
 objects directly inside it.
 */
module StatePayloads {
  import opened CodeUnits
  import opened Options
  import opened CanonicalJson
  import opened Components
  import opened ControlPlane
  import opened ControlEvidence

  /** The names and constants the check compares with, and `toUpperCase`. */
  datatype Vocabulary = Vocabulary(
    activationState: Text, operationalState: Text, enabled: Text,
    active: Text, healthy: Text, disabled: Text, upper: Text -> Text)
  {
    /** The constants are distinct and non-empty, and so are the field names. */
    ghost predicate Proper() {
      && active != [] && healthy != [] && disabled != []
      && active != disabled && healthy != disabled && active != healthy
      && activationState != operationalState && activationState != enabled && operationalState != enabled
      && upper([]) == [] && upper(active) == active && upper(healthy) == healthy && upper(disabled) == disabled
    }
  }

  type Fields = seq<Member>

  /** `record` */
  function RecordOf(v: Json): Option<Fields> {
    if v.Obj? then Some(v.members) else None
  }

  /** `text` */
  function TextOf(v: Json): Text {
    match v
    case Str(s) => s
    case Num(n) => PrintInt(n)
    case Bool(b) => if b then TRUE_TEXT else FALSE_TEXT
    case _ => []
  }

  function Field(fields: Fields, key: Text): Json {
    if key in Keys(fields) then Get(fields, key) else Null
  }

  function Inner(fields: Fields): seq<Fields> {
    if fields == [] then []
    else (if fields[0].value.Obj? then [fields[0].value.members] else []) + Inner(fields[1..])
  }

  /** The payload, then the objects directly inside it. */
  function Candidates(payload: Json): seq<Fields> {
    match RecordOf(payload)
    case None => []
    case Some(fields) => [fields] + Inner(fields)
  }

  /** The first candidate whose field gives a non-empty text. */
  function FirstText(voc: Vocabulary, candidates: seq<Fields>, key: Text): Text {
    if candidates == [] then []
    else
      var t := voc.upper(TextOf(Field(candidates[0], key)));
      if t != [] then t else FirstText(voc, candidates[1..], key)
  }

  /** The first candidate that has a boolean `enabled`. */
  function FirstFlag(voc: Vocabulary, candidates: seq<Fields>): Option<bool> {
    if candidates == [] then None
    else
      var v := Field(candidates[0], voc.enabled);
      if v.Bool? then Some(v.b) else FirstFlag(voc, candidates[1..])
  }

  function ActivationOf(voc: Vocabulary, payload: Json): Text {
    FirstText(voc, Candidates(payload), voc.activationState)
  }

  function Operation(voc: Vocabulary, payload: Json): Text {
    FirstText(voc, Candidates(payload), voc.operationalState)
  }

  function Flag(voc: Vocabulary, payload: Json): Option<bool> {
    FirstFlag(voc, Candidates(payload))
  }

  /** `statePayloadMatchesCommand` for the two expectations that an activation request sets. */
  predicate Matches(voc: Vocabulary, command: Command, payload: Json) {
    if command == Enable then
      Flag(voc, payload) == Some(true) || ActivationOf(voc, payload) == voc.active || Operation(voc, payload) == voc.healthy
    else
      Flag(voc, payload) == Some(false) || ActivationOf(voc, payload) == voc.disabled || Operation(voc, payload) == voc.disabled
  }

  /** The check as the control plane takes it. */
  function ConfirmsBy(voc: Vocabulary): Confirms {
    (command: Command, payload: Json) => Matches(voc, command, payload)
  }

  /** Only an object confirms anything. */
  lemma OnlyObjectsConfirm(voc: Vocabulary, command: Command, payload: Json)
    requires voc.Proper() && Matches(voc, command, payload)
    ensures payload.Obj?
  {
    assert !payload.Obj? ==> Candidates(payload) == [];
  }

  function Wrapped(key: Text, payload: Json): Json {
    Obj([Member(key, payload)])
  }

  predicate IsFieldName(voc: Vocabulary, key: Text) {
    key == voc.activationState || key == voc.operationalState || key == voc.enabled
  }

  lemma WrappedLooksInside(voc: Vocabulary, key: Text, fields: Fields, name: Text)
    requires voc.Proper() && !IsFieldName(voc, key) && IsFieldName(voc, name)
    ensures var outer := Wrapped(key, Obj(fields));
            && Candidates(outer) == [outer.members, fields]
            && Field(outer.members, name) == Null
  {
    var ms := [Member(key, Obj(fields))];
    assert ms[1..] == [] && Inner(ms) == [fields];
    assert Keys(ms) == [key];
  }

  lemma OneCandidate(voc: Vocabulary, fields: Fields, key: Text)
    ensures FirstText(voc, [fields], key) == voc.upper(TextOf(Field(fields, key)))
  {
    var rest: seq<Fields> := [fields][1..];
    assert rest == [];
    assert FirstText(voc, rest, key) == [];
  }

  lemma SilentFirstCandidate(voc: Vocabulary, first: Fields, fields: Fields, key: Text)
    requires voc.upper(TextOf(Field(first, key))) == []
    ensures FirstText(voc, [first, fields], key) == voc.upper(TextOf(Field(fields, key)))
  {
    assert [first, fields][1..] == [fields];
    OneCandidate(voc, fields, key);
  }

  /** The lookups over an object without the three fields and one more object. */
  lemma SecondCandidateAnswers(voc: Vocabulary, key: Text, fields: Fields)
    requires voc.Proper() && !IsFieldName(voc, key)
    ensures var payload := Wrapped(key, Obj(fields));
            && ActivationOf(voc, payload) == voc.upper(TextOf(Field(fields, voc.activationState)))
            && Operation(voc, payload) == voc.upper(TextOf(Field(fields, voc.operationalState)))
            && Flag(voc, payload) == FirstFlag(voc, [fields])
  {
    var outer := [Member(key, Obj(fields))];
    WrappedLooksInside(voc, key, fields, voc.activationState);
    WrappedLooksInside(voc, key, fields, voc.operationalState);
    WrappedLooksInside(voc, key, fields, voc.enabled);
    SilentFirstCandidate(voc, outer, fields, voc.activationState);
    SilentFirstCandidate(voc, outer, fields, voc.operationalState);
    assert [outer, fields][1..] == [fields];
  }

  lemma OnlyCandidateAnswers(voc: Vocabulary, fields: Fields)
    requires Inner(fields) == []
    ensures ActivationOf(voc, Obj(fields)) == voc.upper(TextOf(Field(fields, voc.activationState)))
    ensures Operation(voc, Obj(fields)) == voc.upper(TextOf(Field(fields, voc.operationalState)))
    ensures Flag(voc, Obj(fields)) == FirstFlag(voc, [fields])
  {
    assert Candidates(Obj(fields)) == [fields];
    OneCandidate(voc, fields, voc.activationState);
    OneCandidate(voc, fields, voc.operationalState);
  }

  /** What a flat payload confirms: by its flag, by its activation state, or by its operational state. */
  lemma FlatPayloadConfirms(voc: Vocabulary, fields: Fields)
    requires Inner(fields) == []
    ensures var flag := Field(fields, voc.enabled);
            var activation := voc.upper(TextOf(Field(fields, voc.activationState)));
            var operation := voc.upper(TextOf(Field(fields, voc.operationalState)));
            && (Matches(voc, Enable, Obj(fields)) <==>
                  flag == Bool(true) || activation == voc.active || operation == voc.healthy)
            && (Matches(voc, Disable, Obj(fields)) <==>
                  flag == Bool(false) || activation == voc.disabled || operation == voc.disabled)
  {
    OnlyCandidateAnswers(voc, fields);
    assert [fields][1..] == [];
  }

  /** The text of a field: a string is its own, numbers and booleans are printed, everything else gives none. */
  lemma TextTells(v: Json)
    ensures TextOf(v) == match v
            case Str(s) => s
            case Num(_) => Canon(v)
            case Bool(_) => Canon(v)
            case _ => []
  {
  }

  /** A field counts where it first gives a text, be it in the payload or in an object directly inside it. */
  lemma {:induction false} FirstTextCounts(voc: Vocabulary, candidates: seq<Fields>, key: Text, i: nat)
    requires i < |candidates| && voc.upper(TextOf(Field(candidates[i], key))) != []
    requires forall j :: 0 <= j < i ==> voc.upper(TextOf(Field(candidates[j], key))) == []
    ensures FirstText(voc, candidates, key) == voc.upper(TextOf(Field(candidates[i], key)))
  {
    if i > 0 { FirstTextCounts(voc, candidates[1..], key, i - 1); }
  }

  /** A flag counts where it is first a boolean. */
  lemma {:induction false} FirstFlagCounts(voc: Vocabulary, candidates: seq<Fields>, i: nat)
    requires i < |candidates| && Field(candidates[i], voc.enabled).Bool?
    requires forall j :: 0 <= j < i ==> !Field(candidates[j], voc.enabled).Bool?
    ensures FirstFlag(voc, candidates) == Some(Field(candidates[i], voc.enabled).b)
  {
    if i > 0 { FirstFlagCounts(voc, candidates[1..], i - 1); }
  }

  /** Wrapping a flat payload in an object, as an envelope does, changes no answer. */
  lemma EnvelopeIsTransparent(voc: Vocabulary, key: Text, fields: Fields, command: Command)
    requires voc.Proper() && !IsFieldName(voc, key) && Inner(fields) == []
    ensures Matches(voc, command, Wrapped(key, Obj(fields))) <==> Matches(voc, command, Obj(fields))
  {
    SecondCandidateAnswers(voc, key, fields);
    OnlyCandidateAnswers(voc, fields);
  }

  /** A second envelope hides the payload: nothing inside it confirms. */
  lemma TwoEnvelopesHideThePayload(voc: Vocabulary, outer: Text, inner: Text, payload: Json, command: Command)
    requires voc.Proper() && !IsFieldName(voc, outer) && !IsFieldName(voc, inner)
    ensures !Matches(voc, command, Wrapped(outer, Wrapped(inner, payload)))
  {
    var fields := [Member(inner, payload)];
    SecondCandidateAnswers(voc, outer, fields);
    assert Keys(fields) == [inner];
    assert [fields][1..] == [];
  }

  /** One payload can confirm both commands: disabled by its flag, active by its activation state. */
  lemma MixedSignalsConfirmBoth(voc: Vocabulary)
    requires voc.Proper()
    ensures var payload := Obj([Member(voc.enabled, Bool(false)), Member(voc.activationState, Str(voc.active))]);
            Matches(voc, Enable, payload) && Matches(voc, Disable, payload)
  {
    var flag, state := Member(voc.enabled, Bool(false)), Member(voc.activationState, Str(voc.active));
    var ms := [flag, state];
    assert Keys(ms) == [voc.enabled, voc.activationState];
    assert ms[1..] == [state] && [state][1..] == [];
    assert Keys([state]) == [voc.activationState];
    assert Inner([state]) == [] && Inner(ms) == [] + Inner([state]);
    OnlyCandidateAnswers(voc, ms);
    assert [ms][1..] == [];
  }

  /** A component that answers so, disabled by its flag, is opened by its own answers all the same. */
  lemma MixedPayloadOpensTraffic(voc: Vocabulary, p: Plane)
    requires voc.Proper()
    requires Fresh(p) && p.component.monitoring == Monitoring.Healthy && p.component.activeRevision.Some?
    ensures var payload := Obj([Member(voc.enabled, Bool(false)), Member(voc.activationState, Str(voc.active))]);
            var e := p.component.policyEpoch;
            var answer := HeartbeatPush(Some(1), Some(20), e + 1, true, true);
            Run(ConfirmsBy(voc), p, Prepared(e, payload) + [answer]).component.enabled
  {
    var payload := Obj([Member(voc.enabled, Bool(false)), Member(voc.activationState, Str(voc.active))]);
    var e := p.component.policyEpoch;
    MixedSignalsConfirmBoth(voc);
    AfterPrepared(ConfirmsBy(voc), p, payload);
    RunExtended(ConfirmsBy(voc), p, Prepared(e, payload), HeartbeatPush(Some(1), Some(20), e + 1, true, true));
    HeartbeatOpensForAnyAckedDispatch(ConfirmsBy(voc), Run(ConfirmsBy(voc), p, Prepared(e, payload)), 1);
  }

  /** With the concrete check, open traffic was confirmed by an object. */
  lemma OpenTrafficWasConfirmedByAnObject(voc: Vocabulary, p: Plane, actions: seq<Action>)
    requires voc.Proper() && Fresh(p) && Run(ConfirmsBy(voc), p, actions).component.enabled
    ensures exists d, i :: d in HistoryOf(ConfirmsBy(voc), p, actions).requested
                           && 0 <= i < |actions| && Answers(actions[i], d)
  {
    OpenTrafficIsEvidenced(ConfirmsBy(voc), p, actions);
    var h := HistoryOf(ConfirmsBy(voc), p, actions);
    var d :| d in h.requested && d in h.acked && d in h.confirmed && d in h.met;
    var i := ConfirmingAnswer(voc, p, actions, d);
  }

  /** A state answer to the query of dispatch d that carries an object. */
  predicate Answers(a: Action, d: Id) {
    || (a.Snapshot? && a.id == d && a.payload.Obj?)
    || (a.Observation? && a.own == Some(d) && a.payload.Obj?)
  }

  lemma {:induction false} ConfirmingAnswer(voc: Vocabulary, p: Plane, actions: seq<Action>, d: Id) returns (i: nat)
    requires voc.Proper() && d in HistoryOf(ConfirmsBy(voc), p, actions).confirmed
    ensures i < |actions| && Answers(actions[i], d)
  {
    assert actions != [];
    var last := |actions| - 1;
    if d in HistoryOf(ConfirmsBy(voc), p, actions[..last]).confirmed {
      i := ConfirmingAnswer(voc, p, actions[..last], d);
    } else {
      i := last;
      OnlyObjectsConfirm(voc, Enable, actions[last].payload);
    }
  }
}
