/**
 The registry of one browser automation: its revisions, which of them is active, whether the automation is enabled, and
 the runs requested of it under idempotency keys. Enabling reads twice before it writes, each in its own step.
 */
module AutomationRegistry {
  import opened CodeUnits
  import opened Options

  datatype Availability = Disabled | Enabled | RepairRequired | ReauthRequired

  datatype RevisionStatus = Draft | Preflighted | Active | Superseded

  datatype Verification = Pending | Pass | Fail

  datatype Revision = Revision(digest: Text, status: RevisionStatus, verification: Verification)

  datatype RunRow = RunRow(caller: Option<Text>, key: Text, revision: nat)

  /** A request to enable: after reading the active revision, and after finding it active and verified. */
  datatype Enabling = SawActive(revision: nat) | Checked(revision: nat)

  type RequestId = int

  /** Revision n stands at place n - 1; a run is identified by its place. */
  datatype Registry = Registry(
    availability: Availability, active: Option<nat>, revisions: seq<Revision>, runs: seq<RunRow>,
    enabling: map<RequestId, Enabling>)

  datatype Action =
    | CreateRevision(digest: Text)
    | VerifyPassed(revision: nat, digest: Text)
    | VerifyFailed(revision: nat)
    | Activate(revision: nat)
    | EnableRead(request: RequestId)
    | EnableCheck(request: RequestId)
    | EnableWrite(request: RequestId)
    | Disable
    | RequireRepair
    | Reauthenticate
    | RequestRun(caller: Option<Text>, key: Text)

  const EMPTY := Registry(Disabled, None, [], [], map[])

  predicate Exists(g: Registry, n: nat) {
    1 <= n <= |g.revisions|
  }

  function Rev(g: Registry, n: nat): Revision
    requires Exists(g, n)
  {
    g.revisions[n - 1]
  }

  /** Active and verified: what enabling checks, and what requesting a run checks again. */
  predicate Ready(g: Registry, n: nat) {
    Exists(g, n) && Rev(g, n).status == Active && Rev(g, n).verification == Pass
  }

  /** `update ... set status='SUPERSEDED'` for the others, then ACTIVE for n. */
  function Activated(revisions: seq<Revision>, n: nat): (r: seq<Revision>)
    requires 1 <= n <= |revisions|
    ensures |r| == |revisions|
    ensures forall i :: 0 <= i < |r| ==> r[i] == if i == n - 1 then revisions[i].(status := Active)
                                               else if revisions[i].status == Active then revisions[i].(status := Superseded)
                                               else revisions[i]
  {
    seq(|revisions|, i requires 0 <= i < |revisions| =>
      if i == n - 1 then revisions[i].(status := Active)
      else if revisions[i].status == Active then revisions[i].(status := Superseded)
      else revisions[i])
  }

  function WithRevision(g: Registry, n: nat, r: Revision): Registry
    requires Exists(g, n)
  {
    g.(revisions := g.revisions[n - 1 := r])
  }

  /** The place of the run that answers to a caller's key. */
  function FindRun(runs: seq<RunRow>, caller: Option<Text>, key: Text): (r: Option<nat>)
    ensures r.Some? ==> r.value < |runs| && runs[r.value].caller == caller && runs[r.value].key == key
    ensures r.None? ==> forall i :: 0 <= i < |runs| ==> runs[i].caller != caller || runs[i].key != key
  {
    if runs == [] then None
    else if runs[|runs| - 1].caller == caller && runs[|runs| - 1].key == key then Some(|runs| - 1)
    else FindRun(runs[..|runs| - 1], caller, key)
  }

  predicate RunAllowed(g: Registry) {
    g.availability == Enabled && g.active.Some? && Ready(g, g.active.value)
  }

  function Next(g: Registry, a: Action): Registry {
    match a
    case CreateRevision(digest) =>
      if exists r :: r in g.revisions && r.digest == digest then g
      else g.(revisions := g.revisions + [Revision(digest, Draft, Pending)])
    case VerifyPassed(n, digest) =>
      if !Exists(g, n) || Rev(g, n).digest != digest then g
      else
        var status := if Rev(g, n).status == Draft then Preflighted else Rev(g, n).status;
        WithRevision(g, n, Rev(g, n).(verification := Pass, status := status))
    case VerifyFailed(n) => if Exists(g, n) then WithRevision(g, n, Rev(g, n).(verification := Fail)) else g
    case Activate(n) =>
      if !Exists(g, n) || Rev(g, n).verification != Pass then g
      else g.(revisions := Activated(g.revisions, n), active := Some(n), availability := Disabled)
    case EnableRead(q) => if g.active.Some? then g.(enabling := g.enabling[q := SawActive(g.active.value)]) else g
    case EnableCheck(q) =>
      if q in g.enabling && g.enabling[q].SawActive? && Ready(g, g.enabling[q].revision) then
        g.(enabling := g.enabling[q := Checked(g.enabling[q].revision)])
      else g
    case EnableWrite(q) =>
      if q in g.enabling && g.enabling[q].Checked? then g.(availability := Enabled, enabling := g.enabling - {q}) else g
    case Disable => g.(availability := Disabled)
    case RequireRepair => g.(availability := RepairRequired)
    case Reauthenticate => g.(availability := if g.active.None? then ReauthRequired else Disabled)
    case RequestRun(caller, key) =>
      if !RunAllowed(g) || FindRun(g.runs, caller, key).Some? then g
      else g.(runs := g.runs + [RunRow(caller, key, g.active.value)])
  }

  function Run(g: Registry, actions: seq<Action>): Registry {
    if actions == [] then g else Next(Run(g, actions[..|actions| - 1]), actions[|actions| - 1])
  }

  // ---------------------------------------------------------------------------------------------------------
  // The tables
  // ---------------------------------------------------------------------------------------------------------

  class RegistryTables {
    var availability: Availability
    var active: Option<nat>
    var revisions: seq<Revision>
    var runs: seq<RunRow>
    var enabling: map<RequestId, Enabling>

    function Rows(): Registry
      reads this
    {
      Registry(availability, active, revisions, runs, enabling)
    }

    constructor ()
      ensures Rows() == EMPTY
    {
      availability, active, revisions, runs, enabling := Disabled, None, [], [], map[];
    }

    /** `activateBrowserAutomationRevision`; false when the revision is missing or not verified. */
    method ActivateRevision(n: nat) returns (activated: bool)
      modifies this
      ensures Rows() == Next(old(Rows()), Activate(n))
      ensures activated <==> Exists(old(Rows()), n) && Rev(old(Rows()), n).verification == Pass
    {
      if n == 0 || n > |revisions| { return false; }
      if revisions[n - 1].verification != Pass { return false; }
      var before := revisions;
      for i := 0 to |before|
        invariant |revisions| == |before|
        invariant forall j :: i <= j < |before| ==> revisions[j] == before[j]
        invariant forall j :: 0 <= j < i ==>
          revisions[j] == if before[j].status == Active && j != n - 1 then before[j].(status := Superseded) else before[j]
        invariant Rows() == old(Rows()).(revisions := revisions)
      {
        if revisions[i].status == Active && i != n - 1 {
          revisions := revisions[i := revisions[i].(status := Superseded)];
        }
      }
      revisions := revisions[n - 1 := revisions[n - 1].(status := Active)];
      assert revisions == Activated(before, n);
      active, availability := Some(n), Disabled;
      return true;
    }

    /** `createBrowserAutomationRun`: the run that answers to the key, or nothing when the request is refused. */
    method CreateRun(caller: Option<Text>, key: Text) returns (run: Option<nat>)
      modifies this`runs
      ensures Rows() == Next(old(Rows()), RequestRun(caller, key))
      ensures run.Some? <==> RunAllowed(old(Rows()))
      ensures run.Some? ==> run == FindRun(runs, caller, key)
    {
      if availability != Enabled { return None; }
      if active.None? || !Exists(Rows(), active.value) { return None; }
      var revision := revisions[active.value - 1];
      if revision.status != Active || revision.verification != Pass { return None; }
      var existing := FindRun(runs, caller, key);
      if existing.Some? { return existing; }
      runs := runs + [RunRow(caller, key, active.value)];
      return Some(|runs| - 1);
    }
  }

  // ---------------------------------------------------------------------------------------------------------
  // What every interleaving keeps
  // ---------------------------------------------------------------------------------------------------------

  /** The active revision is the one marked ACTIVE, digests are unique, and a caller's key names one run. */
  ghost predicate Sound(g: Registry) {
    && (g.active.Some? ==> Exists(g, g.active.value))
    && (forall i :: 0 <= i < |g.revisions| ==> (g.revisions[i].status == Active <==> g.active == Some(i + 1)))
    && (forall i, j :: 0 <= i < j < |g.revisions| ==> g.revisions[i].digest != g.revisions[j].digest)
    && (forall i, j :: 0 <= i < j < |g.runs| ==> g.runs[i].caller != g.runs[j].caller || g.runs[i].key != g.runs[j].key)
    && (forall i :: 0 <= i < |g.runs| ==> Exists(g, g.runs[i].revision))
  }

  lemma CreateKeepsSound(g: Registry, digest: Text)
    requires Sound(g)
    ensures Sound(Next(g, CreateRevision(digest)))
  {
    forall i | 0 <= i < |g.revisions| && Next(g, CreateRevision(digest)) != g ensures g.revisions[i].digest != digest {
      assert g.revisions[i] in g.revisions;
    }
  }

  lemma RequestKeepsSound(g: Registry, caller: Option<Text>, key: Text)
    requires Sound(g)
    ensures Sound(Next(g, RequestRun(caller, key)))
  {
  }

  lemma RevisionUpdateKeepsSound(g: Registry, a: Action)
    requires Sound(g) && (a.VerifyPassed? || a.VerifyFailed? || a.Activate?)
    ensures Sound(Next(g, a))
  {
  }

  lemma NextKeepsSound(g: Registry, a: Action)
    requires Sound(g)
    ensures Sound(Next(g, a))
  {
    match a
    case CreateRevision(digest) => CreateKeepsSound(g, digest);
    case RequestRun(caller, key) => RequestKeepsSound(g, caller, key);
    case VerifyPassed(_, _) => RevisionUpdateKeepsSound(g, a);
    case VerifyFailed(_) => RevisionUpdateKeepsSound(g, a);
    case Activate(_) => RevisionUpdateKeepsSound(g, a);
    case _ =>
  }

  lemma {:induction false} AlwaysSound(g: Registry, actions: seq<Action>)
    requires Sound(g)
    ensures Sound(Run(g, actions))
    ensures |g.revisions| <= |Run(g, actions).revisions|
    ensures g.runs <= Run(g, actions).runs
  {
    if actions != [] {
      AlwaysSound(g, actions[..|actions| - 1]);
      NextKeepsSound(Run(g, actions[..|actions| - 1]), actions[|actions| - 1]);
    }
  }

  /** Every run was requested while its revision was the active one, verified, and the automation enabled. */
  lemma {:induction false} RunsWereAllowed(actions: seq<Action>, i: nat) returns (k: nat)
    requires i < |Run(EMPTY, actions).runs|
    ensures k < |actions|
    ensures var g := Run(EMPTY, actions[..k]);
            && g.availability == Enabled && g.active.Some? && Exists(g, g.active.value)
            && Rev(g, g.active.value).status == Active && Rev(g, g.active.value).verification == Pass
            && |g.runs| == i && Run(EMPTY, actions).runs[i].revision == g.active.value
  {
    var last := |actions| - 1;
    assert actions != [];
    var before := Run(EMPTY, actions[..last]);
    if i < |before.runs| {
      k := RunsWereAllowed(actions[..last], i);
      assert actions[..last][..k] == actions[..k];
      assert Next(before, actions[last]).runs[i] == before.runs[i];
    } else {
      k := last;
    }
  }

  /** A key that has its run keeps it: whatever happens later, asking again creates nothing and answers that run. */
  lemma KeyKeepsItsRun(g: Registry, actions: seq<Action>, caller: Option<Text>, key: Text)
    requires Sound(g) && FindRun(g.runs, caller, key).Some?
    ensures var later := Run(g, actions);
            && FindRun(later.runs, caller, key) == FindRun(g.runs, caller, key)
            && Next(later, RequestRun(caller, key)) == later
  {
    AlwaysSound(g, actions);
    var i := FindRun(g.runs, caller, key).value;
    var later := Run(g, actions);
    assert later.runs[i] == g.runs[i];
    var j := FindRun(later.runs, caller, key).value;
    assert later.runs[j].caller == later.runs[i].caller && later.runs[j].key == later.runs[i].key;
  }

  /** The last verdict on a revision, once it exists. */
  function LastVerdict(actions: seq<Action>, n: nat): Verification {
    if actions == [] then Pending
    else
      var g, a := Run(EMPTY, actions[..|actions| - 1]), actions[|actions| - 1];
      if a == VerifyFailed(n) && 1 <= n <= |g.revisions| then Fail
      else if a.VerifyPassed? && a.revision == n && 1 <= n <= |g.revisions| && g.revisions[n - 1].digest == a.digest then Pass
      else LastVerdict(actions[..|actions| - 1], n)
  }

  lemma VerificationMoves(g: Registry, a: Action, n: nat)
    ensures Exists(g, n) ==>
              && Exists(Next(g, a), n)
              && Rev(Next(g, a), n).verification ==
                 if a == VerifyFailed(n) then Fail
                 else if a == VerifyPassed(n, Rev(g, n).digest) then Pass else Rev(g, n).verification
    ensures !Exists(g, n) && Exists(Next(g, a), n) ==> Rev(Next(g, a), n).verification == Pending
  {
  }

  /** A revision is verified exactly when the last verdict on it, given for its own digest, was that it passed. */
  lemma {:induction false} VerificationIsLastVerdict(actions: seq<Action>, n: nat)
    ensures if Exists(Run(EMPTY, actions), n) then Rev(Run(EMPTY, actions), n).verification == LastVerdict(actions, n)
            else LastVerdict(actions, n) == Pending
  {
    if actions != [] {
      var before, a := actions[..|actions| - 1], actions[|actions| - 1];
      VerificationIsLastVerdict(before, n);
      VerificationMoves(Run(EMPTY, before), a, n);
    }
  }

  /** How the status of a revision moves: a draft that passes is preflighted; activation makes one active, another superseded. */
  lemma RevisionStatusMoves(g: Registry, a: Action, n: nat)
    requires Sound(g) && 1 <= n <= |g.revisions|
    ensures n <= |Next(g, a).revisions| && Next(g, a).revisions[n - 1].digest == g.revisions[n - 1].digest
    ensures var before, now := g.revisions[n - 1], Next(g, a).revisions[n - 1];
            && (a.VerifyPassed? && a.revision == n && a.digest == before.digest && before.status == Draft ==>
                  now.status == Preflighted)
            && (now.status != before.status ==> match now.status
                  case Preflighted => before.status == Draft && a == VerifyPassed(n, before.digest)
                  case Active => a == Activate(n) && before.verification == Pass
                  case Superseded => before.status == Active && a.Activate? && a.revision != n
                  case Draft => false)
  {
  }

  /** What switches an automation: what each availability comes from, and what each of these actions brings about. */
  lemma AvailabilityMoves(g: Registry, a: Action)
    ensures var now := Next(g, a).availability;
            && (a == Disable || (a.Activate? && Next(g, a) != g) ==> now == Disabled)
            && (a == RequireRepair ==> now == RepairRequired)
            && (a == Reauthenticate ==> now == if g.active.None? then ReauthRequired else Disabled)
            && (a.EnableWrite? && a.request in g.enabling && g.enabling[a.request].Checked? ==> now == Enabled)
            && (now != g.availability ==> match now
                  case Enabled => a.EnableWrite? && a.request in g.enabling && g.enabling[a.request].Checked?
                  case Disabled => a == Disable || a.Activate? || (a == Reauthenticate && g.active.Some?)
                  case RepairRequired => a == RequireRepair
                  case ReauthRequired => a == Reauthenticate && g.active.None?)
  {
  }

  /** A request to enable is checked exactly when the revision it read is active and verified. */
  lemma CheckTells(g: Registry, q: RequestId)
    requires q in g.enabling && g.enabling[q].SawActive?
    ensures var n := g.enabling[q].revision;
            Next(g, EnableCheck(q)) ==
            if 1 <= n <= |g.revisions| && g.revisions[n - 1].status == Active && g.revisions[n - 1].verification == Pass then
              g.(enabling := g.enabling[q := Checked(n)])
            else g
  {
  }

  // ---------------------------------------------------------------------------------------------------------
  // Activation and enabling
  // ---------------------------------------------------------------------------------------------------------

  /** After an activation no run is accepted until some request to enable is written. */
  lemma {:induction false} ActivationDisables(g: Registry, n: nat, actions: seq<Action>)
    requires Exists(g, n) && Rev(g, n).verification == Pass
    requires forall i :: 0 <= i < |actions| ==> !actions[i].EnableWrite?
    ensures var later := Run(Next(g, Activate(n)), actions);
            later.availability != Enabled && later.runs == g.runs
  {
    if actions != [] { ActivationDisables(g, n, actions[..|actions| - 1]); }
  }

  /** The activation takes effect: its revision exists and is verified. */
  predicate Activates(g: Registry, a: Action) {
    a.Activate? && Exists(g, a.revision) && Rev(g, a.revision).verification == Pass
  }

  /** The revision of the last activation that took effect. */
  function LastActivation(g: Registry, actions: seq<Action>): Option<nat> {
    if actions == [] then None
    else
      var before, a := actions[..|actions| - 1], actions[|actions| - 1];
      if Activates(Run(g, before), a) then Some(a.revision) else LastActivation(g, before)
  }

  lemma ActiveMoves(g: Registry, a: Action, q: RequestId)
    ensures Next(g, a).active == if Activates(g, a) then Some(a.revision) else g.active
    ensures a != EnableRead(q) && q in Next(g, a).enabling ==>
              q in g.enabling && Next(g, a).enabling[q].revision == g.enabling[q].revision
  {
  }

  /** The active revision is that of the last activation, and a pending request remembers the revision it read. */
  lemma {:induction false} ActiveIsLastActivated(g: Registry, q: RequestId, actions: seq<Action>)
    requires g.active.Some? && q in g.enabling
    requires forall i :: 0 <= i < |actions| ==> actions[i] != EnableRead(q)
    ensures var later, last := Run(g, actions), LastActivation(g, actions);
            && later.active == (if last.Some? then last else g.active)
            && (q in later.enabling ==> later.enabling[q].revision == g.enabling[q].revision)
  {
    if actions != [] {
      var before, a := actions[..|actions| - 1], actions[|actions| - 1];
      ActiveIsLastActivated(g, q, before);
      ActiveMoves(Run(g, before), a, q);
    }
  }

  /**
   Whatever happens between reading the active revision and writing, the write enables the automation, and the enabled
   revision is the one that was checked exactly when the last activation since the read, if there was one, was of it.
   */
  lemma {:induction false} CheckedRevisionIsEnabled(g: Registry, q: RequestId, actions: seq<Action>)
    requires g.active.Some? && forall i :: 0 <= i < |actions| ==> actions[i] != EnableRead(q)
    requires var later := Run(Next(g, EnableRead(q)), actions); q in later.enabling && later.enabling[q].Checked?
    ensures var start := Next(g, EnableRead(q));
            var later := Run(start, actions);
            var written := Next(later, EnableWrite(q));
            var last := LastActivation(start, actions);
            && written.availability == Enabled
            && later.enabling[q] == Checked(g.active.value)
            && (written.active == Some(later.enabling[q].revision) <==> last.None? || last == g.active)
  {
    ActiveIsLastActivated(Next(g, EnableRead(q)), q, actions);
  }

  lemma RunOfThree(g: Registry, a: Action, b: Action, c: Action)
    ensures Run(g, [a, b, c]) == Next(Next(Next(g, a), b), c)
  {
    assert [a, b, c][..2] == [a, b] && [a, b][..1] == [a] && [a][..0] == [];
    assert Run(g, [a]) == Next(Run(g, []), a);
    assert Run(g, [a, b]) == Next(Run(g, [a]), b);
  }

  /** An activation between check and write ends up enabled, although nobody checked it or asked for it. */
  lemma OverrunActivationStaysEnabled(g: Registry, q: RequestId, n: nat)
    requires Sound(g) && q in g.enabling && g.enabling[q].SawActive? && Ready(g, g.enabling[q].revision)
    requires Exists(g, n) && Rev(g, n).verification == Pass && n != g.enabling[q].revision
    ensures var later := Run(g, [EnableCheck(q), Activate(n), EnableWrite(q)]);
            later.availability == Enabled && later.active == Some(n) && RunAllowed(later)
  {
    RunOfThree(g, EnableCheck(q), Activate(n), EnableWrite(q));
    var checked := Next(g, EnableCheck(q));
    assert checked == g.(enabling := g.enabling[q := Checked(g.enabling[q].revision)]);
    var activated := Next(checked, Activate(n));
    assert activated.enabling == checked.enabling && Ready(activated, n);
  }
}
