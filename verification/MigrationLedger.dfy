/**
 The migration ledger: how a legacy ledger is recognised and rewritten, how the recorded set is validated, and the
 loop that applies what is not recorded yet. Every migration runs in its own transaction with its ledger row.
 */
module MigrationLedger {
  import opened Options
  import opened MigrationNames

  const BASELINE := "001_pre_production_baseline.sql"

  const RETIRED := {
    "005_dashboard_operational_views.sql",
    "006_dashboard_identity_delete_guards.sql",
    "007_component_pulse_idempotency.sql"}

  datatype Migration = Migration(name: string, sequence: nat, checksum: string)

  datatype Entry = Entry(sequence: Option<int>, checksum: Option<string>)

  type Ledger = map<string, Entry>

  /** The database: the ledger table, and the migrations whose transaction committed, oldest first. */
  datatype Store = Store(ledger: Ledger, executed: seq<string>)

  // ---------------------------------------------------------------------------------------------------------
  // Lists of migrations
  // ---------------------------------------------------------------------------------------------------------

  ghost predicate DistinctNames(ms: seq<Migration>) {
    forall i, j :: 0 <= i < j < |ms| ==> ms[i].name != ms[j].name
  }

  /** What loading an accepted directory yields: distinct names, the baseline first, digests that are never empty. */
  ghost predicate Loaded(ms: seq<Migration>) {
    && DistinctNames(ms)
    && (forall i :: 0 <= i < |ms| ==> ms[i].checksum != "")
    && (forall i :: 0 < i < |ms| ==> ms[i].name != BASELINE)
  }

  function RecordOf(m: Migration): Entry {
    Entry(Some(m.sequence), Some(m.checksum))
  }

  function Find(ms: seq<Migration>, name: string): (r: Option<Migration>)
    ensures r.Some? ==> r.value in ms && r.value.name == name
    ensures r.None? <==> forall i :: 0 <= i < |ms| ==> ms[i].name != name
  {
    if ms == [] then None
    else if ms[|ms| - 1].name == name then Some(ms[|ms| - 1])
    else Find(ms[..|ms| - 1], name)
  }

  /** One row per migration. */
  function LedgerOf(ms: seq<Migration>): Ledger {
    if ms == [] then map[] else LedgerOf(ms[..|ms| - 1])[ms[|ms| - 1].name := RecordOf(ms[|ms| - 1])]
  }

  function Names(ms: seq<Migration>): (r: seq<string>)
    ensures |r| == |ms| && forall i :: 0 <= i < |ms| ==> r[i] == ms[i].name
  {
    seq(|ms|, i requires 0 <= i < |ms| => ms[i].name)
  }

  lemma {:induction false} LedgerOfFinds(ms: seq<Migration>, name: string)
    ensures name in LedgerOf(ms) <==> Find(ms, name).Some?
    ensures name in LedgerOf(ms) ==> LedgerOf(ms)[name] == RecordOf(Find(ms, name).value)
  {
    if ms != [] { LedgerOfFinds(ms[..|ms| - 1], name); }
  }

  /** `loadMigrations`: the checksum is the digest of the file's text. */
  function LoadedFrom(names: seq<Numbered>, text: string -> string, sha: string -> string): (ms: seq<Migration>)
    ensures |ms| == |names|
    ensures forall i :: 0 <= i < |ms| ==> ms[i] == Migration(names[i].name, names[i].sequence, sha(text(names[i].name)))
  {
    seq(|names|, i requires 0 <= i < |names| => Migration(names[i].name, names[i].sequence, sha(text(names[i].name))))
  }

  lemma AcceptedDirectoryLoads(entries: seq<string>, text: string -> string, sha: string -> string)
    requires ValidatedNames(entries).Ok? && forall t :: sha(t) != ""
    ensures Loaded(LoadedFrom(ValidatedNames(entries).value, text, sha))
  {
    AcceptedExactlyWhenNumberedFromOne(entries);
    var r := ValidatedNames(entries).value;
    forall i | 0 <= i < |r| && r[i].name == BASELINE ensures i == 0 {
      NumberOfBaseline();
    }
  }

  lemma NumberOfBaseline()
    ensures SequenceOf(BASELINE) <= 1
  {
    assert BASELINE[0] == '0' && BASELINE[1] == '0' && BASELINE[2] == '1';
  }

  // ---------------------------------------------------------------------------------------------------------
  // Deciding and validating
  // ---------------------------------------------------------------------------------------------------------

  /**
   What `shouldCompactAppliedSet` may answer. The rows come from a query without an order, and the first row that
   the directory does not know settles the matter, so a ledger can leave it open.
   */
  ghost predicate MayDecide(ms: seq<Migration>, applied: Ledger, r: Outcome<bool>) {
    if applied == map[] then r == Ok(false)
    else if BASELINE !in applied then r == Ok(true)
    else match r
      case Ok(true) => exists n :: n in applied && Find(ms, n).None? && n in RETIRED
      case Ok(false) => forall n :: n in applied ==> Find(ms, n).Some?
      case Fail(e) => exists n :: n in applied && Find(ms, n).None? && n !in RETIRED && e == UnknownApplied(n)
  }

  /** `shouldCompactAppliedSet` */
  method ShouldCompactAppliedSet(ms: seq<Migration>, applied: Ledger) returns (r: Outcome<bool>)
    ensures MayDecide(ms, applied, r)
  {
    if applied == map[] { return Ok(false); }
    if BASELINE !in applied { return Ok(true); }
    var left := applied.Keys;
    while left != {}
      invariant left <= applied.Keys
      invariant forall n :: n in applied && n !in left ==> Find(ms, n).Some?
    {
      var version :| version in left;
      left := left - {version};
      if Find(ms, version).Some? { continue; }
      if version in RETIRED { return Ok(true); }
      return Fail(UnknownApplied(version));
    }
    return Ok(false);
  }

  /** What `validateAppliedSet` holds against one row. */
  function Complaint(ms: seq<Migration>, name: string, entry: Entry): Option<Error> {
    match Find(ms, name)
    case None => Some(UnknownApplied(name))
    case Some(m) =>
      if entry.sequence != Some(m.sequence) then Some(SequenceChanged(name))
      else if entry.checksum == None || entry.checksum == Some("") then Some(ChecksumMissing(name))
      else if entry.checksum != Some(m.checksum) then Some(ChecksumChanged(name))
      else None
  }

  /** What each complaint says of the row and its file; a row without complaint records its file. */
  lemma ComplaintTells(ms: seq<Migration>, name: string, entry: Entry)
    requires forall i :: 0 <= i < |ms| ==> ms[i].checksum != ""
    ensures var m, e := Find(ms, name), Complaint(ms, name, entry);
            && (e == Some(UnknownApplied(name)) <==> m.None?)
            && (e == Some(SequenceChanged(name)) <==> m.Some? && entry.sequence != Some(m.value.sequence))
            && (e == Some(ChecksumMissing(name)) <==>
                  m.Some? && entry.sequence == Some(m.value.sequence) && (entry.checksum == None || entry.checksum == Some("")))
            && (e == Some(ChecksumChanged(name)) <==>
                  && m.Some? && entry.sequence == Some(m.value.sequence)
                  && entry.checksum.Some? && entry.checksum.value != "" && entry.checksum.value != m.value.checksum)
            && (e == None <==> m.Some? && entry == Entry(Some(m.value.sequence), Some(m.value.checksum)))
  {
  }

  ghost predicate Admitted(ms: seq<Migration>, applied: Ledger) {
    forall n :: n in applied ==> Complaint(ms, n, applied[n]).None?
  }

  ghost predicate IsComplaint(ms: seq<Migration>, applied: Ledger, e: Error) {
    exists n :: n in applied && Complaint(ms, n, applied[n]) == Some(e)
  }

  /** `validateAppliedSet` */
  method ValidateAppliedSet(ms: seq<Migration>, applied: Ledger) returns (e: Option<Error>)
    ensures e.None? ==> Admitted(ms, applied)
    ensures e.Some? ==> IsComplaint(ms, applied, e.value)
  {
    var left := applied.Keys;
    while left != {}
      invariant left <= applied.Keys
      invariant forall n :: n in applied && n !in left ==> Complaint(ms, n, applied[n]).None?
    {
      var version :| version in left;
      left := left - {version};
      e := Complaint(ms, version, applied[version]);
      if e.Some? { return; }
    }
    return None;
  }

  /** The answer is settled exactly when not both a retired and an unknown name are recorded beside the baseline. */
  lemma DecisionIsSettledUnlessMixed(ms: seq<Migration>, applied: Ledger)
    ensures (exists r, s :: MayDecide(ms, applied, r) && MayDecide(ms, applied, s) && r.Ok? && s.Fail?)
      <==> (BASELINE in applied
            && (exists n :: n in applied && Find(ms, n).None? && n in RETIRED)
            && (exists n :: n in applied && Find(ms, n).None? && n !in RETIRED))
  {
    if BASELINE in applied
       && (exists n :: n in applied && Find(ms, n).None? && n in RETIRED)
       && (exists n :: n in applied && Find(ms, n).None? && n !in RETIRED) {
      var u :| u in applied && Find(ms, u).None? && u !in RETIRED;
      assert MayDecide(ms, applied, Ok(true)) && MayDecide(ms, applied, Fail(UnknownApplied(u)));
    }
  }

  // ---------------------------------------------------------------------------------------------------------
  // One run
  // ---------------------------------------------------------------------------------------------------------

  /** The migrations without a ledger row, in order. */
  function Pending(ms: seq<Migration>, ledger: Ledger): seq<Migration> {
    if ms == [] then []
    else
      var before := Pending(ms[..|ms| - 1], ledger);
      if ms[|ms| - 1].name in ledger then before else before + [ms[|ms| - 1]]
  }

  function WithApplied(s: Store, ps: seq<Migration>): Store {
    Store(s.ledger + LedgerOf(ps), s.executed + Names(ps))
  }

  /** How long the process lives, or how far it comes before a migration or the database fails it. */
  datatype Life = DiesBeforeCompaction | DiesAfterCompaction | DiesAfter(commits: nat) | Survives

  /** How many of n pending migrations a process commits. */
  function Commits(life: Life, n: nat): nat {
    if life.DiesAfter? && life.commits < n then life.commits else n
  }

  /** The outcome of validation and loop. */
  ghost predicate Applied(ms: seq<Migration>, life: Life, s: Store, after: Store, failure: Option<Error>) {
    if life.DiesAfterCompaction? then failure == Some(Interrupted) && after == s
    else if !Admitted(ms, s.ledger) then failure.Some? && IsComplaint(ms, s.ledger, failure.value) && after == s
    else
      var ps := Pending(ms, s.ledger);
      && after == WithApplied(s, ps[..Commits(life, |ps|)])
      && failure == if life.DiesAfter? then Some(Interrupted) else None
  }

  /** One run of `runMigrations` over a loaded directory, given the answer of the compaction check. */
  ghost predicate RanOn(ms: seq<Migration>, ready: bool, life: Life, s: Store, after: Store, failure: Option<Error>,
                        decision: Outcome<bool>)
  {
    match decision
    case Fail(e) => failure == Some(e) && after == s
    case Ok(compact) =>
      if compact && !ready then failure == Some(CompactionNotReady) && after == s
      else Applied(ms, life, if compact then s.(ledger := LedgerOf(ms)) else s, after, failure)
  }

  ghost predicate Ran(ms: seq<Migration>, ready: bool, life: Life, s: Store, after: Store, failure: Option<Error>) {
    if Find(ms, BASELINE).None? then failure == Some(BaselineMissing) && after == s
    else if life.DiesBeforeCompaction? then failure == Some(Interrupted) && after == s
    else exists decision :: MayDecide(ms, s.ledger, decision) && RanOn(ms, ready, life, s, after, failure, decision)
  }

  lemma {:induction false} PendingSplits(ms: seq<Migration>, ledger: Ledger, i: nat)
    requires i <= |ms|
    ensures Pending(ms[..i], ledger) <= Pending(ms, ledger)
    decreases |ms|
  {
    if i == |ms| {
      assert ms[..i] == ms;
    } else {
      assert ms[..|ms| - 1][..i] == ms[..i];
      PendingSplits(ms[..|ms| - 1], ledger, i);
    }
  }

  /** After the first i migrations, the pending ones among them are recorded and executed, and nothing else. */
  ghost predicate HasApplied(ms: seq<Migration>, i: nat, start: Store, s: Store, commits: nat) {
    && i <= |ms|
    && Admitted(ms, start.ledger) && Admitted(ms, s.ledger)
    && commits == |Pending(ms[..i], start.ledger)|
    && s == WithApplied(start, Pending(ms[..i], start.ledger))
  }

  lemma StartsAtNothing(ms: seq<Migration>, s: Store)
    requires Admitted(ms, s.ledger)
    ensures HasApplied(ms, 0, s, s, 0)
  {
    assert ms[..0] == [];
    assert s.executed + Names([]) == s.executed;
  }

  lemma {:induction false} PendingAreListed(ms: seq<Migration>, ledger: Ledger)
    ensures forall m :: m in Pending(ms, ledger) ==> m in ms && m.name !in ledger
  {
    if ms != [] {
      PendingAreListed(ms[..|ms| - 1], ledger);
      assert forall m :: m in ms[..|ms| - 1] ==> m in ms;
    }
  }

  lemma LaterIsNotRecorded(ms: seq<Migration>, i: nat, ledger: Ledger)
    requires Loaded(ms) && i < |ms|
    ensures ms[i].name !in LedgerOf(Pending(ms[..i], ledger))
  {
    var ps := Pending(ms[..i], ledger);
    PendingAreListed(ms[..i], ledger);
    LedgerOfFinds(ps, ms[i].name);
  }

  lemma SkipsRecorded(ms: seq<Migration>, i: nat, start: Store, s: Store, commits: nat)
    requires Loaded(ms) && i < |ms| && HasApplied(ms, i, start, s, commits) && ms[i].name in s.ledger
    ensures HasApplied(ms, i + 1, start, s, commits)
  {
    LaterIsNotRecorded(ms, i, start.ledger);
    assert ms[..i + 1][..i] == ms[..i];
  }

  lemma AdmittedGrows(ms: seq<Migration>, i: nat, ledger: Ledger)
    requires Loaded(ms) && i < |ms| && Admitted(ms, ledger)
    ensures Admitted(ms, ledger[ms[i].name := RecordOf(ms[i])])
  {
    OwnRecordIsAdmitted(ms, i);
  }

  lemma PendingStep(ms: seq<Migration>, i: nat, ledger: Ledger)
    requires i < |ms| && ms[i].name !in ledger
    ensures var ps := Pending(ms[..i], ledger);
            && Pending(ms[..i + 1], ledger) == ps + [ms[i]]
            && |ps| < |Pending(ms, ledger)| && Pending(ms, ledger)[..|ps|] == ps
  {
    var ps := Pending(ms[..i], ledger);
    assert ms[..i + 1][..i] == ms[..i];
    PendingSplits(ms, ledger, i + 1);
    assert (ps + [ms[i]])[..|ps|] == ps;
  }

  lemma ApplyIsInOrder(ms: seq<Migration>, i: nat, start: Store, s: Store, commits: nat)
    requires Loaded(ms) && i < |ms| && HasApplied(ms, i, start, s, commits) && ms[i].name !in s.ledger
    ensures HasApplied(ms, i + 1, start, Store(s.ledger[ms[i].name := RecordOf(ms[i])], s.executed + [ms[i].name]),
                       commits + 1)
    ensures commits < |Pending(ms, start.ledger)| && Pending(ms, start.ledger)[..commits] == Pending(ms[..i], start.ledger)
  {
    PendingStep(ms, i, start.ledger);
    AppendApplied(start, Pending(ms[..i], start.ledger), ms[i]);
    AdmittedGrows(ms, i, s.ledger);
  }

  class Database {
    var ledger: Ledger
    var executed: seq<string>

    ghost function State(): Store
      reads this
    {
      Store(ledger, executed)
    }

    /** `compactLegacyLedger`, in its transaction. */
    method CompactLegacyLedger(ms: seq<Migration>, ready: bool) returns (done: bool)
      modifies this
      ensures done == ready && executed == old(executed)
      ensures ledger == if ready then LedgerOf(ms) else old(ledger)
    {
      if !ready { return false; }
      ledger := map[];
      for i := 0 to |ms|
        invariant ledger == LedgerOf(ms[..i]) && executed == old(executed)
      {
        assert ms[..i + 1][..i] == ms[..i];
        ledger := ledger[ms[i].name := RecordOf(ms[i])];
      }
      assert ms[..|ms|] == ms;
      return true;
    }

    /** Validation and the loop of `runMigrations`. */
    method ApplyPending(ms: seq<Migration>, life: Life) returns (failure: Option<Error>)
      requires Loaded(ms)
      modifies this
      ensures Applied(ms, life, old(State()), State(), failure)
    {
      if life.DiesAfterCompaction? { return Some(Interrupted); }
      ghost var start := State();
      var applied := ledger;
      failure := ValidateAppliedSet(ms, applied);
      if failure.Some? { return; }
      var commits := 0;
      StartsAtNothing(ms, start);
      for i := 0 to |ms|
        invariant applied == ledger && (life.DiesAfter? ==> commits <= life.commits)
        invariant HasApplied(ms, i, start, State(), commits)
      {
        if ms[i].name in applied {
          SkipsRecorded(ms, i, start, State(), commits);
        } else {
          ApplyIsInOrder(ms, i, start, State(), commits);
          if life.DiesAfter? && commits == life.commits { return Some(Interrupted); }
          ledger := ledger[ms[i].name := RecordOf(ms[i])];
          executed := executed + [ms[i].name];
          applied := applied[ms[i].name := RecordOf(ms[i])];
          commits := commits + 1;
        }
      }
      assert ms[..|ms|] == ms;
      assert Pending(ms, start.ledger)[..commits] == Pending(ms, start.ledger);
      if life.DiesAfter? { return Some(Interrupted); }
      applied := ledger;
      failure := ValidateAppliedSet(ms, applied);
    }

    /** `runMigrations`, with the advisory lock held. */
    method RunMigrations(ms: seq<Migration>, ready: bool, life: Life) returns (failure: Option<Error>)
      requires Loaded(ms)
      modifies this
      ensures Ran(ms, ready, life, old(State()), State(), failure)
    {
      if Find(ms, BASELINE).None? { return Some(BaselineMissing); }
      if life.DiesBeforeCompaction? { return Some(Interrupted); }
      var decision := ShouldCompactAppliedSet(ms, ledger);
      if decision.Fail? { return Some(decision.error); }
      if decision.value {
        var done := CompactLegacyLedger(ms, ready);
        if !done { return Some(CompactionNotReady); }
      }
      failure := ApplyPending(ms, life);
    }
  }

  lemma OwnRecordIsAdmitted(ms: seq<Migration>, i: nat)
    requires Loaded(ms) && i < |ms|
    ensures Find(ms, ms[i].name) == Some(ms[i]) && Complaint(ms, ms[i].name, RecordOf(ms[i])).None?
  {
    var m := Find(ms, ms[i].name);
    var j :| 0 <= j < |ms| && ms[j] == m.value;
  }

  lemma AppendApplied(s: Store, ps: seq<Migration>, m: Migration)
    ensures WithApplied(s, ps + [m])
      == Store(WithApplied(s, ps).ledger[m.name := RecordOf(m)], WithApplied(s, ps).executed + [m.name])
  {
    assert (ps + [m])[..|ps|] == ps;
    assert Names(ps + [m]) == Names(ps) + [m.name];
    assert s.executed + Names(ps + [m]) == s.executed + Names(ps) + [m.name];
  }

  // ---------------------------------------------------------------------------------------------------------
  // What a run promises
  // ---------------------------------------------------------------------------------------------------------

  lemma {:induction false} PendingIsTheRest(ms: seq<Migration>, ledger: Ledger, m: Migration)
    ensures m in Pending(ms, ledger) <==> m in ms && m.name !in ledger
  {
    if ms != [] {
      PendingIsTheRest(ms[..|ms| - 1], ledger, m);
      assert ms == ms[..|ms| - 1] + [ms[|ms| - 1]];
    }
  }

  lemma FindIsTheOne(ms: seq<Migration>, m: Migration)
    requires DistinctNames(ms) && m in ms
    ensures Find(ms, m.name) == Some(m)
  {
    var i :| 0 <= i < |ms| && ms[i] == m;
    var j :| 0 <= j < |ms| && ms[j] == Find(ms, m.name).value;
  }

  lemma CompletedRow(ms: seq<Migration>, ledger: Ledger, n: string)
    requires Loaded(ms) && Admitted(ms, ledger)
    ensures var l := ledger + LedgerOf(Pending(ms, ledger));
            && (n in l <==> n in LedgerOf(ms))
            && (n in l ==> l[n] == LedgerOf(ms)[n])
  {
    var ps := Pending(ms, ledger);
    LedgerOfFinds(ms, n);
    LedgerOfFinds(ps, n);
    if Find(ps, n).Some? {
      PendingIsTheRest(ms, ledger, Find(ps, n).value);
      FindIsTheOne(ms, Find(ps, n).value);
    } else if Find(ms, n).Some? {
      PendingIsTheRest(ms, ledger, Find(ms, n).value);
    }
  }

  lemma CompletedLedger(ms: seq<Migration>, ledger: Ledger)
    requires Loaded(ms) && Admitted(ms, ledger)
    ensures ledger + LedgerOf(Pending(ms, ledger)) == LedgerOf(ms)
  {
    forall n ensures var l := ledger + LedgerOf(Pending(ms, ledger));
                     (n in l <==> n in LedgerOf(ms)) && (n in l ==> l[n] == LedgerOf(ms)[n])
    {
      CompletedRow(ms, ledger, n);
    }
  }

  lemma AppliedWithoutFailure(ms: seq<Migration>, life: Life, s: Store, after: Store)
    requires Applied(ms, life, s, after, None)
    ensures Admitted(ms, s.ledger) && after == WithApplied(s, Pending(ms, s.ledger))
  {
    var ps := Pending(ms, s.ledger);
    assert ps[..|ps|] == ps;
  }

  /** After a successful run the ledger is the directory, whatever it was before. */
  lemma SuccessMeansLedgerIsDirectory(ms: seq<Migration>, ready: bool, life: Life, s: Store, after: Store)
    requires Loaded(ms) && Ran(ms, ready, life, s, after, None)
    ensures after.ledger == LedgerOf(ms)
  {
    var decision :| MayDecide(ms, s.ledger, decision) && RanOn(ms, ready, life, s, after, None, decision);
    var start := if decision.value then s.(ledger := LedgerOf(ms)) else s;
    AppliedWithoutFailure(ms, life, start, after);
    CompletedLedger(ms, start.ledger);
  }

  lemma BaselineComesFirst(ms: seq<Migration>)
    requires Loaded(ms) && Find(ms, BASELINE).Some?
    ensures ms[0].name == BASELINE
  {
    var i :| 0 <= i < |ms| && ms[i] == Find(ms, BASELINE).value;
  }

  /** The store of a database that ran exactly the first n migrations of the directory. */
  ghost predicate IsPrefix(ms: seq<Migration>, n: nat, s: Store) {
    n <= |ms| && s == Store(LedgerOf(ms[..n]), Names(ms[..n]))
  }

  lemma {:induction false} PrefixIsRecorded(ms: seq<Migration>, n: nat, m: Migration)
    requires DistinctNames(ms) && n <= |ms| && m in ms
    ensures m.name in LedgerOf(ms[..n]) <==> m in ms[..n]
  {
    LedgerOfFinds(ms[..n], m.name);
    FindIsTheOne(ms, m);
    if Find(ms[..n], m.name).Some? {
      var f := Find(ms[..n], m.name).value;
      var i :| 0 <= i < n && ms[..n][i] == f;
      assert ms[i] == f;
      FindIsTheOne(ms, f);
    }
  }

  lemma PlaceDecidesPending(ms: seq<Migration>, n: nat, k: nat)
    requires DistinctNames(ms) && n <= |ms| && k < |ms|
    ensures ms[k].name in LedgerOf(ms[..n]) <==> k < n
  {
    PrefixIsRecorded(ms, n, ms[k]);
    if k < n {
      assert ms[..n][k] == ms[k];
    } else {
      forall i | 0 <= i < n ensures ms[..n][i] != ms[k] {
        assert ms[i].name != ms[k].name;
      }
    }
  }

  lemma {:induction false} PendingOfConcat(a: seq<Migration>, b: seq<Migration>, ledger: Ledger)
    ensures Pending(a + b, ledger) == Pending(a, ledger) + Pending(b, ledger)
    decreases |b|
  {
    if b == [] {
      assert a + b == a;
    } else {
      PendingOfConcat(a, b[..|b| - 1], ledger);
      assert (a + b)[..|a + b| - 1] == a + b[..|b| - 1];
    }
  }

  lemma {:induction false} NonePending(ms: seq<Migration>, ledger: Ledger)
    requires forall i :: 0 <= i < |ms| ==> ms[i].name in ledger
    ensures Pending(ms, ledger) == []
  {
    if ms != [] { NonePending(ms[..|ms| - 1], ledger); }
  }

  lemma {:induction false} AllPending(ms: seq<Migration>, ledger: Ledger)
    requires forall i :: 0 <= i < |ms| ==> ms[i].name !in ledger
    ensures Pending(ms, ledger) == ms
  {
    if ms != [] {
      AllPending(ms[..|ms| - 1], ledger);
      assert ms == ms[..|ms| - 1] + [ms[|ms| - 1]];
    }
  }

  lemma PendingIsTheSecondPart(a: seq<Migration>, b: seq<Migration>, ledger: Ledger)
    requires forall i :: 0 <= i < |a| ==> a[i].name in ledger
    requires forall i :: 0 <= i < |b| ==> b[i].name !in ledger
    ensures Pending(a + b, ledger) == b
  {
    NonePending(a, ledger);
    AllPending(b, ledger);
    PendingOfConcat(a, b, ledger);
    assert [] + b == b;
  }

  lemma PrefixIsRecordedOnly(ms: seq<Migration>, n: nat)
    requires DistinctNames(ms) && n <= |ms|
    ensures forall i :: 0 <= i < n ==> ms[i].name in LedgerOf(ms[..n])
    ensures forall i :: n <= i < |ms| ==> ms[i].name !in LedgerOf(ms[..n])
  {
    forall i | 0 <= i < |ms| ensures ms[i].name in LedgerOf(ms[..n]) <==> i < n {
      PlaceDecidesPending(ms, n, i);
    }
  }

  lemma PendingAfterSplit(ms: seq<Migration>, n: nat, ledger: Ledger)
    requires n <= |ms|
    requires forall i :: 0 <= i < n ==> ms[i].name in ledger
    requires forall i :: n <= i < |ms| ==> ms[i].name !in ledger
    ensures Pending(ms, ledger) == ms[n..]
  {
    PendingIsTheSecondPart(ms[..n], ms[n..], ledger);
    assert ms == ms[..n] + ms[n..];
  }

  lemma PendingAfterPrefix(ms: seq<Migration>, n: nat)
    requires DistinctNames(ms) && n <= |ms|
    ensures Pending(ms, LedgerOf(ms[..n])) == ms[n..]
  {
    PrefixIsRecordedOnly(ms, n);
    PendingAfterSplit(ms, n, LedgerOf(ms[..n]));
  }

  lemma PrefixIsAdmitted(ms: seq<Migration>, n: nat)
    requires Loaded(ms) && n <= |ms|
    ensures Admitted(ms, LedgerOf(ms[..n]))
  {
    var ledger := LedgerOf(ms[..n]);
    forall name | name in ledger ensures Complaint(ms, name, ledger[name]).None? {
      LedgerOfFinds(ms[..n], name);
      var m := Find(ms[..n], name).value;
      var i :| 0 <= i < n && ms[..n][i] == m;
      assert ms[i] == m;
      FindIsTheOne(ms, m);
    }
  }

  lemma {:induction false} LedgerOfConcat(a: seq<Migration>, b: seq<Migration>)
    ensures LedgerOf(a + b) == LedgerOf(a) + LedgerOf(b)
    decreases |b|
  {
    if b == [] {
      assert a + b == a;
    } else {
      LedgerOfConcat(a, b[..|b| - 1]);
      assert (a + b)[..|a + b| - 1] == a + b[..|b| - 1];
    }
  }

  lemma NamesOfConcat(a: seq<Migration>, b: seq<Migration>)
    ensures Names(a + b) == Names(a) + Names(b)
  {
  }

  lemma AppliedToPrefix(ms: seq<Migration>, n: nat, m: nat, s: Store)
    requires IsPrefix(ms, n, s) && n <= m <= |ms|
    ensures IsPrefix(ms, m, WithApplied(s, ms[n..m]))
  {
    var a, b := ms[..n], ms[n..m];
    assert ms[..m] == a + b;
    LedgerOfConcat(a, b);
    NamesOfConcat(a, b);
  }

  lemma PrefixNeedsNoCompaction(ms: seq<Migration>, n: nat, s: Store, r: Outcome<bool>)
    requires Loaded(ms) && Find(ms, BASELINE).Some? && IsPrefix(ms, n, s) && MayDecide(ms, s.ledger, r)
    ensures r == Ok(false)
  {
    PrefixIsAdmitted(ms, n);
    BaselineComesFirst(ms);
    PrefixIsRecorded(ms, n, ms[0]);
    if n == 0 {
      assert ms[..0] == [];
    } else {
      assert ms[..n][0] == ms[0];
      assert forall name :: name in s.ledger ==> Complaint(ms, name, s.ledger[name]).None?;
    }
  }

  /** How many migrations have run when a process that started with n of them ends. */
  function ReachedFrom(n: nat, life: Life, all: nat): nat {
    match life
    case DiesBeforeCompaction => n
    case DiesAfterCompaction => n
    case DiesAfter(commits) => if n + commits < all then n + commits else all
    case Survives => all
  }

  lemma AppliedFromPrefix(ms: seq<Migration>, life: Life, n: nat, s: Store, after: Store, failure: Option<Error>)
    requires Loaded(ms) && IsPrefix(ms, n, s) && Applied(ms, life, s, after, failure) && !life.DiesAfterCompaction?
    ensures after == WithApplied(s, ms[n..][..Commits(life, |ms[n..]|)])
    ensures failure == if life.DiesAfter? then Some(Interrupted) else None
  {
    PrefixIsAdmitted(ms, n);
    PendingAfterPrefix(ms, n);
  }

  lemma ReachedInTheRest(ms: seq<Migration>, life: Life, n: nat)
    requires n <= |ms| && !life.DiesBeforeCompaction? && !life.DiesAfterCompaction?
    ensures n <= ReachedFrom(n, life, |ms|) <= |ms|
    ensures ms[n..][..Commits(life, |ms[n..]|)] == ms[n..ReachedFrom(n, life, |ms|)]
  {
    assert n + Commits(life, |ms[n..]|) == ReachedFrom(n, life, |ms|);
  }

  lemma RestReaches(ms: seq<Migration>, life: Life, n: nat, s: Store, after: Store)
    requires IsPrefix(ms, n, s) && !life.DiesBeforeCompaction? && !life.DiesAfterCompaction?
    requires after == WithApplied(s, ms[n..][..Commits(life, |ms[n..]|)])
    ensures IsPrefix(ms, ReachedFrom(n, life, |ms|), after)
  {
    ReachedInTheRest(ms, life, n);
    AppliedToPrefix(ms, n, ReachedFrom(n, life, |ms|), s);
  }

  lemma ApplyingExtendsPrefix(ms: seq<Migration>, life: Life, n: nat, s: Store, after: Store, failure: Option<Error>)
    requires Loaded(ms) && IsPrefix(ms, n, s) && Applied(ms, life, s, after, failure) && !life.DiesBeforeCompaction?
    ensures IsPrefix(ms, ReachedFrom(n, life, |ms|), after)
    ensures failure == if life.Survives? then None else Some(Interrupted)
  {
    if !life.DiesAfterCompaction? {
      AppliedFromPrefix(ms, life, n, s, after, failure);
      RestReaches(ms, life, n, s, after);
    }
  }

  /** A run over a database that holds a prefix of the directory leaves the prefix that its life lets it reach. */
  lemma RunExtendsPrefix(ms: seq<Migration>, ready: bool, life: Life, n: nat, s: Store, after: Store,
                         failure: Option<Error>) returns (m: nat)
    requires Loaded(ms) && IsPrefix(ms, n, s) && Ran(ms, ready, life, s, after, failure)
    ensures n <= m && IsPrefix(ms, m, after)
    ensures m == if Find(ms, BASELINE).None? then n else ReachedFrom(n, life, |ms|)
    ensures failure == if Find(ms, BASELINE).None? then Some(BaselineMissing)
                       else if life.Survives? then None else Some(Interrupted)
  {
    if Find(ms, BASELINE).None? || life.DiesBeforeCompaction? { return n; }
    var decision :| MayDecide(ms, s.ledger, decision) && RanOn(ms, ready, life, s, after, failure, decision);
    PrefixNeedsNoCompaction(ms, n, s, decision);
    ApplyingExtendsPrefix(ms, life, n, s, after, failure);
    m := ReachedFrom(n, life, |ms|);
  }

  // Whole histories -------------------------------------------------------------------------------------------

  datatype Attempt = Attempt(ms: seq<Migration>, ready: bool, life: Life, failure: Option<Error>, after: Store)

  function StateAfter(start: Store, attempts: seq<Attempt>): Store {
    if attempts == [] then start else attempts[|attempts| - 1].after
  }

  /** A history of runs, each ending in success, in an error, or in a crash after some commits. */
  ghost predicate Happened(start: Store, attempts: seq<Attempt>) {
    attempts == [] ||
    (var (before, a) := (attempts[..|attempts| - 1], attempts[|attempts| - 1]);
     Happened(start, before) && Loaded(a.ms) && Ran(a.ms, a.ready, a.life, StateAfter(start, before), a.after, a.failure))
  }

  /** Releases only append files. */
  ghost predicate OnlyAppends(attempts: seq<Attempt>) {
    forall i, j :: 0 <= i < j < |attempts| ==> attempts[i].ms <= attempts[j].ms
  }

  const EMPTY := Store(map[], [])

  lemma PrefixOfLonger(a: seq<Migration>, b: seq<Migration>, n: nat, s: Store)
    requires IsPrefix(a, n, s) && a <= b
    ensures IsPrefix(b, n, s)
  {
    assert a[..n] == b[..n];
  }

  /** From an empty ledger, across crashes and restarts, what has run is a prefix of the directory, each file once. */
  lemma {:induction false} FreshHistoryIsAPrefix(attempts: seq<Attempt>) returns (n: nat)
    requires attempts != [] && Happened(EMPTY, attempts) && OnlyAppends(attempts)
    ensures IsPrefix(attempts[|attempts| - 1].ms, n, StateAfter(EMPTY, attempts))
    ensures attempts[|attempts| - 1].failure.None? ==> n == |attempts[|attempts| - 1].ms|
    ensures var executed := StateAfter(EMPTY, attempts).executed;
            forall i, j :: 0 <= i < j < |executed| ==> executed[i] != executed[j]
  {
    var before, a := attempts[..|attempts| - 1], attempts[|attempts| - 1];
    var s := StateAfter(EMPTY, before);
    n := 0;
    if before == [] {
      assert a.ms[..0] == [];
      assert IsPrefix(a.ms, 0, s);
    } else {
      n := FreshHistoryIsAPrefix(before);
      PrefixOfLonger(before[|before| - 1].ms, a.ms, n, s);
    }
    n := RunExtendsPrefix(a.ms, a.ready, a.life, n, s, a.after, a.failure);
  }

  // Rows that do not fit ----------------------------------------------------------------------------------------

  lemma NothingIsPending(ms: seq<Migration>)
    requires Loaded(ms)
    ensures Admitted(ms, LedgerOf(ms)) && Pending(ms, LedgerOf(ms)) == []
  {
    assert ms[..|ms|] == ms;
    PrefixIsAdmitted(ms, |ms|);
    PendingAfterPrefix(ms, |ms|);
  }

  lemma NothingToApply(ms: seq<Migration>, life: Life, s: Store, after: Store, failure: Option<Error>)
    requires Loaded(ms) && s.ledger == LedgerOf(ms) && !life.DiesBeforeCompaction?
    requires Applied(ms, life, s, after, failure)
    ensures after == s && (failure.None? <==> life.Survives?)
  {
    NothingIsPending(ms);
    assert s.executed + Names([]) == s.executed;
  }

  /** Running again over an up-to-date database does nothing, and succeeds unless the process dies. */
  lemma SecondRunDoesNothing(ms: seq<Migration>, ready: bool, life: Life, s: Store, after: Store, failure: Option<Error>)
    requires Loaded(ms) && Find(ms, BASELINE).Some? && s.ledger == LedgerOf(ms)
    requires Ran(ms, ready, life, s, after, failure)
    ensures after == s && (failure.None? <==> life.Survives?)
  {
    if !life.DiesBeforeCompaction? {
      var decision :| MayDecide(ms, s.ledger, decision) && RanOn(ms, ready, life, s, after, failure, decision);
      assert ms[..|ms|] == ms;
      PrefixNeedsNoCompaction(ms, |ms|, Store(LedgerOf(ms), Names(ms)), decision);
      NothingToApply(ms, life, s, after, failure);
    }
  }

  /** The ledger calls for compaction: it lacks the baseline, or holds a retired name that the directory lacks. */
  ghost predicate CallsForCompaction(ms: seq<Migration>, ledger: Ledger) {
    && ledger != map[]
    && (BASELINE !in ledger || exists n :: n in ledger && Find(ms, n).None? && n in RETIRED)
  }

  /** The run ends in an error and leaves the database as it was; if the process lives, the error is about the database. */
  predicate Stopped(life: Life, s: Store, after: Store, failure: Option<Error>) {
    after == s && failure.Some? && (life.Survives? ==> failure != Some(Interrupted))
  }

  lemma MisfitStopsWithoutCompaction(ms: seq<Migration>, ready: bool, life: Life, s: Store, after: Store,
                                     failure: Option<Error>, decision: Outcome<bool>)
    requires !Admitted(ms, s.ledger) && MayDecide(ms, s.ledger, decision)
    requires RanOn(ms, ready, life, s, after, failure, decision) && (decision == Ok(true) ==> !ready)
    ensures Stopped(life, s, after, failure)
  {
  }

  lemma MisfitIsForgottenByCompaction(ms: seq<Migration>, life: Life, s: Store) returns (after: Store, failure: Option<Error>)
    requires Loaded(ms) && Find(ms, BASELINE).Some? && !life.DiesBeforeCompaction?
    requires !Admitted(ms, s.ledger) && CallsForCompaction(ms, s.ledger)
    ensures Ran(ms, true, life, s, after, failure) && after != s && (failure.None? <==> life.Survives?)
  {
    after, failure := Store(LedgerOf(ms), s.executed), if life.Survives? then None else Some(Interrupted);
    NothingIsPending(ms);
    assert s.executed + Names([]) == s.executed;
    assert MayDecide(ms, s.ledger, Ok(true)) && RanOn(ms, true, life, s, after, failure, Ok(true));
  }

  /**
   A recorded row that does not fit its file, or has none, stops every run before anything is written, exactly when the
   run cannot compact: the directory lacks the baseline, the process dies first, the preconditions of compaction fail, or
   the ledger does not call for it.
   */
  lemma ChangedFileStopsTheRun(ms: seq<Migration>, ready: bool, life: Life, s: Store)
    requires Loaded(ms) && !Admitted(ms, s.ledger)
    ensures (forall after, failure :: Ran(ms, ready, life, s, after, failure) ==> Stopped(life, s, after, failure))
       <==> Find(ms, BASELINE).None? || life.DiesBeforeCompaction? || !ready || !CallsForCompaction(ms, s.ledger)
  {
    if Find(ms, BASELINE).None? || life.DiesBeforeCompaction? || !ready || !CallsForCompaction(ms, s.ledger) {
      forall after, failure | Ran(ms, ready, life, s, after, failure) ensures Stopped(life, s, after, failure) {
        if Find(ms, BASELINE).Some? && !life.DiesBeforeCompaction? {
          var decision :| MayDecide(ms, s.ledger, decision) && RanOn(ms, ready, life, s, after, failure, decision);
          MisfitStopsWithoutCompaction(ms, ready, life, s, after, failure, decision);
        }
      }
    } else {
      var after, failure := MisfitIsForgottenByCompaction(ms, life, s);
      assert !Stopped(life, s, after, failure);
    }
  }

  // What compaction records ---------------------------------------------------------------------------------------

  /** The run newly records m and does not execute it. */
  predicate RecordsUnexecuted(s: Store, after: Store, m: Migration)
    requires |s.executed| <= |after.executed|
  {
    m.name in after.ledger && m.name !in s.ledger && m.name !in after.executed[|s.executed|..]
  }

  /** Compaction rewrites the ledger to the directory and executes nothing. */
  lemma CompactionExecutesNothing(ms: seq<Migration>, ready: bool, life: Life, s: Store, after: Store)
    requires Loaded(ms) && !life.DiesBeforeCompaction? && RanOn(ms, ready, life, s, after, None, Ok(true))
    ensures after == Store(LedgerOf(ms), s.executed)
  {
    NothingToApply(ms, life, Store(LedgerOf(ms), s.executed), after, None);
  }

  lemma {:induction false} NamesMembers(ms: seq<Migration>, m: Migration)
    requires m in ms
    ensures m.name in Names(ms)
  {
    var i :| 0 <= i < |ms| && ms[i] == m;
    assert Names(ms)[i] == m.name;
  }

  /** Without compaction, what a successful run newly records it executes. */
  lemma WithoutCompactionAllIsExecuted(ms: seq<Migration>, ready: bool, life: Life, s: Store, after: Store, m: Migration)
    requires Loaded(ms) && !life.DiesBeforeCompaction? && RanOn(ms, ready, life, s, after, None, Ok(false)) && m in ms
    ensures |s.executed| <= |after.executed| && !RecordsUnexecuted(s, after, m)
  {
    AppliedWithoutFailure(ms, life, s, after);
    var ps := Pending(ms, s.ledger);
    assert after.executed[|s.executed|..] == Names(ps);
    PendingIsTheRest(ms, s.ledger, m);
    if m in ps { NamesMembers(ps, m); }
  }

  /**
   A successful run records a file that it does not execute exactly when it decided to compact and the ledger lacked a
   name of the directory; and it may decide so exactly when the ledger calls for it.
   */
  lemma RecordsUnexecutedExactlyWhenCompacting(ms: seq<Migration>, ready: bool, life: Life, s: Store, after: Store,
                                               decision: Outcome<bool>)
    requires Loaded(ms) && !life.DiesBeforeCompaction?
    requires MayDecide(ms, s.ledger, decision) && RanOn(ms, ready, life, s, after, None, decision)
    ensures |s.executed| <= |after.executed|
    ensures (exists m :: m in ms && RecordsUnexecuted(s, after, m))
       <==> decision == Ok(true) && CallsForCompaction(ms, s.ledger) && exists m :: m in ms && m.name !in s.ledger
    ensures MayDecide(ms, s.ledger, Ok(true)) <==> CallsForCompaction(ms, s.ledger)
  {
    if decision == Ok(true) {
      CompactionExecutesNothing(ms, ready, life, s, after);
      assert after.executed[|s.executed|..] == [];
      forall m | m in ms ensures m.name in LedgerOf(ms) {
        LedgerOfFinds(ms, m.name);
        FindIsTheOne(ms, m);
      }
      assert forall m :: m in ms ==> (RecordsUnexecuted(s, after, m) <==> m.name !in s.ledger);
    } else {
      AppliedWithoutFailure(ms, life, s, after);
      forall m | m in ms ensures !RecordsUnexecuted(s, after, m) {
        WithoutCompactionAllIsExecuted(ms, ready, life, s, after, m);
      }
    }
  }

  /** What compaction recorded without executing it, no later run over the same directory executes either. */
  lemma CompactionRecordsWithoutExecuting(ms: seq<Migration>, ready: bool, life: Life, s: Store, after: Store)
    requires Loaded(ms) && Find(ms, BASELINE).Some? && !life.DiesBeforeCompaction?
    requires MayDecide(ms, s.ledger, Ok(true)) && RanOn(ms, ready, life, s, after, None, Ok(true))
    ensures after == Store(LedgerOf(ms), s.executed)
    ensures forall ready, life, later, failure :: Ran(ms, ready, life, after, later, failure) ==> later == after
  {
    CompactionExecutesNothing(ms, ready, life, s, after);
    forall ready, life, later, failure | Ran(ms, ready, life, after, later, failure) ensures later == after {
      SecondRunDoesNothing(ms, ready, life, after, later, failure);
    }
  }
}
