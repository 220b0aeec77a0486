/**
 The audit archive outbox: a worker leases pending rows, appends them to the archive file, and then marks them archived
 or hands them back. It may crash between any two steps, and its lease may expire under it.
 */
module ArchiveOutbox {
  import opened Options
  import opened CanonicalJson
  import opened JsonRecords
  import opened ArchiveFile

  type EventId = int
  type LeaseId = int

  datatype RowState = Pending | Processing | Archived

  datatype Row = Row(state: RowState, lease: Option<LeaseId>, leaseExpires: int, attempts: nat, nextAttempt: int,
                     payload: Json)

  type Redact = Json -> Json

  const LEASE_SECONDS := 120

  function Power2(n: nat): nat {
    if n == 0 then 1 else 2 * Power2(n - 1)
  }

  function Min(a: int, b: int): int {
    if a < b then a else b
  }

  /** Seconds until the next attempt: five seconds doubled per attempt, at most an hour. */
  function Backoff(attempts: nat): int {
    Min(3600, 5 * Power2(Min(attempts, 10)))
  }

  predicate Claimable(row: Row, now: int) {
    && (row.state == Pending || (row.state == Processing && row.leaseExpires <= now))
    && row.nextAttempt <= now
  }

  function AfterClaim(row: Row, lease: LeaseId, now: int): Row {
    row.(state := Processing, lease := Some(lease), leaseExpires := now + LEASE_SECONDS, attempts := row.attempts + 1)
  }

  predicate HeldBy(row: Row, lease: LeaseId) {
    row.lease == Some(lease) && row.state == Processing
  }

  function AfterArchived(row: Row, lease: LeaseId): Row {
    if HeldBy(row, lease) then row.(state := Archived, lease := None) else row
  }

  function AfterRetry(row: Row, lease: LeaseId, now: int): Row {
    if HeldBy(row, lease) then row.(state := Pending, lease := None, nextAttempt := now + Backoff(row.attempts)) else row
  }

  ghost predicate ValidBatch(rows: map<EventId, Row>, batch: seq<EventId>, now: int) {
    && batch != []
    && (forall i :: 0 <= i < |batch| ==> batch[i] in rows && Claimable(rows[batch[i]], now))
    && (forall i, j :: 0 <= i < j < |batch| ==> batch[i] != batch[j])
  }

  function LinesOf(redact: Redact, rows: map<EventId, Row>, batch: seq<EventId>): (lines: seq<Line>)
    requires forall i :: 0 <= i < |batch| ==> batch[i] in rows
    ensures |lines| == |batch|
    ensures forall i :: 0 <= i < |batch| ==> lines[i] == Line(batch[i], redact(rows[batch[i]].payload))
  {
    seq(|batch|, i requires 0 <= i < |batch| => Line(batch[i], redact(rows[batch[i]].payload)))
  }

  function ClaimAll(rows: map<EventId, Row>, batch: seq<EventId>, lease: LeaseId, now: int): map<EventId, Row> {
    map e | e in rows :: if e in batch then AfterClaim(rows[e], lease, now) else rows[e]
  }

  function ArchiveAll(rows: map<EventId, Row>, lease: LeaseId): map<EventId, Row> {
    map e | e in rows :: AfterArchived(rows[e], lease)
  }

  function RetryAll(rows: map<EventId, Row>, lease: LeaseId, now: int): map<EventId, Row> {
    map e | e in rows :: AfterRetry(rows[e], lease, now)
  }

  // ---------------------------------------------------------------------------------------------------------
  // One uninterrupted pass
  // ---------------------------------------------------------------------------------------------------------

  class Outbox {
    const redact: Redact
    var rows: map<EventId, Row>
    var file: Bytes
    var now: int

    constructor (redact: Redact)
      ensures this.redact == redact && rows == map[] && file == []
    {
      this.redact, rows, file := redact, map[], [];
    }

    /**
     `archivePendingAuditEvents` with nobody interfering. `batch` is what the claiming query returns; `written` bytes of
     the body reach the file, and `appended` says whether the append succeeded.
     */
    method ArchivePending(lease: LeaseId, batch: seq<EventId>, written: nat, appended: bool) returns (archived: Option<nat>)
      requires batch == [] || ValidBatch(rows, batch, now)
      requires forall e :: e in rows ==> rows[e].lease != Some(lease)
      requires batch != [] ==>
                 var body := Body(LinesOf(redact, rows, batch)); written <= |body| && (appended ==> written == |body|)
      modifies this`rows, this`file
      ensures rows.Keys == old(rows).Keys
      ensures forall e :: e in rows && e !in batch ==> rows[e] == old(rows)[e]
      ensures batch == [] ==> archived == Some(0) && file == old(file)
      ensures batch != [] && appended ==>
                && archived == Some(|batch|) && file == old(file) + Body(LinesOf(redact, old(rows), batch))
                && forall e :: e in batch ==> rows[e].state == Archived && rows[e].attempts == old(rows)[e].attempts + 1
      ensures batch != [] && !appended ==>
                && archived == None && file == old(file) + Body(LinesOf(redact, old(rows), batch))[..written]
                && forall e :: e in batch ==>
                     && rows[e].state == Pending && rows[e].attempts == old(rows)[e].attempts + 1
                     && rows[e].nextAttempt == now + Backoff(rows[e].attempts)
    {
      if batch == [] { return Some(0); }
      var body := Body(LinesOf(redact, rows, batch));
      rows := ClaimAll(rows, batch, lease, now);
      file := file + body[..written];
      if appended {
        assert body[..written] == body;
        rows := ArchiveAll(rows, lease);
        return Some(|batch|);
      }
      rows := RetryAll(rows, lease, now);
      return None;
    }
  }

  // ---------------------------------------------------------------------------------------------------------
  // Many passes, interleaved and interrupted
  // ---------------------------------------------------------------------------------------------------------

  datatype Phase = Claimed | Appended | AppendFailed | Ended

  datatype Session = Session(lines: seq<Line>, phase: Phase)

  datatype Archive = Archive(rows: map<EventId, Row>, file: Bytes, sessions: map<LeaseId, Session>, now: int)

  /** A worker that crashes takes no further step; a crash during the append is one after some bytes of it. */
  datatype Step =
    | Enqueue(event: EventId, payload: Json)
    | Tick(elapsed: nat)
    | Claim(lease: LeaseId, batch: seq<EventId>)
    | Append(lease: LeaseId, written: nat, succeeds: bool)
    | MarkArchived(lease: LeaseId)
    | MarkRetry(lease: LeaseId)

  const EMPTY := Archive(map[], [], map[], 0)

  ghost function Next(redact: Redact, a: Archive, step: Step): Archive {
    match step
    case Enqueue(e, payload) =>
      if e in a.rows then a else a.(rows := a.rows[e := Row(Pending, None, 0, 0, a.now, payload)])
    case Tick(elapsed) => a.(now := a.now + elapsed)
    case Claim(lease, batch) =>
      if lease in a.sessions || !ValidBatch(a.rows, batch, a.now) then a
      else a.(rows := ClaimAll(a.rows, batch, lease, a.now),
              sessions := a.sessions[lease := Session(LinesOf(redact, a.rows, batch), Claimed)])
    case Append(lease, written, succeeds) =>
      if lease !in a.sessions || a.sessions[lease].phase != Claimed then a
      else
        var lines := a.sessions[lease].lines;
        if written > |Body(lines)| || (succeeds && written != |Body(lines)|) then a
        else a.(file := a.file + Body(lines)[..written],
                sessions := a.sessions[lease := Session(lines, if succeeds then Appended else AppendFailed)])
    case MarkArchived(lease) =>
      if lease !in a.sessions || a.sessions[lease].phase != Appended then a
      else a.(rows := ArchiveAll(a.rows, lease), sessions := a.sessions[lease := a.sessions[lease].(phase := Ended)])
    case MarkRetry(lease) =>
      if lease !in a.sessions || a.sessions[lease].phase == Ended then a
      else a.(rows := RetryAll(a.rows, lease, a.now), sessions := a.sessions[lease := a.sessions[lease].(phase := Ended)])
  }

  ghost function Run(redact: Redact, steps: seq<Step>): Archive {
    if steps == [] then EMPTY else Next(redact, Run(redact, steps[..|steps| - 1]), steps[|steps| - 1])
  }

  /** The leases that claimed e and have not appended yet. */
  ghost function Waiting(sessions: map<LeaseId, Session>, e: EventId): set<LeaseId> {
    set l | l in sessions && sessions[l].phase == Claimed && Mentions(sessions[l].lines, e)
  }

  /** The line of a row. */
  function LineOf(redact: Redact, a: Archive, e: EventId): Line
    requires e in a.rows
  {
    Line(e, redact(a.rows[e].payload))
  }

  ghost predicate RowFits(redact: Redact, a: Archive, e: EventId)
    requires e in a.rows
  {
    var row := a.rows[e];
    && (row.lease.Some? <==> row.state == Processing)
    && (row.lease.Some? ==>
          && row.lease.value in a.sessions && a.sessions[row.lease.value].phase != Ended
          && LineOf(redact, a, e) in a.sessions[row.lease.value].lines)
    && Copies(a.file, RecordOf(LineOf(redact, a, e))) + |Waiting(a.sessions, e)| <= row.attempts
  }

  ghost predicate SessionFits(a: Archive, l: LeaseId)
    requires l in a.sessions
  {
    var s := a.sessions[l];
    && DistinctEvents(s.lines)
    && (forall i :: 0 <= i < |s.lines| ==> s.lines[i].event in a.rows)
  }

  /** No line reads like a record of an event that was never enqueued. */
  ghost predicate NoStrangers(a: Archive) {
    forall l: Line :: l.event !in a.rows ==> Copies(a.file, RecordOf(l)) == 0
  }

  ghost predicate Consistent(redact: Redact, a: Archive) {
    && (forall e :: e in a.rows ==> RowFits(redact, a, e))
    && (forall l :: l in a.sessions ==> SessionFits(a, l))
    && NoStrangers(a)
  }

  lemma EmptyIsConsistent(redact: Redact)
    ensures Consistent(redact, EMPTY)
  {
    forall l: Line ensures Copies([], RecordOf(l)) == 0 {
      RecordIsOneLine(l.event, l.payload);
    }
  }

  lemma EnqueueKeepsConsistent(redact: Redact, a: Archive, step: Step)
    requires Consistent(redact, a) && step.Enqueue?
    ensures Consistent(redact, Next(redact, a, step))
  {
    var a' := Next(redact, a, step);
    if step.event !in a.rows {
      var e := step.event;
      assert Copies(a.file, RecordOf(Line(e, redact(step.payload)))) == 0;
      assert Waiting(a.sessions, e) == {} by {
        forall l | l in a.sessions ensures !Mentions(a.sessions[l].lines, e) { assert SessionFits(a, l); }
      }
      forall x | x in a'.rows ensures RowFits(redact, a', x) { assert x != e ==> RowFits(redact, a, x); }
      forall l | l in a'.sessions ensures SessionFits(a', l) { assert SessionFits(a, l); }
    }
  }

  lemma ClaimKeepsConsistent(redact: Redact, a: Archive, step: Step)
    requires Consistent(redact, a) && step.Claim?
    ensures Consistent(redact, Next(redact, a, step))
  {
    var a' := Next(redact, a, step);
    if step.lease !in a.sessions && ValidBatch(a.rows, step.batch, a.now) {
      var lines := LinesOf(redact, a.rows, step.batch);
      forall e | e in a'.rows ensures RowFits(redact, a', e) {
        assert RowFits(redact, a, e);
        if e in step.batch {
          var i :| 0 <= i < |step.batch| && step.batch[i] == e;
          assert lines[i] == Line(e, redact(a.rows[e].payload));
          assert Waiting(a'.sessions, e) == Waiting(a.sessions, e) + {step.lease};
        } else {
          assert Waiting(a'.sessions, e) == Waiting(a.sessions, e);
        }
      }
      forall l | l in a'.sessions ensures SessionFits(a', l) {
        assert l != step.lease ==> SessionFits(a, l);
      }
    }
  }

  /** An append uses up its lease's place among the waiting, and adds at most one copy. */
  lemma AppendKeepsRow(redact: Redact, a: Archive, step: Step, e: EventId)
    requires Consistent(redact, a) && step.Append? && Next(redact, a, step) != a && e in a.rows
    ensures RowFits(redact, Next(redact, a, step), e)
  {
    var a', l := Next(redact, a, step), step.lease;
    var lines := a.sessions[l].lines;
    var r := LineOf(redact, a, e);
    assert RowFits(redact, a, e) && SessionFits(a, l);
    AppendAddsOneCopy(a.file, lines, step.written, r);
    assert Waiting(a'.sessions, e) == Waiting(a.sessions, e) - {l};
    assert Mentions(lines, e) ==> l in Waiting(a.sessions, e);
  }

  lemma AppendKeepsConsistent(redact: Redact, a: Archive, step: Step)
    requires Consistent(redact, a) && step.Append?
    ensures Consistent(redact, Next(redact, a, step))
  {
    var a' := Next(redact, a, step);
    if a' != a {
      forall e | e in a'.rows ensures RowFits(redact, a', e) { AppendKeepsRow(redact, a, step, e); }
      forall x | x in a'.sessions ensures SessionFits(a', x) { assert SessionFits(a, x); }
      var lines := a.sessions[step.lease].lines;
      assert SessionFits(a, step.lease);
      forall l: Line | l.event !in a'.rows ensures Copies(a'.file, RecordOf(l)) == 0 {
        AppendAddsOneCopy(a.file, lines, step.written, l);
      }
    }
  }

  lemma MarkKeepsConsistent(redact: Redact, a: Archive, step: Step)
    requires Consistent(redact, a) && (step.MarkArchived? || step.MarkRetry?)
    ensures Consistent(redact, Next(redact, a, step))
  {
    var a' := Next(redact, a, step);
    if a' != a {
      forall e | e in a'.rows ensures RowFits(redact, a', e) {
        assert RowFits(redact, a, e);
        assert Waiting(a'.sessions, e) <= Waiting(a.sessions, e);
        SubsetSize(Waiting(a'.sessions, e), Waiting(a.sessions, e));
        assert SessionFits(a, step.lease);
      }
      forall x | x in a'.sessions ensures SessionFits(a', x) {
        assert SessionFits(a, x);
      }
    }
  }

  lemma SubsetSize<T>(x: set<T>, y: set<T>)
    requires x <= y
    ensures |x| <= |y|
  {
    assert y == x + (y - x);
  }

  lemma NextKeepsConsistent(redact: Redact, a: Archive, step: Step)
    requires Consistent(redact, a)
    ensures Consistent(redact, Next(redact, a, step))
  {
    match step
    case Enqueue(_, _) => EnqueueKeepsConsistent(redact, a, step);
    case Claim(_, _) => ClaimKeepsConsistent(redact, a, step);
    case Append(_, _, _) => AppendKeepsConsistent(redact, a, step);
    case Tick(_) =>
      var a' := Next(redact, a, step);
      forall e | e in a'.rows ensures RowFits(redact, a', e) { assert RowFits(redact, a, e); }
      forall l | l in a'.sessions ensures SessionFits(a', l) { assert SessionFits(a, l); }
    case _ => MarkKeepsConsistent(redact, a, step);
  }

  lemma {:induction false} AlwaysConsistent(redact: Redact, steps: seq<Step>)
    ensures Consistent(redact, Run(redact, steps))
  {
    if steps == [] {
      EmptyIsConsistent(redact);
    } else {
      AlwaysConsistent(redact, steps[..|steps| - 1]);
      NextKeepsConsistent(redact, Run(redact, steps[..|steps| - 1]), steps[|steps| - 1]);
    }
  }

  // ---------------------------------------------------------------------------------------------------------
  // The promises
  // ---------------------------------------------------------------------------------------------------------

  /** The step is an append that takes effect and completes. */
  ghost predicate Completes(a: Archive, step: Step) {
    && step.Append? && step.succeeds && step.lease in a.sessions && a.sessions[step.lease].phase == Claimed
    && step.written == |Body(a.sessions[step.lease].lines)|
  }

  /**
   Step k completes an append, step j archives the row under the very lease that appended, and the record stands in the
   file at the place that append gave to it, as number i of its batch.
   */
  ghost predicate WrittenByItsLease(redact: Redact, steps: seq<Step>, e: EventId, k: nat, i: nat, j: nat)
    requires e in Run(redact, steps).rows
  {
    && k < j < |steps| && Completes(Run(redact, steps[..k]), steps[k]) && steps[j] == MarkArchived(steps[k].lease)
    && e in Run(redact, steps[..j]).rows && HeldBy(Run(redact, steps[..j]).rows[e], steps[k].lease)
    && var a, record := Run(redact, steps[..k]), LineOf(redact, Run(redact, steps), e);
       var lines := a.sessions[steps[k].lease].lines;
       && i < |lines| && lines[i] == record
       && OccursAt(Run(redact, steps).file, RecordOf(record), |a.file| + |Body(lines[..i])|)
  }

  lemma {:induction false} WhenAppended(redact: Redact, steps: seq<Step>, lease: LeaseId) returns (k: nat)
    requires var a := Run(redact, steps); lease in a.sessions && a.sessions[lease].phase == Appended
    ensures k < |steps| && Completes(Run(redact, steps[..k]), steps[k]) && steps[k].lease == lease
    ensures Run(redact, steps[..k]).sessions[lease].lines == Run(redact, steps).sessions[lease].lines
  {
    assert steps != [];
    var before := steps[..|steps| - 1];
    var a := Run(redact, before);
    if lease in a.sessions && a.sessions[lease].phase == Appended {
      k := WhenAppended(redact, before, lease);
      assert before[..k] == steps[..k];
    } else {
      k := |steps| - 1;
    }
  }

  lemma {:induction false} WhenArchived(redact: Redact, steps: seq<Step>, e: EventId) returns (j: nat)
    requires var a := Run(redact, steps); e in a.rows && a.rows[e].state == Archived
    ensures j < |steps| && steps[j].MarkArchived?
    ensures var a, lease := Run(redact, steps[..j]), steps[j].lease;
            && lease in a.sessions && a.sessions[lease].phase == Appended
            && e in a.rows && HeldBy(a.rows[e], lease) && a.rows[e].payload == Run(redact, steps).rows[e].payload
  {
    assert steps != [];
    var before := steps[..|steps| - 1];
    var a := Run(redact, before);
    if e in a.rows && a.rows[e].state == Archived {
      j := WhenArchived(redact, before, e);
      assert before[..j] == steps[..j];
      StepKeepsArchived(redact, a, steps[|steps| - 1]);
    } else {
      j := |steps| - 1;
    }
  }

  /** A record of a completed append stays where that append wrote it. */
  lemma AppendedStays(redact: Redact, steps: seq<Step>, k: nat, i: nat)
    requires k < |steps| && Completes(Run(redact, steps[..k]), steps[k])
    requires i < |Run(redact, steps[..k]).sessions[steps[k].lease].lines|
    ensures var a := Run(redact, steps[..k]);
            var lines := a.sessions[steps[k].lease].lines;
            OccursAt(Run(redact, steps).file, RecordOf(lines[i]), |a.file| + |Body(lines[..i])|)
  {
    var a := Run(redact, steps[..k]);
    var lines := a.sessions[steps[k].lease].lines;
    RunExtended(redact, steps[..k], steps[k]);
    assert steps[..k + 1] == steps[..k] + [steps[k]];
    assert Body(lines)[..steps[k].written] == Body(lines);
    ArchivedIsAbsorbing(redact, steps[..k + 1], steps[k + 1..]);
    assert steps == steps[..k + 1] + steps[k + 1..];
    AppendedStaysAt(a.file, lines, i, Run(redact, steps).file);
  }

  lemma PlaceInBatch(redact: Redact, a: Archive, e: EventId, lease: LeaseId) returns (i: nat)
    requires Consistent(redact, a) && e in a.rows && HeldBy(a.rows[e], lease)
    ensures lease in a.sessions && i < |a.sessions[lease].lines| && a.sessions[lease].lines[i] == LineOf(redact, a, e)
  {
    assert RowFits(redact, a, e);
    var n :| 0 <= n < |a.sessions[lease].lines| && a.sessions[lease].lines[n] == LineOf(redact, a, e);
    i := n;
  }

  lemma ArchivedIsWritten(redact: Redact, steps: seq<Step>, e: EventId) returns (k: nat, i: nat, j: nat)
    requires e in Run(redact, steps).rows && Run(redact, steps).rows[e].state == Archived
    ensures WrittenByItsLease(redact, steps, e, k, i, j)
  {
    j := WhenArchived(redact, steps, e);
    var lease, at := steps[j].lease, Run(redact, steps[..j]);
    AlwaysConsistent(redact, steps[..j]);
    i := PlaceInBatch(redact, at, e, lease);
    k := WhenAppended(redact, steps[..j], lease);
    assert steps[..j][..k] == steps[..k];
    AppendedStays(redact, steps, k, i);
  }

  /**
   At least once, and boundedly often, wherever an append was cut: the record of an archived row stands in the file where
   the lease that archived it wrote it, and the lines that read like the record of a row are never more than its attempts.
   */
  lemma ArchivedAtLeastOnceAndBounded(redact: Redact, steps: seq<Step>, e: EventId)
    requires e in Run(redact, steps).rows
    ensures Run(redact, steps).rows[e].state == Archived ==> exists k, i, j :: WrittenByItsLease(redact, steps, e, k, i, j)
    ensures var a := Run(redact, steps); Copies(a.file, RecordOf(LineOf(redact, a, e))) <= a.rows[e].attempts
  {
    AlwaysConsistent(redact, steps);
    assert RowFits(redact, Run(redact, steps), e);
    if Run(redact, steps).rows[e].state == Archived {
      var k, i, j := ArchivedIsWritten(redact, steps, e);
    }
  }

  /** The append, if the step is one, writes all of its body or nothing. */
  ghost predicate IsUntorn(a: Archive, step: Step) {
    step.Append? && step.lease in a.sessions ==>
      step.written == 0 || step.written == |Body(a.sessions[step.lease].lines)|
  }

  /** The file ends with a line, and archived and appended records are lines of it. */
  ghost predicate IsOrderly(redact: Redact, a: Archive) {
    && LastLine(a.file) == []
    && (forall e :: e in a.rows && a.rows[e].state == Archived ==> Whole(a.file, RecordOf(LineOf(redact, a, e))) > 0)
    && (forall l :: l in a.sessions && a.sessions[l].phase == Appended ==>
          forall i :: 0 <= i < |a.sessions[l].lines| ==> Whole(a.file, RecordOf(a.sessions[l].lines[i])) > 0)
  }

  lemma AppendKeepsOrderly(redact: Redact, a: Archive, step: Step)
    requires Consistent(redact, a) && IsOrderly(redact, a) && step.Append? && IsUntorn(a, step)
    ensures IsOrderly(redact, Next(redact, a, step))
  {
    var a' := Next(redact, a, step);
    if a' != a {
      var lines := a.sessions[step.lease].lines;
      var piece := Body(lines)[..step.written];
      assert SessionFits(a, step.lease);
      forall r: Bytes ensures Whole(a.file, r) <= Whole(a'.file, r) { WholeGrows(a.file, piece, r); }
      if step.written == |Body(lines)| {
        assert piece == Body(lines);
        if lines == [] { assert a'.file == a.file; } else { BodyEndsLine(a.file, lines); }
        forall i | 0 <= i < |lines| ensures Whole(a'.file, RecordOf(lines[i])) > 0 {
          EndsWithLineFeed(a.file);
          RecordBecomesALine(a.file, lines, i);
        }
      } else {
        assert piece == [] && a'.file == a.file;
      }
    }
  }

  lemma MarkKeepsOrderly(redact: Redact, a: Archive, step: Step)
    requires Consistent(redact, a) && IsOrderly(redact, a) && !step.Append?
    ensures IsOrderly(redact, Next(redact, a, step))
  {
    var a' := Next(redact, a, step);
    forall e | e in a'.rows && a'.rows[e].state == Archived
      ensures Whole(a'.file, RecordOf(LineOf(redact, a', e))) > 0
    {
      assert e in a.rows ==> RowFits(redact, a, e);
    }
  }

  /** As long as no append is torn, the record of every archived row is a line of the file. */
  lemma {:induction false} WithoutTearsRecordsAreLines(redact: Redact, steps: seq<Step>)
    requires forall i :: 0 <= i < |steps| ==> IsUntorn(Run(redact, steps[..i]), steps[i])
    ensures IsOrderly(redact, Run(redact, steps))
  {
    if steps != [] {
      var before, step := steps[..|steps| - 1], steps[|steps| - 1];
      assert forall i :: 0 <= i < |before| ==> before[..i] == steps[..i] && before[i] == steps[i];
      WithoutTearsRecordsAreLines(redact, before);
      AlwaysConsistent(redact, before);
      if step.Append? {
        AppendKeepsOrderly(redact, Run(redact, before), step);
      } else {
        MarkKeepsOrderly(redact, Run(redact, before), step);
      }
    }
  }

  lemma RunExtended(redact: Redact, steps: seq<Step>, step: Step)
    ensures Run(redact, steps + [step]) == Next(redact, Run(redact, steps), step)
  {
    assert (steps + [step])[..|steps|] == steps;
  }

  /** After a torn append, the next row to be archived is ARCHIVED although its record is no line of the file. */
  lemma TornAppendHidesTheNextRecord(redact: Redact, a: Archive, lease: LeaseId, e: EventId)
    requires Consistent(redact, a) && a.file != [] && a.file[|a.file| - 1] != LF
    requires e in a.rows && Claimable(a.rows[e], a.now) && lease !in a.sessions
    requires Copies(a.file, RecordOf(LineOf(redact, a, e))) == 0
    ensures var body := Body([LineOf(redact, a, e)]);
            var claimed := Next(redact, a, Claim(lease, [e]));
            var appended := Next(redact, claimed, Append(lease, |body|, true));
            var done := Next(redact, appended, MarkArchived(lease));
            && done.rows[e].state == Archived && done.file == a.file + body
            && Copies(done.file, RecordOf(LineOf(redact, a, e))) == 0
  {
    var lines := [LineOf(redact, a, e)];
    var body := Body(lines);
    var claimed := Next(redact, a, Claim(lease, [e]));
    assert LinesOf(redact, a.rows, [e]) == lines;
    assert claimed.sessions[lease] == Session(lines, Claimed);
    var appended := Next(redact, claimed, Append(lease, |body|, true));
    assert body[..|body|] == body;
    assert appended.file == a.file + body;
    RecordBecomesALine(a.file, lines, 0);
    BodyEndsLine(a.file, lines);
    RecordIsOneLine(e, redact(a.rows[e].payload));
  }

  /** The first append of all stops after one byte. */
  function TornSteps(payload: Json): seq<Step> {
    [Enqueue(1, payload)] + [Claim(7, [1])] + [Append(7, 1, false)]
  }

  lemma FirstIsClaimed(redact: Redact, payload: Json)
    ensures var line := Line(1, redact(payload));
            var enqueued := Next(redact, EMPTY, Enqueue(1, payload));
            var claimed := Next(redact, enqueued, Claim(7, [1]));
            && claimed.rows.Keys == {1} && claimed.file == [] && claimed.now == 0
            && claimed.sessions == map[7 := Session([line], Claimed)]
  {
    var row := Row(Pending, None, 0, 0, 0, payload);
    assert Next(redact, EMPTY, Enqueue(1, payload)) == EMPTY.(rows := map[1 := row]);
    BatchOfOne(redact, map[1 := row], 1, 7, 0);
  }

  lemma FirstIsTorn(redact: Redact, a: Archive, line: Line)
    requires a.file == [] && a.sessions == map[7 := Session([line], Claimed)]
    ensures var torn := Next(redact, a, Append(7, 1, false));
            && torn.rows == a.rows && torn.now == a.now && torn.sessions.Keys == {7}
            && |torn.file| == 1 && torn.file[0] != LF
  {
    RecordIsOneLine(line.event, line.payload);
    var body := Body([line]);
    assert body[0] == RecordOf(line)[0] && RecordOf(line)[0] in RecordOf(line);
    assert [] + body[..1] == body[..1];
  }

  lemma AfterTheTear(redact: Redact, payload: Json)
    ensures var a := Run(redact, TornSteps(payload));
            a.rows.Keys == {1} && a.sessions.Keys == {7} && a.now == 0 && |a.file| == 1 && a.file[0] != LF
  {
    RunExtended(redact, [], Enqueue(1, payload));
    assert [] + [Enqueue(1, payload)] == [Enqueue(1, payload)];
    RunExtended(redact, [Enqueue(1, payload)], Claim(7, [1]));
    RunExtended(redact, [Enqueue(1, payload)] + [Claim(7, [1])], Append(7, 1, false));
    FirstIsClaimed(redact, payload);
    FirstIsTorn(redact, Run(redact, [Enqueue(1, payload)] + [Claim(7, [1])]), Line(1, redact(payload)));
  }

  /** Such a state is reached by a crash in the middle of the very first append. */
  lemma TornAppendIsReachable(redact: Redact, payload: Json, next: Json)
    ensures var a := Run(redact, TornSteps(payload) + [Enqueue(2, next)]);
            && Consistent(redact, a) && a.file != [] && a.file[|a.file| - 1] != LF
            && 2 in a.rows && Claimable(a.rows[2], a.now) && 8 !in a.sessions
            && Copies(a.file, RecordOf(LineOf(redact, a, 2))) == 0
  {
    AfterTheTear(redact, payload);
    AlwaysConsistent(redact, TornSteps(payload));
    AlwaysConsistent(redact, TornSteps(payload) + [Enqueue(2, next)]);
    RunExtended(redact, TornSteps(payload), Enqueue(2, next));
    assert Copies(Run(redact, TornSteps(payload)).file, RecordOf(Line(2, redact(next)))) == 0;
  }

  // Waiting and claiming ---------------------------------------------------------------------------------------

  /** How long a row waits that this lease hands back. */
  ghost function WaitAfterRetry(redact: Redact, a: Archive, lease: LeaseId, e: EventId): int
    requires e in a.rows && e in Next(redact, a, MarkRetry(lease)).rows
  {
    Next(redact, a, MarkRetry(lease)).rows[e].nextAttempt - a.now
  }

  /** The lease holds the row and has not marked it yet. */
  ghost predicate MayHandBack(a: Archive, lease: LeaseId, e: EventId) {
    e in a.rows && HeldBy(a.rows[e], lease) && lease in a.sessions && a.sessions[lease].phase != Ended
  }

  /**
   A row handed back is pending again, and waits: ten seconds after its first failed attempt, twice as long after each
   further one, and an hour from the tenth on.
   */
  lemma WaitsDouble(redact: Redact, a: Archive, b: Archive, l: LeaseId, m: LeaseId, e: EventId, f: EventId)
    requires MayHandBack(a, l, e) && MayHandBack(b, m, f)
    requires a.rows[e].attempts >= 1 && b.rows[f].attempts == a.rows[e].attempts + 1
    ensures var row, n := Next(redact, a, MarkRetry(l)).rows[e], a.rows[e].attempts;
            var first, second := WaitAfterRetry(redact, a, l, e), WaitAfterRetry(redact, b, m, f);
            && row.state == Pending && row.lease == None && row.attempts == n
            && (n == 1 ==> first == 10)
            && (n < 9 ==> second == 2 * first)
            && (n >= 9 ==> second == 3600)
  {
    var n := a.rows[e].attempts;
    PowerOfTen();
    assert n < 10 ==> Power2(n + 1) == 2 * Power2(n);
    PowerGrows(Min(n, 10), 10);
    PowerGrows(n, 9);
  }

  lemma PowerOfTen()
    ensures Power2(1) == 2 && Power2(9) == 512 && Power2(10) == 1024
  {
    assert Power2(5) == 32;
    assert Power2(8) == 256;
  }

  lemma {:induction false} PowerGrows(m: nat, n: nat)
    ensures m <= n ==> Power2(m) <= Power2(n)
    decreases n
  {
    if m < n { PowerGrows(m, n - 1); }
  }

  /** A claim takes its batch for two minutes exactly when every row of it is due: pending or with its lease run out. */
  lemma ClaimTakesExactly(redact: Redact, a: Archive, lease: LeaseId, e: EventId)
    requires Consistent(redact, a) && e in a.rows && lease !in a.sessions
    ensures var row, a' := a.rows[e], Next(redact, a, Claim(lease, [e]));
            var due := row.nextAttempt <= a.now
                       && (row.state == Pending || (row.state == Processing && row.leaseExpires <= a.now));
            && (!due ==> a' == a)
            && (due ==>
                  && a'.rows == a.rows[e := row.(state := Processing, lease := Some(lease), leaseExpires := a.now + 120,
                                                 attempts := row.attempts + 1)]
                  && a'.sessions == a.sessions[lease := Session([LineOf(redact, a, e)], Claimed)])
  {
    BatchOfOne(redact, a.rows, e, lease, a.now);
  }

  lemma BatchOfOne(redact: Redact, rows: map<EventId, Row>, e: EventId, lease: LeaseId, now: int)
    requires e in rows
    ensures ValidBatch(rows, [e], now) <==> Claimable(rows[e], now)
    ensures ClaimAll(rows, [e], lease, now) == rows[e := AfterClaim(rows[e], lease, now)]
    ensures LinesOf(redact, rows, [e]) == [Line(e, redact(rows[e].payload))]
  {
    assert ValidBatch(rows, [e], now) ==> [e][0] in rows && Claimable(rows[[e][0]], now);
  }

  lemma StepKeepsArchived(redact: Redact, a: Archive, step: Step)
    ensures a.file <= Next(redact, a, step).file
    ensures forall e :: e in a.rows && a.rows[e].state == Archived ==>
              e in Next(redact, a, step).rows && Next(redact, a, step).rows[e] == a.rows[e]
  {
  }

  /** However a run goes on, its archived rows never change again, and its file only grows. */
  lemma {:induction false} ArchivedIsAbsorbing(redact: Redact, steps: seq<Step>, more: seq<Step>)
    ensures Run(redact, steps).file <= Run(redact, steps + more).file
    ensures forall e :: e in Run(redact, steps).rows && Run(redact, steps).rows[e].state == Archived ==>
              && e in Run(redact, steps + more).rows
              && Run(redact, steps + more).rows[e] == Run(redact, steps).rows[e]
    decreases |more|
  {
    if more == [] {
      assert steps + more == steps;
    } else {
      var before := more[..|more| - 1];
      assert (steps + more)[..|steps + more| - 1] == steps + before;
      ArchivedIsAbsorbing(redact, steps, before);
      StepKeepsArchived(redact, Run(redact, steps + before), more[|more| - 1]);
    }
  }

  /**
   A row under lease changes only by its own lease's mark, or by a new claim after its lease has expired; a worker
   whose lease was taken over changes nothing of it.
   */
  lemma OnlyTheCurrentLeaseDecides(redact: Redact, a: Archive, step: Step, e: EventId)
    requires e in a.rows && a.rows[e].state == Processing && a.rows[e].lease.Some?
    ensures e in Next(redact, a, step).rows
    ensures Next(redact, a, step).rows[e] != a.rows[e] ==>
              || (step.MarkArchived? && a.rows[e].lease == Some(step.lease)
                  && Next(redact, a, step).rows[e].state == Archived)
              || (step.MarkRetry? && a.rows[e].lease == Some(step.lease)
                  && Next(redact, a, step).rows[e].state == Pending)
              || (step.Claim? && e in step.batch && a.rows[e].leaseExpires <= a.now)
  {
  }
}
