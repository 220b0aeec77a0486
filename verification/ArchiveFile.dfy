/**
 The archive file as bytes. Records are appended with a line feed after each, and an append may stop at any byte, so what
 follows a torn record stands on the same line.
 */
module ArchiveFile {
  import opened Utf8
  import opened CanonicalJson
  import opened JsonRecords

  const LF: Byte := 10

  /** What one record says: the event, and its payload already redacted. */
  datatype Line = Line(event: int, payload: Json)

  function RecordOf(l: Line): Bytes {
    Record(l.event, l.payload)
  }

  /** The text of one append. */
  function Body(lines: seq<Line>): Bytes {
    if lines == [] then [] else RecordOf(lines[0]) + [LF] + Body(lines[1..])
  }

  /** What follows the last line feed. */
  function LastLine(t: Bytes): Bytes {
    if t == [] || t[|t| - 1] == LF then [] else LastLine(t[..|t| - 1]) + [t[|t| - 1]]
  }

  /** How many terminated lines read r. */
  function Whole(t: Bytes, r: Bytes): nat {
    if t == [] then 0
    else
      var front := t[..|t| - 1];
      Whole(front, r) + if t[|t| - 1] == LF && LastLine(front) == r then 1 else 0
  }

  /** How many lines read r, the unterminated one included. */
  function Copies(t: Bytes, r: Bytes): nat {
    Whole(t, r) + if LastLine(t) == r then 1 else 0
  }

  predicate OccursAt(t: Bytes, r: Bytes, i: int) {
    0 <= i <= |t| - |r| && t[i..i + |r|] == r
  }

  predicate DistinctEvents(lines: seq<Line>) {
    forall i, j :: 0 <= i < j < |lines| ==> lines[i].event != lines[j].event
  }

  predicate Mentions(lines: seq<Line>, event: int) {
    exists i :: 0 <= i < |lines| && lines[i].event == event
  }

  lemma EndsWithLineFeed(t: Bytes)
    ensures LastLine(t) == [] <==> t == [] || t[|t| - 1] == LF
  {
  }

  // ---------------------------------------------------------------------------------------------------------
  // Appending a fragment of a line, and a line feed
  // ---------------------------------------------------------------------------------------------------------

  lemma {:induction false} FragmentExtendsLastLine(t: Bytes, f: Bytes, r: Bytes)
    requires LF !in f
    ensures LastLine(t + f) == LastLine(t) + f && Whole(t + f, r) == Whole(t, r)
    decreases |f|
  {
    if f == [] {
      assert t + f == t && LastLine(t) + f == LastLine(t);
    } else {
      var front, c := f[..|f| - 1], f[|f| - 1];
      FragmentExtendsLastLine(t, front, r);
      assert (t + f)[..|t + f| - 1] == t + front && (t + f)[|t + f| - 1] == c;
      assert LastLine(t) + front + [c] == LastLine(t) + f by { assert f == front + [c]; }
    }
  }

  lemma LineFeedEndsLine(t: Bytes, r: Bytes)
    ensures LastLine(t + [LF]) == []
    ensures Whole(t + [LF], r) == Whole(t, r) + if LastLine(t) == r then 1 else 0
  {
    assert (t + [LF])[..|t|] == t;
  }

  /** One whole record and its line feed. */
  lemma RecordAppended(t: Bytes, l: Line, r: Bytes)
    ensures var after := t + RecordOf(l) + [LF];
            && LastLine(after) == []
            && Whole(after, r) == Whole(t, r) + if LastLine(t) + RecordOf(l) == r then 1 else 0
  {
    RecordIsOneLine(l.event, l.payload);
    FragmentExtendsLastLine(t, RecordOf(l), r);
    LineFeedEndsLine(t + RecordOf(l), r);
  }

  lemma GluedIsNoRecord(line: Bytes, l: Line, k: nat, other: Line)
    requires line != [] && 0 < k <= |RecordOf(l)|
    ensures line + RecordOf(l)[..k] != RecordOf(other)
  {
    NoRecordIsGlued(line, l.event, l.payload, k, other.event, other.payload);
  }

  /** A whole record makes the line it completes read r exactly when it is r and starts the line. */
  lemma CompletedLine(line: Bytes, l: Line, r: Line)
    ensures line + RecordOf(l) == RecordOf(r) <==> line == [] && RecordOf(l) == RecordOf(r)
  {
    RecordIsOneLine(l.event, l.payload);
    assert RecordOf(l)[..|RecordOf(l)|] == RecordOf(l);
    if line != [] { GluedIsNoRecord(line, l, |RecordOf(l)|, r); }
    assert [] + RecordOf(l) == RecordOf(l);
  }

  /** The last fragment of a torn append. */
  lemma TornFragment(t: Bytes, l: Line, k: nat, r: Line)
    requires k <= |RecordOf(l)|
    ensures Copies(t + RecordOf(l)[..k], RecordOf(r))
         <= Copies(t, RecordOf(r)) + if l.event == r.event then 1 else 0
  {
    var f := RecordOf(l)[..k];
    RecordIsOneLine(l.event, l.payload);
    RecordIsOneLine(r.event, r.payload);
    FragmentExtendsLastLine(t, f, RecordOf(r));
    if f == [] {
      assert LastLine(t) + f == LastLine(t);
    } else if LastLine(t) + f == RecordOf(r) {
      if LastLine(t) != [] { GluedIsNoRecord(LastLine(t), l, k, r); }
      assert [] + f == f;
      if k < |RecordOf(l)| { NoRecordIsTorn(l.event, l.payload, k, r.event, r.payload); }
      assert f == RecordOf(l);
      RecordTellsItsEvent(l.event, l.payload, r.event, r.payload);
    }
  }

  // ---------------------------------------------------------------------------------------------------------
  // Appending a batch
  // ---------------------------------------------------------------------------------------------------------

  lemma MentionsFirst(lines: seq<Line>, event: int)
    requires lines != []
    ensures Mentions(lines, event) <==> lines[0].event == event || Mentions(lines[1..], event)
  {
    assert forall i :: 0 < i < |lines| ==> lines[i] == lines[1..][i - 1];
    if lines[0].event != event && Mentions(lines, event) {
      var i :| 0 <= i < |lines| && lines[i].event == event;
      assert lines[1..][i - 1].event == event;
    }
    if Mentions(lines[1..], event) {
      var i :| 0 <= i < |lines[1..]| && lines[1..][i].event == event;
      assert lines[i + 1].event == event;
    }
  }

  lemma DistinctRest(lines: seq<Line>)
    requires DistinctEvents(lines) && lines != []
    ensures DistinctEvents(lines[1..]) && !Mentions(lines[1..], lines[0].event)
  {
    assert forall i :: 0 <= i < |lines[1..]| ==> lines[1..][i] == lines[i + 1];
  }

  lemma BodyPrefix(lines: seq<Line>, w: nat)
    requires lines != [] && w <= |Body(lines)|
    ensures var n := |RecordOf(lines[0])|;
            && (w <= n ==> Body(lines)[..w] == RecordOf(lines[0])[..w])
            && (w > n ==> w - n - 1 <= |Body(lines[1..])|
                          && Body(lines)[..w] == RecordOf(lines[0]) + [LF] + Body(lines[1..])[..w - n - 1])
  {
  }

  lemma RecordCopies(t: Bytes, l: Line, r: Line)
    ensures Copies(t + RecordOf(l) + [LF], RecordOf(r)) <= Copies(t, RecordOf(r)) + if l.event == r.event then 1 else 0
  {
    RecordAppended(t, l, RecordOf(r));
    CompletedLine(LastLine(t), l, r);
    RecordIsOneLine(r.event, r.payload);
    if RecordOf(l) == RecordOf(r) { RecordTellsItsEvent(l.event, l.payload, r.event, r.payload); }
  }

  /** However far an append comes, it adds at most one copy of a record, and none of a record that it does not hold. */
  lemma {:induction false} AppendAddsOneCopy(t: Bytes, lines: seq<Line>, w: nat, r: Line)
    requires DistinctEvents(lines) && w <= |Body(lines)|
    ensures Copies(t + Body(lines)[..w], RecordOf(r))
         <= Copies(t, RecordOf(r)) + if Mentions(lines, r.event) then 1 else 0
    decreases |lines|
  {
    if lines == [] {
      assert t + Body(lines)[..w] == t;
    } else {
      var first, n := lines[0], |RecordOf(lines[0])|;
      BodyPrefix(lines, w);
      MentionsFirst(lines, r.event);
      DistinctRest(lines);
      if w <= n {
        TornFragment(t, first, w, r);
      } else {
        var t' := t + RecordOf(first) + [LF];
        var rest := Body(lines[1..])[..w - n - 1];
        assert t + (RecordOf(first) + [LF] + rest) == t' + rest;
        RecordCopies(t, first, r);
        AppendAddsOneCopy(t', lines[1..], w - n - 1, r);
      }
    }
  }

  lemma {:induction false} OthersAddNoLine(t: Bytes, lines: seq<Line>, r: Line)
    requires !Mentions(lines, r.event)
    ensures Whole(t + Body(lines), RecordOf(r)) == Whole(t, RecordOf(r))
    decreases |lines|
  {
    if lines == [] {
      assert t + Body(lines) == t;
    } else {
      var first := lines[0];
      MentionsFirst(lines, r.event);
      var t' := t + RecordOf(first) + [LF];
      assert t + Body(lines) == t' + Body(lines[1..]);
      RecordAppended(t, first, RecordOf(r));
      CompletedLine(LastLine(t), first, r);
      if RecordOf(first) == RecordOf(r) { RecordTellsItsEvent(first.event, first.payload, r.event, r.payload); }
      OthersAddNoLine(t', lines[1..], r);
    }
  }

  /**
   Exactly when a record of a completed append becomes a line of its own: the file before the append is empty or ends in
   a line feed, or the record is not the first of its batch.
   */
  lemma {:induction false} RecordBecomesALine(t: Bytes, lines: seq<Line>, i: nat)
    requires DistinctEvents(lines) && i < |lines|
    ensures Whole(t + Body(lines), RecordOf(lines[i]))
         == Whole(t, RecordOf(lines[i])) + if i > 0 || t == [] || t[|t| - 1] == LF then 1 else 0
    decreases |lines|
  {
    var first, r := lines[0], lines[i];
    var t' := t + RecordOf(first) + [LF];
    EndsWithLineFeed(t);
    assert t + Body(lines) == t' + Body(lines[1..]);
    RecordAppended(t, first, RecordOf(r));
    CompletedLine(LastLine(t), first, r);
    DistinctRest(lines);
    if i == 0 {
      OthersAddNoLine(t', lines[1..], r);
    } else {
      if RecordOf(first) == RecordOf(r) { RecordTellsItsEvent(first.event, first.payload, r.event, r.payload); }
      RecordBecomesALine(t', lines[1..], i - 1);
    }
  }

  // ---------------------------------------------------------------------------------------------------------
  // Where a record stands
  // ---------------------------------------------------------------------------------------------------------

  lemma OccursAtStays(t: Bytes, r: Bytes, i: int, more: Bytes)
    requires OccursAt(t, r, i)
    ensures OccursAt(t + more, r, i)
  {
    assert (t + more)[i..i + |r|] == t[i..i + |r|];
  }

  /** A completed append writes each record after those before it in the batch. */
  lemma {:induction false} AppendedAt(t: Bytes, lines: seq<Line>, i: nat)
    requires i < |lines|
    ensures OccursAt(t + Body(lines), RecordOf(lines[i]), |t| + |Body(lines[..i])|)
    decreases |lines|
  {
    var first := lines[0];
    var t' := t + RecordOf(first) + [LF];
    assert t + Body(lines) == t' + Body(lines[1..]);
    if i == 0 {
      assert OccursAt(t', RecordOf(first), |t|);
      OccursAtStays(t', RecordOf(first), |t|, Body(lines[1..]));
    } else {
      AppendedAt(t', lines[1..], i - 1);
      assert lines[..i][1..] == lines[1..][..i - 1];
    }
  }

  lemma AppendedStaysAt(t: Bytes, lines: seq<Line>, i: nat, file: Bytes)
    requires i < |lines| && t + Body(lines) <= file
    ensures OccursAt(file, RecordOf(lines[i]), |t| + |Body(lines[..i])|)
  {
    var after := t + Body(lines);
    AppendedAt(t, lines, i);
    OccursAtStays(after, RecordOf(lines[i]), |t| + |Body(lines[..i])|, file[|after|..]);
    assert after + file[|after|..] == file;
  }

  /** A completed append leaves the file at the end of a line. */
  lemma {:induction false} BodyEndsLine(t: Bytes, lines: seq<Line>)
    requires lines != []
    ensures LastLine(t + Body(lines)) == []
    decreases |lines|
  {
    var t' := t + RecordOf(lines[0]) + [LF];
    assert t + Body(lines) == t' + Body(lines[1..]);
    if |lines| == 1 {
      assert t' + Body(lines[1..]) == t';
    } else {
      BodyEndsLine(t', lines[1..]);
    }
  }

  lemma {:induction false} WholeGrows(t: Bytes, more: Bytes, r: Bytes)
    ensures Whole(t, r) <= Whole(t + more, r)
    decreases |more|
  {
    if more == [] {
      assert t + more == t;
    } else {
      WholeGrows(t, more[..|more| - 1], r);
      assert (t + more)[..|t + more| - 1] == t + more[..|more| - 1];
    }
  }
}
