/**
 The server's side of the event stream, and the round trip: what it writes, cut anywhere on the way, is what the
 incremental reader reads.
 */
module SseFrames {
  import opened CodeUnits
  import opened Options
  import opened CanonicalJson
  import opened CanonicalText
  import opened SseReader

  const SPACE: CodeUnit := 32

  /** An event as the server sends it; `body` is the JSON text of the envelope. */
  datatype Sent = Sent(id: Option<nat>, kind: Text, body: Text)

  function IdLine(n: nat): Text {
    ID_FIELD + [SPACE] + PrintNat(n)
  }

  function EventLine(kind: Text): Text {
    EVENT_FIELD + [SPACE] + kind
  }

  function DataLine(body: Text): Text {
    DATA_FIELD + [SPACE] + body
  }

  function SentLines(s: Sent): seq<Text> {
    (if s.id.Some? then [IdLine(s.id.value)] else []) + [EventLine(s.kind), DataLine(s.body)]
  }

  /** The text written for one event: its lines, and a blank line. */
  function Frame(s: Sent): Text {
    JoinLines(SentLines(s)) + [LF, LF]
  }

  function Stream(sent: seq<Sent>): Text {
    if sent == [] then [] else Frame(sent[0]) + Stream(sent[1..])
  }

  /** The lines that are written for an event. */
  lemma LinesAre(kind: Text, body: Text, n: nat)
    ensures IdLine(n) == Units("id: ") + PrintNat(n)
    ensures EventLine(kind) == Units("event: ") + kind && DataLine(body) == Units("data: ") + body
  {
  }

  /** What is written for an event: its id line if it has an id, its type, its envelope, and a blank line. */
  lemma FrameIs(s: Sent)
    ensures Frame(s) ==
            (if s.id.Some? then IdLine(s.id.value) + [LF] else [])
            + (EventLine(s.kind) + [LF] + DataLine(s.body)) + [LF, LF]
  {
    var event, data := EventLine(s.kind), DataLine(s.body);
    assert [event, data][1..] == [data];
    assert JoinLines([event, data]) == event + [LF] + data;
    if s.id.Some? {
      var id := IdLine(s.id.value);
      assert SentLines(s) == [id, event, data] && [id, event, data][1..] == [event, data];
    } else {
      assert SentLines(s) == [event, data];
      assert [] + (event + [LF] + data) == event + [LF] + data;
    }
  }

  /** The type is a trimmed single line, and the body a JSON text on one line without surrounding space. */
  ghost predicate Sendable(lib: Library, s: Sent) {
    && LF !in s.kind && Trim(s.kind) == s.kind
    && (forall i :: 0 <= i < |s.body| ==> s.body[i] >= SPACE) && TrimStart(s.body) == s.body
    && lib.parseJson(s.body).Some?
    && (s.id.Some? ==> lib.number(PrintNat(s.id.value)) == Some(s.id.value))
  }

  function Received(lib: Library, s: Sent): SseEvent {
    var v := lib.parseJson(s.body);
    SseEvent(NonZero(if s.id.Some? then Some(s.id.value) else None), s.kind, AsObject(if v.Some? then v.value else Null))
  }

  function AllReceived(lib: Library, sent: seq<Sent>): (events: seq<SseEvent>)
    ensures |events| == |sent| && forall i :: 0 <= i < |sent| ==> events[i] == Received(lib, sent[i])
  {
    seq(|sent|, i requires 0 <= i < |sent| => Received(lib, sent[i]))
  }

  // ---------------------------------------------------------------------------------------------------------
  // Lines and boundaries
  // ---------------------------------------------------------------------------------------------------------

  /** A line that survives joining and splitting: not empty, no line feed, no carriage return at its end. */
  ghost predicate IsLine(line: Text) {
    line != [] && LF !in line && line[|line| - 1] != CR
  }

  ghost predicate AreLines(lines: seq<Text>) {
    lines != [] && forall i :: 0 <= i < |lines| ==> IsLine(lines[i])
  }

  lemma {:induction false} LineEndAt(line: Text, rest: Text)
    requires LF !in line
    ensures FirstLineEnd(line + [LF] + rest) == |line|
    ensures FirstLineEnd(line) == |line|
  {
    if line == [] {
      assert [] + [LF] + rest == [LF] + rest;
    } else {
      LineEndAt(line[1..], rest);
      assert (line + [LF] + rest)[1..] == line[1..] + [LF] + rest;
    }
  }

  /** Splitting into lines undoes joining them. */
  lemma {:induction false} LinesOfJoined(lines: seq<Text>)
    requires AreLines(lines)
    ensures Lines(JoinLines(lines)) == lines
    decreases |lines|
  {
    var first := lines[0];
    if |lines| == 1 {
      LineEndAt(first, []);
    } else {
      var others := lines[1..];
      var t := first + [LF] + JoinLines(others);
      LineEndAt(first, JoinLines(others));
      LinesOfJoined(others);
      assert t[..|first|] == first && t[|first| + 1..] == JoinLines(others);
      assert lines == [first] + others;
    }
  }

  lemma {:induction false} JoinedHasNoBoundary(lines: seq<Text>, rest: Text)
    requires AreLines(lines)
    ensures JoinLines(lines) != [] && JoinLines(lines)[0] != LF
    ensures forall i :: i < |JoinLines(lines)| ==> !IsBoundary(JoinLines(lines) + [LF, LF] + rest, i)
    decreases |lines|
  {
    var first, joined := lines[0], JoinLines(lines);
    var t := joined + [LF, LF] + rest;
    if |lines| == 1 {
      forall i | 0 <= i < |joined| ensures !IsBoundary(t, i) { assert t[i] == first[i]; }
    } else {
      var others := JoinLines(lines[1..]);
      JoinedHasNoBoundary(lines[1..], rest);
      var tail := others + [LF, LF] + rest;
      assert t == first + [LF] + tail;
      forall i | 0 <= i < |joined| ensures !IsBoundary(t, i) {
        if i < |first| {
          assert t[i] == first[i];
        } else if i == |first| {
          assert t[i + 1] == tail[0] == others[0];
        } else {
          var k := i - |first| - 1;
          assert !IsBoundary(tail, k);
          assert t[i] == tail[k] && t[i + 1] == tail[k + 1];
        }
      }
    }
  }

  lemma FirstBoundaryAt(t: Text, k: nat)
    requires IsBoundary(t, k) && forall i :: i < k ==> !IsBoundary(t, i)
    ensures FirstBoundary(t) == k
  {
    FirstBoundaryIsFirst(t);
    assert FirstBoundary(t) >= 0;
    assert IsBoundary(t, FirstBoundary(t));
  }

  /** The first block of a stream is the first event's lines. */
  lemma FrameIsOneBlock(s: Sent, rest: Text)
    requires AreLines(SentLines(s))
    ensures Split(Frame(s) + rest) == ([JoinLines(SentLines(s))] + Split(rest).0, Split(rest).1)
  {
    var block := JoinLines(SentLines(s));
    var t := block + [LF, LF] + rest;
    JoinedHasNoBoundary(SentLines(s), rest);
    assert t[|block|] == LF && t[|block| + 1] == LF;
    FirstBoundaryAt(t, |block|);
    assert t[..|block|] == block && t[|block| + 2..] == rest;
  }

  // ---------------------------------------------------------------------------------------------------------
  // One event
  // ---------------------------------------------------------------------------------------------------------

  lemma {:induction false} PrintNatIsDigits(n: nat)
    ensures PrintNat(n) != [] && forall i :: 0 <= i < |PrintNat(n)| ==> IsDigit(PrintNat(n)[i])
  {
    if n >= 10 { PrintNatIsDigits(n / 10); }
  }

  lemma TrimAfterSpace(t: Text)
    ensures Trim([SPACE] + t) == Trim(t)
    ensures TrimStart([SPACE] + t) == TrimStart(t)
  {
    assert ([SPACE] + t)[1..] == t;
  }

  lemma SentLinesAreLines(lib: Library, s: Sent)
    requires Sendable(lib, s)
    ensures AreLines(SentLines(s))
  {
    if s.id.Some? { PrintNatIsDigits(s.id.value); }
    var kind := EventLine(s.kind);
    if s.kind != [] {
      TrimEndStops(TrimStart(s.kind));
      assert kind[|kind| - 1] == s.kind[|s.kind| - 1];
    }
    forall i | 0 <= i < |kind| ensures kind[i] != LF {
      assert i >= 7 ==> kind[i] == s.kind[i - 7];
    }
    var data := DataLine(s.body);
    forall i | 0 <= i < |data| ensures data[i] != LF && (i == |data| - 1 ==> data[i] != CR) {
      assert i >= 6 ==> data[i] == s.body[i - 6];
    }
  }

  lemma IdLineReads(lib: Library, f: Fields, n: nat)
    requires lib.number(PrintNat(n)) == Some(n)
    ensures WithLine(lib, f, IdLine(n)) == f.(id := NonZero(Some(n)))
  {
    PrintNatIsDigits(n);
    TrimAfterSpace(PrintNat(n));
    assert IdLine(n)[3..] == [SPACE] + PrintNat(n);
    assert Trim(PrintNat(n)) == PrintNat(n);
  }

  lemma EventLineReads(lib: Library, f: Fields, kind: Text)
    requires Trim(kind) == kind
    ensures WithLine(lib, f, EventLine(kind)) == f.(kind := kind)
  {
    var line := EventLine(kind);
    TrimAfterSpace(kind);
    assert line[0] == 101;
    assert line[6..] == [SPACE] + kind;
  }

  lemma DataLineReads(lib: Library, f: Fields, body: Text)
    requires TrimStart(body) == body
    ensures WithLine(lib, f, DataLine(body)) == f.(data := f.data + [body])
  {
    var line := DataLine(body);
    TrimAfterSpace(body);
    assert line[0] == 100;
    assert line[5..] == [SPACE] + body;
  }

  lemma FieldsWithLast(lib: Library, lines: seq<Text>, line: Text)
    ensures FieldsOf(lib, lines + [line]) == WithLine(lib, FieldsOf(lib, lines), line)
  {
    assert (lines + [line])[..|lines|] == lines;
  }

  lemma SentFields(lib: Library, s: Sent)
    requires Sendable(lib, s)
    ensures FieldsOf(lib, SentLines(s)) == Fields(Received(lib, s).id, s.kind, [s.body])
  {
    var ids := if s.id.Some? then [IdLine(s.id.value)] else [];
    var event, data := EventLine(s.kind), DataLine(s.body);
    assert SentLines(s) == ids + [event] + [data];
    FieldsWithLast(lib, ids + [event], data);
    FieldsWithLast(lib, ids, event);
    if s.id.Some? {
      FieldsWithLast(lib, [], ids[0]);
      assert [] + [ids[0]] == ids;
      IdLineReads(lib, NO_FIELDS, s.id.value);
    }
    EventLineReads(lib, FieldsOf(lib, ids), s.kind);
    DataLineReads(lib, FieldsOf(lib, ids + [event]), s.body);
    assert [] + [s.body] == [s.body];
  }

  /** A block written by the server parses to the event that was sent. */
  lemma SentBlockParses(lib: Library, s: Sent)
    requires Sendable(lib, s)
    ensures ParsedFrom(lib, JoinLines(SentLines(s))) == Event(Received(lib, s))
  {
    SentLinesAreLines(lib, s);
    LinesOfJoined(SentLines(s));
    SentFields(lib, s);
    assert JoinLines([s.body]) == s.body;
  }

  // ---------------------------------------------------------------------------------------------------------
  // The stream
  // ---------------------------------------------------------------------------------------------------------

  function Blocks(sent: seq<Sent>): (blocks: seq<Text>)
    ensures |blocks| == |sent| && forall i :: 0 <= i < |sent| ==> blocks[i] == JoinLines(SentLines(sent[i]))
  {
    seq(|sent|, i requires 0 <= i < |sent| => JoinLines(SentLines(sent[i])))
  }

  lemma FirstBlock(lib: Library, s: Sent, rest: Text)
    requires Sendable(lib, s)
    ensures Split(Frame(s) + rest) == ([JoinLines(SentLines(s))] + Split(rest).0, Split(rest).1)
  {
    SentLinesAreLines(lib, s);
    FrameIsOneBlock(s, rest);
  }

  lemma BlocksFromFirst(sent: seq<Sent>)
    requires sent != []
    ensures Blocks(sent) == [JoinLines(SentLines(sent[0]))] + Blocks(sent[1..])
  {
  }

  lemma {:induction false} StreamSplits(lib: Library, sent: seq<Sent>)
    requires forall i :: 0 <= i < |sent| ==> Sendable(lib, sent[i])
    ensures Split(Stream(sent)) == (Blocks(sent), [])
  {
    if sent != [] {
      StreamSplits(lib, sent[1..]);
      FirstBlock(lib, sent[0], Stream(sent[1..]));
      BlocksFromFirst(sent);
    }
  }

  lemma {:induction false} EventsOfParsed(lib: Library, blocks: seq<Text>, events: seq<SseEvent>)
    requires |blocks| == |events|
    requires forall i :: 0 <= i < |blocks| ==> ParsedFrom(lib, blocks[i]) == Event(events[i])
    ensures EventsOf(lib, blocks) == Some(events)
  {
    if blocks != [] {
      var n := |blocks| - 1;
      EventsOfParsed(lib, blocks[..n], events[..n]);
      assert events == events[..n] + [events[n]];
    }
  }

  lemma BlocksParse(lib: Library, sent: seq<Sent>, n: nat)
    requires n <= |sent| && forall i :: 0 <= i < |sent| ==> Sendable(lib, sent[i])
    ensures EventsOf(lib, Blocks(sent)[..n]) == Some(AllReceived(lib, sent)[..n])
  {
    var blocks, events := Blocks(sent)[..n], AllReceived(lib, sent)[..n];
    forall i | 0 <= i < n ensures ParsedFrom(lib, blocks[i]) == Event(events[i]) {
      SentBlockParses(lib, sent[i]);
    }
    EventsOfParsed(lib, blocks, events);
  }

  /** Whatever the server writes, the reader reads back, with nothing left over. */
  lemma WrittenStreamReadsBack(lib: Library, sent: seq<Sent>)
    requires forall i :: 0 <= i < |sent| ==> Sendable(lib, sent[i])
    ensures ReadWhole(lib, Stream(sent)) == Read(AllReceived(lib, sent), [])
  {
    StreamSplits(lib, sent);
    AllBlocksParse(lib, sent);
  }

  lemma AllBlocksParse(lib: Library, sent: seq<Sent>)
    requires forall i :: 0 <= i < |sent| ==> Sendable(lib, sent[i])
    ensures EventsOf(lib, Blocks(sent)) == Some(AllReceived(lib, sent))
  {
    BlocksParse(lib, sent, |sent|);
    var blocks, events := Blocks(sent), AllReceived(lib, sent);
    assert blocks[..|sent|] == blocks;
    assert events[..|sent|] == events;
  }

  /** A stream that breaks off anywhere, as on a timeout, yields the first of the events sent, each unharmed. */
  lemma BrokenStreamYieldsAPrefix(lib: Library, sent: seq<Sent>, cut: nat)
    requires forall i :: 0 <= i < |sent| ==> Sendable(lib, sent[i])
    requires cut <= |Stream(sent)|
    ensures var reading := ReadWhole(lib, Stream(sent)[..cut]);
            && reading.Read? && reading.events <= AllReceived(lib, sent)
            && Stream(sent[..|reading.events|]) + reading.leftover == Stream(sent)[..cut]
  {
    var t, tail := Stream(sent)[..cut], Stream(sent)[cut..];
    var (blocks, rest) := Split(t);
    var (more, last) := Split(rest + tail);
    assert t + tail == Stream(sent);
    SplitContinues(t, tail);
    StreamSplits(lib, sent);
    var n := |blocks|;
    assert blocks == (blocks + more)[..n] == Blocks(sent)[..n];
    BlocksParse(lib, sent, n);
    SplitIsLossless(t);
    StreamOfBlocks(sent[..n], rest);
    assert Blocks(sent[..n]) == blocks;
  }

  lemma {:induction false} StreamOfBlocks(sent: seq<Sent>, rest: Text)
    ensures Reassembled(Blocks(sent), rest) == Stream(sent) + rest
  {
    if sent == [] {
      assert [] + rest == rest;
    } else {
      StreamOfBlocks(sent[1..], rest);
      assert Blocks(sent)[1..] == Blocks(sent[1..]);
      var block, others := JoinLines(SentLines(sent[0])), Stream(sent[1..]);
      assert block + [LF, LF] + (others + rest) == block + [LF, LF] + others + rest;
    }
  }
}
