/**
 The incremental reader of server-sent events: text arrives in chunks, and every blank line completes a block that is
 parsed into at most one event.
 */
module SseReader {
  import opened CodeUnits
  import opened Options
  import opened CanonicalJson

  const LF: CodeUnit := 10
  const CR: CodeUnit := 13

  // ---------------------------------------------------------------------------------------------------------
  // Blocks
  // ---------------------------------------------------------------------------------------------------------

  predicate IsBoundary(t: Text, i: int) {
    0 <= i && i + 1 < |t| && t[i] == LF && t[i + 1] == LF
  }

  /** `indexOf("\n\n")` */
  function FirstBoundary(t: Text): (b: int)
    ensures b == -1 || IsBoundary(t, b)
  {
    if |t| < 2 then -1
    else if t[0] == LF && t[1] == LF then 0
    else
      var b := FirstBoundary(t[1..]);
      if b < 0 then -1 else b + 1
  }

  /** Splitting a whole text at once: the completed blocks, and what follows the last blank line. */
  function Split(t: Text): (seq<Text>, Text)
    decreases |t|
  {
    var b := FirstBoundary(t);
    if b < 0 then ([], t)
    else
      var (blocks, rest) := Split(t[b + 2..]);
      ([t[..b]] + blocks, rest)
  }

  lemma {:induction false} FirstBoundaryIsFirst(t: Text)
    ensures FirstBoundary(t) < 0 <==> forall i :: !IsBoundary(t, i)
    ensures forall i :: 0 <= i < FirstBoundary(t) ==> !IsBoundary(t, i)
  {
    if |t| >= 2 {
      FirstBoundaryIsFirst(t[1..]);
      forall i | 0 < i ensures IsBoundary(t, i) <==> IsBoundary(t[1..], i - 1) {
      }
      assert IsBoundary(t, 0) <==> t[0] == LF && t[1] == LF;
      var b := FirstBoundary(t[1..]);
      assert b >= 0 ==> IsBoundary(t, b + 1);
    }
  }

  lemma BoundarySurvives(a: Text, b: Text)
    requires FirstBoundary(a) >= 0
    ensures FirstBoundary(a + b) == FirstBoundary(a)
  {
    FirstBoundaryIsFirst(a);
    FirstBoundaryIsFirst(a + b);
    var i, j := FirstBoundary(a), FirstBoundary(a + b);
    assert IsBoundary(a, i) && IsBoundary(a + b, i);
    assert forall k :: 0 <= k < i ==> (IsBoundary(a + b, k) <==> IsBoundary(a, k));
  }

  lemma SplitFirstBlock(a: Text, b: Text)
    requires FirstBoundary(a) >= 0
    ensures var i := FirstBoundary(a);
            Split(a + b) == ([a[..i]] + Split(a[i + 2..] + b).0, Split(a[i + 2..] + b).1)
  {
    var i := FirstBoundary(a);
    BoundarySurvives(a, b);
    assert (a + b)[i + 2..] == a[i + 2..] + b;
    assert (a + b)[..i] == a[..i];
  }

  lemma Regrouped(first: Text, blocks: seq<Text>, others: seq<Text>)
    ensures [first] + blocks + others == [first] + (blocks + others)
  {
  }

  /** Blocks found in a prefix are blocks of the whole; splitting goes on with the leftover and the next chunk. */
  lemma {:induction false} SplitContinues(a: Text, b: Text)
    ensures Split(a + b) == (Split(a).0 + Split(Split(a).1 + b).0, Split(Split(a).1 + b).1)
    decreases |a|
  {
    var i := FirstBoundary(a);
    if i >= 0 {
      SplitFirstBlock(a, b);
      var tail := a[i + 2..];
      SplitContinues(tail, b);
      assert Split(a) == ([a[..i]] + Split(tail).0, Split(tail).1);
      Regrouped(a[..i], Split(tail).0, Split(Split(tail).1 + b).0);
    } else {
      assert Split(a) == ([], a);
      assert [] + Split(a + b).0 == Split(a + b).0;
    }
  }

  function Reassembled(blocks: seq<Text>, rest: Text): Text {
    if blocks == [] then rest else blocks[0] + [LF, LF] + Reassembled(blocks[1..], rest)
  }

  /** Splitting loses nothing, and neither a block nor the leftover contains a blank line. */
  lemma {:induction false} SplitIsLossless(t: Text)
    ensures var (blocks, rest) := Split(t);
            && Reassembled(blocks, rest) == t
            && (forall i :: !IsBoundary(rest, i))
            && (forall k, i :: 0 <= k < |blocks| ==> !IsBoundary(blocks[k], i))
    decreases |t|
  {
    var b := FirstBoundary(t);
    FirstBoundaryIsFirst(t);
    if b >= 0 {
      SplitIsLossless(t[b + 2..]);
      var (blocks, rest) := Split(t[b + 2..]);
      assert ([t[..b]] + blocks)[1..] == blocks;
      assert t == t[..b] + [LF, LF] + t[b + 2..];
      forall i ensures !IsBoundary(t[..b], i) {
        assert 0 <= i < b ==> !IsBoundary(t, i);
      }
    }
  }

  /** A stream with CRLF line ends, which the format allows, never completes a block here. */
  lemma CrLfStreamsYieldNothing(t: Text)
    requires forall i :: 0 <= i < |t| && t[i] == LF ==> i > 0 && t[i - 1] == CR
    ensures Split(t) == ([], t)
  {
    FirstBoundaryIsFirst(t);
    forall i ensures !IsBoundary(t, i) {
      assert 0 <= i + 1 < |t| && t[i + 1] == LF ==> t[i + 1 - 1] == CR;
    }
  }

  // ---------------------------------------------------------------------------------------------------------
  // One block
  // ---------------------------------------------------------------------------------------------------------

  datatype SseEvent = SseEvent(id: Option<int>, kind: Text, data: Json)

  datatype ParsedBlock = NoEvent | Event(event: SseEvent) | InvalidEnvelope

  /** The library functions the reader uses: `JSON.parse` and `Number`, where they succeed. */
  datatype Library = Library(parseJson: Text -> Option<Json>, number: Text -> Option<int>)

  const ID_FIELD: Text := [105, 100, 58]
  const EVENT_FIELD: Text := [101, 118, 101, 110, 116, 58]
  const DATA_FIELD: Text := [100, 97, 116, 97, 58]
  const MESSAGE: Text := [109, 101, 115, 115, 97, 103, 101]

  function FirstLineEnd(t: Text): (e: nat)
    ensures e <= |t|
    ensures e < |t| ==> t[e] == LF
    ensures LF !in t[..e]
  {
    if t == [] || t[0] == LF then 0
    else
      var e := FirstLineEnd(t[1..]);
      assert t[..e + 1] == [t[0]] + t[1..][..e];
      e + 1
  }

  function WithoutCr(line: Text): Text {
    if line != [] && line[|line| - 1] == CR then line[..|line| - 1] else line
  }

  /** `split(/\r?\n/)` */
  function Lines(t: Text): (lines: seq<Text>)
    ensures lines != []
    decreases |t|
  {
    var e := FirstLineEnd(t);
    if e == |t| then [t] else [WithoutCr(t[..e])] + Lines(t[e + 1..])
  }

  datatype Fields = Fields(id: Option<int>, kind: Text, data: seq<Text>)

  const NO_FIELDS := Fields(None, MESSAGE, [])

  function NonZero(n: Option<int>): Option<int> {
    if n == Some(0) then None else n
  }

  function WithLine(lib: Library, f: Fields, line: Text): Fields {
    if ID_FIELD <= line then f.(id := NonZero(lib.number(Trim(line[3..]))))
    else if EVENT_FIELD <= line then f.(kind := Trim(line[6..]))
    else if DATA_FIELD <= line then f.(data := f.data + [TrimStart(line[5..])])
    else f
  }

  function FieldsOf(lib: Library, lines: seq<Text>): Fields {
    if lines == [] then NO_FIELDS
    else WithLine(lib, FieldsOf(lib, lines[..|lines| - 1]), lines[|lines| - 1])
  }

  function JoinLines(lines: seq<Text>): Text {
    if lines == [] then [] else if |lines| == 1 then lines[0] else lines[0] + [LF] + JoinLines(lines[1..])
  }

  function AsObject(v: Json): Json {
    if v.Obj? then v else Obj([])
  }

  function BlockOf(lib: Library, fields: Fields): ParsedBlock {
    if fields.data == [] then NoEvent
    else match lib.parseJson(JoinLines(fields.data))
      case None => InvalidEnvelope
      case Some(v) => Event(SseEvent(fields.id, fields.kind, AsObject(v)))
  }

  function ParsedFrom(lib: Library, block: Text): ParsedBlock {
    BlockOf(lib, FieldsOf(lib, Lines(block)))
  }

  /** `parseSseBlock` */
  method ParseBlock(lib: Library, block: Text) returns (parsed: ParsedBlock)
    ensures parsed == ParsedFrom(lib, block)
  {
    var id: Option<int>, kind, data := None, MESSAGE, [];
    var lines := Lines(block);
    for i := 0 to |lines|
      invariant Fields(id, kind, data) == FieldsOf(lib, lines[..i])
    {
      var line := lines[i];
      assert lines[..i + 1][..i] == lines[..i];
      if ID_FIELD <= line {
        id := lib.number(Trim(line[3..]));
        if id == Some(0) { id := None; }
      } else if EVENT_FIELD <= line {
        kind := Trim(line[6..]);
      } else if DATA_FIELD <= line {
        data := data + [TrimStart(line[5..])];
      }
    }
    assert lines[..|lines|] == lines;
    if data == [] { return NoEvent; }
    var value := lib.parseJson(JoinLines(data));
    if value.None? { return InvalidEnvelope; }
    return Event(SseEvent(id, kind, AsObject(value.value)));
  }

  // ---------------------------------------------------------------------------------------------------------
  // The stream
  // ---------------------------------------------------------------------------------------------------------

  datatype Reading = Read(events: seq<SseEvent>, leftover: Text) | Rejected

  /** The events of the blocks in order, or nothing when some block is rejected. */
  function EventsOf(lib: Library, blocks: seq<Text>): Option<seq<SseEvent>> {
    if blocks == [] then Some([])
    else
      var before := EventsOf(lib, blocks[..|blocks| - 1]);
      match ParsedFrom(lib, blocks[|blocks| - 1])
      case InvalidEnvelope => None
      case NoEvent => before
      case Event(e) => if before.Some? then Some(before.value + [e]) else None
  }

  /** Reading the whole text at once. */
  function ReadWhole(lib: Library, t: Text): Reading {
    var (blocks, rest) := Split(t);
    var events := EventsOf(lib, blocks);
    if events.Some? then Read(events.value, rest) else Rejected
  }

  function Concat(chunks: seq<Text>): Text {
    if chunks == [] then [] else Concat(chunks[..|chunks| - 1]) + chunks[|chunks| - 1]
  }

  lemma {:induction false} RejectedStaysRejected(lib: Library, blocks: seq<Text>, more: seq<Text>)
    requires EventsOf(lib, blocks) == None
    ensures EventsOf(lib, blocks + more) == None
    decreases |more|
  {
    if more == [] {
      assert blocks + more == blocks;
    } else {
      RejectedStaysRejected(lib, blocks, more[..|more| - 1]);
      assert (blocks + more)[..|blocks + more| - 1] == blocks + more[..|more| - 1];
    }
  }

  lemma {:induction false} ConcatFrom(chunks: seq<Text>, i: nat) returns (tail: Text)
    requires i <= |chunks|
    ensures Concat(chunks) == Concat(chunks[..i]) + tail
    decreases |chunks|
  {
    if i == |chunks| {
      assert chunks[..i] == chunks;
      tail := [];
    } else {
      tail := ConcatFrom(chunks[..|chunks| - 1], i);
      assert chunks[..|chunks| - 1][..i] == chunks[..i];
      tail := tail + chunks[|chunks| - 1];
    }
  }

  lemma RejectedSplit(lib: Library, t: Text, tail: Text, blocks: seq<Text>, others: seq<Text>)
    requires Split(t).0 == blocks + others && EventsOf(lib, blocks) == None
    ensures EventsOf(lib, Split(t + tail).0) == None
  {
    SplitContinues(t, tail);
    var more := Split(Split(t).1 + tail).0;
    assert blocks + others + more == blocks + (others + more);
    RejectedStaysRejected(lib, blocks, others + more);
  }

  /** A rejected block early in the stream rejects the whole text. */
  lemma RejectedPrefix(lib: Library, chunks: seq<Text>, i: nat, blocks: seq<Text>, rest: Text)
    requires i <= |chunks| && Split(Concat(chunks[..i])) == (blocks + Split(rest).0, Split(rest).1)
    requires EventsOf(lib, blocks) == None
    ensures ReadWhole(lib, Concat(chunks)) == Rejected
  {
    var tail := ConcatFrom(chunks, i);
    RejectedSplit(lib, Concat(chunks[..i]), tail, blocks, Split(rest).0);
  }

  /** The reading loop of `sse`, over the decoded chunks: it reads what the whole text says, however it was cut. */
  method ReadChunks(lib: Library, chunks: seq<Text>) returns (reading: Reading)
    ensures reading == ReadWhole(lib, Concat(chunks))
  {
    var buffer: Text, events: seq<SseEvent> := [], [];
    ghost var blocks: seq<Text> := [];
    for i := 0 to |chunks|
      invariant Split(Concat(chunks[..i])) == (blocks, buffer)
      invariant EventsOf(lib, blocks) == Some(events)
    {
      SplitContinues(Concat(chunks[..i]), chunks[i]);
      assert chunks[..i + 1][..i] == chunks[..i];
      buffer := buffer + chunks[i];
      var boundary := FirstBoundary(buffer);
      while boundary >= 0
        invariant boundary == FirstBoundary(buffer)
        invariant Split(Concat(chunks[..i + 1])) == (blocks + Split(buffer).0, Split(buffer).1)
        invariant EventsOf(lib, blocks) == Some(events)
        decreases |buffer|
      {
        var block := buffer[..boundary];
        assert blocks + Split(buffer).0 == blocks + [block] + Split(buffer[boundary + 2..]).0;
        blocks := blocks + [block];
        buffer := buffer[boundary + 2..];
        assert blocks[..|blocks| - 1] + [block] == blocks;
        var parsed := ParseBlock(lib, block);
        match parsed {
          case InvalidEnvelope =>
            RejectedPrefix(lib, chunks, i + 1, blocks, buffer);
            return Rejected;
          case NoEvent =>
          case Event(e) => events := events + [e];
        }
        boundary := FirstBoundary(buffer);
      }
      assert blocks + [] == blocks;
    }
    assert chunks[..|chunks|] == chunks;
    return Read(events, buffer);
  }
}
