/**
 What a block of server-sent events says, line by line: which lines give its id, its type and its data, and when it is no
 event or no valid one.
 */
module SseBlocks {
  import opened CodeUnits
  import opened Options
  import opened CanonicalJson
  import opened CanonicalText
  import opened SseReader
  import opened SseFrames

  /** The last line of a field, or -1. */
  function LastOf(lines: seq<Text>, field: Text): (k: int)
    ensures -1 <= k < |lines| && (k >= 0 ==> field <= lines[k])
    ensures forall i :: k < i < |lines| ==> !(field <= lines[i])
  {
    if lines == [] then -1
    else if field <= lines[|lines| - 1] then |lines| - 1
    else LastOf(lines[..|lines| - 1], field)
  }

  /** What stands after the field name, without the space before it. */
  function DataOf(lines: seq<Text>): seq<Text> {
    if lines == [] then []
    else
      var line := lines[|lines| - 1];
      DataOf(lines[..|lines| - 1]) + if Units("data:") <= line then [TrimStart(line[5..])] else []
  }

  /** The id: what the last id line says, when that is a number other than zero. */
  function IdOf(lib: Library, lines: seq<Text>): Option<int> {
    var k := LastOf(lines, Units("id:"));
    if k < 0 then None
    else
      var n := lib.number(Trim(lines[k][3..]));
      if n == Some(0) then None else n
  }

  /** The type: what the last event line says, or `message`. */
  function KindOf(lines: seq<Text>): Text {
    var k := LastOf(lines, Units("event:"));
    if k < 0 then Units("message") else Trim(lines[k][6..])
  }

  lemma FieldNames()
    ensures ID_FIELD == Units("id:") && EVENT_FIELD == Units("event:") && DATA_FIELD == Units("data:")
    ensures MESSAGE == Units("message")
  {
  }

  /** A line belongs to one field at most. */
  lemma OneField(line: Text)
    ensures ID_FIELD <= line ==> !(EVENT_FIELD <= line) && !(DATA_FIELD <= line)
    ensures EVENT_FIELD <= line ==> !(DATA_FIELD <= line)
  {
    assert ID_FIELD[0] == 105 && EVENT_FIELD[0] == 101 && DATA_FIELD[0] == 100;
    assert ID_FIELD <= line ==> line[0] == ID_FIELD[0];
    assert EVENT_FIELD <= line ==> line[0] == EVENT_FIELD[0];
    assert DATA_FIELD <= line ==> line[0] == DATA_FIELD[0];
  }

  lemma {:induction false} FieldsTell(lib: Library, lines: seq<Text>)
    ensures FieldsOf(lib, lines) == Fields(IdOf(lib, lines), KindOf(lines), DataOf(lines))
  {
    FieldNames();
    if lines != [] {
      var before, line := lines[..|lines| - 1], lines[|lines| - 1];
      FieldsTell(lib, before);
      OneField(line);
    }
  }

  /**
   A block is no event exactly when it has no data line, and an invalid one exactly when its data lines, joined, are no
   JSON. Otherwise it is the event of its last id line, its last event line, and its data; data that is no object counts
   as an empty one.
   */
  lemma BlockTells(lib: Library, block: Text)
    ensures var lines := Lines(block);
            var data := DataOf(lines);
            var value := lib.parseJson(JoinLines(data));
            ParsedFrom(lib, block) ==
              if data == [] then NoEvent
              else if value.None? then InvalidEnvelope
              else Event(SseEvent(IdOf(lib, lines), KindOf(lines), if value.value.Obj? then value.value else Obj([])))
  {
    FieldsTell(lib, Lines(block));
  }

  lemma FirstLine(line: Text, rest: Text)
    requires LF !in line
    ensures Lines(line + [LF] + rest) == [WithoutCr(line)] + Lines(rest)
  {
    var t := line + [LF] + rest;
    LineEndAt(line, rest);
    assert t[..|line|] == line && t[|line| + 1..] == rest;
  }

  /** Lines end in a line feed, and a carriage return before it does not count; what follows the last one is a line too. */
  lemma LinesTell(line: Text, rest: Text)
    requires LF !in line
    ensures Lines(line) == [line]
    ensures Lines(line + [CR, LF] + rest) == [line] + Lines(rest)
    ensures line == [] || line[|line| - 1] != CR ==> Lines(line + [LF] + rest) == [line] + Lines(rest)
  {
    LineEndAt(line, rest);
    FirstLine(line, rest);
    FirstLine(line + [CR], rest);
    CrBeforeLf(line, rest);
  }

  lemma CrBeforeLf(line: Text, rest: Text)
    ensures line + [CR, LF] + rest == line + [CR] + [LF] + rest && WithoutCr(line + [CR]) == line
  {
    assert (line + [CR])[..|line|] == line;
  }

  /** The events of the blocks that are events, in their order. */
  function EventsIn(lib: Library, blocks: seq<Text>): seq<SseEvent> {
    if blocks == [] then []
    else
      var parsed := ParsedFrom(lib, blocks[|blocks| - 1]);
      EventsIn(lib, blocks[..|blocks| - 1]) + if parsed.Event? then [parsed.event] else []
  }

  ghost predicate SomeInvalid(lib: Library, blocks: seq<Text>) {
    exists i :: 0 <= i < |blocks| && ParsedFrom(lib, blocks[i]).InvalidEnvelope?
  }

  /** A stream is rejected exactly when one of its blocks is invalid, and yields the events of all its blocks otherwise. */
  lemma {:induction false} StreamTells(lib: Library, blocks: seq<Text>)
    ensures EventsOf(lib, blocks) == if SomeInvalid(lib, blocks) then None else Some(EventsIn(lib, blocks))
  {
    if blocks != [] {
      var before, last := blocks[..|blocks| - 1], blocks[|blocks| - 1];
      StreamTells(lib, before);
      InvalidOneMore(lib, blocks);
      assert EventsIn(lib, before) + [] == EventsIn(lib, before);
    }
  }

  lemma InvalidOneMore(lib: Library, blocks: seq<Text>)
    requires blocks != []
    ensures SomeInvalid(lib, blocks)
       <==> SomeInvalid(lib, blocks[..|blocks| - 1]) || ParsedFrom(lib, blocks[|blocks| - 1]).InvalidEnvelope?
  {
    var before := blocks[..|blocks| - 1];
    if i :| 0 <= i < |before| && ParsedFrom(lib, before[i]).InvalidEnvelope? {
      assert ParsedFrom(lib, blocks[i]).InvalidEnvelope?;
    }
    if i :| 0 <= i < |blocks| && ParsedFrom(lib, blocks[i]).InvalidEnvelope? {
      assert i < |before| ==> before[i] == blocks[i];
    }
  }
}
