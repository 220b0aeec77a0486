/**
 The records of the archive file: `JSON.stringify` of an object, in UTF-8. A scanner that follows quotes and brackets
 accepts every record and nothing that is glued together from a torn record and what was appended after it.
 */
module JsonRecords {
  import opened CodeUnits
  import opened Utf8
  import opened CanonicalJson

  type Bytes = seq<Byte>

  // ---------------------------------------------------------------------------------------------------------
  // Printing
  // ---------------------------------------------------------------------------------------------------------

  /** `JSON.stringify`, which keeps the members of an object in their order. */
  function Stringify(v: Json): Text
    decreases v, 0
  {
    match v
    case Null => NULL_TEXT
    case Bool(b) => if b then TRUE_TEXT else FALSE_TEXT
    case Num(n) => PrintInt(n)
    case Str(s) => PrintString(s)
    case Arr(items) => [LEFT_BRACKET] + StringifyItems(items) + [RIGHT_BRACKET]
    case Obj(ms) => [LEFT_BRACE] + StringifyMembers(ms) + [RIGHT_BRACE]
  }

  function StringifyItems(items: seq<Json>): Text
    decreases items, 0
  {
    if items == [] then []
    else Stringify(items[0]) + (if |items| == 1 then [] else [COMMA] + StringifyItems(items[1..]))
  }

  function StringifyMember(m: Member): Text
    decreases m, 0
  {
    PrintString(m.key) + [COLON] + Stringify(m.value)
  }

  function StringifyMembers(ms: seq<Member>): Text
    decreases ms, 0
  {
    if ms == [] then []
    else StringifyMember(ms[0]) + (if |ms| == 1 then [] else [COMMA] + StringifyMembers(ms[1..]))
  }

  const KEY_EVENT_ID: Text := [111, 117, 116, 98, 111, 120, 69, 118, 101, 110, 116, 73, 100]
  const KEY_PAYLOAD: Text := [112, 97, 121, 108, 111, 97, 100]

  function RecordText(event: int, payload: Json): Text {
    Stringify(Obj([Member(KEY_EVENT_ID, Num(event)), Member(KEY_PAYLOAD, payload)]))
  }

  /** One record as it is appended, without its line feed. */
  function Record(event: int, payload: Json): Bytes {
    Encode(RecordText(event, payload))
  }

  // ---------------------------------------------------------------------------------------------------------
  // The scanner
  // ---------------------------------------------------------------------------------------------------------

  datatype Mode = Plain | InString | Escaping | AfterString

  datatype State = Open(depth: nat, mode: Mode) | Closed | Broken

  const START := Open(0, Plain)

  predicate Opens(c: int) { c == LEFT_BRACE || c == LEFT_BRACKET }

  predicate Closes(c: int) { c == RIGHT_BRACE || c == RIGHT_BRACKET }

  function Close(depth: nat): State {
    if depth <= 1 then Closed else Open(depth - 1, Plain)
  }

  /** A quote, a backslash, a slash, or one of the letters b, f, n, r, t and u. */
  predicate MayBeEscaped(c: int) {
    c == QUOTE || c == BACKSLASH || c == 47 || c == 98 || c == 102 || c == 110 || c == 114 || c == 116 || c == 117
  }

  function Step(st: State, c: int): State {
    match st
    case Closed => Broken
    case Broken => Broken
    case Open(d, mode) =>
      if d == 0 then (if mode.Plain? && c == LEFT_BRACE then Open(1, Plain) else Broken)
      else match mode
        case Plain =>
          if Opens(c) then Open(d + 1, Plain)
          else if Closes(c) then Close(d)
          else if c == QUOTE then Open(d, InString)
          else if c < 32 || c >= 128 || c == BACKSLASH then Broken
          else st
        case InString =>
          if c == QUOTE then Open(d, AfterString)
          else if c == BACKSLASH then Open(d, Escaping)
          else if c < 32 then Broken
          else st
        case Escaping => if MayBeEscaped(c) then Open(d, InString) else Broken
        case AfterString =>
          if c == COMMA || c == COLON then Open(d, Plain)
          else if Closes(c) then Close(d)
          else Broken
  }

  function Scan(st: State, t: seq<int>): State {
    if t == [] then st else Step(Scan(st, t[..|t| - 1]), t[|t| - 1])
  }

  lemma {:induction false} ScanConcat(st: State, a: seq<int>, b: seq<int>)
    ensures Scan(st, a + b) == Scan(Scan(st, a), b)
    decreases |b|
  {
    if b == [] {
      assert a + b == a;
    } else {
      ScanConcat(st, a, b[..|b| - 1]);
      assert (a + b)[..|a + b| - 1] == a + b[..|b| - 1];
    }
  }

  lemma ScanOne(st: State, c: int)
    ensures Scan(st, [c]) == Step(st, c)
  {
    assert [c][..0] == [];
    assert Scan(st, [c][..0]) == st;
  }

  lemma ScanCons(st: State, c: int, t: seq<int>)
    ensures Scan(st, [c] + t) == Scan(Step(st, c), t)
  {
    ScanConcat(st, [c], t);
    ScanOne(st, c);
  }

  lemma ScanSnoc(st: State, t: seq<int>, c: int)
    ensures Scan(st, t + [c]) == Step(Scan(st, t), c)
  {
    assert (t + [c])[..|t|] == t;
  }

  lemma {:induction false} BrokenStays(t: seq<int>)
    ensures Scan(Broken, t) == Broken
  {
    if t != [] { BrokenStays(t[..|t| - 1]); }
  }

  lemma ClosedBreaks(t: seq<int>)
    requires t != []
    ensures Scan(Closed, t) == Broken
  {
    ScanCons(Closed, t[0], t[1..]);
    BrokenStays(t[1..]);
    assert t == [t[0]] + t[1..];
  }

  // ---------------------------------------------------------------------------------------------------------
  // UTF-8 does not matter to it
  // ---------------------------------------------------------------------------------------------------------

  lemma TwoHigh(st: State, a: int, b: int)
    requires a >= 128 && b >= 128
    ensures Step(Step(st, a), b) == Step(st, a)
  {
  }

  lemma {:induction false} HighBytes(st: State, a: int, bytes: seq<int>)
    requires bytes != [] && a >= 128 && forall i :: 0 <= i < |bytes| ==> bytes[i] >= 128
    ensures Scan(st, bytes) == Step(st, a)
  {
    if |bytes| == 1 {
      assert bytes == [bytes[0]];
      ScanOne(st, bytes[0]);
    } else {
      var front := bytes[..|bytes| - 1];
      HighBytes(st, a, front);
      TwoHigh(st, a, bytes[|bytes| - 1]);
    }
  }

  lemma ScanUnit(st: State, u: CodeUnit)
    ensures Scan(st, EncodeUnit(u)) == Step(st, u)
  {
    if u < 0x80 {
      ScanOne(st, u);
    } else {
      HighBytes(st, u, EncodeUnit(u));
    }
  }

  lemma {:induction false} ScanEncoded(st: State, t: Text)
    ensures Scan(st, Encode(t)) == Scan(st, t)
    decreases |t|
  {
    if t != [] {
      if StartsWithPair(t) {
        ScanEncoded(Step(st, t[0]), t[2..]);
        ScanConcat(st, EncodePair(t[0], t[1]), Encode(t[2..]));
        HighBytes(st, t[0], EncodePair(t[0], t[1]));
        TwoHigh(st, t[0], t[1]);
        assert t == [t[0]] + ([t[1]] + t[2..]);
        ScanCons(st, t[0], [t[1]] + t[2..]);
        ScanCons(Step(st, t[0]), t[1], t[2..]);
      } else {
        ScanEncoded(Step(st, t[0]), t[1..]);
        ScanConcat(st, EncodeUnit(t[0]), Encode(t[1..]));
        ScanUnit(st, t[0]);
        assert t == [t[0]] + t[1..];
        ScanCons(st, t[0], t[1..]);
      }
    }
  }

  // ---------------------------------------------------------------------------------------------------------
  // It accepts every record
  // ---------------------------------------------------------------------------------------------------------

  lemma ScanTwo(st: State, a: int, b: int)
    ensures Scan(st, [a, b]) == Step(Step(st, a), b)
  {
    ScanOne(st, a);
    ScanSnoc(st, [a], b);
    assert [a] + [b] == [a, b];
  }

  lemma ScanHexEscape(d: nat, u: CodeUnit)
    requires d >= 1
    ensures Scan(Open(d, InString), HexEscape(u)) == Open(d, InString)
  {
    var st := Open(d, InString);
    var e := HexEscape(u);
    assert e == [BACKSLASH, 117] + [e[2], e[3]] + [e[4], e[5]];
    ScanConcat(st, [BACKSLASH, 117] + [e[2], e[3]], [e[4], e[5]]);
    ScanConcat(st, [BACKSLASH, 117], [e[2], e[3]]);
    ScanTwo(st, BACKSLASH, 117);
    ScanTwo(st, e[2], e[3]);
    ScanTwo(st, e[4], e[5]);
  }

  lemma ScanEscapeUnit(d: nat, u: CodeUnit)
    requires d >= 1
    ensures Scan(Open(d, InString), EscapeUnit(u)) == Open(d, InString)
  {
    var st := Open(d, InString);
    if |EscapeUnit(u)| == 6 {
      ScanHexEscape(d, u);
    } else if |EscapeUnit(u)| == 2 {
      ScanTwo(st, EscapeUnit(u)[0], EscapeUnit(u)[1]);
    } else {
      ScanOne(st, u);
    }
  }

  lemma {:induction false} ScanEscape(d: nat, s: Text)
    requires d >= 1
    ensures Scan(Open(d, InString), Escape(s)) == Open(d, InString)
    decreases |s|
  {
    var st := Open(d, InString);
    if s != [] {
      if StartsWithPair(s) {
        ScanEscape(d, s[2..]);
        ScanConcat(st, s[..2], Escape(s[2..]));
        assert s[..2] == [s[0], s[1]];
        ScanTwo(st, s[0], s[1]);
      } else {
        ScanEscape(d, s[1..]);
        ScanConcat(st, EscapeUnit(s[0]), Escape(s[1..]));
        ScanEscapeUnit(d, s[0]);
      }
    }
  }

  lemma ScanString(d: nat, s: Text)
    requires d >= 1
    ensures Scan(Open(d, Plain), PrintString(s)) == Open(d, AfterString)
  {
    ScanEscape(d, s);
    assert PrintString(s) == [QUOTE] + (Escape(s) + [QUOTE]);
    ScanCons(Open(d, Plain), QUOTE, Escape(s) + [QUOTE]);
    ScanSnoc(Open(d, InString), Escape(s), QUOTE);
  }

  /** Letters, digits, signs: what stands outside strings and brackets. */
  predicate IsPlain(c: int) {
    32 <= c < 128 && c != QUOTE && c != BACKSLASH && !Opens(c) && !Closes(c)
  }

  lemma {:induction false} ScanPlain(d: nat, t: seq<int>)
    requires d >= 1 && forall i :: 0 <= i < |t| ==> IsPlain(t[i])
    ensures Scan(Open(d, Plain), t) == Open(d, Plain)
  {
    if t != [] { ScanPlain(d, t[..|t| - 1]); }
  }

  lemma {:induction false} PrintNatIsPlainText(n: nat)
    ensures forall i :: 0 <= i < |PrintNat(n)| ==> 48 <= PrintNat(n)[i] <= 57
  {
    if n >= 10 { PrintNatIsPlainText(n / 10); }
  }

  lemma ScanInt(d: nat, n: int)
    requires d >= 1
    ensures Scan(Open(d, Plain), PrintInt(n)) == Open(d, Plain)
  {
    PrintNatIsPlainText(if n < 0 then -n else n);
    ScanPlain(d, PrintInt(n));
  }

  lemma ScanWord(d: nat, word: Text)
    requires d >= 1 && (word == NULL_TEXT || word == TRUE_TEXT || word == FALSE_TEXT)
    ensures Scan(Open(d, Plain), word) == Open(d, Plain)
  {
    assert forall i :: 0 <= i < |word| ==> IsPlain(word[i]);
    ScanPlain(d, word);
  }

  /** The mode after a value. */
  function ModeAfter(v: Json): Mode {
    if v.Str? then AfterString else Plain
  }

  lemma {:induction false} ScanValue(d: nat, v: Json)
    requires d >= 1
    ensures Scan(Open(d, Plain), Stringify(v)) == Open(d, ModeAfter(v))
    decreases v, 0
  {
    match v
    case Null => ScanWord(d, NULL_TEXT);
    case Bool(b) => ScanWord(d, if b then TRUE_TEXT else FALSE_TEXT);
    case Num(n) => ScanInt(d, n);
    case Str(s) => ScanString(d, s);
    case Arr(items) =>
      ScanItems(d + 1, items);
      ScanEnclosed(d, LEFT_BRACKET, StringifyItems(items), RIGHT_BRACKET);
    case Obj(ms) =>
      ScanMembers(d + 1, ms);
      ScanEnclosed(d, LEFT_BRACE, StringifyMembers(ms), RIGHT_BRACE);
  }

  /** A list that can be closed: after a value, or empty. */
  predicate Closable(st: State, d: nat) {
    st == Open(d, Plain) || st == Open(d, AfterString)
  }

  lemma ScanEnclosed(d: nat, open: CodeUnit, body: Text, close: CodeUnit)
    requires Closable(Scan(Open(d + 1, Plain), body), d + 1) && Closes(close)
    requires if d == 0 then open == LEFT_BRACE else Opens(open)
    ensures Scan(Open(d, Plain), [open] + body + [close]) == Close(d + 1)
  {
    ScanSnoc(Open(d, Plain), [open] + body, close);
    ScanCons(Open(d, Plain), open, body);
  }

  lemma ScanList(d: nat, first: Text, mode: Mode, others: Text)
    requires d >= 1 && (mode.Plain? || mode.AfterString?)
    requires Scan(Open(d, Plain), first) == Open(d, mode) && Closable(Scan(Open(d, Plain), others), d)
    ensures Closable(Scan(Open(d, Plain), first + ([COMMA] + others)), d)
  {
    ScanConcat(Open(d, Plain), first, [COMMA] + others);
    ScanCons(Open(d, mode), COMMA, others);
  }

  lemma {:induction false} ScanItems(d: nat, items: seq<Json>)
    requires d >= 1
    ensures Closable(Scan(Open(d, Plain), StringifyItems(items)), d)
    decreases items, 0
  {
    if items != [] {
      ScanValue(d, items[0]);
      if |items| == 1 {
        assert Stringify(items[0]) + [] == Stringify(items[0]);
      } else {
        ScanItems(d, items[1..]);
        ScanList(d, Stringify(items[0]), ModeAfter(items[0]), StringifyItems(items[1..]));
      }
    }
  }

  lemma ScanKeyAndValue(d: nat, key: Text, value: Text, mode: Mode)
    requires Scan(Open(d, Plain), key) == Open(d, AfterString) && Scan(Open(d, Plain), value) == Open(d, mode) && d >= 1
    ensures Scan(Open(d, Plain), key + [COLON] + value) == Open(d, mode)
  {
    ScanConcat(Open(d, Plain), key + [COLON], value);
    ScanSnoc(Open(d, Plain), key, COLON);
  }

  lemma {:induction false} ScanMember(d: nat, m: Member)
    requires d >= 1
    ensures Scan(Open(d, Plain), StringifyMember(m)) == Open(d, ModeAfter(m.value))
    decreases m, 0
  {
    ScanValue(d, m.value);
    ScanString(d, m.key);
    ScanKeyAndValue(d, PrintString(m.key), Stringify(m.value), ModeAfter(m.value));
  }

  lemma {:induction false} ScanMembers(d: nat, ms: seq<Member>)
    requires d >= 1
    ensures Closable(Scan(Open(d, Plain), StringifyMembers(ms)), d)
    decreases ms, 0
  {
    if ms != [] {
      ScanMember(d, ms[0]);
      if |ms| == 1 {
        assert StringifyMember(ms[0]) + [] == StringifyMember(ms[0]);
      } else {
        ScanMembers(d, ms[1..]);
        ScanList(d, StringifyMember(ms[0]), ModeAfter(ms[0].value), StringifyMembers(ms[1..]));
      }
    }
  }

  lemma RecordIsAccepted(event: int, payload: Json)
    ensures Scan(START, Record(event, payload)) == Closed
  {
    var ms := [Member(KEY_EVENT_ID, Num(event)), Member(KEY_PAYLOAD, payload)];
    ScanMembers(1, ms);
    ScanEnclosed(0, LEFT_BRACE, StringifyMembers(ms), RIGHT_BRACE);
    ScanEncoded(START, RecordText(event, payload));
  }

  // ---------------------------------------------------------------------------------------------------------
  // It accepts nothing that is glued
  // ---------------------------------------------------------------------------------------------------------

  /** What the scanner says of a line that began with a record, torn or whole: nothing appended to it is a record. */
  predicate Stuck(st: State) {
    st.Closed? || st.Broken? || st.depth >= 1
  }

  lemma {:induction false} ScanIsStuck(t: seq<int>)
    requires t != []
    ensures Stuck(Scan(START, t))
  {
    if |t| > 1 { ScanIsStuck(t[..|t| - 1]); }
  }

  /** A non-empty prefix of a record is open, or the whole record. */
  lemma PrefixIsOpen(r: seq<int>, k: nat)
    requires Scan(START, r) == Closed && 0 < k <= |r|
    ensures k < |r| ==> Scan(START, r[..k]).Open?
  {
    var st := Scan(START, r[..k]);
    ScanConcat(START, r[..k], r[k..]);
    assert r == r[..k] + r[k..];
    if st.Broken? { BrokenStays(r[k..]); }
    if st.Closed? && k < |r| { ClosedBreaks(r[k..]); }
  }

  /** The same scan below d open brackets. */
  function Lift(d: nat, st: State): State {
    match st
    case Open(x, mode) => Open(x + d, mode)
    case Closed => Open(d, Plain)
    case Broken => Broken
  }

  lemma LiftStep(d: nat, st: State, c: int)
    requires d >= 1 && !Step(st, c).Broken?
    ensures Step(Lift(d, st), c) == Lift(d, Step(st, c))
  {
  }

  lemma {:induction false} LiftScan(d: nat, t: seq<int>)
    requires d >= 1 && !Scan(START, t).Broken?
    ensures Scan(Open(d, Plain), t) == Lift(d, Scan(START, t))
  {
    if t != [] {
      LiftScan(d, t[..|t| - 1]);
      LiftStep(d, Scan(START, t[..|t| - 1]), t[|t| - 1]);
    }
  }

  predicate StartsLikeARecord(t: seq<int>) {
    && (|t| >= 1 ==> t[0] == LEFT_BRACE) && (|t| >= 2 ==> t[1] == QUOTE) && (|t| >= 3 ==> t[2] == 111)
  }

  /** Inside a string, a record's first quote ends the string, and its first letter is out of place. */
  lemma BreaksAString(d: nat, t: seq<int>)
    requires d >= 1 && t != [] && StartsLikeARecord(t)
    ensures var st := Scan(Open(d, InString), t); st.Broken? || (st.Open? && st.depth >= 1)
  {
    var st := Open(d, InString);
    if |t| == 1 {
      assert t == [LEFT_BRACE];
      ScanOne(st, LEFT_BRACE);
    } else if |t| == 2 {
      assert t == [LEFT_BRACE, QUOTE];
      ScanTwo(st, LEFT_BRACE, QUOTE);
    } else {
      assert t == ([LEFT_BRACE, QUOTE] + [t[2]]) + t[3..];
      ScanTwo(st, LEFT_BRACE, QUOTE);
      ScanSnoc(st, [LEFT_BRACE, QUOTE], t[2]);
      ScanConcat(st, [LEFT_BRACE, QUOTE] + [t[2]], t[3..]);
      BrokenStays(t[3..]);
    }
  }

  lemma BreaksAtOnce(st: State, t: seq<int>)
    requires t != [] && Step(st, t[0]).Broken?
    ensures Scan(st, t).Broken?
  {
    assert t == [t[0]] + t[1..];
    ScanCons(st, t[0], t[1..]);
    BrokenStays(t[1..]);
  }

  /** A line that is stuck stays so, and is not accepted, whatever prefix of a record is appended. */
  lemma GluedIsNotAccepted(line: seq<int>, t: seq<int>)
    requires line != [] && t != [] && StartsLikeARecord(t) && !Scan(START, t).Broken?
    ensures !Scan(START, line + t).Closed?
  {
    ScanIsStuck(line);
    ScanConcat(START, line, t);
    match Scan(START, line)
    case Closed => ClosedBreaks(t);
    case Broken => BrokenStays(t);
    case Open(d, mode) =>
      match mode {
        case Plain => LiftScan(d, t);
        case InString => BreaksAString(d, t);
        case Escaping => BreaksAtOnce(Open(d, Escaping), t);
        case AfterString => BreaksAtOnce(Open(d, AfterString), t);
      }
  }

  // ---------------------------------------------------------------------------------------------------------
  // How a record starts
  // ---------------------------------------------------------------------------------------------------------

  lemma EncodeOneAscii(c: CodeUnit, t: Text)
    requires c < 128
    ensures Encode([c] + t) == [c] + Encode(t)
  {
    assert ([c] + t)[1..] == t;
  }

  lemma {:induction false} EncodeAscii(a: Text, b: Text)
    requires forall i :: 0 <= i < |a| ==> a[i] < 128
    ensures Encode(a + b) == a + Encode(b)
  {
    if a == [] {
      assert a + b == b;
    } else {
      EncodeAscii(a[1..], b);
      EncodeOneAscii(a[0], a[1..] + b);
      assert a + b == [a[0]] + (a[1..] + b);
      assert a + Encode(b) == [a[0]] + (a[1..] + Encode(b));
    }
  }

  lemma {:induction false} EscapePlain(s: Text)
    requires forall i :: 0 <= i < |s| ==> 97 <= s[i] <= 122 || 65 <= s[i] <= 90
    ensures Escape(s) == s
  {
    if s != [] {
      EscapePlain(s[1..]);
      assert s == [s[0]] + s[1..];
    }
  }

  const QUOTED_KEY: Text := [QUOTE] + KEY_EVENT_ID + [QUOTE]

  const RECORD_START: Text := [LEFT_BRACE] + QUOTED_KEY + [COLON]

  lemma StringifyTwo(a: Member, b: Member)
    ensures StringifyMembers([a, b]) == StringifyMember(a) + ([COMMA] + StringifyMembers([b]))
  {
    assert [a, b][1..] == [b];
  }

  lemma Assemble(open: Text, key: Text, colon: Text, number: Text, comma: Text, others: Text, close: Text)
    ensures open + (key + colon + number + (comma + others)) + close
         == open + key + colon + number + comma + (others + close)
  {
  }

  predicate IsLetters(s: Text) {
    forall i :: 0 <= i < |s| ==> 97 <= s[i] <= 122 || 65 <= s[i] <= 90
  }

  lemma KeyIsLetters()
    ensures IsLetters(KEY_EVENT_ID)
  {
  }

  lemma MemberOfLetters(key: Text, v: Json)
    requires IsLetters(key)
    ensures StringifyMember(Member(key, v)) == [QUOTE] + key + [QUOTE] + [COLON] + Stringify(v)
  {
    EscapePlain(key);
  }

  lemma FirstMember(event: int)
    ensures StringifyMember(Member(KEY_EVENT_ID, Num(event))) == QUOTED_KEY + [COLON] + PrintInt(event)
  {
    KeyIsLetters();
    MemberOfLetters(KEY_EVENT_ID, Num(event));
  }

  lemma ObjectOfTwo(a: Member, b: Member)
    ensures Stringify(Obj([a, b]))
         == [LEFT_BRACE] + (StringifyMember(a) + ([COMMA] + StringifyMembers([b]))) + [RIGHT_BRACE]
  {
    StringifyTwo(a, b);
  }

  lemma RecordTextStarts(event: int, payload: Json) returns (rest: Text)
    ensures RecordText(event, payload) == RECORD_START + PrintInt(event) + [COMMA] + rest
  {
    var second := Member(KEY_PAYLOAD, payload);
    FirstMember(event);
    ObjectOfTwo(Member(KEY_EVENT_ID, Num(event)), second);
    var others := StringifyMembers([second]);
    Assemble([LEFT_BRACE], QUOTED_KEY, [COLON], PrintInt(event), [COMMA], others, [RIGHT_BRACE]);
    rest := others + [RIGHT_BRACE];
  }

  lemma RecordStarts(event: int, payload: Json) returns (rest: Bytes)
    ensures Record(event, payload) == RECORD_START + PrintInt(event) + [COMMA] + rest
  {
    var text := RecordTextStarts(event, payload);
    PrintNatIsPlainText(if event < 0 then -event else event);
    EncodeAscii(RECORD_START + PrintInt(event) + [COMMA], text);
    rest := Encode(text);
  }

  lemma RecordPrefixStarts(event: int, payload: Json, k: nat)
    requires k <= |Record(event, payload)|
    ensures StartsLikeARecord(Record(event, payload)[..k])
  {
    var rest := RecordStarts(event, payload);
    assert RECORD_START[..3] == [LEFT_BRACE, QUOTE, 111];
    assert forall i :: 0 <= i < 3 ==> Record(event, payload)[i] == RECORD_START[i];
  }

  /** A record tells its event. */
  lemma RecordTellsItsEvent(event: int, payload: Json, other: int, value: Json)
    requires Record(event, payload) == Record(other, value)
    ensures event == other
  {
    var rest := RecordStarts(event, payload);
    var rest' := RecordStarts(other, value);
    var n := |RECORD_START|;
    assert Record(event, payload)[n..] == PrintInt(event) + ([COMMA] + rest);
    assert Record(other, value)[n..] == PrintInt(other) + ([COMMA] + rest');
    ParseOfInt(event, [COMMA] + rest);
    ParseOfInt(other, [COMMA] + rest');
  }

  /** No record is glued from a torn or whole record and what follows it on the line. */
  lemma NoRecordIsGlued(line: Bytes, event: int, payload: Json, k: nat, other: int, value: Json)
    requires line != [] && 0 < k <= |Record(event, payload)|
    ensures line + Record(event, payload)[..k] != Record(other, value)
  {
    RecordIsAccepted(event, payload);
    RecordIsAccepted(other, value);
    var r := Record(event, payload);
    PrefixIsOpen(r, k);
    RecordPrefixStarts(event, payload, k);
    assert r[..|r|] == r;
    GluedIsNotAccepted(line, r[..k]);
  }

  /** Nor is a record cut off from a longer one. */
  lemma NoRecordIsTorn(event: int, payload: Json, k: nat, other: int, value: Json)
    requires 0 < k < |Record(event, payload)|
    ensures Record(event, payload)[..k] != Record(other, value)
  {
    RecordIsAccepted(event, payload);
    RecordIsAccepted(other, value);
    PrefixIsOpen(Record(event, payload), k);
  }

  lemma {:induction false} BreaksAtLineFeed(st: State, t: seq<int>, i: nat)
    requires i < |t| && t[i] == 10
    ensures Scan(st, t).Broken?
    decreases |t|
  {
    if i < |t| - 1 { BreaksAtLineFeed(st, t[..|t| - 1], i); }
  }

  /** A record is a single line. */
  lemma RecordIsOneLine(event: int, payload: Json)
    ensures Record(event, payload) != [] && 10 !in Record(event, payload)
  {
    RecordIsAccepted(event, payload);
    var r := Record(event, payload);
    if 10 in r {
      var i :| 0 <= i < |r| && r[i] == 10;
      BreaksAtLineFeed(START, r, i);
    }
  }
}
