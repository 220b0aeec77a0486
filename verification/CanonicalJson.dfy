/**
 Canonical JSON: the printer behind every digest, a parser for its output, and the proof that the printed text
 determines the JSON value and is determined by it.
 */
module CanonicalJson {
  import opened CodeUnits
  import opened Utf8

  /** A JavaScript JSON value. An object keeps its members in insertion order. */
  datatype Json =
    | Null
    | Bool(b: bool)
    | Num(n: int)
    | Str(s: Text)
    | Arr(items: seq<Json>)
    | Obj(members: seq<Member>)

  datatype Member = Member(key: Text, value: Json)

  /** What a JSON value means once member order is forgotten. */
  datatype Value =
    | VNull
    | VBool(b: bool)
    | VNum(n: int)
    | VStr(s: Text)
    | VArr(items: seq<Value>)
    | VObj(members: map<Text, Value>)

  function Keys(ms: seq<Member>): (ks: seq<Text>)
    ensures |ks| == |ms|
    ensures forall i :: 0 <= i < |ms| ==> ks[i] == ms[i].key
  {
    if ms == [] then [] else [ms[0].key] + Keys(ms[1..])
  }

  /** A JavaScript object never has two members of one name. */
  ghost predicate WellFormed(v: Json) {
    match v
    case Arr(items) => forall i :: 0 <= i < |items| ==> WellFormed(items[i])
    case Obj(ms) => Distinct(Keys(ms)) && forall i :: 0 <= i < |ms| ==> WellFormed(ms[i].value)
    case _ => true
  }

  /** `record[key]` */
  function Get(ms: seq<Member>, key: Text): (v: Json)
    requires key in Keys(ms)
    ensures exists i :: 0 <= i < |ms| && ms[i].key == key && ms[i].value == v
  {
    if ms[0].key == key then ms[0].value
    else
      assert Keys(ms) == [ms[0].key] + Keys(ms[1..]);
      var v := Get(ms[1..], key);
      assert exists i :: 0 <= i < |ms[1..]| && ms[1..][i].key == key && ms[1..][i].value == v;
      assert forall i :: 0 <= i < |ms[1..]| ==> ms[1..][i] == ms[i + 1];
      v
  }

  // ---------------------------------------------------------------------------------------------------------
  // Meaning
  // ---------------------------------------------------------------------------------------------------------

  function Meaning(v: Json): Value
    decreases v, 0
  {
    match v
    case Null => VNull
    case Bool(b) => VBool(b)
    case Num(n) => VNum(n)
    case Str(s) => VStr(s)
    case Arr(items) => VArr(MeaningOfItems(items))
    case Obj(ms) => VObj(MeaningOfMembers(ms))
  }

  function MeaningOfMembers(ms: seq<Member>): (m: map<Text, Value>)
    decreases ms, 1
  {
    map key | key in Keys(ms) :: Meaning(Get(ms, key))
  }

  function MeaningOfItems(items: seq<Json>): (r: seq<Value>)
    ensures |r| == |items|
    decreases items, 0
  {
    if items == [] then [] else [Meaning(items[0])] + MeaningOfItems(items[1..])
  }

  // ---------------------------------------------------------------------------------------------------------
  // Printer
  // ---------------------------------------------------------------------------------------------------------

  const QUOTE: CodeUnit := 34
  const COMMA: CodeUnit := 44
  const MINUS: CodeUnit := 45
  const COLON: CodeUnit := 58
  const LEFT_BRACKET: CodeUnit := 91
  const BACKSLASH: CodeUnit := 92
  const RIGHT_BRACKET: CodeUnit := 93
  const LEFT_BRACE: CodeUnit := 123
  const RIGHT_BRACE: CodeUnit := 125
  const NULL_TEXT: Text := [110, 117, 108, 108]
  const TRUE_TEXT: Text := [116, 114, 117, 101]
  const FALSE_TEXT: Text := [102, 97, 108, 115, 101]

  predicate IsDigit(u: CodeUnit) { 48 <= u <= 57 }

  function PrintNat(n: nat): Text {
    if n < 10 then [48 + n] else PrintNat(n / 10) + [48 + n % 10]
  }

  function PrintInt(n: int): Text {
    if n < 0 then [MINUS] + PrintNat(-n) else PrintNat(n)
  }

  function HexDigit(d: int): CodeUnit
    requires 0 <= d < 16
  {
    if d < 10 then 48 + d else 87 + d
  }

  function HexEscape(u: CodeUnit): Text {
    [BACKSLASH, 117, HexDigit(u / 4096), HexDigit(u / 256 % 16), HexDigit(u / 16 % 16), HexDigit(u % 16)]
  }

  function EscapeUnit(u: CodeUnit): Text {
    if u == QUOTE || u == BACKSLASH then [BACKSLASH, u]
    else if u == 8 then [BACKSLASH, 98]
    else if u == 9 then [BACKSLASH, 116]
    else if u == 10 then [BACKSLASH, 110]
    else if u == 12 then [BACKSLASH, 102]
    else if u == 13 then [BACKSLASH, 114]
    else if u < 32 || IsHighSurrogate(u) || IsLowSurrogate(u) then HexEscape(u)
    else [u]
  }

  /** `JSON.stringify` of a string, without the quotes: a surrogate is escaped unless it is half of a pair. */
  function Escape(s: Text): Text {
    if s == [] then []
    else if StartsWithPair(s) then s[..2] + Escape(s[2..])
    else EscapeUnit(s[0]) + Escape(s[1..])
  }

  function PrintString(s: Text): Text {
    [QUOTE] + Escape(s) + [QUOTE]
  }

  /** `canonicalJson` */
  function Canon(v: Json): Text
    decreases v, 0
  {
    match v
    case Null => NULL_TEXT
    case Bool(b) => if b then TRUE_TEXT else FALSE_TEXT
    case Num(n) => PrintInt(n)
    case Str(s) => PrintString(s)
    case Arr(items) => [LEFT_BRACKET] + CanonItems(items) + [RIGHT_BRACKET]
    case Obj(ms) =>
      SortElements(Keys(ms));
      var keys := Sort(Keys(ms));
      assert forall key :: key in keys ==> key in Elements(keys);
      [LEFT_BRACE] + CanonMembers(ms, keys) + [RIGHT_BRACE]
  }

  function CanonItems(items: seq<Json>): Text
    decreases items, 0
  {
    if items == [] then []
    else if |items| == 1 then Canon(items[0])
    else Canon(items[0]) + [COMMA] + CanonItems(items[1..])
  }

  function CanonMember(ms: seq<Member>, key: Text): Text
    requires key in Keys(ms)
    decreases ms, 0
  {
    PrintString(key) + [COLON] + Canon(Get(ms, key))
  }

  function CanonMembers(ms: seq<Member>, keys: seq<Text>): Text
    requires forall key :: key in keys ==> key in Keys(ms)
    decreases ms, 1, |keys|
  {
    if keys == [] then []
    else if |keys| == 1 then CanonMember(ms, keys[0])
    else CanonMember(ms, keys[0]) + [COMMA] + CanonMembers(ms, keys[1..])
  }

  // ---------------------------------------------------------------------------------------------------------
  // Parser
  // ---------------------------------------------------------------------------------------------------------

  datatype Parsed<+T> = Fail | Done(value: T, rest: Text)

  function HexValue(u: CodeUnit): (d: int)
    ensures -1 <= d < 16
  {
    if 48 <= u <= 57 then u - 48
    else if 97 <= u <= 102 then u - 87
    else if 65 <= u <= 70 then u - 55
    else -1
  }

  /** One escape sequence; the text starts just after the backslash. */
  function ParseEscape(t: Text): (r: Parsed<CodeUnit>)
    ensures r.Done? ==> |r.rest| < |t|
  {
    if t == [] then Fail
    else if t[0] == QUOTE || t[0] == BACKSLASH || t[0] == 47 then Done(t[0], t[1..])
    else if t[0] == 98 then Done(8, t[1..])
    else if t[0] == 116 then Done(9, t[1..])
    else if t[0] == 110 then Done(10, t[1..])
    else if t[0] == 102 then Done(12, t[1..])
    else if t[0] == 114 then Done(13, t[1..])
    else if t[0] == 117 && |t| >= 5 then
      var a, b, c, d := HexValue(t[1]), HexValue(t[2]), HexValue(t[3]), HexValue(t[4]);
      if a < 0 || b < 0 || c < 0 || d < 0 then Fail else Done(4096 * a + 256 * b + 16 * c + d, t[5..])
    else Fail
  }

  /** The characters of a string up to and including its closing quote. */
  function ParseChars(t: Text): (r: Parsed<Text>)
    ensures r.Done? ==> |r.rest| < |t|
    decreases |t|
  {
    if t == [] then Fail
    else if t[0] == QUOTE then Done([], t[1..])
    else if t[0] == BACKSLASH then
      var e := ParseEscape(t[1..]);
      if e.Fail? then Fail else Prepend(e.value, ParseChars(e.rest))
    else if t[0] < 32 then Fail
    else Prepend(t[0], ParseChars(t[1..]))
  }

  function Prepend(u: CodeUnit, r: Parsed<Text>): Parsed<Text> {
    if r.Done? then Done([u] + r.value, r.rest) else Fail
  }

  function ParseString(t: Text): (r: Parsed<Text>)
    ensures r.Done? ==> |r.rest| < |t|
  {
    if t == [] || t[0] != QUOTE then Fail else ParseChars(t[1..])
  }

  function ParseDigits(t: Text, sofar: nat): (r: Parsed<int>)
    ensures r.Done? && |r.rest| <= |t|
  {
    if t == [] || !IsDigit(t[0]) then Done(sofar, t) else ParseDigits(t[1..], 10 * sofar + (t[0] - 48))
  }

  function ParseNat(t: Text): (r: Parsed<int>)
    ensures r.Done? ==> |r.rest| < |t|
  {
    if t == [] || !IsDigit(t[0]) then Fail
    else if t[0] == 48 then Done(0, t[1..])
    else ParseDigits(t[1..], t[0] - 48)
  }

  function ParseInt(t: Text): (r: Parsed<int>)
    ensures r.Done? ==> |r.rest| < |t|
  {
    if t != [] && t[0] == MINUS then
      var r := ParseNat(t[1..]);
      if r.Done? then Done(-r.value, r.rest) else Fail
    else ParseNat(t)
  }

  function ParseValue(t: Text): (r: Parsed<Value>)
    ensures r.Done? ==> |r.rest| < |t|
    decreases |t|, 0
  {
    if t == [] then Fail
    else if NULL_TEXT <= t then Done(VNull, t[|NULL_TEXT|..])
    else if TRUE_TEXT <= t then Done(VBool(true), t[|TRUE_TEXT|..])
    else if FALSE_TEXT <= t then Done(VBool(false), t[|FALSE_TEXT|..])
    else if t[0] == QUOTE then
      var r := ParseString(t);
      if r.Done? then Done(VStr(r.value), r.rest) else Fail
    else if t[0] == LEFT_BRACKET then
      if |t| >= 2 && t[1] == RIGHT_BRACKET then Done(VArr([]), t[2..])
      else
        var r := ParseItems(t[1..]);
        if r.Done? then Done(VArr(r.value), r.rest) else Fail
    else if t[0] == LEFT_BRACE then
      if |t| >= 2 && t[1] == RIGHT_BRACE then Done(VObj(map[]), t[2..])
      else
        var r := ParseMembers(t[1..]);
        if r.Done? then Done(VObj(r.value), r.rest) else Fail
    else
      var r := ParseInt(t);
      if r.Done? then Done(VNum(r.value), r.rest) else Fail
  }

  function ParseItems(t: Text): (r: Parsed<seq<Value>>)
    ensures r.Done? ==> |r.rest| < |t|
    decreases |t|, 1
  {
    var first := ParseValue(t);
    if first.Fail? || first.rest == [] then Fail
    else if first.rest[0] == RIGHT_BRACKET then Done([first.value], first.rest[1..])
    else if first.rest[0] == COMMA then
      var others := ParseItems(first.rest[1..]);
      if others.Done? then Done([first.value] + others.value, others.rest) else Fail
    else Fail
  }

  function ParseMembers(t: Text): (r: Parsed<map<Text, Value>>)
    ensures r.Done? ==> |r.rest| < |t|
    decreases |t|, 1
  {
    var key := ParseString(t);
    if key.Fail? || key.rest == [] || key.rest[0] != COLON then Fail
    else
      var first := ParseValue(key.rest[1..]);
      if first.Fail? || first.rest == [] then Fail
      else if first.rest[0] == RIGHT_BRACE then Done(map[key.value := first.value], first.rest[1..])
      else if first.rest[0] == COMMA then
        var others := ParseMembers(first.rest[1..]);
        if others.Done? then Done(map[key.value := first.value] + others.value, others.rest) else Fail
      else Fail
  }

  /** A whole JSON text. */
  function Parse(t: Text): Parsed<Value> {
    var r := ParseValue(t);
    if r.Done? && r.rest == [] then r else Fail
  }

  // ---------------------------------------------------------------------------------------------------------
  // Strings and numbers survive the round trip
  // ---------------------------------------------------------------------------------------------------------

  lemma HexDigitsSum(u: CodeUnit)
    ensures u == 4096 * (u / 4096) + 256 * (u / 256 % 16) + 16 * (u / 16 % 16) + u % 16
  {
    assert u == 16 * (u / 16) + u % 16;
    assert u / 16 == 16 * (u / 256) + u / 16 % 16;
    assert u / 256 == 16 * (u / 4096) + u / 256 % 16;
  }

  lemma HexDigitRoundTrip(d: int)
    requires 0 <= d < 16
    ensures HexValue(HexDigit(d)) == d
  {
  }

  lemma ParseOfFourHexDigits(a: int, b: int, c: int, d: int, tail: Text)
    requires 0 <= a < 16 && 0 <= b < 16 && 0 <= c < 16 && 0 <= d < 16
    ensures ParseEscape([117, HexDigit(a), HexDigit(b), HexDigit(c), HexDigit(d)] + tail)
         == Done(4096 * a + 256 * b + 16 * c + d, tail)
  {
    var t := [117, HexDigit(a), HexDigit(b), HexDigit(c), HexDigit(d)] + tail;
    HexDigitRoundTrip(a);
    HexDigitRoundTrip(b);
    HexDigitRoundTrip(c);
    HexDigitRoundTrip(d);
    assert t[5..] == tail;
  }

  lemma ParseOfHexEscape(u: CodeUnit, tail: Text)
    ensures ParseEscape((HexEscape(u) + tail)[1..]) == Done(u, tail)
  {
    var a, b, c, d := u / 4096, u / 256 % 16, u / 16 % 16, u % 16;
    assert (HexEscape(u) + tail)[1..] == [117, HexDigit(a), HexDigit(b), HexDigit(c), HexDigit(d)] + tail;
    ParseOfFourHexDigits(a, b, c, d, tail);
    HexDigitsSum(u);
  }

  lemma ParseOfEscapeUnit(u: CodeUnit, tail: Text)
    ensures ParseChars(EscapeUnit(u) + tail) == Prepend(u, ParseChars(tail))
  {
    var e := EscapeUnit(u);
    var t := e + tail;
    if e == HexEscape(u) {
      ParseOfHexEscape(u, tail);
    } else if |e| == 2 {
      assert t[1..][1..] == tail;
    } else {
      assert t[1..] == tail;
    }
  }

  lemma ParseOfPair(high: CodeUnit, low: CodeUnit, tail: Text)
    requires IsHighSurrogate(high) && IsLowSurrogate(low)
    ensures ParseChars([high, low] + tail) == Prepend(high, Prepend(low, ParseChars(tail)))
  {
    assert ([high, low] + tail)[1..] == [low] + tail;
    assert ([low] + tail)[1..] == tail;
  }

  lemma Regroup(first: Text, separator: Text, others: Text, close: Text, rest: Text)
    ensures first + close + rest == first + (close + rest)
    ensures first + others + close + rest == first + (others + close + rest)
    ensures first + separator + others + close + rest == first + (separator + (others + close + rest))
  {
  }

  lemma ParseAfterPair(s: Text, others: Text, rest: Text)
    requires StartsWithPair(s) && ParseChars(others) == Done(s[2..], rest)
    ensures ParseChars(s[..2] + others) == Done(s, rest)
  {
    ParseOfPair(s[0], s[1], others);
    assert s[..2] == [s[0], s[1]];
    assert s == [s[0]] + ([s[1]] + s[2..]);
  }

  lemma {:induction false} ParseOfEscape(s: Text, rest: Text)
    ensures ParseChars(Escape(s) + [QUOTE] + rest) == Done(s, rest)
  {
    if s == [] {
      assert Escape(s) + [QUOTE] + rest == [QUOTE] + rest;
    } else if StartsWithPair(s) {
      ParseOfEscape(s[2..], rest);
      Regroup(s[..2], [], Escape(s[2..]), [QUOTE], rest);
      ParseAfterPair(s, Escape(s[2..]) + [QUOTE] + rest, rest);
    } else {
      ParseOfEscape(s[1..], rest);
      Regroup(EscapeUnit(s[0]), [], Escape(s[1..]), [QUOTE], rest);
      ParseOfEscapeUnit(s[0], Escape(s[1..]) + [QUOTE] + rest);
      assert s == [s[0]] + s[1..];
    }
  }

  lemma ParseOfString(s: Text, rest: Text)
    ensures ParseString(PrintString(s) + rest) == Done(s, rest)
  {
    ParseOfEscape(s, rest);
    assert (PrintString(s) + rest)[1..] == Escape(s) + [QUOTE] + rest;
  }

  /** What may follow a number without changing how it is read. */
  predicate Delimited(rest: Text) {
    rest == [] || !IsDigit(rest[0])
  }

  lemma {:induction false} PrintNatStart(n: nat)
    ensures PrintNat(n) != [] && IsDigit(PrintNat(n)[0])
    ensures n > 0 ==> PrintNat(n)[0] != 48
  {
    if n >= 10 { PrintNatStart(n / 10); }
  }

  lemma {:induction false} ParseOfDigits(n: nat, rest: Text)
    ensures ParseDigits(PrintNat(n) + rest, 0) == ParseDigits(rest, n)
  {
    if n < 10 {
      assert (PrintNat(n) + rest)[1..] == rest;
    } else {
      var tail := [48 + n % 10] + rest;
      assert PrintNat(n) + rest == PrintNat(n / 10) + tail;
      ParseOfDigits(n / 10, tail);
      assert tail[1..] == rest;
    }
  }

  lemma ParseOfNat(n: nat, rest: Text)
    requires Delimited(rest)
    ensures ParseNat(PrintNat(n) + rest) == Done(n, rest)
  {
    PrintNatStart(n);
    var t := PrintNat(n) + rest;
    ParseOfDigits(n, rest);
    assert ParseDigits(t, 0) == ParseDigits(t[1..], t[0] - 48);
    if n == 0 { assert t[1..] == rest; }
  }

  lemma ParseOfInt(n: int, rest: Text)
    requires Delimited(rest)
    ensures ParseInt(PrintInt(n) + rest) == Done(n, rest)
  {
    if n < 0 {
      ParseOfNat(-n, rest);
      assert (PrintInt(n) + rest)[1..] == PrintNat(-n) + rest;
    } else {
      ParseOfNat(n, rest);
      PrintNatStart(n);
      assert (PrintInt(n) + rest)[0] == PrintNat(n)[0];
    }
  }

  // ---------------------------------------------------------------------------------------------------------
  // The round trip
  // ---------------------------------------------------------------------------------------------------------

  /** The first unit of a printed value tells its kind, and is never a closing bracket. */
  lemma CanonStart(v: Json)
    ensures Canon(v) != []
    ensures Canon(v)[0] != RIGHT_BRACKET
  {
    if v.Num? {
      PrintNatStart(if v.n < 0 then -v.n else v.n);
    }
  }

  lemma NumberText(n: int, rest: Text)
    requires Delimited(rest)
    ensures ParseValue(PrintInt(n) + rest) == Done(VNum(n), rest)
  {
    var t := PrintInt(n) + rest;
    PrintNatStart(if n < 0 then -n else n);
    assert t[0] == PrintInt(n)[0];
    ParseOfInt(n, rest);
  }

  ghost function MembersFor(ms: seq<Member>, keys: seq<Text>): map<Text, Value>
    requires forall key :: key in keys ==> key in Keys(ms)
  {
    map key | key in keys :: Meaning(Get(ms, key))
  }

  lemma MembersForFirst(ms: seq<Member>, keys: seq<Text>)
    requires keys != [] && forall key :: key in keys ==> key in Keys(ms)
    ensures MembersFor(ms, keys) == map[keys[0] := Meaning(Get(ms, keys[0]))] + MembersFor(ms, keys[1..])
    ensures |keys| == 1 ==> MembersFor(ms, keys) == map[keys[0] := Meaning(Get(ms, keys[0]))]
  {
    assert keys == [keys[0]] + keys[1..];
    assert forall key :: key in keys <==> key == keys[0] || key in keys[1..];
  }

  lemma MemberIsWellFormed(ms: seq<Member>, key: Text)
    requires key in Keys(ms) && forall i :: 0 <= i < |ms| ==> WellFormed(ms[i].value)
    ensures WellFormed(Get(ms, key))
  {
  }

  lemma ParseOfLiteral(literal: Text, value: Value, rest: Text)
    requires (literal, value) in {(NULL_TEXT, VNull), (TRUE_TEXT, VBool(true)), (FALSE_TEXT, VBool(false))}
    ensures ParseValue(literal + rest) == Done(value, rest)
  {
    var t := literal + rest;
    assert t[0] == literal[0];
    assert t[|literal|..] == rest;
  }

  lemma {:induction false} ParseOfCanon(v: Json, rest: Text)
    requires WellFormed(v) && Delimited(rest)
    ensures ParseValue(Canon(v) + rest) == Done(Meaning(v), rest)
    decreases v, 0
  {
    match v
    case Null => ParseOfLiteral(NULL_TEXT, VNull, rest);
    case Bool(b) => ParseOfLiteral(Canon(v), VBool(b), rest);
    case Num(n) => NumberText(n, rest);
    case Str(s) =>
      ParseOfString(s, rest);
      assert (PrintString(s) + rest)[0] == QUOTE;
    case Arr(items) =>
      if items != [] {
        ParseOfItems(items, rest);
        CanonStart(items[0]);
        assert CanonItems(items)[0] == Canon(items[0])[0];
      }
      ParseOfBrackets(CanonItems(items), MeaningOfItems(items), rest);
    case Obj(ms) =>
      ParseOfObject(ms, rest);
  }

  lemma ParseOfBrackets(body: Text, items: seq<Value>, rest: Text)
    requires body == [] ==> items == []
    requires body != [] ==>
               body[0] != RIGHT_BRACKET && ParseItems(body + [RIGHT_BRACKET] + rest) == Done(items, rest)
    ensures ParseValue([LEFT_BRACKET] + body + [RIGHT_BRACKET] + rest) == Done(VArr(items), rest)
  {
    var t := [LEFT_BRACKET] + body + [RIGHT_BRACKET] + rest;
    assert t[0] == LEFT_BRACKET;
    assert t[1..] == body + [RIGHT_BRACKET] + rest;
    assert t[1] == if body == [] then RIGHT_BRACKET else body[0];
    assert body == [] ==> t[2..] == rest;
  }

  lemma {:induction false} ParseOfItems(items: seq<Json>, rest: Text)
    requires items != [] && forall i :: 0 <= i < |items| ==> WellFormed(items[i])
    ensures ParseItems(CanonItems(items) + [RIGHT_BRACKET] + rest) == Done(MeaningOfItems(items), rest)
    decreases items, 0
  {
    if |items| == 1 {
      var tail := [RIGHT_BRACKET] + rest;
      Regroup(Canon(items[0]), [], [], [RIGHT_BRACKET], rest);
      ParseOfCanon(items[0], tail);
      assert tail[1..] == rest;
      assert MeaningOfItems(items) == [Meaning(items[0])];
    } else {
      var others := CanonItems(items[1..]) + [RIGHT_BRACKET] + rest;
      var tail := [COMMA] + others;
      Regroup(Canon(items[0]), [COMMA], CanonItems(items[1..]), [RIGHT_BRACKET], rest);
      ParseOfCanon(items[0], tail);
      assert tail[1..] == others;
      ParseOfItems(items[1..], rest);
    }
  }

  lemma MeaningOfSortedMembers(ms: seq<Member>)
    ensures var keys := Sort(Keys(ms));
            && (forall key :: key in keys <==> key in Keys(ms))
            && MeaningOfMembers(ms) == MembersFor(ms, keys)
  {
    var keys := Sort(Keys(ms));
    SortElements(Keys(ms));
    assert forall key :: key in keys <==> key in Elements(keys);
    assert forall key :: key in Keys(ms) <==> key in Elements(Keys(ms));
  }

  lemma ParseOfOpenBrace(t: Text)
    requires |t| >= 2 && t[0] == LEFT_BRACE
    ensures t[1] == RIGHT_BRACE ==> ParseValue(t) == Done(VObj(map[]), t[2..])
    ensures t[1] != RIGHT_BRACE && ParseMembers(t[1..]).Done? ==>
              ParseValue(t) == Done(VObj(ParseMembers(t[1..]).value), ParseMembers(t[1..]).rest)
  {
    assert !(NULL_TEXT <= t) && !(TRUE_TEXT <= t) && !(FALSE_TEXT <= t);
  }

  lemma BracesOpen(body: Text, rest: Text)
    ensures var t := [LEFT_BRACE] + body + [RIGHT_BRACE] + rest;
            && |t| >= 2 && t[0] == LEFT_BRACE && t[1..] == body + [RIGHT_BRACE] + rest
            && t[1] == (if body == [] then RIGHT_BRACE else body[0])
            && (body == [] ==> t[2..] == rest)
  {
  }

  lemma ParseOfBraces(body: Text, m: map<Text, Value>, rest: Text)
    requires body == [] ==> m == map[]
    requires body != [] ==> body[0] == QUOTE && ParseMembers(body + [RIGHT_BRACE] + rest) == Done(m, rest)
    ensures ParseValue([LEFT_BRACE] + body + [RIGHT_BRACE] + rest) == Done(VObj(m), rest)
  {
    BracesOpen(body, rest);
    ParseOfOpenBrace([LEFT_BRACE] + body + [RIGHT_BRACE] + rest);
  }

  lemma {:induction false} ParseOfObject(ms: seq<Member>, rest: Text)
    requires WellFormed(Obj(ms))
    ensures ParseValue(Canon(Obj(ms)) + rest) == Done(Meaning(Obj(ms)), rest)
    decreases ms, 2
  {
    var keys := Sort(Keys(ms));
    MeaningOfSortedMembers(ms);
    var body := CanonMembers(ms, keys);
    if keys != [] {
      ParseOfMembers(ms, keys, rest);
      assert body[0] == CanonMember(ms, keys[0])[0];
    }
    ParseOfBraces(body, MembersFor(ms, keys), rest);
  }

  /** Reading one printed member, whatever comes after it. */
  lemma ParseOfMember(key: Text, printed: Text, value: Value, tail: Text)
    requires tail != [] && ParseValue(printed + tail) == Done(value, tail)
    ensures var r := ParseMembers(PrintString(key) + [COLON] + printed + tail);
            && (tail[0] == RIGHT_BRACE ==> r == Done(map[key := value], tail[1..]))
            && (tail[0] == COMMA ==>
                  var others := ParseMembers(tail[1..]);
                  others.Done? ==> r == Done(map[key := value] + others.value, others.rest))
  {
    var after := [COLON] + (printed + tail);
    assert PrintString(key) + [COLON] + printed + tail == PrintString(key) + after;
    ParseOfString(key, after);
    assert after[1..] == printed + tail;
  }

  lemma {:induction false} ParseOfMembers(ms: seq<Member>, keys: seq<Text>, rest: Text)
    requires keys != [] && (forall key :: key in keys ==> key in Keys(ms))
    requires forall i :: 0 <= i < |ms| ==> WellFormed(ms[i].value)
    ensures ParseMembers(CanonMembers(ms, keys) + [RIGHT_BRACE] + rest) == Done(MembersFor(ms, keys), rest)
    decreases ms, 1, |keys|
  {
    var key := keys[0];
    var v := Get(ms, key);
    MemberIsWellFormed(ms, key);
    MembersForFirst(ms, keys);
    if |keys| == 1 {
      ParseOfCanon(v, [RIGHT_BRACE] + rest);
      LastMember(key, Canon(v), Meaning(v), rest);
    } else {
      var others := CanonMembers(ms, keys[1..]);
      ParseOfMembers(ms, keys[1..], rest);
      ParseOfCanon(v, [COMMA] + (others + [RIGHT_BRACE] + rest));
      NextMember(key, Canon(v), Meaning(v), others, MembersFor(ms, keys[1..]), rest);
    }
  }

  lemma LastMember(key: Text, printed: Text, value: Value, rest: Text)
    requires ParseValue(printed + ([RIGHT_BRACE] + rest)) == Done(value, [RIGHT_BRACE] + rest)
    ensures ParseMembers(PrintString(key) + [COLON] + printed + [RIGHT_BRACE] + rest) == Done(map[key := value], rest)
  {
    Regroup(PrintString(key) + [COLON] + printed, [], [], [RIGHT_BRACE], rest);
    ParseOfMember(key, printed, value, [RIGHT_BRACE] + rest);
    assert ([RIGHT_BRACE] + rest)[1..] == rest;
  }

  lemma NextMember(key: Text, printed: Text, value: Value, others: Text, following: map<Text, Value>, rest: Text)
    requires var tail := [COMMA] + (others + [RIGHT_BRACE] + rest);
             ParseValue(printed + tail) == Done(value, tail)
    requires ParseMembers(others + [RIGHT_BRACE] + rest) == Done(following, rest)
    ensures ParseMembers(PrintString(key) + [COLON] + printed + [COMMA] + others + [RIGHT_BRACE] + rest)
         == Done(map[key := value] + following, rest)
  {
    var tail := [COMMA] + (others + [RIGHT_BRACE] + rest);
    Regroup(PrintString(key) + [COLON] + printed, [COMMA], others, [RIGHT_BRACE], rest);
    ParseOfMember(key, printed, value, tail);
    assert tail[1..] == others + [RIGHT_BRACE] + rest;
  }

  /** The parser recovers every value from its canonical text, up to member order. */
  lemma ParseInvertsCanon(v: Json)
    requires WellFormed(v)
    ensures Parse(Canon(v)) == Done(Meaning(v), [])
  {
    ParseOfCanon(v, []);
    assert Canon(v) + [] == Canon(v);
  }

  // ---------------------------------------------------------------------------------------------------------
  // Equal values print equally
  // ---------------------------------------------------------------------------------------------------------

  lemma {:induction false} SameMeaningSameText(v: Json, w: Json)
    requires WellFormed(v) && WellFormed(w)
    requires Meaning(v) == Meaning(w)
    ensures Canon(v) == Canon(w)
    decreases v, 0
  {
    match v
    case Arr(items) => SameMeaningSameItems(items, w.items);
    case Obj(ms) =>
      var ns := w.members;
      SameKeysSameOrder(ms, ns);
      MeaningOfSortedMembers(ms);
      MeaningOfSortedMembers(ns);
      SameMeaningSameMembers(ms, ns, Sort(Keys(ms)));
    case _ =>
  }

  lemma {:induction false} SameMeaningSameItems(items: seq<Json>, others: seq<Json>)
    requires forall i :: 0 <= i < |items| ==> WellFormed(items[i])
    requires forall i :: 0 <= i < |others| ==> WellFormed(others[i])
    requires MeaningOfItems(items) == MeaningOfItems(others)
    ensures CanonItems(items) == CanonItems(others)
    decreases items, 0
  {
    assert |items| == |others|;
    if items != [] {
      assert Meaning(items[0]) == MeaningOfItems(items)[0] == MeaningOfItems(others)[0] == Meaning(others[0]);
      assert MeaningOfItems(items[1..]) == MeaningOfItems(items)[1..];
      assert MeaningOfItems(others[1..]) == MeaningOfItems(others)[1..];
      SameMeaningSameText(items[0], others[0]);
      SameMeaningSameItems(items[1..], others[1..]);
    }
  }

  lemma SameKeysSameOrder(ms: seq<Member>, ns: seq<Member>)
    requires Distinct(Keys(ms)) && Distinct(Keys(ns))
    requires MeaningOfMembers(ms).Keys == MeaningOfMembers(ns).Keys
    ensures Sort(Keys(ms)) == Sort(Keys(ns))
  {
    SortAscending(Keys(ms));
    SortAscending(Keys(ns));
    SortElements(Keys(ms));
    SortElements(Keys(ns));
    assert Elements(Keys(ms)) == MeaningOfMembers(ms).Keys;
    assert Elements(Keys(ns)) == MeaningOfMembers(ns).Keys;
    AscendingUnique(Sort(Keys(ms)), Sort(Keys(ns)));
  }

  lemma {:induction false} SameMeaningSameMembers(ms: seq<Member>, ns: seq<Member>, keys: seq<Text>)
    requires forall i :: 0 <= i < |ms| ==> WellFormed(ms[i].value)
    requires forall i :: 0 <= i < |ns| ==> WellFormed(ns[i].value)
    requires MeaningOfMembers(ms) == MeaningOfMembers(ns)
    requires forall key :: key in keys ==> key in Keys(ms) && key in Keys(ns)
    ensures CanonMembers(ms, keys) == CanonMembers(ns, keys)
    decreases ms, 0, |keys|
  {
    if keys != [] {
      SameMeaningSameMember(ms, ns, keys[0]);
      SameMeaningSameMembers(ms, ns, keys[1..]);
    }
  }

  lemma {:induction false} SameMeaningSameMember(ms: seq<Member>, ns: seq<Member>, key: Text)
    requires forall i :: 0 <= i < |ms| ==> WellFormed(ms[i].value)
    requires forall i :: 0 <= i < |ns| ==> WellFormed(ns[i].value)
    requires MeaningOfMembers(ms) == MeaningOfMembers(ns)
    requires key in Keys(ms) && key in Keys(ns)
    ensures CanonMember(ms, key) == CanonMember(ns, key)
    decreases ms, 0, 0
  {
    MemberIsWellFormed(ms, key);
    MemberIsWellFormed(ns, key);
    assert Meaning(Get(ms, key)) == MeaningOfMembers(ms)[key];
    assert Meaning(Get(ns, key)) == MeaningOfMembers(ns)[key];
    SameMeaningSameText(Get(ms, key), Get(ns, key));
  }

  /** Two values have one canonical text exactly when they are equal as JSON values. */
  lemma CanonDecidesEquality(v: Json, w: Json)
    requires WellFormed(v) && WellFormed(w)
    ensures Canon(v) == Canon(w) <==> Meaning(v) == Meaning(w)
  {
    ParseInvertsCanon(v);
    ParseInvertsCanon(w);
    if Meaning(v) == Meaning(w) { SameMeaningSameText(v, w); }
  }

  /** Members are printed in strictly ascending code-unit order of their names (RFC 8785, section 3.2.3). */
  lemma MembersPrintedAscending(ms: seq<Member>)
    requires WellFormed(Obj(ms))
    ensures var keys := Sort(Keys(ms));
            && Ascending(keys) && (forall key :: key in keys <==> key in Keys(ms))
            && Canon(Obj(ms)) == [LEFT_BRACE] + CanonMembers(ms, keys) + [RIGHT_BRACE]
  {
    SortAscending(Keys(ms));
    MeaningOfSortedMembers(ms);
  }

  // ---------------------------------------------------------------------------------------------------------
  // The text survives UTF-8
  // ---------------------------------------------------------------------------------------------------------

  lemma {:induction false} WellPairedConcat(a: Text, b: Text)
    requires WellPaired(a) && WellPaired(b)
    ensures WellPaired(a + b)
  {
    if a == [] {
      assert a + b == b;
    } else if StartsWithPair(a) {
      WellPairedConcat(a[2..], b);
      assert (a + b)[2..] == a[2..] + b;
    } else {
      WellPairedConcat(a[1..], b);
      assert (a + b)[1..] == a[1..] + b;
    }
  }

  lemma {:induction false} PlainIsWellPaired(t: Text)
    requires forall i :: 0 <= i < |t| ==> t[i] < 0xD800
    ensures WellPaired(t)
  {
    if t != [] { PlainIsWellPaired(t[1..]); }
  }

  lemma {:induction false} PrintNatIsPlain(n: nat)
    ensures forall i :: 0 <= i < |PrintNat(n)| ==> PrintNat(n)[i] < 0xD800
  {
    if n >= 10 { PrintNatIsPlain(n / 10); }
  }

  lemma {:induction false} EscapeIsWellPaired(s: Text)
    ensures WellPaired(Escape(s))
  {
    if s == [] {
    } else if StartsWithPair(s) {
      EscapeIsWellPaired(s[2..]);
      assert s[..2][2..] == [];
      WellPairedConcat(s[..2], Escape(s[2..]));
    } else {
      EscapeIsWellPaired(s[1..]);
      if |EscapeUnit(s[0])| > 1 || s[0] < 0xD800 {
        PlainIsWellPaired(EscapeUnit(s[0]));
      } else {
        assert EscapeUnit(s[0])[1..] == [];
      }
      WellPairedConcat(EscapeUnit(s[0]), Escape(s[1..]));
    }
  }

  lemma StringIsWellPaired(s: Text)
    ensures WellPaired(PrintString(s))
  {
    EscapeIsWellPaired(s);
    PlainIsWellPaired([QUOTE]);
    WellPairedConcat([QUOTE], Escape(s));
    WellPairedConcat([QUOTE] + Escape(s), [QUOTE]);
  }

  /** Hashing hashes the UTF-8 bytes of the canonical text, and that text has a faithful UTF-8 form. */
  lemma {:induction false} CanonIsWellPaired(v: Json)
    ensures WellPaired(Canon(v))
    decreases v, 0
  {
    match v
    case Null => PlainIsWellPaired(NULL_TEXT);
    case Bool(b) => PlainIsWellPaired(Canon(v));
    case Num(n) =>
      PrintNatIsPlain(if n < 0 then -n else n);
      PlainIsWellPaired(PrintInt(n));
    case Str(s) => StringIsWellPaired(s);
    case Arr(items) =>
      ItemsAreWellPaired(items);
      EnclosedIsWellPaired(LEFT_BRACKET, CanonItems(items), RIGHT_BRACKET);
    case Obj(ms) =>
      MeaningOfSortedMembers(ms);
      MembersAreWellPaired(ms, Sort(Keys(ms)));
      EnclosedIsWellPaired(LEFT_BRACE, CanonMembers(ms, Sort(Keys(ms))), RIGHT_BRACE);
  }

  lemma EnclosedIsWellPaired(open: CodeUnit, body: Text, close: CodeUnit)
    requires open < 0xD800 && close < 0xD800 && WellPaired(body)
    ensures WellPaired([open] + body + [close])
  {
    PlainIsWellPaired([open]);
    PlainIsWellPaired([close]);
    WellPairedConcat([open], body);
    WellPairedConcat([open] + body, [close]);
  }

  lemma JoinedIsWellPaired(a: Text, separator: CodeUnit, b: Text)
    requires WellPaired(a) && separator < 0xD800 && WellPaired(b)
    ensures WellPaired(a + [separator] + b)
  {
    PlainIsWellPaired([separator]);
    WellPairedConcat(a, [separator]);
    WellPairedConcat(a + [separator], b);
  }

  lemma {:induction false} ItemsAreWellPaired(items: seq<Json>)
    ensures WellPaired(CanonItems(items))
    decreases items, 0
  {
    if items != [] {
      CanonIsWellPaired(items[0]);
      if |items| > 1 {
        ItemsAreWellPaired(items[1..]);
        JoinedIsWellPaired(Canon(items[0]), COMMA, CanonItems(items[1..]));
      }
    }
  }

  lemma {:induction false} MembersAreWellPaired(ms: seq<Member>, keys: seq<Text>)
    requires forall key :: key in keys ==> key in Keys(ms)
    ensures WellPaired(CanonMembers(ms, keys))
    decreases ms, 0, |keys|
  {
    if keys != [] {
      StringIsWellPaired(keys[0]);
      CanonIsWellPaired(Get(ms, keys[0]));
      JoinedIsWellPaired(PrintString(keys[0]), COLON, Canon(Get(ms, keys[0])));
      if |keys| > 1 {
        MembersAreWellPaired(ms, keys[1..]);
        JoinedIsWellPaired(CanonMember(ms, keys[0]), COMMA, CanonMembers(ms, keys[1..]));
      }
    }
  }

  // ---------------------------------------------------------------------------------------------------------
  // Digests
  // ---------------------------------------------------------------------------------------------------------

  /** SHA-256, of bytes, in hexadecimal. */
  type Hash = seq<Byte> -> Text

  /** The hash is a parameter; where a claim needs it, injectivity is an explicit assumption. */
  ghost predicate Injective(hash: Hash) {
    forall a, b :: hash(a) == hash(b) ==> a == b
  }

  const DIGEST_PREFIX: Text := [115, 104, 97, 50, 53, 54, 58]

  /** `sha256:` followed by the hash of the UTF-8 bytes of the canonical text. */
  function Digest(hash: Hash, v: Json): Text {
    DIGEST_PREFIX + hash(Encode(Canon(v)))
  }

  /** The bytes that are hashed decide equality as JSON values, just as the text does. */
  lemma BytesDecideEquality(v: Json, w: Json)
    requires WellFormed(v) && WellFormed(w)
    ensures Encode(Canon(v)) == Encode(Canon(w)) <==> Meaning(v) == Meaning(w)
  {
    CanonDecidesEquality(v, w);
    if Encode(Canon(v)) == Encode(Canon(w)) {
      CanonIsWellPaired(v);
      CanonIsWellPaired(w);
      EncodeIsInjective(Canon(v), Canon(w));
    }
  }

  /** With an injective hash, equal digests mean equal JSON values, and conversely for any hash. */
  lemma DigestDecidesEquality(hash: Hash, v: Json, w: Json)
    requires WellFormed(v) && WellFormed(w)
    ensures Meaning(v) == Meaning(w) ==> Digest(hash, v) == Digest(hash, w)
    ensures Injective(hash) && Digest(hash, v) == Digest(hash, w) ==> Meaning(v) == Meaning(w)
  {
    BytesDecideEquality(v, w);
    assert hash(Encode(Canon(v))) == Digest(hash, v)[|DIGEST_PREFIX|..];
    assert hash(Encode(Canon(w))) == Digest(hash, w)[|DIGEST_PREFIX|..];
  }

  lemma {:induction false} GetByPosition(ms: seq<Member>, i: nat)
    requires i < |ms| && Distinct(Keys(ms))
    ensures ms[i].key in Keys(ms) && Get(ms, ms[i].key) == ms[i].value
  {
    assert Keys(ms)[i] == ms[i].key;
    assert forall j :: 0 <= j < |ms| && ms[j].key == ms[i].key ==> Keys(ms)[j] == Keys(ms)[i];
  }
}
