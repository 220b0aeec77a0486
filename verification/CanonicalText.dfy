/**
 Which text canonical JSON is. A parser accepts many texts for one string or number; the printed one is the shortest of
 them, with small hexadecimal digits. The rest is punctuation.
 */
module CanonicalText {
  import opened CodeUnits
  import opened Utf8
  import opened CanonicalJson

  // ---------------------------------------------------------------------------------------------------------
  // Strings
  // ---------------------------------------------------------------------------------------------------------

  /** The hexadecimal digits of all escapes are digits or small letters. */
  predicate SmallHex(t: Text)
    decreases |t|
  {
    if t == [] then true
    else if t[0] != BACKSLASH then SmallHex(t[1..])
    else if |t| >= 6 && t[1] == 117 then
      (forall i :: 2 <= i < 6 ==> !(65 <= t[i] <= 70)) && SmallHex(t[6..])
    else if |t| >= 2 then SmallHex(t[2..])
    else true
  }

  /** The text reads as s, when it stands between quotes. */
  predicate Reads(t: Text, s: Text) {
    ParseChars(t + [QUOTE]) == Done(s, [])
  }

  /** How many units the first character takes. */
  function Width(t: Text): nat
    requires t != []
  {
    if t[0] != BACKSLASH then 1 else if |t| >= 2 && t[1] == 117 then 6 else 2
  }

  /** An escape is read the same whatever follows it. */
  lemma EscapeIsLocal(e: Text, tail: Text)
    requires |e| == if e != [] && e[0] == 117 then 5 else 1
    ensures ParseEscape(e).Done? <==> ParseEscape(e + tail).Done?
    ensures ParseEscape(e).Done? ==>
              ParseEscape(e) == Done(ParseEscape(e).value, []) && ParseEscape(e + tail) == Done(ParseEscape(e).value, tail)
  {
    assert (e + tail)[|e|..] == tail && e[|e|..] == [];
  }

  /** A quote does not end a hexadecimal escape. */
  lemma ShortEscapeFails(t: Text)
    requires t != [] && t[0] == 117 && |t| < 5
    ensures ParseEscape(t + [QUOTE]).Fail?
  {
    var all := t + [QUOTE];
    if |t| == 4 { assert all[4] == QUOTE && HexValue(QUOTE) == -1; }
  }

  lemma ReadsEscape(e: Text, rest: Text, tail: Text)
    requires |e| == if e != [] && e[0] == 117 then 5 else 1
    ensures ParseChars([BACKSLASH] + (e + (rest + tail))) ==
            if ParseEscape(e).Done? then Prepend(ParseEscape(e).value, ParseChars(rest + tail)) else Fail
  {
    EscapeIsLocal(e, rest + tail);
    assert ([BACKSLASH] + (e + (rest + tail)))[1..] == e + (rest + tail);
  }

  lemma ReadsNoEscape(inner: Text)
    requires inner == [] || (inner[0] == 117 && |inner| < 5)
    ensures ParseChars([BACKSLASH] + (inner + [QUOTE])).Fail?
  {
    var t := [BACKSLASH] + (inner + [QUOTE]);
    assert t[1..] == inner + [QUOTE];
    if inner == [] {
      assert t[1..] == [QUOTE] && t[1..][1..] == [];
    } else {
      ShortEscapeFails(inner);
    }
  }

  lemma SplitEscape(t: Text)
    requires t != [] && t[0] == BACKSLASH && Width(t) <= |t|
    ensures t + [QUOTE] == [BACKSLASH] + (t[1..Width(t)] + (t[Width(t)..] + [QUOTE]))
  {
  }

  lemma SplitShort(t: Text)
    requires t != [] && t[0] == BACKSLASH
    ensures t + [QUOTE] == [BACKSLASH] + (t[1..] + [QUOTE])
  {
  }

  /** The first character of a text that reads as s, and the rest of it. */
  lemma FirstCharacter(t: Text, s: Text)
    requires t != [] && Reads(t, s)
    ensures s != [] && Width(t) <= |t| && Reads(t[Width(t)..], s[1..])
    ensures t[0] != BACKSLASH ==> s[0] == t[0] && t[0] != QUOTE && t[0] >= 32
    ensures t[0] == BACKSLASH ==> ParseEscape(t[1..Width(t)]).Done? && ParseEscape(t[1..Width(t)]).value == s[0]
  {
    if t[0] != BACKSLASH {
      assert (t + [QUOTE])[1..] == t[1..] + [QUOTE];
    } else if Width(t) > |t| {
      SplitShort(t);
      ReadsNoEscape(t[1..]);
    } else {
      SplitEscape(t);
      ReadsEscape(t[1..Width(t)], t[Width(t)..], [QUOTE]);
    }
  }

  // The shortest text ------------------------------------------------------------------------------------------

  /** The text of one character is no shorter than its escape, and the escape itself when it is as short. */
  lemma CharacterIsNoShorter(t: Text, u: CodeUnit)
    requires t != [] && Width(t) <= |t|
    requires t[0] != BACKSLASH ==> u == t[0] && t[0] != QUOTE && t[0] >= 32 && !IsHighSurrogate(u) && !IsLowSurrogate(u)
    requires t[0] == BACKSLASH ==> ParseEscape(t[1..Width(t)]).Done? && ParseEscape(t[1..Width(t)]).value == u
    ensures |EscapeUnit(u)| <= Width(t)
    ensures |EscapeUnit(u)| == Width(t) && (Width(t) == 6 ==> forall i :: 2 <= i < 6 ==> !(65 <= t[i] <= 70)) ==>
              t[..Width(t)] == EscapeUnit(u)
  {
    if Width(t) == 6 {
      HexIsUnique(t[..6], u);
    } else if t[0] == BACKSLASH {
      assert t[1..2][0] == t[1];
    }
  }

  lemma HexIsUnique(e: Text, u: CodeUnit)
    requires |e| == 6 && e[0] == BACKSLASH && e[1] == 117
    requires ParseEscape(e[1..]).Done? && ParseEscape(e[1..]).value == u
    ensures (forall i :: 2 <= i < 6 ==> !(65 <= e[i] <= 70)) ==> e == HexEscape(u)
  {
    var a, b, c, d := HexValue(e[2]), HexValue(e[3]), HexValue(e[4]), HexValue(e[5]);
    assert u == 4096 * a + 256 * b + 16 * c + d;
    HexDigitsOf(a, b, c, d);
  }

  lemma HexDigitsOf(a: int, b: int, c: int, d: int)
    requires 0 <= a < 16 && 0 <= b < 16 && 0 <= c < 16 && 0 <= d < 16
    ensures var u := 4096 * a + 256 * b + 16 * c + d;
            u / 4096 == a && u / 256 % 16 == b && u / 16 % 16 == c && u % 16 == d
  {
    var u := 4096 * a + 256 * b + 16 * c + d;
    assert u / 16 == 256 * a + 16 * b + c;
    assert u / 256 == 16 * a + b;
  }

  lemma {:induction false} PlainStart(t: Text, w: nat)
    requires WellPaired(t) && w <= |t| && forall i :: 0 <= i < w ==> t[i] < 0xD800
    ensures WellPaired(t[w..])
    decreases w
  {
    if w > 0 {
      PlainStart(t[1..], w - 1);
      assert t[1..][w - 1..] == t[w..];
    }
  }

  /** An escape is written in plain units, and only a hexadecimal one yields a surrogate. */
  lemma EscapesArePlain(t: Text, u: CodeUnit)
    requires t != [] && t[0] == BACKSLASH && Width(t) <= |t|
    requires ParseEscape(t[1..Width(t)]).Done? && ParseEscape(t[1..Width(t)]).value == u
    ensures forall i :: 0 <= i < Width(t) ==> t[i] < 0xD800
    ensures IsHighSurrogate(u) ==> Width(t) == 6
  {
    var e := t[1..Width(t)];
    assert forall i :: 0 < i < Width(t) ==> t[i] == e[i - 1];
    assert Width(t) == 6 ==> HexValue(e[1]) >= 0 && HexValue(e[2]) >= 0 && HexValue(e[3]) >= 0 && HexValue(e[4]) >= 0;
  }

  /** A pair that is not written as it is takes a longer text than its escape. */
  lemma PairIsShorter(s: Text, length: nat)
    requires StartsWithPair(s) && |Escape(s[1..])| <= length
    ensures |Escape(s)| < 6 + length
  {
    var rest := s[1..];
    assert rest[1..] == s[2..] && !StartsWithPair(rest);
    assert Escape(rest) == EscapeUnit(rest[0]) + Escape(rest[1..]);
  }

  lemma SmallHexSplits(t: Text)
    requires t != [] && SmallHex(t) && Width(t) <= |t|
    ensures SmallHex(t[Width(t)..])
    ensures Width(t) == 6 ==> forall i :: 2 <= i < 6 ==> !(65 <= t[i] <= 70)
  {
  }

  /** A first character that is no pair, and the shortest text of the others. */
  lemma ShortestAfterOne(s: Text, t: Text)
    requires t != [] && s != [] && !StartsWithPair(s) && Width(t) <= |t|
    requires t[0] != BACKSLASH ==>
               s[0] == t[0] && t[0] != QUOTE && t[0] >= 32 && !IsHighSurrogate(s[0]) && !IsLowSurrogate(s[0])
    requires t[0] == BACKSLASH ==> ParseEscape(t[1..Width(t)]).Done? && ParseEscape(t[1..Width(t)]).value == s[0]
    requires var rest := t[Width(t)..];
             && |Escape(s[1..])| <= |rest|
             && (|rest| == |Escape(s[1..])| && SmallHex(rest) ==> rest == Escape(s[1..]))
    ensures |Escape(s)| <= |t|
    ensures |t| == |Escape(s)| && SmallHex(t) ==> t == Escape(s)
  {
    CharacterIsNoShorter(t, s[0]);
    if SmallHex(t) { SmallHexSplits(t); }
    Concatenated(t, Width(t), EscapeUnit(s[0]), Escape(s[1..]), SmallHex(t));
  }

  lemma Concatenated(t: Text, w: nat, first: Text, others: Text, small: bool)
    requires |first| <= w <= |t| && |others| <= |t[w..]|
    requires small && |first| == w ==> t[..w] == first
    requires small && |others| == |t[w..]| ==> t[w..] == others
    ensures |first + others| <= |t| && (small && |t| == |first + others| ==> t == first + others)
  {
    assert t == t[..w] + t[w..];
  }

  /** A pair written as it is, and the shortest text of the others. */
  lemma ShortestAfterPair(s: Text, t: Text)
    requires StartsWithPair(t) && StartsWithPair(s) && s[0] == t[0] && s[1] == t[1]
    requires |Escape(s[2..])| <= |t[2..]|
    requires |t[2..]| == |Escape(s[2..])| && SmallHex(t[2..]) ==> t[2..] == Escape(s[2..])
    ensures |Escape(s)| <= |t|
    ensures |t| == |Escape(s)| && SmallHex(t) ==> t == Escape(s)
  {
    assert Escape(s) == s[..2] + Escape(s[2..]);
    if SmallHex(t) { SmallHexAfterPair(t); }
    SamePair(s, t);
  }

  lemma SmallHexAfterPair(t: Text)
    requires StartsWithPair(t) && SmallHex(t)
    ensures SmallHex(t[2..])
  {
    assert t[1..][1..] == t[2..];
  }

  lemma SamePair(s: Text, t: Text)
    requires |s| >= 2 && |t| >= 2 && s[0] == t[0] && s[1] == t[1]
    ensures s[..2] == t[..2] && t == t[..2] + t[2..]
  {
  }

  lemma PairIsReadAsItIs(s: Text, t: Text)
    requires StartsWithPair(t) && Reads(t, s)
    ensures StartsWithPair(s) && s[0] == t[0] && s[1] == t[1] && Reads(t[2..], s[2..])
  {
    FirstCharacter(t, s);
    FirstCharacter(t[1..], s[1..]);
    assert t[1..][1..] == t[2..] && s[1..][1..] == s[2..];
  }

  /**
   Of all texts without unpaired surrogates that a JSON parser reads as s, the printed one is the shortest, and the only one
   of its length with small hexadecimal digits.
   */
  lemma {:induction false} EscapeIsTheShortest(s: Text, t: Text)
    requires WellPaired(t) && Reads(t, s)
    ensures |Escape(s)| <= |t|
    ensures |t| == |Escape(s)| && SmallHex(t) ==> t == Escape(s)
    decreases |t|
  {
    if t == [] {
      assert t + [QUOTE] == [QUOTE];
    } else if StartsWithPair(t) {
      PairIsReadAsItIs(s, t);
      EscapeIsTheShortest(s[2..], t[2..]);
      ShortestAfterPair(s, t);
    } else {
      FirstCharacter(t, s);
      if t[0] == BACKSLASH { EscapesArePlain(t, s[0]); }
      RestIsWellPaired(t);
      EscapeIsTheShortest(s[1..], t[Width(t)..]);
      if StartsWithPair(s) {
        PairIsShorter(s, |t[Width(t)..]|);
      } else {
        ShortestAfterOne(s, t);
      }
    }
  }

  lemma RestIsWellPaired(t: Text)
    requires WellPaired(t) && t != [] && !StartsWithPair(t) && Width(t) <= |t|
    requires t[0] == BACKSLASH ==> forall i :: 0 <= i < Width(t) ==> t[i] < 0xD800
    ensures WellPaired(t[Width(t)..])
  {
    if t[0] == BACKSLASH { PlainStart(t, Width(t)); }
  }

  lemma {:induction false} PlainSmallHex(e: Text, rest: Text)
    requires SmallHex(rest)
    requires || (|e| == 1 && e[0] != BACKSLASH) || (|e| == 2 && e[0] == BACKSLASH && e[1] != 117)
             || (|e| == 2 && e[0] != BACKSLASH && e[1] != BACKSLASH)
             || (|e| == 6 && e[0] == BACKSLASH && e[1] == 117 && forall i :: 2 <= i < 6 ==> !(65 <= e[i] <= 70))
    ensures SmallHex(e + rest)
  {
    var t := e + rest;
    assert t[|e|..] == rest;
    if |e| == 2 && e[0] != BACKSLASH { assert t[1..][1..] == rest; }
  }

  lemma {:induction false} EscapeIsSmallHex(s: Text)
    ensures SmallHex(Escape(s))
  {
    if s == [] {
    } else if StartsWithPair(s) {
      EscapeIsSmallHex(s[2..]);
      PlainSmallHex(s[..2], Escape(s[2..]));
    } else {
      EscapeIsSmallHex(s[1..]);
      PlainSmallHex(EscapeUnit(s[0]), Escape(s[1..]));
    }
  }

  /** The printed text is one of them. */
  lemma EscapeIsAmongThem(s: Text)
    ensures WellPaired(Escape(s)) && Reads(Escape(s), s) && SmallHex(Escape(s))
  {
    EscapeIsWellPaired(s);
    EscapeIsSmallHex(s);
    ParseOfEscape(s, []);
    assert Escape(s) + [QUOTE] + [] == Escape(s) + [QUOTE];
  }

  /** A well-paired string that needs no escape is printed as it is, a slash included. */
  lemma NothingToEscape(s: Text)
    requires WellPaired(s) && forall i :: 0 <= i < |s| ==> s[i] != QUOTE && s[i] != BACKSLASH && s[i] >= 32
    ensures Escape(s) == s
  {
    ReadsItself(s);
    EscapeIsTheShortest(s, s);
    EscapeIsNoShorter(s);
    PlainIsSmallHex(s);
  }

  lemma {:induction false} ReadsItself(s: Text)
    requires forall i :: 0 <= i < |s| ==> s[i] != QUOTE && s[i] != BACKSLASH && s[i] >= 32
    ensures Reads(s, s)
  {
    if s == [] {
      assert s + [QUOTE] == [QUOTE];
    } else {
      ReadsItself(s[1..]);
      assert (s + [QUOTE])[1..] == s[1..] + [QUOTE];
      assert s == [s[0]] + s[1..];
    }
  }

  lemma {:induction false} EscapeIsNoShorter(s: Text)
    ensures |s| <= |Escape(s)|
  {
    if s != [] { EscapeIsNoShorter(if StartsWithPair(s) then s[2..] else s[1..]); }
  }

  lemma {:induction false} PlainIsSmallHex(s: Text)
    requires forall i :: 0 <= i < |s| ==> s[i] != BACKSLASH
    ensures SmallHex(s)
  {
    if s != [] { PlainIsSmallHex(s[1..]); }
  }

  // ---------------------------------------------------------------------------------------------------------
  // Numbers and punctuation
  // ---------------------------------------------------------------------------------------------------------

  /** The code units of plain text. */
  function Units(s: string): Text
    requires forall i :: 0 <= i < |s| ==> s[i] < 128 as char
  {
    seq(|s|, i requires 0 <= i < |s| => s[i] as int)
  }

  lemma {:induction false} DigitsArePrinted(t: Text, sofar: nat, n: int)
    requires sofar > 0 && ParseDigits(t, sofar) == Done(n, [])
    ensures n >= 0 && PrintNat(n) == PrintNat(sofar) + t
    decreases |t|
  {
    if t == [] {
      assert PrintNat(sofar) + t == PrintNat(sofar);
    } else {
      var next := 10 * sofar + (t[0] - 48);
      DigitsArePrinted(t[1..], next, n);
      assert next / 10 == sofar && next % 10 == t[0] - 48;
      assert PrintNat(next) == PrintNat(sofar) + [t[0]];
      assert PrintNat(sofar) + [t[0]] + t[1..] == PrintNat(sofar) + t;
    }
  }

  lemma NaturalIsPrinted(t: Text, n: int)
    requires ParseNat(t) == Done(n, [])
    ensures n >= 0 && t == PrintNat(n)
  {
    if t[0] == 48 {
      assert t == [48];
    } else {
      DigitsArePrinted(t[1..], t[0] - 48, n);
      assert t == [t[0]] + t[1..];
    }
  }

  /** An integer has one text; only zero could be given a sign, and is printed without. */
  lemma IntegerIsPrinted(t: Text, n: int)
    requires ParseInt(t) == Done(n, [])
    ensures t == PrintInt(n) || (n == 0 && t == Units("-0"))
    ensures PrintInt(0) == Units("0")
  {
    if t != [] && t[0] == MINUS {
      NaturalIsPrinted(t[1..], -n);
      assert t == [MINUS] + t[1..];
    } else {
      NaturalIsPrinted(t, n);
    }
  }

  /** The words and the punctuation of the format. */
  lemma Spelling()
    ensures Canon(Null) == Units("null") && Canon(Bool(true)) == Units("true") && Canon(Bool(false)) == Units("false")
    ensures Canon(Arr([])) == Units("[]") && Canon(Obj([])) == Units("{}") && Canon(Str([])) == Units("\"\"")
    ensures [LEFT_BRACKET, COMMA, RIGHT_BRACKET] == Units("[,]")
    ensures [LEFT_BRACE, COLON, RIGHT_BRACE, QUOTE, BACKSLASH, MINUS] == Units("{:}\"\\-")
  {
    assert Keys([]) == [];
  }

  /** A digest carries the name of its hash. */
  lemma DigestIsTagged(hash: Hash, v: Json)
    ensures Digest(hash, v) == Units("sha256:") + hash(Encode(Canon(v)))
  {
  }
}
