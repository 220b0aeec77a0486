/**
 UTF-8 as the hash functions see a string: they hash its UTF-8 bytes, in which an unpaired surrogate is replaced. On
 text without unpaired surrogates nothing is lost.
 */
module Utf8 {
  import opened CodeUnits

  type Byte = b: int | 0 <= b < 256

  predicate IsHighSurrogate(u: CodeUnit) { 0xD800 <= u < 0xDC00 }

  predicate IsLowSurrogate(u: CodeUnit) { 0xDC00 <= u < 0xE000 }

  predicate StartsWithPair(s: Text) {
    |s| >= 2 && IsHighSurrogate(s[0]) && IsLowSurrogate(s[1])
  }

  /** No unpaired surrogate. */
  predicate WellPaired(t: Text) {
    if t == [] then true
    else if StartsWithPair(t) then WellPaired(t[2..])
    else !IsHighSurrogate(t[0]) && !IsLowSurrogate(t[0]) && WellPaired(t[1..])
  }

  function EncodePair(high: CodeUnit, low: CodeUnit): (bytes: seq<Byte>)
    requires IsHighSurrogate(high) && IsLowSurrogate(low)
    ensures |bytes| == 4 && bytes[0] >= 0xF0
  {
    var code := 0x1_0000 + (high - 0xD800) * 1024 + (low - 0xDC00);
    [0xF0 + code / 262144, 0x80 + code / 4096 % 64, 0x80 + code / 64 % 64, 0x80 + code % 64]
  }

  /** One code unit; a surrogate on its own becomes U+FFFD. */
  function EncodeUnit(u: CodeUnit): (bytes: seq<Byte>)
    ensures 1 <= |bytes| <= 3
    ensures |bytes| == 1 <==> bytes[0] < 0x80
    ensures |bytes| == 2 <==> 0xC0 <= bytes[0] < 0xE0
    ensures |bytes| == 3 <==> 0xE0 <= bytes[0] < 0xF0
  {
    if u < 0x80 then [u]
    else if u < 0x800 then [0xC0 + u / 64, 0x80 + u % 64]
    else if IsHighSurrogate(u) || IsLowSurrogate(u) then [0xEF, 0xBF, 0xBD]
    else [0xE0 + u / 4096, 0x80 + u / 64 % 64, 0x80 + u % 64]
  }

  function Encode(t: Text): seq<Byte> {
    if t == [] then []
    else if StartsWithPair(t) then EncodePair(t[0], t[1]) + Encode(t[2..])
    else EncodeUnit(t[0]) + Encode(t[1..])
  }

  /** What the first byte and its continuation bytes carry: six bits in each of the latter, the highest first. */
  function Carried(first: int, continuation: seq<int>): int {
    if continuation == [] then first
    else 64 * Carried(first, continuation[..|continuation| - 1]) + (continuation[|continuation| - 1] - 0x80)
  }

  ghost predicate Continues(bytes: seq<Byte>) {
    forall i :: 1 <= i < |bytes| ==> 0x80 <= bytes[i] < 0xC0
  }

  lemma CarriedTwo(first: int, a: int, b: int)
    ensures Carried(first, [a]) == 64 * first + (a - 0x80)
    ensures Carried(first, [a, b]) == 4096 * first + 64 * (a - 0x80) + (b - 0x80)
  {
    assert [a][..0] == [] && [a, b][..1] == [a];
  }

  lemma CarriedThree(first: int, a: int, b: int, c: int)
    ensures Carried(first, [a, b, c]) == 262144 * first + 4096 * (a - 0x80) + 64 * (b - 0x80) + (c - 0x80)
  {
    CarriedTwo(first, a, b);
    assert [a, b, c][..2] == [a, b];
  }

  /** The bytes of a code unit carry its bits, as section 3 of RFC 3629 lays them out. */
  lemma UnitBytesTell(u: CodeUnit)
    ensures var b := EncodeUnit(u);
            && Continues(b)
            && (u < 0x80 ==> |b| == 1 && b[0] == u)
            && (0x80 <= u < 0x800 ==> |b| == 2 && 0xC0 <= b[0] < 0xE0 && Carried(b[0] as int - 0xC0, b[1..]) == u)
            && (u >= 0x800 && !IsHighSurrogate(u) && !IsLowSurrogate(u) ==>
                  |b| == 3 && 0xE0 <= b[0] < 0xF0 && Carried(b[0] as int - 0xE0, b[1..]) == u)
            && (IsHighSurrogate(u) || IsLowSurrogate(u) ==> b == [0xEF, 0xBF, 0xBD])
  {
    var b := EncodeUnit(u);
    Quotients(u);
    if |b| == 2 {
      CarriedTwo(b[0] as int - 0xC0, b[1], 0);
      assert b[1..] == [b[1]];
    } else if |b| == 3 {
      CarriedTwo(b[0] as int - 0xE0, b[1], b[2]);
      assert b[1..] == [b[1], b[2]];
    }
  }

  /** And those of a pair the bits of its code point. */
  lemma PairBytesTell(high: CodeUnit, low: CodeUnit)
    requires IsHighSurrogate(high) && IsLowSurrogate(low)
    ensures var b := EncodePair(high, low);
            && Continues(b) && 0xF0 <= b[0] < 0xF8
            && Carried(b[0] as int - 0xF0, b[1..]) == 0x1_0000 + (high as int - 0xD800) * 1024 + (low as int - 0xDC00)
  {
    var b := EncodePair(high, low);
    Quotients(0x1_0000 + (high - 0xD800) * 1024 + (low - 0xDC00));
    CarriedThree(b[0] as int - 0xF0, b[1], b[2], b[3]);
    assert b[1..] == [b[1], b[2], b[3]];
  }

  lemma UnitFromBytes(u: CodeUnit, v: CodeUnit)
    requires !IsHighSurrogate(u) && !IsLowSurrogate(u) && !IsHighSurrogate(v) && !IsLowSurrogate(v)
    requires EncodeUnit(u) == EncodeUnit(v)
    ensures u == v
  {
    var a, b := EncodeUnit(u), EncodeUnit(v);
    assert forall i :: 0 <= i < |a| ==> a[i] == b[i];
    assert u == 64 * (u / 64) + u % 64 && v == 64 * (v / 64) + v % 64;
    assert u / 64 == 64 * (u / 4096) + u / 64 % 64 && v / 64 == 64 * (v / 4096) + v / 64 % 64;
  }

  lemma SameQuotientAndDigit(c: nat, d: nat)
    requires c / 64 == d / 64 && c % 64 == d % 64
    ensures c == d
  {
    assert c == 64 * (c / 64) + c % 64 && d == 64 * (d / 64) + d % 64;
  }

  lemma Quotients(c: nat)
    ensures c / 64 / 64 == c / 4096 && c / 4096 / 64 == c / 262144
  {
  }

  lemma CodeFromDigits(c: nat, d: nat)
    requires c / 262144 == d / 262144 && c / 4096 % 64 == d / 4096 % 64
    requires c / 64 % 64 == d / 64 % 64 && c % 64 == d % 64
    ensures c == d
  {
    Quotients(c);
    Quotients(d);
    SameQuotientAndDigit(c / 4096, d / 4096);
    SameQuotientAndDigit(c / 64, d / 64);
    SameQuotientAndDigit(c, d);
  }

  lemma PairFromBytes(high: CodeUnit, low: CodeUnit, high': CodeUnit, low': CodeUnit)
    requires IsHighSurrogate(high) && IsLowSurrogate(low) && IsHighSurrogate(high') && IsLowSurrogate(low')
    requires EncodePair(high, low) == EncodePair(high', low')
    ensures high == high' && low == low'
  {
    var a, b := EncodePair(high, low), EncodePair(high', low');
    assert a[0] == b[0] && a[1] == b[1] && a[2] == b[2] && a[3] == b[3];
    CodeFromDigits(0x1_0000 + (high - 0xD800) * 1024 + (low - 0xDC00), 0x1_0000 + (high' - 0xD800) * 1024 + (low' - 0xDC00));
  }

  lemma SplitConcat(a: seq<Byte>, x: seq<Byte>, b: seq<Byte>, y: seq<Byte>)
    requires |a| == |b| && a + x == b + y
    ensures a == b && x == y
  {
    assert a == (a + x)[..|a|] && b == (b + y)[..|b|];
    assert x == (a + x)[|a|..] && y == (b + y)[|b|..];
  }

  /** The bytes of the first code point, and the text after it. */
  function Head(t: Text): (seq<Byte>, Text)
    requires t != []
  {
    if StartsWithPair(t) then (EncodePair(t[0], t[1]), t[2..]) else (EncodeUnit(t[0]), t[1..])
  }

  lemma SameHeadLength(a: Text, b: Text)
    requires a != [] && b != [] && Encode(a) == Encode(b)
    ensures Head(a).0 == Head(b).0 && Encode(Head(a).1) == Encode(Head(b).1)
  {
    var (x, s) := Head(a);
    var (y, t) := Head(b);
    assert Encode(a) == x + Encode(s) && Encode(b) == y + Encode(t);
    assert x[0] == Encode(a)[0] == Encode(b)[0] == y[0];
    SplitConcat(x, Encode(s), y, Encode(t));
  }

  /** Well-paired texts with the same bytes are the same text. */
  lemma {:induction false} EncodeIsInjective(a: Text, b: Text)
    requires WellPaired(a) && WellPaired(b) && Encode(a) == Encode(b)
    ensures a == b
    decreases |a|
  {
    if a != [] && b != [] {
      SameHeadLength(a, b);
      var s, t := Head(a).1, Head(b).1;
      EncodeIsInjective(s, t);
      if StartsWithPair(a) {
        PairFromBytes(a[0], a[1], b[0], b[1]);
        assert a == [a[0], a[1]] + s && b == [b[0], b[1]] + t;
      } else {
        UnitFromBytes(a[0], b[0]);
        assert a == [a[0]] + s && b == [b[0]] + t;
      }
    }
  }
}
