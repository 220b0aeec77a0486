/**
 UTF-16 text as the program handles it: a JavaScript string is a sequence of 16-bit code units, and both the
 relational operators on strings and the default `Array.prototype.sort` compare those code units.
 */
module CodeUnits {

  type CodeUnit = u: int | 0 <= u < 0x1_0000

  type Text = seq<CodeUnit>

  /** The code-unit order of JavaScript strings. */
  predicate Less(a: Text, b: Text) {
    && b != []
    && (a == [] || a[0] < b[0] || (a[0] == b[0] && Less(a[1..], b[1..])))
  }

  /** A proper prefix comes first, and otherwise the first code unit that differs decides. */
  lemma {:induction false} LessTells(a: Text, b: Text) returns (i: nat)
    ensures i <= |a| && i <= |b| && a[..i] == b[..i] && (i < |a| && i < |b| ==> a[i] != b[i])
    ensures i == |a| || i == |b| || a[i] != b[i]
    ensures Less(a, b) <==> i < |b| && (i == |a| || a[i] < b[i])
  {
    if a == [] || b == [] || a[0] != b[0] {
      i := 0;
    } else {
      i := LessTells(a[1..], b[1..]);
      assert a == [a[0]] + a[1..] && b == [b[0]] + b[1..];
      i := i + 1;
    }
  }

  lemma {:induction false} LessTransitive(a: Text, b: Text, c: Text)
    requires Less(a, b) && Less(b, c)
    ensures Less(a, c)
  {
    if a != [] && a[0] == b[0] && b[0] == c[0] {
      LessTransitive(a[1..], b[1..], c[1..]);
    }
  }

  lemma {:induction false} LessTrichotomy(a: Text, b: Text)
    ensures Less(a, b) || a == b || Less(b, a)
    ensures !(Less(a, b) && Less(b, a))
    ensures Less(a, b) ==> a != b
  {
    if a != [] && b != [] && a[0] == b[0] {
      LessTrichotomy(a[1..], b[1..]);
      assert a == [a[0]] + a[1..] && b == [b[0]] + b[1..];
    }
  }

  ghost predicate Distinct<T>(ts: seq<T>) {
    forall i, j :: 0 <= i < j < |ts| ==> ts[i] != ts[j]
  }

  ghost predicate Ascending(ts: seq<Text>) {
    forall i, j :: 0 <= i < j < |ts| ==> Less(ts[i], ts[j])
  }

  function Elements<T(==)>(ts: seq<T>): set<T> {
    set t | t in ts
  }

  function Insert(t: Text, ts: seq<Text>): (r: seq<Text>)
    ensures multiset(r) == multiset(ts) + multiset{t}
  {
    if ts == [] || Less(t, ts[0]) then [t] + ts
    else
      assert ts == [ts[0]] + ts[1..];
      [ts[0]] + Insert(t, ts[1..])
  }

  /** `Array.prototype.sort` without a comparator. */
  function Sort(ts: seq<Text>): (r: seq<Text>)
    ensures multiset(r) == multiset(ts)
  {
    if ts == [] then []
    else
      assert ts == [ts[0]] + ts[1..];
      Insert(ts[0], Sort(ts[1..]))
  }

  lemma SortElements(ts: seq<Text>)
    ensures |Sort(ts)| == |ts| && Elements(Sort(ts)) == Elements(ts)
  {
    var r := Sort(ts);
    assert multiset(r) == multiset(ts);
    assert |r| == |multiset(r)| == |multiset(ts)|;
    forall t ensures t in r <==> t in ts {
      assert t in r <==> t in multiset(r);
      assert t in ts <==> t in multiset(ts);
    }
  }

  lemma {:induction false} InsertAscending(t: Text, ts: seq<Text>)
    requires Ascending(ts) && t !in ts
    ensures Ascending(Insert(t, ts))
  {
    if ts != [] {
      if Less(t, ts[0]) {
        forall j | 0 <= j < |ts| ensures Less(t, ts[j]) {
          if j > 0 { LessTransitive(t, ts[0], ts[j]); }
        }
      } else {
        LessTrichotomy(t, ts[0]);
        InsertAscending(t, ts[1..]);
        var rest := Insert(t, ts[1..]);
        forall j | 0 <= j < |rest| ensures Less(ts[0], rest[j]) {
          assert rest[j] in multiset(rest);
          if rest[j] != t {
            assert rest[j] in multiset(ts[1..]);
            assert rest[j] in ts[1..];
          }
        }
      }
    }
  }

  lemma {:induction false} SortAscending(ts: seq<Text>)
    requires Distinct(ts)
    ensures Ascending(Sort(ts))
  {
    if ts != [] {
      SortAscending(ts[1..]);
      SortElements(ts[1..]);
      assert ts[0] !in Elements(ts[1..]);
      assert ts[0] !in Sort(ts[1..]);
      InsertAscending(ts[0], Sort(ts[1..]));
    }
  }

  lemma AscendingDistinct(ts: seq<Text>)
    requires Ascending(ts)
    ensures Distinct(ts)
  {
    forall i, j | 0 <= i < j < |ts| ensures ts[i] != ts[j] {
      LessTrichotomy(ts[i], ts[j]);
    }
  }

  /** A set of texts has one ascending enumeration, so sorting forgets the order it was given. */
  lemma {:induction false} AscendingUnique(a: seq<Text>, b: seq<Text>)
    requires Ascending(a) && Ascending(b)
    requires Elements(a) == Elements(b)
    ensures a == b
  {
    assert a != [] ==> a[0] in Elements(a);
    assert b != [] ==> b[0] in Elements(b);
    if a != [] && b != [] {
      assert a[0] in Elements(b) && b[0] in Elements(a);
      LessTrichotomy(a[0], b[0]);
      assert a[0] == b[0];
      AscendingDistinct(a);
      AscendingDistinct(b);
      forall t ensures t in a[1..] <==> t in b[1..] {
        assert t in a <==> t in b by { assert t in Elements(a) <==> t in Elements(b); }
        assert a == [a[0]] + a[1..] && b == [b[0]] + b[1..];
      }
      assert Elements(a[1..]) == Elements(b[1..]);
      AscendingUnique(a[1..], b[1..]);
      assert a == [a[0]] + a[1..] && b == [b[0]] + b[1..];
    }
  }

  // Trimming -------------------------------------------------------------------------------------------------

  /** White space and line terminators, as `String.prototype.trim` takes them. */
  predicate IsSpace(u: CodeUnit) {
    9 <= u <= 13 || u == 32 || u == 0xA0 || u == 0x1680 || 0x2000 <= u <= 0x200A || u == 0x2028 || u == 0x2029
    || u == 0x202F || u == 0x205F || u == 0x3000 || u == 0xFEFF
  }

  function TrimStart(t: Text): Text {
    if t != [] && IsSpace(t[0]) then TrimStart(t[1..]) else t
  }

  function TrimEnd(t: Text): Text {
    if t != [] && IsSpace(t[|t| - 1]) then TrimEnd(t[..|t| - 1]) else t
  }

  /** `String.prototype.trim` */
  function Trim(t: Text): Text {
    TrimEnd(TrimStart(t))
  }

  lemma {:induction false} TrimStartStops(t: Text)
    ensures TrimStart(t) == [] || !IsSpace(TrimStart(t)[0])
  {
    if t != [] && IsSpace(t[0]) { TrimStartStops(t[1..]); }
  }

  lemma {:induction false} TrimEndStops(t: Text)
    ensures TrimEnd(t) <= t
    ensures TrimEnd(t) == [] || !IsSpace(TrimEnd(t)[|TrimEnd(t)| - 1])
    ensures t != [] && !IsSpace(t[0]) ==> TrimEnd(t) != []
  {
    if t != [] && IsSpace(t[|t| - 1]) { TrimEndStops(t[..|t| - 1]); }
  }

  lemma TrimIsIdempotent(t: Text)
    ensures Trim(Trim(t)) == Trim(t)
  {
    TrimStartStops(t);
    TrimEndStops(TrimStart(t));
  }
}
