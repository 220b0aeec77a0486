/**
 Which directories the migration runner accepts: the file names it considers, the numbers it reads from them, and the
 check that they count up from one.
 */
module MigrationNames {
  import opened Options

  datatype Error =
    | InvalidFilename(name: string) | NonContiguous(expected: nat) | BaselineMissing
    | UnknownApplied(name: string) | SequenceChanged(name: string)
    | ChecksumMissing(name: string) | ChecksumChanged(name: string)
    | CompactionNotReady | Interrupted

  datatype Outcome<+T> = Ok(value: T) | Fail(error: Error)

  // ---------------------------------------------------------------------------------------------------------
  // The directory
  // ---------------------------------------------------------------------------------------------------------

  datatype Numbered = Numbered(name: string, sequence: nat)

  predicate EndsWith(s: string, suffix: string) {
    |suffix| <= |s| && s[|s| - |suffix|..] == suffix
  }

  predicate IsCandidate(entry: string) {
    !("._" <= entry) && EndsWith(entry, ".sql")
  }

  function Candidates(entries: seq<string>): seq<string> {
    if entries == [] then []
    else (if IsCandidate(entries[0]) then [entries[0]] else []) + Candidates(entries[1..])
  }

  predicate IsDigit(c: char) {
    '0' <= c <= '9'
  }

  predicate IsSlug(c: char) {
    'a' <= c <= 'z' || IsDigit(c) || c == '_'
  }

  /** Three digits, an underscore, a non-empty slug and the extension. */
  predicate Matches(name: string) {
    && |name| >= 9
    && IsDigit(name[0]) && IsDigit(name[1]) && IsDigit(name[2]) && name[3] == '_'
    && (forall i :: 4 <= i < |name| - 4 ==> IsSlug(name[i]))
    && EndsWith(name, ".sql")
  }

  function Digit(c: char): nat
    requires IsDigit(c)
  {
    c as int - '0' as int
  }

  function SequenceOf(name: string): nat {
    if Matches(name) then 100 * Digit(name[0]) + 10 * Digit(name[1]) + Digit(name[2]) else 0
  }

  function FirstInvalid(names: seq<string>): Option<string> {
    if names == [] then None
    else if Matches(names[0]) then FirstInvalid(names[1..])
    else Some(names[0])
  }

  function Numbering(names: seq<string>): (r: seq<Numbered>)
    ensures |r| == |names| && forall i :: 0 <= i < |r| ==> r[i] == Numbered(names[i], SequenceOf(names[i]))
  {
    if names == [] then [] else [Numbered(names[0], SequenceOf(names[0]))] + Numbering(names[1..])
  }

  function InsertBySequence(n: Numbered, ns: seq<Numbered>): (r: seq<Numbered>)
    ensures multiset(r) == multiset(ns) + multiset{n}
  {
    if ns == [] || n.sequence <= ns[0].sequence then [n] + ns
    else
      assert ns == [ns[0]] + ns[1..];
      [ns[0]] + InsertBySequence(n, ns[1..])
  }

  function SortBySequence(ns: seq<Numbered>): (r: seq<Numbered>)
    ensures multiset(r) == multiset(ns)
  {
    if ns == [] then []
    else
      assert ns == [ns[0]] + ns[1..];
      InsertBySequence(ns[0], SortBySequence(ns[1..]))
  }

  /** The first place k whose sequence number is not k + 1. */
  function FirstMisplaced(ns: seq<Numbered>, k: nat): (r: Option<nat>)
    requires k <= |ns|
    ensures r.None? ==> forall i :: k <= i < |ns| ==> ns[i].sequence == i + 1
    ensures r.Some? ==> k <= r.value < |ns| && ns[r.value].sequence != r.value + 1
    ensures r.Some? ==> forall i :: k <= i < r.value ==> ns[i].sequence == i + 1
    decreases |ns| - k
  {
    if k == |ns| then None else if ns[k].sequence != k + 1 then Some(k) else FirstMisplaced(ns, k + 1)
  }

  function ValidatedNames(entries: seq<string>): Outcome<seq<Numbered>> {
    var names := Candidates(entries);
    match FirstInvalid(names)
    case Some(name) => Fail(InvalidFilename(name))
    case None =>
      var sorted := SortBySequence(Numbering(names));
      match FirstMisplaced(sorted, 0)
      case Some(k) => Fail(NonContiguous(k + 1))
      case None => Ok(sorted)
  }

  lemma {:induction false} InvalidAt(names: seq<string>, k: nat)
    requires k < |names| && !Matches(names[k]) && forall i :: 0 <= i < k ==> Matches(names[i])
    ensures FirstInvalid(names) == Some(names[k])
  {
    if k > 0 { InvalidAt(names[1..], k - 1); }
  }

  lemma {:induction false} AllValid(names: seq<string>)
    ensures FirstInvalid(names).None? <==> forall i :: 0 <= i < |names| ==> Matches(names[i])
  {
    if names != [] {
      AllValid(names[1..]);
      assert forall i :: 0 < i < |names| ==> names[i] == names[1..][i - 1];
      assert forall i :: 0 <= i < |names| - 1 ==> names[1..][i] == names[i + 1];
    }
  }

  method ParseNames(names: seq<string>) returns (r: Outcome<seq<Numbered>>)
    ensures r == match FirstInvalid(names) case Some(n) => Fail(InvalidFilename(n)) case None => Ok(Numbering(names))
  {
    var parsed: seq<Numbered> := [];
    for i := 0 to |names|
      invariant |parsed| == i && forall j :: 0 <= j < i ==> Matches(names[j])
      invariant forall j :: 0 <= j < i ==> parsed[j] == Numbered(names[j], SequenceOf(names[j]))
    {
      if !Matches(names[i]) {
        InvalidAt(names, i);
        return Fail(InvalidFilename(names[i]));
      }
      parsed := parsed + [Numbered(names[i], SequenceOf(names[i]))];
    }
    AllValid(names);
    assert parsed == Numbering(names);
    return Ok(parsed);
  }

  /** `validateMigrationNames` */
  method ValidateMigrationNames(entries: seq<string>) returns (r: Outcome<seq<Numbered>>)
    ensures r == ValidatedNames(entries)
  {
    r := ParseNames(Candidates(entries));
    if r.Fail? { return; }
    var sorted := SortBySequence(r.value);
    for index := 0 to |sorted|
      invariant FirstMisplaced(sorted, 0) == FirstMisplaced(sorted, index)
    {
      var expected := index + 1;
      if sorted[index].sequence != expected { return Fail(NonContiguous(expected)); }
    }
    return Ok(sorted);
  }

  /** Why a directory is refused: its first ill-named candidate, or the first place that the numbers leave wrong. */
  lemma RejectionTells(entries: seq<string>)
    requires ValidatedNames(entries).Fail?
    ensures var names, sorted := Candidates(entries), SortBySequence(Numbering(Candidates(entries)));
            match ValidatedNames(entries).error
            case InvalidFilename(name) =>
              exists k :: 0 <= k < |names| && names[k] == name && !Matches(name) && forall i :: 0 <= i < k ==> Matches(names[i])
            case NonContiguous(k) =>
              && (forall i :: 0 <= i < |names| ==> Matches(names[i]))
              && 1 <= k <= |sorted| && sorted[k - 1].sequence != k
              && forall i :: 0 <= i < k - 1 ==> sorted[i].sequence == i + 1
            case _ => false
  {
    AllValid(Candidates(entries));
    FirstInvalidIsFirst(Candidates(entries));
  }

  lemma {:induction false} FirstInvalidIsFirst(names: seq<string>)
    ensures FirstInvalid(names).Some? ==>
              exists k :: 0 <= k < |names| && names[k] == FirstInvalid(names).value && !Matches(names[k])
                          && forall i :: 0 <= i < k ==> Matches(names[i])
  {
    if names != [] && Matches(names[0]) && FirstInvalid(names).Some? {
      FirstInvalidIsFirst(names[1..]);
      var k :| 0 <= k < |names[1..]| && names[1..][k] == FirstInvalid(names).value && !Matches(names[1..][k])
               && forall i :: 0 <= i < k ==> Matches(names[1..][i]);
      assert names[k + 1] == names[1..][k];
      forall i | 0 <= i < k + 1 ensures Matches(names[i]) { assert i > 0 ==> names[i] == names[1..][i - 1]; }
    }
  }

  // What a name says --------------------------------------------------------------------------------------------

  function DigitChar(d: nat): char
    requires d < 10
  {
    ('0' as int + d) as char
  }

  /** The three digits of a number and an underscore. */
  function Prefix(n: nat): string
    requires n < 1000
  {
    [DigitChar(n / 100), DigitChar(n / 10 % 10), DigitChar(n % 10), '_']
  }

  /** The name of migration n: three digits, an underscore, a slug, the extension. */
  function NameOf(n: nat, slug: string): string
    requires n < 1000
  {
    Prefix(n) + slug + EXTENSION
  }

  const EXTENSION := ".sql"

  ghost predicate IsSlugText(slug: string) {
    slug != "" && forall i :: 0 <= i < |slug| ==> 'a' <= slug[i] <= 'z' || '0' <= slug[i] <= '9' || slug[i] == '_'
  }

  lemma PartsOfName(prefix: string, slug: string, extension: string)
    requires |prefix| == 4 && |extension| == 4
    ensures var name := prefix + slug + extension;
            && |name| == |slug| + 8 && name[..4] == prefix && name[4..|name| - 4] == slug && EndsWith(name, extension)
            && (forall i :: 0 <= i < 4 ==> name[i] == prefix[i])
            && (forall i :: 4 <= i < |name| - 4 ==> name[i] == slug[i - 4])
  {
    var name := prefix + slug + extension;
    assert name[|name| - 4..] == extension;
  }

  lemma DigitReadsBack(d: nat)
    requires d < 10
    ensures IsDigit(DigitChar(d)) && Digit(DigitChar(d)) == d
  {
  }

  lemma DigitsSum(n: nat)
    requires n < 1000
    ensures n == 100 * (n / 100) + 10 * (n / 10 % 10) + n % 10
  {
    assert n / 10 == 10 * (n / 100) + n / 10 % 10;
  }

  /** The check accepts the name of every numbered migration, and reads its number. */
  lemma NumberedNameReadsBack(n: nat, slug: string)
    requires n < 1000 && IsSlugText(slug)
    ensures IsCandidate(NameOf(n, slug)) && Matches(NameOf(n, slug)) && SequenceOf(NameOf(n, slug)) == n
  {
    var name := NameOf(n, slug);
    PartsOfName(Prefix(n), slug, EXTENSION);
    DigitReadsBack(n / 100);
    DigitReadsBack(n / 10 % 10);
    DigitReadsBack(n % 10);
    DigitsSum(n);
    SlugMatches(name, slug);
  }

  lemma SlugMatches(name: string, slug: string)
    requires |name| == |slug| + 8 && IsSlugText(slug) && EndsWith(name, ".sql")
    requires forall i :: 4 <= i < |name| - 4 ==> name[i] == slug[i - 4]
    requires IsDigit(name[0]) && IsDigit(name[1]) && IsDigit(name[2]) && name[3] == '_'
    ensures Matches(name) && IsCandidate(name)
  {
  }

  lemma DigitsOf(a: nat, b: nat, c: nat)
    requires a < 10 && b < 10 && c < 10
    ensures var n := 100 * a + 10 * b + c; n < 1000 && n / 100 == a && n / 10 % 10 == b && n % 10 == c
  {
    assert (100 * a + 10 * b + c) / 10 == 10 * a + b;
  }

  lemma CutName(name: string)
    requires |name| >= 9
    ensures name == name[..4] + name[4..|name| - 4] + name[|name| - 4..]
  {
  }

  /** And it accepts nothing else. */
  lemma AcceptedNameIsNumbered(name: string) returns (slug: string)
    requires Matches(name)
    ensures IsSlugText(slug) && SequenceOf(name) < 1000 && name == NameOf(SequenceOf(name), slug)
  {
    slug := name[4..|name| - 4];
    DigitsOf(Digit(name[0]), Digit(name[1]), Digit(name[2]));
    CutName(name);
    assert name[..4] == Prefix(SequenceOf(name));
  }

  // What an accepted directory is, without the sort -----------------------------------------------------------

  lemma {:induction false} CandidatesAre(entries: seq<string>, e: string)
    ensures multiset(Candidates(entries))[e] == if IsCandidate(e) then multiset(entries)[e] else 0
  {
    if entries != [] {
      CandidatesAre(entries[1..], e);
      assert entries == [entries[0]] + entries[1..];
    }
  }

  ghost predicate InSequence(ns: seq<Numbered>) {
    forall i, j :: 0 <= i < j < |ns| ==> ns[i].sequence <= ns[j].sequence
  }

  lemma {:induction false} InsertKeepsSequence(n: Numbered, ns: seq<Numbered>)
    requires InSequence(ns)
    ensures InSequence(InsertBySequence(n, ns))
  {
    if ns != [] && n.sequence > ns[0].sequence {
      InsertKeepsSequence(n, ns[1..]);
      var rest := InsertBySequence(n, ns[1..]);
      forall j | 0 <= j < |rest| ensures ns[0].sequence <= rest[j].sequence {
        assert rest[j] in multiset(rest);
        if rest[j] != n { assert rest[j] in multiset(ns[1..]); }
      }
    }
  }

  lemma {:induction false} SortIsInSequence(ns: seq<Numbered>)
    ensures InSequence(SortBySequence(ns))
  {
    if ns != [] {
      SortIsInSequence(ns[1..]);
      InsertKeepsSequence(ns[0], SortBySequence(ns[1..]));
    }
  }

  lemma {:induction false} NumberingBag(names: seq<string>, n: Numbered)
    ensures multiset(Numbering(names))[n] == if n == Numbered(n.name, SequenceOf(n.name)) then multiset(names)[n.name] else 0
  {
    if names != [] {
      NumberingBag(names[1..], n);
      assert names == [names[0]] + names[1..];
    }
  }

  function Sequences(ns: seq<Numbered>): (r: seq<nat>)
    ensures |r| == |ns| && forall i :: 0 <= i < |r| ==> r[i] == ns[i].sequence
  {
    seq(|ns|, i requires 0 <= i < |ns| => ns[i].sequence)
  }

  lemma SequencesOfParts(a: seq<Numbered>, n: Numbered, b: seq<Numbered>)
    ensures multiset(Sequences(a + [n] + b)) == multiset(Sequences(a + b)) + multiset{n.sequence}
  {
    assert Sequences(a + [n] + b) == Sequences(a) + [n.sequence] + Sequences(b);
    assert Sequences(a + b) == Sequences(a) + Sequences(b);
  }

  lemma Extract<T>(b: seq<T>, x: T) returns (before: seq<T>, after: seq<T>)
    requires x in multiset(b)
    ensures b == before + [x] + after
    ensures multiset(before + after) == multiset(b) - multiset{x}
  {
    var j :| 0 <= j < |b| && b[j] == x;
    before, after := b[..j], b[j + 1..];
    assert b == before + [x] + after;
  }

  lemma Behead<T>(a: seq<T>)
    requires a != []
    ensures a == [a[0]] + a[1..] && multiset(a[1..]) == multiset(a) - multiset{a[0]}
  {
    assert a == [a[0]] + a[1..];
  }

  lemma SequencesOfCons(n: Numbered, ns: seq<Numbered>)
    ensures multiset(Sequences([n] + ns)) == multiset(Sequences(ns)) + multiset{n.sequence}
  {
    assert Sequences([n] + ns) == [n.sequence] + Sequences(ns);
  }

  lemma {:induction false} SameBagSameSequences(a: seq<Numbered>, b: seq<Numbered>)
    requires multiset(a) == multiset(b)
    ensures multiset(Sequences(a)) == multiset(Sequences(b))
  {
    if a == [] {
      assert |multiset(b)| == 0;
      assert b == [];
    } else {
      assert a[0] in multiset(a);
      var before, after := Extract(b, a[0]);
      Behead(a);
      SameBagSameSequences(a[1..], before + after);
      SequencesOfCons(a[0], a[1..]);
      SequencesOfParts(before, a[0], after);
    }
  }

  ghost predicate NonDecreasing(ks: seq<nat>) {
    forall i, j :: 0 <= i < j < |ks| ==> ks[i] <= ks[j]
  }

  lemma FirstIsSmallest(a: seq<nat>, k: nat)
    requires NonDecreasing(a) && k in multiset(a)
    ensures a[0] <= k
  {
    var j :| 0 <= j < |a| && a[j] == k;
  }

  lemma TailNonDecreasing(a: seq<nat>)
    requires NonDecreasing(a) && a != []
    ensures NonDecreasing(a[1..])
  {
    assert forall i :: 0 <= i < |a| - 1 ==> a[1..][i] == a[i + 1];
  }

  lemma SameBagSameLength<T>(a: seq<T>, b: seq<T>)
    requires multiset(a) == multiset(b)
    ensures |a| == |b|
  {
    assert |a| == |multiset(a)| == |multiset(b)| == |b|;
  }

  lemma SameSmallest(a: seq<nat>, b: seq<nat>)
    requires NonDecreasing(a) && NonDecreasing(b) && multiset(a) == multiset(b) && a != []
    ensures b != [] && a[0] == b[0]
  {
    SameBagSameLength(a, b);
    assert a[0] in multiset(a) && b[0] in multiset(b);
    FirstIsSmallest(b, a[0]);
    FirstIsSmallest(a, b[0]);
  }

  lemma {:induction false} NonDecreasingIsUnique(a: seq<nat>, b: seq<nat>)
    requires NonDecreasing(a) && NonDecreasing(b) && multiset(a) == multiset(b)
    ensures a == b
  {
    SameBagSameLength(a, b);
    if a != [] {
      SameSmallest(a, b);
      Behead(a);
      Behead(b);
      TailNonDecreasing(a);
      TailNonDecreasing(b);
      NonDecreasingIsUnique(a[1..], b[1..]);
    }
  }

  lemma SortedSequencesAgree(a: seq<Numbered>, b: seq<Numbered>)
    requires InSequence(a) && InSequence(b) && multiset(a) == multiset(b)
    ensures Sequences(a) == Sequences(b)
  {
    SameBagSameSequences(a, b);
    NonDecreasingIsUnique(Sequences(a), Sequences(b));
  }

  lemma {:induction false} FirstMisplacedDependsOnSequences(a: seq<Numbered>, b: seq<Numbered>, k: nat)
    requires Sequences(a) == Sequences(b) && k <= |a| == |b|
    ensures FirstMisplaced(a, k) == FirstMisplaced(b, k)
    decreases |a| - k
  {
    if k < |a| {
      assert Sequences(a)[k] == Sequences(b)[k];
      FirstMisplacedDependsOnSequences(a, b, k + 1);
    }
  }

  /** With every number in its place, the bag leaves only one list. */
  lemma PlacedIsUnique(a: seq<Numbered>, b: seq<Numbered>)
    requires multiset(a) == multiset(b) && |a| == |b|
    requires forall i :: 0 <= i < |a| ==> a[i].sequence == i + 1 && b[i].sequence == i + 1
    ensures a == b
  {
    forall i | 0 <= i < |a| ensures a[i] == b[i] {
      assert a[i] in multiset(b);
      var j :| 0 <= j < |b| && b[j] == a[i];
      assert j + 1 == i + 1;
    }
  }

  lemma SameBagSamePlaces(a: seq<Numbered>, b: seq<Numbered>)
    requires InSequence(a) && InSequence(b) && multiset(a) == multiset(b)
    ensures FirstMisplaced(a, 0) == FirstMisplaced(b, 0)
    ensures FirstMisplaced(a, 0).None? ==> a == b
  {
    SortedSequencesAgree(a, b);
    assert |a| == |Sequences(a)| == |Sequences(b)| == |b|;
    FirstMisplacedDependsOnSequences(a, b, 0);
    if FirstMisplaced(a, 0).None? { PlacedIsUnique(a, b); }
  }

  lemma SameCandidates(entries: seq<string>, listed: seq<string>)
    requires multiset(entries) == multiset(listed)
    ensures multiset(Candidates(entries)) == multiset(Candidates(listed))
    ensures FirstInvalid(Candidates(entries)).None? <==> FirstInvalid(Candidates(listed)).None?
  {
    var a, b := Candidates(entries), Candidates(listed);
    forall e ensures multiset(a)[e] == multiset(b)[e] {
      CandidatesAre(entries, e);
      CandidatesAre(listed, e);
    }
    AllValid(a);
    AllValid(b);
    if FirstInvalid(a).None? { ValidEverywhere(a, b); }
    if FirstInvalid(b).None? { ValidEverywhere(b, a); }
  }

  lemma ValidEverywhere(a: seq<string>, b: seq<string>)
    requires multiset(a) == multiset(b) && forall i :: 0 <= i < |a| ==> Matches(a[i])
    ensures forall i :: 0 <= i < |b| ==> Matches(b[i])
  {
    forall i | 0 <= i < |b| ensures Matches(b[i]) {
      assert b[i] in multiset(a);
    }
  }

  lemma SameNumbering(a: seq<string>, b: seq<string>)
    requires multiset(a) == multiset(b)
    ensures multiset(Numbering(a)) == multiset(Numbering(b))
  {
    forall n ensures multiset(Numbering(a))[n] == multiset(Numbering(b))[n] {
      NumberingBag(a, n);
      NumberingBag(b, n);
    }
  }

  /** What `readdir` returns in which order does not matter: neither for acceptance nor for the result. */
  lemma DirectoryOrderIsIrrelevant(entries: seq<string>, listed: seq<string>)
    requires multiset(entries) == multiset(listed)
    ensures var (a, b) := (ValidatedNames(entries), ValidatedNames(listed));
            a == b || (a.Fail? && b.Fail? && a.error.InvalidFilename? && b.error.InvalidFilename?)
  {
    SameCandidates(entries, listed);
    var a, b := Numbering(Candidates(entries)), Numbering(Candidates(listed));
    SameNumbering(Candidates(entries), Candidates(listed));
    SortIsInSequence(a);
    SortIsInSequence(b);
    SameBagSamePlaces(SortBySequence(a), SortBySequence(b));
  }

  // Acceptance ------------------------------------------------------------------------------------------------

  ghost predicate DistinctSequences(ns: seq<Numbered>) {
    forall i, j :: 0 <= i < j < |ns| ==> ns[i].sequence != ns[j].sequence
  }

  /** The numbers are 1 to n, each once. */
  ghost predicate CountsUp(ns: seq<Numbered>) {
    DistinctSequences(ns) && forall i :: 0 <= i < |ns| ==> 1 <= ns[i].sequence <= |ns|
  }

  ghost predicate NumberedFromOne(names: seq<string>) {
    (forall i :: 0 <= i < |names| ==> Matches(names[i])) && CountsUp(Numbering(names))
  }

  ghost predicate OneEach(bag: multiset<Numbered>) {
    && (forall n :: n in bag ==> bag[n] == 1)
    && (forall a, b :: a in bag && b in bag && a.sequence == b.sequence ==> a == b)
  }

  lemma {:induction false} DistinctSequencesOneEach(ns: seq<Numbered>)
    requires DistinctSequences(ns)
    ensures OneEach(multiset(ns))
  {
    if ns != [] {
      DistinctSequencesOneEach(ns[1..]);
      assert ns == [ns[0]] + ns[1..];
      assert multiset(ns) == multiset{ns[0]} + multiset(ns[1..]);
      forall n | n in multiset(ns[1..]) ensures n.sequence != ns[0].sequence {
        var i :| 0 <= i < |ns[1..]| && ns[1..][i] == n;
        assert ns[i + 1] == n;
      }
    }
  }

  lemma OneEachDistinctSequences(ns: seq<Numbered>)
    requires OneEach(multiset(ns))
    ensures DistinctSequences(ns)
  {
    forall i, j | 0 <= i < j < |ns| ensures ns[i].sequence != ns[j].sequence {
      assert ns == ns[..j] + ns[j..];
      assert multiset(ns) == multiset(ns[..j]) + multiset(ns[j..]);
      assert ns[..j][i] == ns[i] && ns[i] in multiset(ns[..j]);
      assert ns[j..][0] == ns[j] && ns[j] in multiset(ns[j..]);
      assert multiset(ns)[ns[i]] == 1;
    }
  }

  lemma {:induction false} AtLeastItsPlace(ns: seq<Numbered>, i: nat)
    requires i < |ns| && InSequence(ns) && DistinctSequences(ns)
    requires forall j :: 0 <= j < |ns| ==> ns[j].sequence >= 1
    ensures ns[i].sequence >= i + 1
  {
    if i > 0 { AtLeastItsPlace(ns, i - 1); }
  }

  lemma {:induction false} AtMostItsPlace(ns: seq<Numbered>, i: nat)
    requires i < |ns| && InSequence(ns) && DistinctSequences(ns)
    requires forall j :: 0 <= j < |ns| ==> ns[j].sequence <= |ns|
    ensures ns[i].sequence <= i + 1
    decreases |ns| - i
  {
    if i + 1 < |ns| { AtMostItsPlace(ns, i + 1); }
  }

  /** In an accepted directory, place i holds the candidate numbered i + 1, and every candidate is there once. */
  ghost predicate ListsTheCandidates(entries: seq<string>, r: seq<Numbered>) {
    && (forall i :: 0 <= i < |r| ==> IsCandidate(r[i].name) && r[i].name in entries
                                     && SequenceOf(r[i].name) == r[i].sequence == i + 1)
    && (forall e :: e in entries && IsCandidate(e) ==> exists i :: 0 <= i < |r| && r[i].name == e)
  }

  lemma OneEachWhenPlaced(ns: seq<Numbered>)
    requires forall i :: 0 <= i < |ns| ==> ns[i].sequence == i + 1
    ensures OneEach(multiset(ns))
  {
    DistinctSequencesOneEach(ns);
  }

  lemma PlacedAreCandidates(entries: seq<string>)
    requires ValidatedNames(entries).Ok?
    ensures ListsTheCandidates(entries, ValidatedNames(entries).value)
  {
    var names := Candidates(entries);
    var r := ValidatedNames(entries).value;
    assert multiset(r) == multiset(Numbering(names));
    forall i | 0 <= i < |r|
      ensures IsCandidate(r[i].name) && r[i].name in entries && SequenceOf(r[i].name) == r[i].sequence
    {
      assert r[i] in multiset(Numbering(names));
      NumberingBag(names, r[i]);
      CandidatesAre(entries, r[i].name);
      assert r[i].name in multiset(entries);
    }
    forall e | e in entries && IsCandidate(e) ensures exists i :: 0 <= i < |r| && r[i].name == e {
      CandidatesAre(entries, e);
      assert e in multiset(entries);
      NumberingBag(names, Numbered(e, SequenceOf(e)));
      assert Numbered(e, SequenceOf(e)) in multiset(r);
      var i :| 0 <= i < |r| && r[i] == Numbered(e, SequenceOf(e));
    }
  }

  lemma PlacedIsInRange(ns: seq<Numbered>, placed: seq<Numbered>)
    requires multiset(ns) == multiset(placed) && forall i :: 0 <= i < |placed| ==> placed[i].sequence == i + 1
    ensures |ns| == |placed| && forall i :: 0 <= i < |ns| ==> 1 <= ns[i].sequence <= |ns|
  {
    assert |placed| == |multiset(placed)| == |multiset(ns)| == |ns|;
    forall i | 0 <= i < |ns| ensures 1 <= ns[i].sequence <= |ns| {
      assert ns[i] in multiset(placed);
      var k :| 0 <= k < |placed| && placed[k] == ns[i];
    }
  }

  lemma PlacedCountsUp(ns: seq<Numbered>, placed: seq<Numbered>)
    requires multiset(ns) == multiset(placed) && forall i :: 0 <= i < |placed| ==> placed[i].sequence == i + 1
    ensures CountsUp(ns)
  {
    OneEachWhenPlaced(placed);
    OneEachDistinctSequences(ns);
    PlacedIsInRange(ns, placed);
  }

  lemma AcceptedIsNumbered(entries: seq<string>)
    requires ValidatedNames(entries).Ok?
    ensures NumberedFromOne(Candidates(entries))
  {
    AllValid(Candidates(entries));
    PlacedCountsUp(Numbering(Candidates(entries)), ValidatedNames(entries).value);
  }

  lemma NothingMisplaced(ns: seq<Numbered>, sorted: seq<Numbered>)
    requires CountsUp(ns) && InSequence(sorted) && multiset(sorted) == multiset(ns)
    ensures FirstMisplaced(sorted, 0).None?
  {
    assert |sorted| == |multiset(sorted)| == |multiset(ns)| == |ns|;
    DistinctSequencesOneEach(ns);
    OneEachDistinctSequences(sorted);
    forall i | 0 <= i < |sorted| ensures 1 <= sorted[i].sequence <= |sorted| {
      assert sorted[i] in multiset(ns);
    }
    forall i | 0 <= i < |sorted| ensures sorted[i].sequence == i + 1 {
      AtLeastItsPlace(sorted, i);
      AtMostItsPlace(sorted, i);
    }
  }

  /** A directory is accepted exactly when its candidates are well named and numbered 1 to n. */
  lemma AcceptedExactlyWhenNumberedFromOne(entries: seq<string>)
    ensures ValidatedNames(entries).Ok? <==> NumberedFromOne(Candidates(entries))
    ensures ValidatedNames(entries).Ok? ==> ListsTheCandidates(entries, ValidatedNames(entries).value)
  {
    var names := Candidates(entries);
    if ValidatedNames(entries).Ok? {
      AcceptedIsNumbered(entries);
      PlacedAreCandidates(entries);
    }
    if NumberedFromOne(names) {
      AllValid(names);
      SortIsInSequence(Numbering(names));
      NothingMisplaced(Numbering(names), SortBySequence(Numbering(names)));
    }
  }
}
