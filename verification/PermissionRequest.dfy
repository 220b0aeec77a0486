/**
 A request to replace the managed-service permissions of a credential: how its scope names are normalised, when its
 entries contradict each other, and the difference from the grants that were live before.
 */
module PermissionRequests {
  import opened CodeUnits
  import opened Options

  // ---------------------------------------------------------------------------------------------------------
  // Scope names
  // ---------------------------------------------------------------------------------------------------------

  function TrimmedNonEmpty(names: seq<Text>): seq<Text> {
    if names == [] then []
    else (if Trim(names[0]) == [] then [] else [Trim(names[0])]) + TrimmedNonEmpty(names[1..])
  }

  /** The members of a `Set`, in insertion order. */
  function Dedupe(ts: seq<Text>): (r: seq<Text>)
    ensures Elements(r) == Elements(ts)
    ensures Distinct(r)
  {
    if ts == [] then []
    else
      var before, last := Dedupe(ts[..|ts| - 1]), ts[|ts| - 1];
      assert ts == ts[..|ts| - 1] + [last];
      assert Elements(ts) == Elements(ts[..|ts| - 1]) + {last};
      assert Elements(before + [last]) == Elements(before) + {last};
      assert last in before <==> last in Elements(before);
      if last in before then before else before + [last]
  }

  /** `normalizeScopeNames` */
  function NormalizeScopeNames(names: seq<Text>): seq<Text> {
    Sort(Dedupe(TrimmedNonEmpty(names)))
  }

  lemma {:induction false} TrimmedNonEmptyElements(names: seq<Text>, t: Text)
    ensures t in TrimmedNonEmpty(names) <==> t != [] && exists n :: n in names && Trim(n) == t
  {
    if names != [] {
      TrimmedNonEmptyElements(names[1..], t);
      assert forall n :: n in names <==> n == names[0] || n in names[1..];
    }
  }

  /** The normal form lists the trimmed, non-empty names in ascending order, each once. */
  lemma NormalForm(names: seq<Text>)
    ensures Ascending(NormalizeScopeNames(names))
    ensures forall t :: t in NormalizeScopeNames(names) <==> t != [] && exists n :: n in names && Trim(n) == t
  {
    var kept := Dedupe(TrimmedNonEmpty(names));
    SortAscending(kept);
    SortElements(kept);
    forall t ensures t in NormalizeScopeNames(names) <==> t != [] && exists n :: n in names && Trim(n) == t {
      TrimmedNonEmptyElements(names, t);
      assert t in NormalizeScopeNames(names) <==> t in Elements(Sort(kept));
      assert t in TrimmedNonEmpty(names) <==> t in Elements(kept);
    }
  }

  lemma SameMembersSameList(a: seq<Text>, b: seq<Text>)
    requires Ascending(a) && Ascending(b) && forall t :: t in a <==> t in b
    ensures a == b
  {
    assert Elements(a) == Elements(b);
    AscendingUnique(a, b);
  }

  /** The normal form depends on which names occur, not on their order, repetition or surrounding space. */
  lemma NormalFormForgetsOrder(a: seq<Text>, b: seq<Text>)
    requires forall n :: n in a ==> exists m :: m in b && Trim(m) == Trim(n)
    requires forall m :: m in b ==> exists n :: n in a && Trim(n) == Trim(m)
    ensures NormalizeScopeNames(a) == NormalizeScopeNames(b)
  {
    NormalForm(a);
    NormalForm(b);
    SameMembersSameList(NormalizeScopeNames(a), NormalizeScopeNames(b));
  }

  /** `sameStringSet`, which compares position by position. */
  predicate SameStringSet(left: seq<Text>, right: seq<Text>) {
    |left| == |right| && forall i :: 0 <= i < |left| ==> left[i] == right[i]
  }

  /** On normalised lists, position by position is set equality. */
  lemma SameStringSetIsSetEquality(left: seq<Text>, right: seq<Text>)
    requires Ascending(left) && Ascending(right)
    ensures SameStringSet(left, right) <==> Elements(left) == Elements(right)
  {
    if Elements(left) == Elements(right) {
      AscendingUnique(left, right);
    }
    if SameStringSet(left, right) {
      assert left == right;
    }
  }

  // ---------------------------------------------------------------------------------------------------------
  // The request
  // ---------------------------------------------------------------------------------------------------------

  datatype Input = Input(service: Text, scopeNames: seq<Text>)

  type ByService = map<Text, seq<Text>>

  function NamesOf(m: ByService, service: Text): seq<Text> {
    if service in m then m[service] else []
  }

  /** The entries of a request with their names in normal form. */
  function Normalized(inputs: seq<Input>): (r: seq<Input>)
    ensures |r| == |inputs|
    ensures forall i :: 0 <= i < |r| ==> r[i] == Input(inputs[i].service, NormalizeScopeNames(inputs[i].scopeNames))
  {
    seq(|inputs|, i requires 0 <= i < |inputs| => Input(inputs[i].service, NormalizeScopeNames(inputs[i].scopeNames)))
  }

  /** Normalised entries by service, or nothing when two entries for one service disagree. */
  function Collected(entries: seq<Input>): Option<ByService> {
    if entries == [] then Some(map[])
    else
      var last := entries[|entries| - 1];
      match Collected(entries[..|entries| - 1])
      case None => None
      case Some(m) =>
        if last.service in m && !SameStringSet(m[last.service], last.scopeNames) then None
        else Some(m[last.service := last.scopeNames])
  }

  function Requested(inputs: seq<Input>): Option<ByService> {
    Collected(Normalized(inputs))
  }

  /** Entries for one service name the same scopes. */
  ghost predicate Agree(entries: seq<Input>) {
    forall i, j :: 0 <= i < j < |entries| && entries[i].service == entries[j].service ==>
      entries[i].scopeNames == entries[j].scopeNames
  }

  function ServicesNamed(entries: seq<Input>): set<Text> {
    set i | 0 <= i < |entries| :: entries[i].service
  }

  ghost predicate RequestMeans(entries: seq<Input>, m: ByService) {
    && m.Keys == ServicesNamed(entries)
    && forall i :: 0 <= i < |entries| ==> entries[i].service in m && m[entries[i].service] == entries[i].scopeNames
  }

  lemma ServicesNamedWithLast(entries: seq<Input>)
    requires entries != []
    ensures ServicesNamed(entries) == ServicesNamed(entries[..|entries| - 1]) + {entries[|entries| - 1].service}
  {
    var before := entries[..|entries| - 1];
    forall i | 0 <= i < |entries| ensures entries[i].service in ServicesNamed(before) + {entries[|entries| - 1].service} {
      if i < |before| { assert before[i].service in ServicesNamed(before); }
    }
    forall i | 0 <= i < |before| ensures before[i].service in ServicesNamed(entries) {
      assert before[i] == entries[i];
    }
  }

  lemma AgreeWithLast(entries: seq<Input>, m: ByService)
    requires entries != [] && RequestMeans(entries[..|entries| - 1], m)
    ensures var (before, last) := (entries[..|entries| - 1], entries[|entries| - 1]);
            Agree(entries) <==> Agree(before) && (last.service in m ==> m[last.service] == last.scopeNames)
  {
    var before, last := entries[..|entries| - 1], entries[|entries| - 1];
    assert forall i :: 0 <= i < |before| ==> before[i] == entries[i];
    if last.service in m {
      var i :| 0 <= i < |before| && before[i].service == last.service;
      assert m[last.service] == entries[i].scopeNames;
    }
  }

  lemma MeaningWithLast(entries: seq<Input>, m: ByService)
    requires entries != [] && RequestMeans(entries[..|entries| - 1], m)
    requires var last := entries[|entries| - 1]; last.service in m ==> m[last.service] == last.scopeNames
    ensures var last := entries[|entries| - 1]; RequestMeans(entries, m[last.service := last.scopeNames])
  {
    ServicesNamedWithLast(entries);
    var before := entries[..|entries| - 1];
    forall i | 0 <= i < |before| ensures entries[i].service in m && m[entries[i].service] == entries[i].scopeNames {
      assert before[i] == entries[i];
    }
  }

  lemma {:induction false} CollectedExactlyWhenAgreeing(entries: seq<Input>)
    ensures Collected(entries).Some? <==> Agree(entries)
    ensures Collected(entries).Some? ==> RequestMeans(entries, Collected(entries).value)
  {
    if entries != [] {
      var before, last := entries[..|entries| - 1], entries[|entries| - 1];
      CollectedExactlyWhenAgreeing(before);
      if Collected(before).Some? {
        var m := Collected(before).value;
        AgreeWithLast(entries, m);
        if Collected(entries).Some? { MeaningWithLast(entries, m); }
      } else {
        assert forall i :: 0 <= i < |before| ==> before[i] == entries[i];
      }
    }
  }

  /** A request stands exactly when its normalised entries agree, and then gives each service its one entry. */
  lemma RequestedExactlyWhenAgreeing(inputs: seq<Input>)
    ensures Requested(inputs).Some? <==> Agree(Normalized(inputs))
    ensures Requested(inputs).Some? ==> RequestMeans(Normalized(inputs), Requested(inputs).value)
  {
    CollectedExactlyWhenAgreeing(Normalized(inputs));
  }

  lemma EntryOfService(entries: seq<Input>, m: ByService, s: Text) returns (i: nat)
    requires RequestMeans(entries, m) && s in m
    ensures i < |entries| && entries[i].service == s && m[s] == entries[i].scopeNames
  {
    i :| 0 <= i < |entries| && entries[i].service == s;
  }

  lemma RequestIsNormal(inputs: seq<Input>, s: Text)
    requires Requested(inputs).Some? && s in Requested(inputs).value
    ensures Ascending(Requested(inputs).value[s])
  {
    RequestedExactlyWhenAgreeing(inputs);
    var i := EntryOfService(Normalized(inputs), Requested(inputs).value, s);
    NormalForm(inputs[i].scopeNames);
  }

  // ---------------------------------------------------------------------------------------------------------
  // The difference
  // ---------------------------------------------------------------------------------------------------------

  datatype Change = Change(service: Text, before: seq<Text>, after: seq<Text>)

  datatype Diff = Diff(added: seq<Change>, changed: seq<Change>, kept: seq<Change>, removed: seq<Change>)

  function WithChange(d: Diff, c: Change): Diff {
    if c.before == [] && c.after != [] then d.(added := d.added + [c])
    else if c.before != [] && c.after == [] then d.(removed := d.removed + [c])
    else if SameStringSet(c.before, c.after) then d.(kept := d.kept + [c])
    else d.(changed := d.changed + [c])
  }

  function ChangeOf(previous: ByService, request: ByService, service: Text): Change {
    Change(service, NamesOf(previous, service), NamesOf(request, service))
  }

  function DiffOf(previous: ByService, request: ByService, touched: seq<Text>): Diff {
    if touched == [] then Diff([], [], [], [])
    else WithChange(DiffOf(previous, request, touched[..|touched| - 1]), ChangeOf(previous, request, touched[|touched| - 1]))
  }

  function Services(cs: seq<Change>): (r: seq<Text>)
    ensures |r| == |cs| && forall i :: 0 <= i < |cs| ==> r[i] == cs[i].service
  {
    seq(|cs|, i requires 0 <= i < |cs| => cs[i].service)
  }

  function DiffServices(d: Diff): multiset<Text> {
    multiset(Services(d.added)) + multiset(Services(d.changed)) + multiset(Services(d.kept)) + multiset(Services(d.removed))
  }

  lemma ServicesOfSnoc(cs: seq<Change>, c: Change)
    ensures Services(cs + [c]) == Services(cs) + [c.service]
  {
  }

  lemma WithChangeCounts(d: Diff, c: Change)
    ensures DiffServices(WithChange(d, c)) == DiffServices(d) + multiset{c.service}
  {
    if c.before == [] && c.after != [] {
      ServicesOfSnoc(d.added, c);
    } else if c.before != [] && c.after == [] {
      ServicesOfSnoc(d.removed, c);
    } else if SameStringSet(c.before, c.after) {
      ServicesOfSnoc(d.kept, c);
    } else {
      ServicesOfSnoc(d.changed, c);
    }
  }

  /** The four lists divide the touched services among them, each service once. */
  lemma {:induction false} DiffPartitionsTouched(previous: ByService, request: ByService, touched: seq<Text>)
    ensures DiffServices(DiffOf(previous, request, touched)) == multiset(touched)
  {
    if touched == [] {
      assert Services([]) == [];
    } else {
      var before, s := touched[..|touched| - 1], touched[|touched| - 1];
      assert multiset(touched) == multiset(before) + multiset{s} by { assert touched == before + [s]; }
      DiffPartitionsTouched(previous, request, before);
      WithChangeCounts(DiffOf(previous, request, before), ChangeOf(previous, request, s));
    }
  }

  datatype Kind = Added | Changed | Kept | Removed {
    predicate Fits(c: Change) {
      match this
      case Added => c.before == [] && c.after != []
      case Changed => c.before != [] && c.after != [] && c.before != c.after
      case Kept => c.before == c.after
      case Removed => c.before != [] && c.after == []
    }
  }

  /** Every change in the list is that of its service, and is of the kind the list collects. */
  ghost predicate Lists(cs: seq<Change>, previous: ByService, request: ByService, kind: Kind) {
    forall i :: 0 <= i < |cs| ==> cs[i] == ChangeOf(previous, request, cs[i].service) && kind.Fits(cs[i])
  }

  lemma {:induction false} DiffIsClassified(previous: ByService, request: ByService, touched: seq<Text>)
    ensures var d := DiffOf(previous, request, touched);
            && Lists(d.added, previous, request, Added) && Lists(d.changed, previous, request, Changed)
            && Lists(d.kept, previous, request, Kept) && Lists(d.removed, previous, request, Removed)
  {
    if touched != [] {
      DiffIsClassified(previous, request, touched[..|touched| - 1]);
      var c := ChangeOf(previous, request, touched[|touched| - 1]);
      assert SameStringSet(c.before, c.after) <==> c.before == c.after;
    }
  }

  /** Reading a list of changes as instructions. */
  function Patch(m: ByService, cs: seq<Change>): ByService {
    if cs == [] then m else Patch(m, cs[..|cs| - 1])[cs[|cs| - 1].service := cs[|cs| - 1].after]
  }

  lemma {:induction false} PatchAt(m: ByService, cs: seq<Change>, previous: ByService, request: ByService,
                                   kind: Kind, s: Text)
    requires Lists(cs, previous, request, kind)
    ensures NamesOf(Patch(m, cs), s) == if s in Services(cs) then NamesOf(request, s) else NamesOf(m, s)
  {
    if cs != [] {
      var before, last := cs[..|cs| - 1], cs[|cs| - 1];
      PatchAt(m, before, previous, request, kind, s);
      assert cs == before + [last];
      ServicesOfSnoc(before, last);
    }
  }

  /** Applying the difference to the old grants gives the requested ones. */
  lemma DiffTurnsPreviousIntoRequest(previous: ByService, request: ByService, touched: seq<Text>, s: Text)
    requires previous.Keys + request.Keys <= Elements(touched)
    ensures var d := DiffOf(previous, request, touched);
            NamesOf(Patch(Patch(Patch(previous, d.added), d.changed), d.removed), s) == NamesOf(request, s)
  {
    var d := DiffOf(previous, request, touched);
    DiffIsClassified(previous, request, touched);
    DiffPartitionsTouched(previous, request, touched);
    var first := Patch(previous, d.added);
    var second := Patch(first, d.changed);
    PatchAt(previous, d.added, previous, request, Added, s);
    PatchAt(first, d.changed, previous, request, Changed, s);
    PatchAt(second, d.removed, previous, request, Removed, s);
    assert s in touched <==> s in multiset(touched);
    if s !in touched {
      assert s !in Elements(touched);
    } else if s in Services(d.kept) {
      var i :| 0 <= i < |d.kept| && Services(d.kept)[i] == s;
      assert Kept.Fits(d.kept[i]);
    }
  }
}
