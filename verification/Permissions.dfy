/**
 The permission table behind a request: the live grants of a credential are read, compared with the request, and
 replaced service by service, in one transaction that a refusal rolls back.
 */
module Permissions {
  import opened CodeUnits
  import opened Options
  import opened PermissionRequests

  datatype Key = Key(credential: Text, service: Text, scope: Text)

  datatype Grant = Grant(granted: bool, revoked: bool, version: nat)

  type Grants = map<Key, Grant>

  /** The service that a text denotes when the database casts it, in the spelling of the database. */
  type Casting = Text -> Option<Text>

  ghost predicate IsCasting(cast: Casting) {
    forall t :: cast(t).Some? ==> cast(cast(t).value) == cast(t)
  }

  /** Rows hold services as the database spells them. */
  ghost predicate WellSpelled(cast: Casting, grants: Grants) {
    forall k :: k in grants ==> cast(k.service) == Some(k.service)
  }

  /** The scopes that are defined and not revoked, by service. */
  type OpenScopes = set<(Text, Text)>

  function Lookup(grants: Grants, k: Key): Option<Grant> {
    if k in grants then Some(grants[k]) else None
  }

  /** A row that stands, whatever has become of its scope. */
  predicate Standing(grants: Grants, k: Key) {
    k in grants && grants[k].granted && !grants[k].revoked
  }

  predicate Live(grants: Grants, open: OpenScopes, k: Key) {
    Standing(grants, k) && (k.service, k.scope) in open
  }

  // ---------------------------------------------------------------------------------------------------------
  // Reading the previous grants
  // ---------------------------------------------------------------------------------------------------------

  /** For each service with a live grant, the trimmed names of its live scopes, in normal form. */
  ghost predicate IsPrevious(grants: Grants, open: OpenScopes, credential: Text, previous: ByService) {
    && (forall s :: s in previous <==> exists n :: Live(grants, open, Key(credential, s, n)))
    && (forall s :: s in previous ==> Ascending(previous[s]))
    && (forall s, t :: s in previous ==>
          (t in previous[s] <==> t != [] && exists n :: Live(grants, open, Key(credential, s, n)) && Trim(n) == t))
  }

  /** The names read so far, one row at a time. */
  ghost predicate Gathered(raw: ByService, seen: set<Key>, grants: Grants, open: OpenScopes, credential: Text) {
    && (forall s, n :: s in raw && n in raw[s] ==>
          Key(credential, s, n) in seen && Live(grants, open, Key(credential, s, n)))
    && (forall k :: k in seen && Live(grants, open, k) && k.credential == credential ==>
          k.service in raw && k.scope in raw[k.service])
    && (forall s :: s in raw ==> raw[s] != [])
  }

  lemma GatheredIsPrevious(raw: ByService, previous: ByService, grants: Grants, open: OpenScopes, credential: Text)
    requires Gathered(raw, grants.Keys, grants, open, credential)
    requires previous.Keys == raw.Keys && forall s :: s in raw ==> previous[s] == NormalizeScopeNames(raw[s])
    ensures IsPrevious(grants, open, credential, previous)
  {
    forall s ensures s in previous <==> exists n :: Live(grants, open, Key(credential, s, n)) {
      if s in raw { assert raw[s][0] in raw[s]; }
      if n :| Live(grants, open, Key(credential, s, n)) { assert Key(credential, s, n) in grants.Keys; }
    }
    forall s | s in previous
      ensures Ascending(previous[s])
      ensures forall t :: t in previous[s] <==> t != [] && exists n :: Live(grants, open, Key(credential, s, n)) && Trim(n) == t
    {
      NormalForm(raw[s]);
      forall n ensures n in raw[s] <==> Live(grants, open, Key(credential, s, n)) {
        assert Live(grants, open, Key(credential, s, n)) ==> Key(credential, s, n) in grants.Keys;
      }
    }
  }

  // ---------------------------------------------------------------------------------------------------------
  // Writing
  // ---------------------------------------------------------------------------------------------------------

  function Revoked(row: Option<Grant>): Option<Grant> {
    if row.Some? && !row.value.revoked then Some(Grant(false, true, row.value.version + 1)) else row
  }

  function Granted(row: Option<Grant>): Grant {
    Grant(true, false, if row.Some? then row.value.version + 1 else 0)
  }

  /** A row of a replaced service: revoked, then granted again when it is asked for. */
  function Rewritten(row: Option<Grant>, asked: bool): Option<Grant> {
    if asked then Some(Granted(Revoked(row))) else Revoked(row)
  }

  /** A row after the touched spellings have been worked off: each that denotes its service rewrites it. */
  function RowAfter(cast: Casting, row: Option<Grant>, touched: seq<Text>, request: ByService, service: Text, scope: Text)
    : Option<Grant>
  {
    if touched == [] then row
    else
      var before, t := RowAfter(cast, row, touched[..|touched| - 1], request, service, scope), touched[|touched| - 1];
      if cast(t) == Some(service) then Rewritten(before, scope in NamesOf(request, t)) else before
  }

  ghost predicate Replaced(cast: Casting, before: Grants, after: Grants, credential: Text, touched: seq<Text>,
                           request: ByService)
  {
    forall k: Key :: Lookup(after, k) ==
      if k.credential == credential then RowAfter(cast, Lookup(before, k), touched, request, k.service, k.scope)
      else Lookup(before, k)
  }

  /** All rows of the service are revoked, and those of the named scopes granted again. */
  ghost predicate GrantedSoFar(before: Grants, now: Grants, credential: Text, service: Text, names: seq<Text>) {
    forall k: Key :: Lookup(now, k) ==
      if k.credential == credential && k.service == service then Rewritten(Lookup(before, k), k.scope in names)
      else Lookup(before, k)
  }

  /** The scope rows that answer to the requested names. */
  function OpenNames(open: OpenScopes, service: Text, names: seq<Text>): (r: seq<Text>)
    ensures |r| <= |names|
    ensures |r| == |names| <==> forall n :: n in names ==> (service, n) in open
    ensures |r| == |names| ==> r == names
  {
    if names == [] then []
    else
      var rest := OpenNames(open, service, names[1..]);
      assert names == [names[0]] + names[1..];
      if (service, names[0]) in open then [names[0]] + rest else rest
  }

  ghost predicate AllOpen(cast: Casting, open: OpenScopes, t: Text, request: ByService) {
    forall n :: n in NamesOf(request, t) ==> cast(t).Some? && (cast(t).value, n) in open
  }

  /** Every requested spelling denotes a known service, and no two denote one. */
  ghost predicate ServicesFit(cast: Casting, services: set<Text>, request: ByService) {
    && (forall t :: t in request ==> cast(t).Some? && cast(t).value in services)
    && (forall t, u :: t in request && u in request && cast(t) == cast(u) ==> t == u)
  }

  datatype Error = NotFound | DuplicateService | MalformedId | InvalidService | InvalidScope

  datatype Outcome = Refused(error: Error) | Done(previous: ByService, touched: seq<Text>, diff: Diff)

  /** What is wrong with a request whose entries agree. */
  ghost function RequestRefusal(cast: Casting, services: set<Text>, open: OpenScopes, request: ByService): Option<Error> {
    if exists t :: t in request && cast(t).None? then Some(MalformedId)
    else if !ServicesFit(cast, services, request) then Some(InvalidService)
    else if exists t :: t in request && !AllOpen(cast, open, t, request) then Some(InvalidScope)
    else None
  }

  ghost function Refusal(cast: Casting, usable: set<Text>, services: set<Text>, open: OpenScopes, credential: Text,
                         inputs: seq<Input>)
    : Option<Error>
  {
    if credential !in usable then Some(NotFound)
    else match Requested(inputs)
      case None => Some(DuplicateService)
      case Some(request) => RequestRefusal(cast, services, open, request)
  }

  /** The entry names a known service and scopes that are all open. */
  ghost predicate Fits(cast: Casting, services: set<Text>, open: OpenScopes, input: Input) {
    && cast(input.service).Some? && cast(input.service).value in services
    && forall n :: n in input.scopeNames && Trim(n) != [] ==> (cast(input.service).value, Trim(n)) in open
  }

  lemma RequestCovers(inputs: seq<Input>)
    requires Agree(Normalized(inputs))
    ensures Requested(inputs).Some?
    ensures Covers(inputs, Requested(inputs).value)
  {
    RequestedExactlyWhenAgreeing(inputs);
    var entries, m := Normalized(inputs), Requested(inputs).value;
    forall t | t in m ensures NamedBy(inputs, t) {
      var i := EntryOfService(entries, m, t);
      assert inputs[i].service == t;
    }
    forall i | 0 <= i < |inputs| ensures inputs[i].service in m { assert entries[i].service in m; }
  }

  lemma EntryIsOpen(cast: Casting, services: set<Text>, open: OpenScopes, inputs: seq<Input>, i: nat)
    requires Requested(inputs).Some? && i < |inputs| && cast(inputs[i].service).Some?
    requires cast(inputs[i].service).value in services
    ensures AllOpen(cast, open, inputs[i].service, Requested(inputs).value) <==> Fits(cast, services, open, inputs[i])
  {
    RequestedExactlyWhenAgreeing(inputs);
    NormalForm(inputs[i].scopeNames);
    var names := NamesOf(Requested(inputs).value, inputs[i].service);
    assert names == Normalized(inputs)[i].scopeNames == NormalizeScopeNames(inputs[i].scopeNames);
    if AllOpen(cast, open, inputs[i].service, Requested(inputs).value) {
      forall n | n in inputs[i].scopeNames && Trim(n) != [] ensures (cast(inputs[i].service).value, Trim(n)) in open {
        assert Trim(n) in names;
      }
    }
  }

  ghost predicate EachFits(cast: Casting, services: set<Text>, open: OpenScopes, inputs: seq<Input>) {
    forall i :: 0 <= i < |inputs| ==> Fits(cast, services, open, inputs[i])
  }

  /** No two spellings denote one service. */
  ghost predicate OneSpellingEach(cast: Casting, inputs: seq<Input>) {
    forall i, j :: 0 <= i < |inputs| && 0 <= j < |inputs| ==> SpelledAlike(cast, inputs[i].service, inputs[j].service)
  }

  predicate SpelledAlike(cast: Casting, t: Text, u: Text) {
    cast(t) == cast(u) ==> t == u
  }

  /** The services of a request are those that its entries name. */
  ghost predicate Covers(inputs: seq<Input>, m: ByService) {
    && (forall t :: t in m ==> NamedBy(inputs, t))
    && (forall i :: 0 <= i < |inputs| ==> inputs[i].service in m)
  }

  ghost predicate NamedBy(inputs: seq<Input>, t: Text) {
    exists i :: 0 <= i < |inputs| && inputs[i].service == t
  }

  lemma AcceptedEntryFits(cast: Casting, services: set<Text>, open: OpenScopes, inputs: seq<Input>, i: nat)
    requires Requested(inputs).Some? && Covers(inputs, Requested(inputs).value) && i < |inputs|
    requires RequestRefusal(cast, services, open, Requested(inputs).value) == None
    ensures Fits(cast, services, open, inputs[i])
  {
    assert inputs[i].service in Requested(inputs).value;
    EntryIsOpen(cast, services, open, inputs, i);
  }

  lemma AcceptedSpelledAlike(cast: Casting, services: set<Text>, open: OpenScopes, request: ByService, t: Text, u: Text)
    requires RequestRefusal(cast, services, open, request) == None && t in request && u in request
    ensures SpelledAlike(cast, t, u)
  {
  }

  lemma FittingServiceIsOpen(cast: Casting, services: set<Text>, open: OpenScopes, inputs: seq<Input>, t: Text)
    requires Requested(inputs).Some? && EachFits(cast, services, open, inputs) && NamedBy(inputs, t)
    ensures cast(t).Some? && cast(t).value in services && AllOpen(cast, open, t, Requested(inputs).value)
  {
    var i :| 0 <= i < |inputs| && inputs[i].service == t;
    assert Fits(cast, services, open, inputs[i]);
    EntryIsOpen(cast, services, open, inputs, i);
  }

  lemma NamedSpelledAlike(cast: Casting, inputs: seq<Input>, t: Text, u: Text)
    requires OneSpellingEach(cast, inputs) && NamedBy(inputs, t) && NamedBy(inputs, u)
    ensures SpelledAlike(cast, t, u)
  {
    var i :| 0 <= i < |inputs| && inputs[i].service == t;
    var j :| 0 <= j < |inputs| && inputs[j].service == u;
  }

  lemma NothingRefused(cast: Casting, services: set<Text>, open: OpenScopes, request: ByService)
    requires forall t :: t in request ==> cast(t).Some? && cast(t).value in services && AllOpen(cast, open, t, request)
    requires forall t, u :: t in request && u in request ==> SpelledAlike(cast, t, u)
    ensures RequestRefusal(cast, services, open, request) == None
  {
  }

  lemma AcceptedExactlyWhenFitting(cast: Casting, services: set<Text>, open: OpenScopes, inputs: seq<Input>)
    requires Requested(inputs).Some? && Covers(inputs, Requested(inputs).value)
    ensures RequestRefusal(cast, services, open, Requested(inputs).value) == None
       <==> EachFits(cast, services, open, inputs) && OneSpellingEach(cast, inputs)
  {
    var m := Requested(inputs).value;
    if RequestRefusal(cast, services, open, m) == None {
      forall i | 0 <= i < |inputs| ensures Fits(cast, services, open, inputs[i]) {
        AcceptedEntryFits(cast, services, open, inputs, i);
      }
      forall i, j | 0 <= i < |inputs| && 0 <= j < |inputs| ensures SpelledAlike(cast, inputs[i].service, inputs[j].service) {
        AcceptedSpelledAlike(cast, services, open, m, inputs[i].service, inputs[j].service);
      }
    }
    if EachFits(cast, services, open, inputs) && OneSpellingEach(cast, inputs) {
      forall t | t in m ensures cast(t).Some? && cast(t).value in services && AllOpen(cast, open, t, m) {
        FittingServiceIsOpen(cast, services, open, inputs, t);
      }
      forall t, u | t in m && u in m ensures SpelledAlike(cast, t, u) { NamedSpelledAlike(cast, inputs, t, u); }
      NothingRefused(cast, services, open, m);
    }
  }

  /** Some entry spells its service in a way that no identifier is spelled. */
  ghost predicate SomeMalformed(cast: Casting, inputs: seq<Input>) {
    exists i :: 0 <= i < |inputs| && cast(inputs[i].service).None?
  }

  lemma MalformedExactly(cast: Casting, services: set<Text>, open: OpenScopes, inputs: seq<Input>, m: ByService)
    requires Covers(inputs, m)
    ensures RequestRefusal(cast, services, open, m) == Some(MalformedId) <==> SomeMalformed(cast, inputs)
    ensures RequestRefusal(cast, services, open, m) != Some(NotFound)
    ensures RequestRefusal(cast, services, open, m) != Some(DuplicateService)
  {
    if i :| 0 <= i < |inputs| && cast(inputs[i].service).None? { assert inputs[i].service in m; }
    if t :| t in m && cast(t).None? { assert NamedBy(inputs, t); }
  }

  /** Which error answers a request: the first of these that applies. */
  lemma RefusalTells(cast: Casting, usable: set<Text>, services: set<Text>, open: OpenScopes, credential: Text,
                     inputs: seq<Input>)
    ensures var e, agreed := Refusal(cast, usable, services, open, credential, inputs), Agree(Normalized(inputs));
            && (e == Some(NotFound) <==> credential !in usable)
            && (e == Some(DuplicateService) <==> credential in usable && !agreed)
            && (e == Some(MalformedId) <==> credential in usable && agreed && SomeMalformed(cast, inputs))
            && (e == None <==>
                  && credential in usable && agreed
                  && EachFits(cast, services, open, inputs) && OneSpellingEach(cast, inputs))
  {
    RequestedExactlyWhenAgreeing(inputs);
    if Agree(Normalized(inputs)) {
      RequestCovers(inputs);
      MalformedExactly(cast, services, open, inputs, Requested(inputs).value);
      AcceptedExactlyWhenFitting(cast, services, open, inputs);
    }
  }

  lemma {:induction false} DisagreementStays(entries: seq<Input>, i: nat)
    requires i <= |entries| && Collected(entries[..i]).None?
    ensures Collected(entries).None?
    decreases |entries|
  {
    if i == |entries| {
      assert entries[..i] == entries;
    } else {
      assert entries[..|entries| - 1][..i] == entries[..i];
      DisagreementStays(entries[..|entries| - 1], i);
    }
  }

  lemma CollectedNext(entries: seq<Input>, i: nat, entry: Input, m: ByService)
    requires i < |entries| && entries[i] == entry && Collected(entries[..i]) == Some(m)
    ensures Collected(entries[..i + 1])
         == if entry.service in m && m[entry.service] != entry.scopeNames then None
            else Some(m[entry.service := entry.scopeNames])
  {
    assert entries[..i + 1][..i] == entries[..i];
    assert entry.service in m ==> (SameStringSet(m[entry.service], entry.scopeNames) <==> m[entry.service] == entry.scopeNames);
  }

  lemma GrantNext(before: Grants, now: Grants, credential: Text, service: Text, names: seq<Text>, i: nat)
    requires i < |names| && Distinct(names) && GrantedSoFar(before, now, credential, service, names[..i])
    ensures var k := Key(credential, service, names[i]);
            GrantedSoFar(before, now[k := Granted(Lookup(now, k))], credential, service, names[..i + 1])
  {
    assert names[i] !in names[..i];
    assert names[..i + 1] == names[..i] + [names[i]];
    var mine := Key(credential, service, names[i]);
    var next := now[mine := Granted(Lookup(now, mine))];
    forall k: Key
      ensures Lookup(next, k) ==
        if k.credential == credential && k.service == service then Rewritten(Lookup(before, k), k.scope in names[..i + 1])
        else Lookup(before, k)
    {
      assert Lookup(now, k) ==
        if k.credential == credential && k.service == service then Rewritten(Lookup(before, k), k.scope in names[..i])
        else Lookup(before, k);
      assert k.scope in names[..i + 1] <==> k.scope in names[..i] || k.scope == names[i];
    }
  }

  lemma ReplacedNext(cast: Casting, before: Grants, mid: Grants, after: Grants, credential: Text, touched: seq<Text>,
                     t: Text, request: ByService)
    requires Replaced(cast, before, mid, credential, touched, request) && cast(t).Some?
    requires GrantedSoFar(mid, after, credential, cast(t).value, NamesOf(request, t))
    ensures Replaced(cast, before, after, credential, touched + [t], request)
  {
    assert (touched + [t])[..|touched|] == touched;
  }

  lemma RowsStayWellSpelled(cast: Casting, before: Grants, after: Grants, credential: Text, touched: seq<Text>,
                            request: ByService)
    requires IsCasting(cast) && WellSpelled(cast, before) && Replaced(cast, before, after, credential, touched, request)
    ensures WellSpelled(cast, after)
  {
    forall k | k in after ensures cast(k.service) == Some(k.service) {
      assert Lookup(after, k).Some?;
      if k !in before { RowNeedsSpelling(cast, touched, request, k.service, k.scope); }
    }
  }

  lemma {:induction false} RowNeedsSpelling(cast: Casting, touched: seq<Text>, request: ByService, service: Text, scope: Text)
    requires IsCasting(cast) && RowAfter(cast, None, touched, request, service, scope).Some?
    ensures cast(service) == Some(service)
  {
    var t := touched[|touched| - 1];
    if cast(t) != Some(service) { RowNeedsSpelling(cast, touched[..|touched| - 1], request, service, scope); }
  }

  /** The known services among those that the texts denote. */
  ghost function Denoted(cast: Casting, services: set<Text>, ids: seq<Text>): set<Text> {
    set s | s in services && Denotes(cast, ids, s)
  }

  ghost predicate Denotes(cast: Casting, ids: seq<Text>, s: Text) {
    exists i :: 0 <= i < |ids| && cast(ids[i]) == Some(s)
  }

  ghost predicate DenoteDistinct(cast: Casting, services: set<Text>, ids: seq<Text>) {
    && (forall i :: 0 <= i < |ids| ==> cast(ids[i]).Some? && cast(ids[i]).value in services)
    && (forall i, j :: 0 <= i < j < |ids| ==> cast(ids[i]) != cast(ids[j]))
  }

  lemma DenotesOneMore(cast: Casting, ids: seq<Text>, t: Text, s: Text)
    ensures Denotes(cast, ids + [t], s) <==> Denotes(cast, ids, s) || cast(t) == Some(s)
  {
    if Denotes(cast, ids, s) {
      var i :| 0 <= i < |ids| && cast(ids[i]) == Some(s);
      assert (ids + [t])[i] == ids[i];
    }
    assert (ids + [t])[|ids|] == t;
  }

  lemma OneMoreDenoted(cast: Casting, services: set<Text>, ids: seq<Text>, t: Text, s: Text)
    requires cast(t) == Some(s)
    ensures var before := Denoted(cast, services, ids);
            && Denoted(cast, services, ids + [t]) == before + (if s in services then {s} else {})
            && (s in services && !Denotes(cast, ids, s) ==> |before + {s}| == |before| + 1)
            && (s in services && Denotes(cast, ids, s) ==> before + {s} == before)
  {
    var before, after := Denoted(cast, services, ids), Denoted(cast, services, ids + [t]);
    forall x ensures x in after <==> x in before || (x == s && s in services) {
      DenotesOneMore(cast, ids, t, x);
    }
  }

  lemma DenoteOneMoreDistinct(cast: Casting, services: set<Text>, ids: seq<Text>, t: Text, s: Text)
    requires cast(t) == Some(s)
    ensures DenoteDistinct(cast, services, ids + [t])
       <==> DenoteDistinct(cast, services, ids) && s in services && !Denotes(cast, ids, s)
  {
    var more := ids + [t];
    assert more[|ids|] == t && forall i :: 0 <= i < |ids| ==> more[i] == ids[i];
    if DenoteDistinct(cast, services, more) {
      forall i | 0 <= i < |ids| ensures cast(ids[i]) != Some(s) {
        assert cast(more[i]) != cast(more[|ids|]);
      }
    }
  }

  ghost predicate Counted(cast: Casting, services: set<Text>, ids: seq<Text>, found: set<Text>) {
    && (forall i :: 0 <= i < |ids| ==> cast(ids[i]).Some?)
    && found == Denoted(cast, services, ids)
    && |found| <= |ids| && (|found| == |ids| <==> DenoteDistinct(cast, services, ids))
  }

  lemma CountedOneMore(cast: Casting, services: set<Text>, ids: seq<Text>, found: set<Text>, t: Text, s: Text)
    requires Counted(cast, services, ids, found) && cast(t) == Some(s)
    ensures Counted(cast, services, ids + [t], if s in services then found + {s} else found)
  {
    OneMoreDenoted(cast, services, ids, t, s);
    DenoteOneMoreDistinct(cast, services, ids, t, s);
  }

  method SortedKeys(keys: set<Text>) returns (r: seq<Text>)
    ensures Ascending(r) && Elements(r) == keys
  {
    var left, listed: seq<Text> := keys, [];
    while left != {}
      invariant left <= keys && Distinct(listed)
      invariant forall t :: t in listed <==> t in keys && t !in left
    {
      var t :| t in left;
      left, listed := left - {t}, listed + [t];
    }
    SortAscending(listed);
    SortElements(listed);
    return Sort(listed);
  }

  class PermissionTable {
    const cast: Casting
    var usable: set<Text>        // active credentials, neither revoked nor deleted
    var services: set<Text>
    var open: OpenScopes
    var grants: Grants

    ghost predicate Valid()
      reads this
    {
      IsCasting(cast) && WellSpelled(cast, grants)
    }

    method LoadPrevious(credential: Text) returns (previous: ByService)
      ensures IsPrevious(grants, open, credential, previous)
    {
      var left, raw: ByService := grants.Keys, map[];
      while left != {}
        invariant left <= grants.Keys
        invariant Gathered(raw, grants.Keys - left, grants, open, credential)
      {
        var k :| k in left;
        left := left - {k};
        if k.credential == credential && Live(grants, open, k) {
          raw := raw[k.service := NamesOf(raw, k.service) + [k.scope]];
        }
      }
      assert grants.Keys - left == grants.Keys;
      previous := map s | s in raw :: NormalizeScopeNames(raw[s]);
      GatheredIsPrevious(raw, previous, grants, open, credential);
    }

    method CollectRequest(inputs: seq<Input>) returns (request: Option<ByService>)
      ensures request == Requested(inputs)
    {
      ghost var entries := Normalized(inputs);
      var normalized: ByService := map[];
      for i := 0 to |inputs|
        invariant Collected(entries[..i]) == Some(normalized)
      {
        var service, scopes := inputs[i].service, NormalizeScopeNames(inputs[i].scopeNames);
        CollectedNext(entries, i, Input(service, scopes), normalized);
        if service in normalized && !SameStringSet(normalized[service], scopes) {
          DisagreementStays(entries, i + 1);
          return None;
        }
        normalized := normalized[service := scopes];
      }
      assert entries[..|inputs|] == entries;
      return Some(normalized);
    }

    method ComputeDiff(previous: ByService, request: ByService, touched: seq<Text>) returns (diff: Diff)
      ensures diff == DiffOf(previous, request, touched)
    {
      var added, changed, kept, removed: seq<Change> := [], [], [], [];
      for i := 0 to |touched|
        invariant Diff(added, changed, kept, removed) == DiffOf(previous, request, touched[..i])
      {
        assert touched[..i + 1][..i] == touched[..i];
        var before, after := NamesOf(previous, touched[i]), NamesOf(request, touched[i]);
        var change := Change(touched[i], before, after);
        if before == [] && after != [] { added := added + [change]; }
        else if before != [] && after == [] { removed := removed + [change]; }
        else if SameStringSet(before, after) { kept := kept + [change]; }
        else { changed := changed + [change]; }
      }
      assert touched[..|touched|] == touched;
      return Diff(added, changed, kept, removed);
    }

    /** How many known services the listed texts denote, or nothing when one of them is no identifier at all. */
    method CountServices(ids: seq<Text>) returns (count: Option<nat>)
      ensures count.None? <==> exists i :: 0 <= i < |ids| && cast(ids[i]).None?
      ensures count.Some? ==> (count.value == |ids| <==> DenoteDistinct(cast, services, ids))
    {
      var found: set<Text> := {};
      for i := 0 to |ids|
        invariant Counted(cast, services, ids[..i], found)
      {
        var s := cast(ids[i]);
        if s.None? { return None; }
        CountedOneMore(cast, services, ids[..i], found, ids[i], s.value);
        assert ids[..i + 1] == ids[..i] + [ids[i]];
        if s.value in services { found := found + {s.value}; }
      }
      assert ids[..|ids|] == ids;
      return Some(|found|);
    }

    method CheckServices(request: ByService) returns (error: Option<Error>)
      ensures error == Some(MalformedId) <==> exists t :: t in request && cast(t).None?
      ensures error == None <==> ServicesFit(cast, services, request)
      ensures error == None || error == Some(MalformedId) || error == Some(InvalidService)
    {
      var serviceIds := SortedKeys(request.Keys);
      var count := CountServices(serviceIds);
      CountDecides(cast, services, request, serviceIds);
      return if count.None? then Some(MalformedId) else if count.value != |serviceIds| then Some(InvalidService) else None;
    }

    method ReplaceService(credential: Text, t: Text, request: ByService) returns (ok: bool)
      requires Distinct(NamesOf(request, t)) && cast(t).Some?
      modifies this`grants
      ensures ok <==> AllOpen(cast, open, t, request)
      ensures if ok then GrantedSoFar(old(grants), grants, credential, cast(t).value, NamesOf(request, t))
              else grants == old(grants)
    {
      var service, names := cast(t).value, NamesOf(request, t);
      var rows := OpenNames(open, service, names);
      if |rows| != |names| { return false; }
      grants := map k | k in grants ::
        if k.credential == credential && k.service == service then Revoked(Some(grants[k])).value else grants[k];
      for i := 0 to |rows|
        invariant GrantedSoFar(old(grants), grants, credential, service, rows[..i])
      {
        GrantNext(old(grants), grants, credential, service, rows, i);
        var k := Key(credential, service, rows[i]);
        grants := grants[k := Granted(Lookup(grants, k))];
      }
      assert rows[..|rows|] == rows == names;
      return true;
    }

    /** The writing loop; a service with an unknown scope rolls the earlier ones back. */
    method ReplaceTouched(credential: Text, touched: seq<Text>, request: ByService) returns (ok: bool)
      requires forall t :: t in touched ==> Distinct(NamesOf(request, t)) && cast(t).Some?
      modifies this`grants
      ensures ok <==> forall t :: t in touched ==> AllOpen(cast, open, t, request)
      ensures if ok then Replaced(cast, old(grants), grants, credential, touched, request) else grants == old(grants)
    {
      var snapshot := grants;
      for i := 0 to |touched|
        invariant Replaced(cast, snapshot, grants, credential, touched[..i], request)
        invariant forall t :: t in touched[..i] ==> AllOpen(cast, open, t, request)
      {
        ghost var mid := grants;
        assert touched[i] in touched;
        var replaced := ReplaceService(credential, touched[i], request);
        if !replaced {
          grants := snapshot;
          return false;
        }
        assert touched[..i + 1] == touched[..i] + [touched[i]];
        ReplacedNext(cast, snapshot, mid, grants, credential, touched[..i], touched[i], request);
      }
      assert touched[..|touched|] == touched;
      return true;
    }

    /** The part of the transaction after the request has been collected. */
    method ReplaceRequested(credential: Text, previous: ByService, request: ByService) returns (outcome: Outcome)
      requires Valid() && IsPrevious(grants, open, credential, previous)
      requires forall t :: t in request ==> Distinct(request[t])
      modifies this`grants
      ensures Valid()
      ensures match RequestRefusal(cast, services, open, request)
              case Some(e) => outcome == Refused(e) && grants == old(grants)
              case None =>
                && outcome.Done? && outcome.previous == previous
                && IsDone(cast, old(grants), grants, services, open, credential, request, outcome)
    {
      var error := CheckServices(request);
      if error.Some? { return Refused(error.value); }
      outcome := WriteRequest(credential, previous, request);
    }

    /** Comparing and writing, once the services are known to fit. */
    method WriteRequest(credential: Text, previous: ByService, request: ByService) returns (outcome: Outcome)
      requires Valid() && IsPrevious(grants, open, credential, previous)
      requires ServicesFit(cast, services, request) && forall t :: t in request ==> Distinct(request[t])
      modifies this`grants
      ensures Valid()
      ensures if forall t :: t in request ==> AllOpen(cast, open, t, request)
              then outcome.Done? && outcome.previous == previous
                   && IsDone(cast, old(grants), grants, services, open, credential, request, outcome)
              else outcome == Refused(InvalidScope) && grants == old(grants)
    {
      var touched := SortedKeys(previous.Keys + request.Keys);
      var diff := ComputeDiff(previous, request, touched);
      TouchedAreFit(cast, grants, open, credential, previous, request, touched);
      TouchedCoversRequest(cast, open, touched, previous, request);
      var ok := WriteTouched(credential, touched, request);
      return if ok then Done(previous, touched, diff) else Refused(InvalidScope);
    }

    /** `replaceManagedServicePermissions` */
    method ReplaceManagedServicePermissions(credential: Text, inputs: seq<Input>) returns (outcome: Outcome)
      requires Valid()
      modifies this`grants
      ensures Valid()
      ensures match Refusal(cast, usable, services, open, credential, inputs)
              case Some(e) => outcome == Refused(e) && grants == old(grants)
              case None =>
                && outcome.Done?
                && IsDone(cast, old(grants), grants, services, open, credential, Requested(inputs).value, outcome)
    {
      if credential !in usable { return Refused(NotFound); }
      var previous := LoadPrevious(credential);
      var requested := CollectRequest(inputs);
      if requested.None? { return Refused(DuplicateService); }
      forall t | t in requested.value ensures Distinct(requested.value[t]) { NamesAreDistinct(inputs, t); }
      outcome := ReplaceRequested(credential, previous, requested.value);
    }

    method WriteTouched(credential: Text, touched: seq<Text>, request: ByService) returns (ok: bool)
      requires Valid() && forall t :: t in touched ==> Distinct(NamesOf(request, t)) && cast(t).Some?
      modifies this`grants
      ensures Valid()
      ensures ok <==> forall t :: t in touched ==> AllOpen(cast, open, t, request)
      ensures if ok then Replaced(cast, old(grants), grants, credential, touched, request) else grants == old(grants)
    {
      ghost var before := grants;
      ok := ReplaceTouched(credential, touched, request);
      if ok { RowsStayWellSpelled(cast, before, grants, credential, touched, request); }
    }
  }

  lemma CountDecides(cast: Casting, services: set<Text>, request: ByService, ids: seq<Text>)
    requires Ascending(ids) && Elements(ids) == request.Keys
    ensures (exists i :: 0 <= i < |ids| && cast(ids[i]).None?) <==> (exists t :: t in request && cast(t).None?)
    ensures (forall t :: t in request ==> cast(t).Some?) ==>
              (ServicesFit(cast, services, request) <==> DenoteDistinct(cast, services, ids))
  {
    AscendingDistinct(ids);
    forall i | 0 <= i < |ids| ensures ids[i] in request { assert ids[i] in Elements(ids); }
    forall t | t in request ensures exists i :: 0 <= i < |ids| && ids[i] == t { assert t in Elements(ids); }
  }

  lemma TouchedAreFit(cast: Casting, grants: Grants, open: OpenScopes, credential: Text, previous: ByService,
                      request: ByService, touched: seq<Text>)
    requires WellSpelled(cast, grants) && IsPrevious(grants, open, credential, previous)
    requires forall t :: t in request ==> cast(t).Some? && Distinct(request[t])
    requires Elements(touched) == previous.Keys + request.Keys
    ensures forall t :: t in touched ==> Distinct(NamesOf(request, t)) && cast(t).Some?
  {
    PreviousIsWellSpelled(cast, grants, open, credential, previous);
    forall t | t in touched ensures Distinct(NamesOf(request, t)) && cast(t).Some? {
      assert t in Elements(touched);
    }
  }

  lemma PreviousIsWellSpelled(cast: Casting, grants: Grants, open: OpenScopes, credential: Text, previous: ByService)
    requires WellSpelled(cast, grants) && IsPrevious(grants, open, credential, previous)
    ensures forall s :: s in previous ==> cast(s) == Some(s)
  {
    forall s | s in previous ensures cast(s) == Some(s) {
      var n :| Live(grants, open, Key(credential, s, n));
    }
  }

  lemma TouchedCoversRequest(cast: Casting, open: OpenScopes, touched: seq<Text>, previous: ByService, request: ByService)
    requires Elements(touched) == previous.Keys + request.Keys
    ensures (forall t :: t in touched ==> AllOpen(cast, open, t, request))
       <==> (forall t :: t in request ==> AllOpen(cast, open, t, request))
  {
    forall t ensures t in touched <==> t in previous || t in request {
      assert t in touched <==> t in Elements(touched);
    }
  }

  lemma NamesAreDistinct(inputs: seq<Input>, s: Text)
    requires Requested(inputs).Some?
    ensures Distinct(NamesOf(Requested(inputs).value, s))
  {
    if s in Requested(inputs).value {
      RequestIsNormal(inputs, s);
      AscendingDistinct(Requested(inputs).value[s]);
    }
  }

  /** What a replacement that was not refused did. */
  ghost predicate IsDone(cast: Casting, before: Grants, after: Grants, services: set<Text>, open: OpenScopes,
                         credential: Text, request: ByService, outcome: Outcome)
    requires outcome.Done?
  {
    && IsPrevious(before, open, credential, outcome.previous)
    && Ascending(outcome.touched) && Elements(outcome.touched) == outcome.previous.Keys + request.Keys
    && outcome.diff == DiffOf(outcome.previous, request, outcome.touched)
    && ServicesFit(cast, services, request)
    && (forall t :: t in request ==> AllOpen(cast, open, t, request))
    && Replaced(cast, before, after, credential, outcome.touched, request)
  }
}
