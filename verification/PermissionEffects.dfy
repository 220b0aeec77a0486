/**
 What a replacement of permissions leads to. Texts are compared with each other in some places and cast to identifiers by
 the database in others, so a service that is spelled in another way than the database does is worked off twice.
 */
module PermissionEffects {
  import opened CodeUnits
  import opened Options
  import opened PermissionRequests
  import opened Permissions

  /** The request asks for this row, under whatever spelling of its service. */
  ghost predicate Asked(cast: Casting, request: ByService, k: Key) {
    exists t :: Asks(cast, request, t, k)
  }

  predicate Asks(cast: Casting, request: ByService, t: Text, k: Key) {
    t in request && cast(t) == Some(k.service) && k.scope in request[t]
  }

  /** The service had live grants, is spelled in another way, and its own spelling sorts after the requested one. */
  predicate Overtaken(cast: Casting, previous: ByService, t: Text) {
    cast(t).Some? && cast(t).value in previous && Less(t, cast(t).value)
  }

  ghost predicate IsReplacement(cast: Casting, before: Grants, after: Grants, services: set<Text>, open: OpenScopes,
                                credential: Text, request: ByService, outcome: Outcome)
  {
    && IsCasting(cast) && WellSpelled(cast, before) && outcome.Done?
    && IsDone(cast, before, after, services, open, credential, request, outcome)
  }

  // ---------------------------------------------------------------------------------------------------------
  // The last spelling decides
  // ---------------------------------------------------------------------------------------------------------

  predicate Stands(row: Option<Grant>) {
    row.Some? && row.value.granted && !row.value.revoked
  }

  /** The last touched text that denotes the service. */
  function LastSpelling(cast: Casting, touched: seq<Text>, service: Text): Option<Text> {
    if touched == [] then None
    else if cast(touched[|touched| - 1]) == Some(service) then Some(touched[|touched| - 1])
    else LastSpelling(cast, touched[..|touched| - 1], service)
  }

  lemma {:induction false} LastSpellingDecides(cast: Casting, row: Option<Grant>, touched: seq<Text>, request: ByService,
                                               service: Text, scope: Text)
    ensures var last := LastSpelling(cast, touched, service);
            var result := RowAfter(cast, row, touched, request, service, scope);
            && (last.None? ==> result == row)
            && (last.Some? ==> (Stands(result) <==> scope in NamesOf(request, last.value)))
  {
    if touched != [] {
      LastSpellingDecides(cast, row, touched[..|touched| - 1], request, service, scope);
    }
  }

  /** In ascending order the last spelling is the greatest. */
  lemma {:induction false} LastSpellingIsGreatest(cast: Casting, touched: seq<Text>, service: Text)
    requires Ascending(touched)
    ensures var last := LastSpelling(cast, touched, service);
            && (last.Some? ==> last.value in touched && cast(last.value) == Some(service))
            && (forall t :: t in touched && cast(t) == Some(service) ==>
                  last.Some? && (t == last.value || Less(t, last.value)))
  {
    if touched != [] {
      var before, t := touched[..|touched| - 1], touched[|touched| - 1];
      assert touched == before + [t];
      LastSpellingIsGreatest(cast, before, service);
      forall u | u in before ensures Less(u, t) {
        var i :| 0 <= i < |before| && before[i] == u;
        assert Less(touched[i], touched[|touched| - 1]);
      }
    }
  }

  lemma TouchedTexts(outcome: Outcome, request: ByService, t: Text)
    requires outcome.Done? && Elements(outcome.touched) == outcome.previous.Keys + request.Keys
    ensures t in outcome.touched <==> t in outcome.previous || t in request
  {
    assert t in outcome.touched <==> t in Elements(outcome.touched);
  }

  /** A requested spelling is the last of its service exactly when it is not overtaken. */
  lemma LastUnlessOvertaken(cast: Casting, before: Grants, after: Grants, services: set<Text>, open: OpenScopes,
                            credential: Text, request: ByService, outcome: Outcome, t: Text)
    requires IsReplacement(cast, before, after, services, open, credential, request, outcome) && t in request
    ensures cast(t).Some?
    ensures LastSpelling(cast, outcome.touched, cast(t).value)
         == Some(if Overtaken(cast, outcome.previous, t) then cast(t).value else t)
  {
    var s := cast(t).value;
    PreviousIsWellSpelled(cast, before, open, credential, outcome.previous);
    LastSpellingIsGreatest(cast, outcome.touched, s);
    TouchedTexts(outcome, request, t);
    TouchedTexts(outcome, request, s);
    var last := LastSpelling(cast, outcome.touched, s).value;
    TouchedTexts(outcome, request, last);
    assert last in outcome.previous ==> last == s;
    assert last in request ==> last == t;
    LessTrichotomy(t, s);
    LessTrichotomy(t, last);
    LessTrichotomy(s, last);
  }

  // ---------------------------------------------------------------------------------------------------------
  // The live grants afterwards
  // ---------------------------------------------------------------------------------------------------------

  /** A live grant is one that was asked for under a spelling that is not overtaken. */
  lemma LiveGrantsAre(cast: Casting, before: Grants, after: Grants, services: set<Text>, open: OpenScopes,
                      credential: Text, request: ByService, outcome: Outcome, k: Key)
    requires IsReplacement(cast, before, after, services, open, credential, request, outcome)
    requires k.credential == credential
    ensures Live(after, open, k) <==> exists t :: Asks(cast, request, t, k) && !Overtaken(cast, outcome.previous, t)
  {
    var previous, touched := outcome.previous, outcome.touched;
    assert Lookup(after, k) == RowAfter(cast, Lookup(before, k), touched, request, k.service, k.scope);
    LastSpellingDecides(cast, Lookup(before, k), touched, request, k.service, k.scope);
    LastSpellingIsGreatest(cast, touched, k.service);
    forall t | Asks(cast, request, t, k) ensures AllOpen(cast, open, t, request) {
      LastUnlessOvertaken(cast, before, after, services, open, credential, request, outcome, t);
    }
    if Live(after, open, k) {
      var last := LastSpelling(cast, touched, k.service);
      if last.None? {
        assert k == Key(credential, k.service, k.scope) && Live(before, open, k);
        TouchedTexts(outcome, request, k.service);
        assert false;
      }
      assert Asks(cast, request, last.value, k);
      LastUnlessOvertaken(cast, before, after, services, open, credential, request, outcome, last.value);
      LessTrichotomy(last.value, k.service);
    }
    if t :| Asks(cast, request, t, k) && !Overtaken(cast, previous, t) {
      LastUnlessOvertaken(cast, before, after, services, open, credential, request, outcome, t);
      assert (k.service, k.scope) in open;
    }
  }

  /** No requested scope is named under an overtaken spelling. */
  ghost predicate NothingOvertaken(cast: Casting, previous: ByService, request: ByService) {
    forall t :: t in request && request[t] != [] ==> !Overtaken(cast, previous, t)
  }

  /** Nothing else asks for a grant that was asked for under an overtaken spelling. */
  lemma OvertakenKeyIsLost(cast: Casting, services: set<Text>, previous: ByService, request: ByService, t: Text, k: Key)
    requires ServicesFit(cast, services, request)
    requires Asks(cast, request, t, k) && Overtaken(cast, previous, t)
    ensures Asked(cast, request, k)
    ensures !exists u :: Asks(cast, request, u, k) && !Overtaken(cast, previous, u)
  {
    forall u | Asks(cast, request, u, k) ensures u == t {
    }
  }

  /**
   Afterwards the live grants of the credential are exactly the request, if and only if each requested spelling of a
   service with live grants is the stored one or sorts after it.
   */
  lemma LiveGrantsAreTheRequest(cast: Casting, before: Grants, after: Grants, services: set<Text>, open: OpenScopes,
                                credential: Text, request: ByService, outcome: Outcome)
    requires IsReplacement(cast, before, after, services, open, credential, request, outcome)
    ensures (forall k: Key :: k.credential == credential ==> (Live(after, open, k) <==> Asked(cast, request, k)))
       <==> NothingOvertaken(cast, outcome.previous, request)
  {
    forall k: Key | k.credential == credential
      ensures Live(after, open, k) <==> exists t :: Asks(cast, request, t, k) && !Overtaken(cast, outcome.previous, t)
    {
      LiveGrantsAre(cast, before, after, services, open, credential, request, outcome, k);
    }
    if NothingOvertaken(cast, outcome.previous, request) {
      forall k: Key | k.credential == credential ensures Live(after, open, k) <==> Asked(cast, request, k) {
        assert forall t :: Asks(cast, request, t, k) ==> !Overtaken(cast, outcome.previous, t);
      }
    } else {
      var t :| t in request && request[t] != [] && Overtaken(cast, outcome.previous, t);
      OvertakenKeyIsLost(cast, services, outcome.previous, request, t, Key(credential, cast(t).value, request[t][0]));
    }
  }

  /** A replacement under one overtaken spelling ends with no live grant of its service, and reports a swap. */
  lemma OvertakenRequestLosesItsGrants(cast: Casting, before: Grants, after: Grants, services: set<Text>,
                                       open: OpenScopes, credential: Text, t: Text, names: seq<Text>, outcome: Outcome)
    requires names != [] && IsReplacement(cast, before, after, services, open, credential, map[t := names], outcome)
    requires Overtaken(cast, outcome.previous, t)
    ensures forall n :: !Live(after, open, Key(credential, cast(t).value, n))
    ensures Change(t, [], names) in outcome.diff.added
    ensures outcome.previous[cast(t).value] != [] ==>
              Change(cast(t).value, outcome.previous[cast(t).value], []) in outcome.diff.removed
  {
    var request, s := map[t := names], cast(t).value;
    forall n ensures !Live(after, open, Key(credential, s, n)) {
      LiveGrantsAre(cast, before, after, services, open, credential, request, outcome, Key(credential, s, n));
    }
    PreviousIsWellSpelled(cast, before, open, credential, outcome.previous);
    LessTrichotomy(t, s);
    assert t !in outcome.previous && s !in request;
    TouchedTexts(outcome, request, t);
    TouchedTexts(outcome, request, s);
    TouchedIsListed(outcome.previous, request, outcome.touched, t);
    TouchedIsListed(outcome.previous, request, outcome.touched, s);
  }

  /** What working a service off once makes of one of its rows: versions count every revocation and every grant. */
  function MovedOn(row: Option<Grant>, asked: bool): Option<Grant> {
    match row
    case None => if asked then Some(Grant(true, false, 0)) else None
    case Some(g) =>
      if asked then Some(Grant(true, false, g.version + if g.revoked then 1 else 2))
      else if g.revoked then row
      else Some(Grant(false, true, g.version + 1))
  }

  lemma {:induction false} WorkedOffOnce(cast: Casting, row: Option<Grant>, touched: seq<Text>, request: ByService,
                                         service: Text, scope: Text, t: Text)
    requires Distinct(touched) && forall u :: u in touched && cast(u) == Some(service) ==> u == t
    requires cast(t) == Some(service)
    ensures RowAfter(cast, row, touched, request, service, scope)
         == if t in touched then MovedOn(row, scope in NamesOf(request, t)) else row
  {
    if touched != [] {
      var before, last := touched[..|touched| - 1], touched[|touched| - 1];
      assert touched == before + [last];
      WorkedOffOnce(cast, row, before, request, service, scope, t);
      if last == t {
        forall i | 0 <= i < |before| ensures before[i] != t { assert touched[i] != touched[|touched| - 1]; }
      }
    }
  }

  /** A row of a service that the replacement touches under one spelling moves on once, whatever it was before. */
  lemma TouchedRowMovesOn(cast: Casting, before: Grants, after: Grants, services: set<Text>, open: OpenScopes,
                          credential: Text, request: ByService, outcome: Outcome, k: Key, t: Text)
    requires IsReplacement(cast, before, after, services, open, credential, request, outcome)
    requires k.credential == credential && t in outcome.touched && cast(t) == Some(k.service)
    requires forall u :: u in outcome.touched && cast(u) == Some(k.service) ==> u == t
    ensures Lookup(after, k) == MovedOn(Lookup(before, k), k.scope in NamesOf(request, t))
  {
    AscendingDistinct(outcome.touched);
    WorkedOffOnce(cast, Lookup(before, k), outcome.touched, request, k.service, k.scope, t);
  }

  // Upper case ------------------------------------------------------------------------------------------------

  predicate IsUpper(u: CodeUnit) {
    65 <= u <= 90
  }

  function Lowered(t: Text): Text {
    if t == [] then [] else [if IsUpper(t[0]) then t[0] + 32 else t[0]] + Lowered(t[1..])
  }

  /** A text with an upper-case letter sorts before its lower-case spelling. */
  lemma {:induction false} UpperCaseSortsFirst(t: Text, i: nat)
    requires i < |t| && IsUpper(t[i])
    ensures Less(t, Lowered(t))
    decreases i
  {
    if !IsUpper(t[0]) { UpperCaseSortsFirst(t[1..], i - 1); }
  }

  lemma OneNormalName(n: Text)
    requires n != [] && Trim(n) == n
    ensures NormalizeScopeNames([n]) == [n]
  {
    NormalForm([n]);
    SameMembersSameList(NormalizeScopeNames([n]), [n]);
  }

  lemma OneEntryIsRequested(t: Text, n: Text)
    requires n != [] && Trim(n) == n
    ensures Requested([Input(t, [n])]) == Some(map[t := [n]])
  {
    OneNormalName(n);
    assert Normalized([Input(t, [n])]) == [Input(t, [n])];
    assert [Input(t, [n])][..0] == [];
    assert Collected([]) == Some(map[]);
  }

  lemma OneGrantIsPrevious(open: OpenScopes, credential: Text, s: Text, n: Text)
    requires (s, n) in open && n != [] && Trim(n) == n
    ensures IsPrevious(map[Key(credential, s, n) := Grant(true, false, 0)], open, credential, map[s := [n]])
  {
    assert Live(map[Key(credential, s, n) := Grant(true, false, 0)], open, Key(credential, s, n));
  }

  /** One grant, and what is left of it after its own spelling was worked off last. */
  lemma OvertakenRow(cast: Casting, credential: Text, t: Text, s: Text, n: Text)
    requires cast(t) == Some(s) == cast(s) && t != s
    ensures var k := Key(credential, s, n);
            Replaced(cast, map[k := Grant(true, false, 0)], map[k := Grant(false, true, 3)], credential, [t, s], map[t := [n]])
  {
    var k, request := Key(credential, s, n), map[t := [n]];
    assert [t, s][..1] == [t] && [t][..0] == [];
    forall x: Key | x.credential == credential
      ensures Lookup(map[k := Grant(false, true, 3)], x)
           == RowAfter(cast, Lookup(map[k := Grant(true, false, 0)], x), [t, s], request, x.service, x.scope)
    {
      var row := Lookup(map[k := Grant(true, false, 0)], x);
      assert RowAfter(cast, row, [], request, x.service, x.scope) == row;
      assert RowAfter(cast, row, [t], request, x.service, x.scope)
          == if x.service == s then Rewritten(row, x.scope == n) else row;
    }
  }

  lemma OneEntryIsAccepted(cast: Casting, usable: set<Text>, services: set<Text>, open: OpenScopes, credential: Text,
                           t: Text, s: Text, n: Text)
    requires cast(t) == Some(s) && credential in usable && s in services && (s, n) in open && n != [] && Trim(n) == n
    ensures Refusal(cast, usable, services, open, credential, [Input(t, [n])]) == None
  {
    OneEntryIsRequested(t, n);
  }

  lemma OvertakenReplacement(cast: Casting, services: set<Text>, open: OpenScopes, credential: Text, t: Text, s: Text,
                             n: Text) returns (outcome: Outcome)
    requires IsCasting(cast) && cast(t) == Some(s) && Less(t, s) && s in services && (s, n) in open
    requires n != [] && Trim(n) == n
    ensures var k := Key(credential, s, n);
            IsReplacement(cast, map[k := Grant(true, false, 0)], map[k := Grant(false, true, 3)], services, open,
                          credential, map[t := [n]], outcome)
    ensures outcome.previous == map[s := [n]]
  {
    var previous: ByService, request: ByService := map[s := [n]], map[t := [n]];
    LessTrichotomy(t, s);
    OneGrantIsPrevious(open, credential, s, n);
    OvertakenRow(cast, credential, t, s, n);
    assert Elements([t, s]) == {s} + {t};
    outcome := Done(previous, [t, s], DiffOf(previous, request, [t, s]));
  }

  /**
   A credential holds one scope of a service, and asks for that very scope, spelling the service with an upper-case
   letter. The request is not refused, and its replacement leaves the credential without the scope.
   */
  lemma UpperCaseRequestIsOvertaken(cast: Casting, usable: set<Text>, services: set<Text>, open: OpenScopes,
                                    credential: Text, t: Text, i: nat, n: Text) returns (outcome: Outcome)
    requires IsCasting(cast) && cast(t) == Some(Lowered(t)) && i < |t| && IsUpper(t[i])
    requires credential in usable && Lowered(t) in services && (Lowered(t), n) in open && n != [] && Trim(n) == n
    ensures Refusal(cast, usable, services, open, credential, [Input(t, [n])]) == None
    ensures var k, request := Key(credential, Lowered(t), n), Requested([Input(t, [n])]);
            var before, after := map[k := Grant(true, false, 0)], map[k := Grant(false, true, 3)];
            && request == Some(map[t := [n]])
            && IsReplacement(cast, before, after, services, open, credential, request.value, outcome)
            && Overtaken(cast, outcome.previous, t) && Live(before, open, k) && !Live(after, open, k)
  {
    UpperCaseSortsFirst(t, i);
    OneEntryIsRequested(t, n);
    OneEntryIsAccepted(cast, usable, services, open, credential, t, Lowered(t), n);
    outcome := OvertakenReplacement(cast, services, open, credential, t, Lowered(t), n);
  }

  /** There is such a cast, and such a request: "A" for "a". */
  lemma UpperCaseInstance() returns (outcome: Outcome)
    ensures var cast: Casting := (t: Text) => Some(Lowered(t));
            && IsCasting(cast)
            && IsReplacement(cast, map[Key([1], [97], [98]) := Grant(true, false, 0)],
                             map[Key([1], [97], [98]) := Grant(false, true, 3)], {[97]}, {([97], [98])}, [1],
                             map[[65] := [[98]]], outcome)
            && Overtaken(cast, outcome.previous, [65])
  {
    forall t ensures Lowered(Lowered(t)) == Lowered(t) { LoweredTwice(t); }
    var t: Text := [65];
    assert t[1..] == [] && Lowered(t) == [97];
    OneEntryIsRequested(t, [98]);
    outcome := UpperCaseRequestIsOvertaken((t: Text) => Some(Lowered(t)), {[1]}, {[97]}, {([97], [98])}, [1], t, 0, [98]);
  }

  lemma {:induction false} LoweredTwice(t: Text)
    ensures Lowered(Lowered(t)) == Lowered(t)
  {
    if t != [] {
      LoweredTwice(t[1..]);
      assert Lowered(t)[1..] == Lowered(t[1..]);
    }
  }

  /** The change of a touched text stands in the list of its kind. */
  lemma {:induction false} TouchedIsListed(previous: ByService, request: ByService, touched: seq<Text>, t: Text)
    requires t in touched
    ensures var d, c := DiffOf(previous, request, touched), ChangeOf(previous, request, t);
            && (Added.Fits(c) ==> c in d.added) && (Removed.Fits(c) ==> c in d.removed)
            && (Changed.Fits(c) ==> c in d.changed) && (Kept.Fits(c) ==> c in d.kept)
  {
    var before, last := touched[..|touched| - 1], touched[|touched| - 1];
    assert touched == before + [last];
    var c := ChangeOf(previous, request, last);
    assert SameStringSet(c.before, c.after) <==> c.before == c.after;
    if t in before { TouchedIsListed(previous, request, before, t); }
  }

  // ---------------------------------------------------------------------------------------------------------
  // History
  // ---------------------------------------------------------------------------------------------------------

  lemma {:induction false} RowsOnlyGrow(cast: Casting, row: Option<Grant>, touched: seq<Text>, request: ByService,
                                        service: Text, scope: Text)
    requires row.Some?
    ensures var result := RowAfter(cast, row, touched, request, service, scope);
            result.Some? && row.value.version <= result.value.version
  {
    if touched != [] { RowsOnlyGrow(cast, row, touched[..|touched| - 1], request, service, scope); }
  }

  /** No row disappears, versions only grow, and rows of other credentials stay as they are. */
  lemma HistoryIsKept(cast: Casting, before: Grants, after: Grants, services: set<Text>, open: OpenScopes,
                      credential: Text, request: ByService, outcome: Outcome, k: Key)
    requires IsReplacement(cast, before, after, services, open, credential, request, outcome)
    ensures k in before ==> k in after && before[k].version <= after[k].version
    ensures k.credential != credential ==> Lookup(after, k) == Lookup(before, k)
  {
    assert Lookup(after, k) ==
      if k.credential == credential then RowAfter(cast, Lookup(before, k), outcome.touched, request, k.service, k.scope)
      else Lookup(before, k);
    if k in before { RowsOnlyGrow(cast, Lookup(before, k), outcome.touched, request, k.service, k.scope); }
  }

  lemma {:induction false} OneSpelling(cast: Casting, row: Option<Grant>, touched: seq<Text>, request: ByService,
                                       service: Text, scope: Text)
    requires Distinct(touched) && forall t :: t in touched && cast(t) == Some(service) ==> t == service
    requires cast(service) == Some(service)
    ensures RowAfter(cast, row, touched, request, service, scope)
         == if service in touched then Rewritten(row, scope in NamesOf(request, service)) else row
  {
    if touched != [] {
      var before, last := touched[..|touched| - 1], touched[|touched| - 1];
      assert touched == before + [last];
      assert last !in before;
      OneSpelling(cast, row, before, request, service, scope);
    }
  }

  /** A service that the difference calls kept is still rewritten: each of its live rows moves on by two versions. */
  lemma KeptServicesAreRewritten(cast: Casting, before: Grants, after: Grants, services: set<Text>, open: OpenScopes,
                                 credential: Text, request: ByService, outcome: Outcome, k: Key)
    requires IsReplacement(cast, before, after, services, open, credential, request, outcome)
    requires k.credential == credential && Live(before, open, k) && k.scope in NamesOf(request, k.service)
    ensures k in after && after[k] == Grant(true, false, before[k].version + 2)
  {
    PreviousIsWellSpelled(cast, before, open, credential, outcome.previous);
    AscendingDistinct(outcome.touched);
    TouchedTexts(outcome, request, k.service);
    forall t | t in outcome.touched && cast(t) == Some(k.service) ensures t == k.service {
      TouchedTexts(outcome, request, t);
    }
    OneSpelling(cast, Lookup(before, k), outcome.touched, request, k.service, k.scope);
    assert Lookup(after, k) == Rewritten(Lookup(before, k), true);
  }

  /**
   The administrator's list ignores whether a scope is revoked. It shows more than the request exactly for standing
   rows of services that the replacement did not touch, and all of those have revoked scopes.
   */
  lemma ListMayShowRevokedScopes(cast: Casting, before: Grants, after: Grants, services: set<Text>, open: OpenScopes,
                                 credential: Text, request: ByService, outcome: Outcome, k: Key)
    requires IsReplacement(cast, before, after, services, open, credential, request, outcome)
    requires k.credential == credential
    ensures Standing(after, k) && !Asked(cast, request, k)
       <==> LastSpelling(cast, outcome.touched, k.service).None? && Standing(before, k)
    ensures Standing(after, k) && !Asked(cast, request, k) ==> (k.service, k.scope) !in open
  {
    var last := LastSpelling(cast, outcome.touched, k.service);
    assert Lookup(after, k) == RowAfter(cast, Lookup(before, k), outcome.touched, request, k.service, k.scope);
    LastSpellingDecides(cast, Lookup(before, k), outcome.touched, request, k.service, k.scope);
    LastSpellingIsGreatest(cast, outcome.touched, k.service);
    TouchedTexts(outcome, request, k.service);
    forall t | t in request ensures t in outcome.touched { TouchedTexts(outcome, request, t); }
    assert last.Some? && Standing(after, k) ==> Asks(cast, request, last.value, k);
    assert k == Key(credential, k.service, k.scope);
    assert Live(before, open, k) ==> k.service in outcome.previous;
  }

  // ---------------------------------------------------------------------------------------------------------
  // Sending a request again
  // ---------------------------------------------------------------------------------------------------------

  lemma RequestedNamesAreTrimmed(inputs: seq<Input>, t: Text, n: Text)
    requires Requested(inputs).Some? && n in NamesOf(Requested(inputs).value, t)
    ensures n != [] && Trim(n) == n
  {
    RequestedExactlyWhenAgreeing(inputs);
    var i := EntryOfService(Normalized(inputs), Requested(inputs).value, t);
    NormalForm(inputs[i].scopeNames);
    var m :| m in inputs[i].scopeNames && Trim(m) == n;
    TrimIsIdempotent(m);
  }

  /** What the next replacement reads back for a requested service: the requested names, unless they were overtaken. */
  lemma RequestReadsBack(cast: Casting, before: Grants, after: Grants, services: set<Text>, open: OpenScopes,
                         credential: Text, inputs: seq<Input>, outcome: Outcome, again: ByService, t: Text)
    requires Requested(inputs).Some? && t in Requested(inputs).value
    requires IsReplacement(cast, before, after, services, open, credential, Requested(inputs).value, outcome)
    requires IsPrevious(after, open, credential, again)
    ensures cast(t).Some?
    ensures NamesOf(again, cast(t).value)
         == if Overtaken(cast, outcome.previous, t) then [] else Requested(inputs).value[t]
  {
    var request, s := Requested(inputs).value, cast(t).value;
    var expected := if Overtaken(cast, outcome.previous, t) then [] else request[t];
    forall n ensures Live(after, open, Key(credential, s, n)) <==> n in expected {
      LiveGrantsAre(cast, before, after, services, open, credential, request, outcome, Key(credential, s, n));
      assert n in request[t] ==> Asks(cast, request, t, Key(credential, s, n));
      forall u | Asks(cast, request, u, Key(credential, s, n)) ensures u == t {
      }
    }
    forall n | n in request[t] ensures n != [] && Trim(n) == n {
      assert n in NamesOf(request, t);
      RequestedNamesAreTrimmed(inputs, t, n);
    }
    RequestIsNormal(inputs, t);
    forall n ensures n in NamesOf(again, s) <==> n in expected {
      if n in expected { assert Live(after, open, Key(credential, s, n)) && Trim(n) == n; }
    }
    SameMembersSameList(NamesOf(again, s), expected);
  }

  lemma {:induction false} EqualSidesAreKept(previous: ByService, request: ByService, touched: seq<Text>)
    requires forall t :: t in touched ==> NamesOf(previous, t) == NamesOf(request, t)
    ensures var d := DiffOf(previous, request, touched); d.added == d.changed == d.removed == []
  {
    if touched != [] {
      EqualSidesAreKept(previous, request, touched[..|touched| - 1]);
      assert touched[|touched| - 1] in touched;
    }
  }

  /** Every requested name stands under the stored spelling of its service. */
  ghost predicate SpelledAsStored(cast: Casting, request: ByService) {
    forall t :: t in request && request[t] != [] ==> cast(t) == Some(t)
  }

  lemma SecondSidesAreEqual(cast: Casting, before: Grants, after: Grants, services: set<Text>, open: OpenScopes,
                            credential: Text, inputs: seq<Input>, first: Outcome, again: ByService, t: Text)
    requires Requested(inputs).Some? && SpelledAsStored(cast, Requested(inputs).value)
    requires IsReplacement(cast, before, after, services, open, credential, Requested(inputs).value, first)
    requires WellSpelled(cast, after) && IsPrevious(after, open, credential, again)
    ensures NamesOf(again, t) == NamesOf(Requested(inputs).value, t)
  {
    var request := Requested(inputs).value;
    PreviousIsWellSpelled(cast, after, open, credential, again);
    if t in request {
      RequestReadsBack(cast, before, after, services, open, credential, inputs, first, again, t);
      LessTrichotomy(t, t);
    } else if t in again {
      var n :| Live(after, open, Key(credential, t, n));
      LiveGrantsAre(cast, before, after, services, open, credential, request, first, Key(credential, t, n));
    }
  }

  /** Sending one request twice in a row reports no difference the second time exactly when it is spelled as stored. */
  lemma SecondRequestIsAllKept(cast: Casting, before: Grants, after: Grants, final: Grants, services: set<Text>,
                               open: OpenScopes, credential: Text, inputs: seq<Input>, first: Outcome, second: Outcome)
    requires Requested(inputs).Some?
    requires IsReplacement(cast, before, after, services, open, credential, Requested(inputs).value, first)
    requires IsReplacement(cast, after, final, services, open, credential, Requested(inputs).value, second)
    ensures second.diff.added == second.diff.changed == second.diff.removed == []
       <==> SpelledAsStored(cast, Requested(inputs).value)
  {
    var request := Requested(inputs).value;
    if SpelledAsStored(cast, request) {
      forall t | t in second.touched ensures NamesOf(second.previous, t) == NamesOf(request, t) {
        SecondSidesAreEqual(cast, before, after, services, open, credential, inputs, first, second.previous, t);
      }
      EqualSidesAreKept(second.previous, request, second.touched);
    } else {
      var t :| t in request && request[t] != [] && cast(t) != Some(t);
      PreviousIsWellSpelled(cast, after, open, credential, second.previous);
      TouchedTexts(second, request, t);
      TouchedIsListed(second.previous, request, second.touched, t);
    }
  }
}
