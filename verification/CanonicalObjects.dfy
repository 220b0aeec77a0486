/**
 How canonical JSON prints an object: the member of the least name comes first, and the others print as the object that
 is left without it.
 */
module CanonicalObjects {
  import opened CodeUnits
  import opened CanonicalJson
  import opened CanonicalText

  /** The members of other names. */
  function Without(ms: seq<Member>, key: Text): (others: seq<Member>)
    ensures |others| <= |ms|
  {
    if ms == [] then []
    else if ms[0].key == key then Without(ms[1..], key)
    else [ms[0]] + Without(ms[1..], key)
  }

  lemma KeysOfCons(m: Member, ms: seq<Member>)
    ensures Keys([m] + ms) == [m.key] + Keys(ms)
  {
    assert ([m] + ms)[1..] == ms;
  }

  lemma GetFromCons(m: Member, ms: seq<Member>, k: Text)
    requires k in Keys([m] + ms)
    ensures k == m.key || k in Keys(ms)
    ensures Get([m] + ms, k) == if k == m.key then m.value else Get(ms, k)
  {
    KeysOfCons(m, ms);
    assert ([m] + ms)[1..] == ms;
  }

  lemma {:induction false} KeysWithout(ms: seq<Member>, key: Text, k: Text)
    ensures k in Keys(Without(ms, key)) <==> k in Keys(ms) && k != key
    ensures k in Keys(ms) && k != key ==> Get(Without(ms, key), k) == Get(ms, k)
  {
    if ms != [] {
      var m, rest := ms[0], ms[1..];
      assert ms == [m] + rest;
      KeysWithout(rest, key, k);
      KeysOfCons(m, rest);
      KeysOfCons(m, Without(rest, key));
      if k in Keys(ms) && k != key {
        GetFromCons(m, rest, k);
        if m.key != key { GetFromCons(m, Without(rest, key), k); }
      }
    }
  }

  lemma DistinctCons(k: Text, ks: seq<Text>)
    ensures Distinct([k] + ks) <==> k !in ks && Distinct(ks)
  {
    var all := [k] + ks;
    assert forall i :: 0 <= i < |ks| ==> all[i + 1] == ks[i];
    if Distinct(all) {
      forall i | 0 <= i < |ks| ensures ks[i] != k { assert all[0] != all[i + 1]; }
      forall i, j | 0 <= i < j < |ks| ensures ks[i] != ks[j] { assert all[i + 1] != all[j + 1]; }
    }
  }

  lemma {:induction false} DistinctWithout(ms: seq<Member>, key: Text)
    requires Distinct(Keys(ms))
    ensures Distinct(Keys(Without(ms, key)))
  {
    if ms != [] {
      var m, rest := ms[0], ms[1..];
      assert ms == [m] + rest;
      KeysOfCons(m, rest);
      DistinctCons(m.key, Keys(rest));
      DistinctWithout(rest, key);
      KeysWithout(rest, key, m.key);
      KeysOfCons(m, Without(rest, key));
      DistinctCons(m.key, Keys(Without(rest, key)));
    }
  }

  lemma SortedMembers(ts: seq<Text>, t: Text)
    ensures t in Sort(ts) <==> t in ts
  {
    SortElements(ts);
    assert t in Sort(ts) <==> t in Elements(Sort(ts));
    assert t in ts <==> t in Elements(ts);
  }

  lemma AscendingCons(k: Text, ks: seq<Text>)
    requires Ascending(ks) && forall j :: 0 <= j < |ks| ==> Less(k, ks[j])
    ensures Ascending([k] + ks)
  {
  }

  predicate IsLeast(ms: seq<Member>, key: Text) {
    key in Keys(ms) && forall k :: k in Keys(ms) ==> k == key || Less(key, k)
  }

  lemma SortedWithoutLeast(ms: seq<Member>, key: Text)
    requires Distinct(Keys(ms)) && IsLeast(ms, key)
    ensures Sort(Keys(ms)) == [key] + Sort(Keys(Without(ms, key)))
  {
    var a, others := Sort(Keys(ms)), Keys(Without(ms, key));
    var b := [key] + Sort(others);
    DistinctWithout(ms, key);
    SortAscending(Keys(ms));
    SortAscending(others);
    forall j | 0 <= j < |Sort(others)| ensures Less(key, Sort(others)[j]) { OtherIsGreater(ms, key, Sort(others)[j]); }
    AscendingCons(key, Sort(others));
    forall k ensures k in a <==> k in b { SameSorted(ms, key, k); }
    assert Elements(a) == Elements(b);
    AscendingUnique(a, b);
  }

  lemma OtherIsGreater(ms: seq<Member>, key: Text, k: Text)
    requires IsLeast(ms, key) && k in Sort(Keys(Without(ms, key)))
    ensures Less(key, k) && k in Keys(ms) && k != key
  {
    SortedMembers(Keys(Without(ms, key)), k);
    KeysWithout(ms, key, k);
  }

  lemma SameSorted(ms: seq<Member>, key: Text, k: Text)
    requires key in Keys(ms)
    ensures k in Sort(Keys(ms)) <==> k in [key] + Sort(Keys(Without(ms, key)))
  {
    SortedMembers(Keys(ms), k);
    SortedMembers(Keys(Without(ms, key)), k);
    KeysWithout(ms, key, k);
  }

  lemma {:induction false} OtherMembersPrintAlike(ms: seq<Member>, key: Text, keys: seq<Text>)
    requires forall k :: k in keys ==> k in Keys(ms) && k != key
    ensures forall k :: k in keys ==> k in Keys(Without(ms, key))
    ensures CanonMembers(ms, keys) == CanonMembers(Without(ms, key), keys)
    decreases |keys|
  {
    forall k | k in keys ensures k in Keys(Without(ms, key)) { KeysWithout(ms, key, k); }
    if keys != [] {
      KeysWithout(ms, key, keys[0]);
      OtherMembersPrintAlike(ms, key, keys[1..]);
    }
  }

  lemma FirstMemberPrints(ms: seq<Member>, keys: seq<Text>)
    requires keys != [] && forall k :: k in keys ==> k in Keys(ms)
    ensures CanonMembers(ms, keys) ==
            if |keys| == 1 then CanonMember(ms, keys[0])
            else CanonMember(ms, keys[0]) + [COMMA] + CanonMembers(ms, keys[1..])
  {
  }

  lemma CanonOfObject(ms: seq<Member>, keys: seq<Text>)
    requires keys == Sort(Keys(ms))
    ensures forall k :: k in keys ==> k in Keys(ms)
    ensures Canon(Obj(ms)) == [LEFT_BRACE] + CanonMembers(ms, keys) + [RIGHT_BRACE]
  {
    forall k | k in keys ensures k in Keys(ms) { SortedMembers(Keys(ms), k); }
  }

  lemma Enclosed(first: Text, others: Text)
    ensures [LEFT_BRACE] + (first + [COMMA] + others) + [RIGHT_BRACE]
         == [LEFT_BRACE] + first + ([COMMA] + ([LEFT_BRACE] + others + [RIGHT_BRACE])[1..])
  {
    assert ([LEFT_BRACE] + others + [RIGHT_BRACE])[1..] == others + [RIGHT_BRACE];
  }

  /** An object prints the member of the least name first, and then prints on as the object of the others. */
  lemma ObjectPrintsLeastFirst(ms: seq<Member>, key: Text)
    requires Distinct(Keys(ms)) && IsLeast(ms, key)
    ensures var first, rest := PrintString(key) + [COLON] + Canon(Get(ms, key)), Without(ms, key);
            Canon(Obj(ms)) ==
            [LEFT_BRACE] + first + if rest == [] then [RIGHT_BRACE] else [COMMA] + Canon(Obj(rest))[1..]
  {
    var rest := Without(ms, key);
    var keys, others := Sort(Keys(ms)), Sort(Keys(rest));
    SortedWithoutLeast(ms, key);
    CanonOfObject(ms, keys);
    CanonOfObject(rest, others);
    FirstMemberPrints(ms, keys);
    SortElements(Keys(rest));
    if others != [] {
      forall k | k in others ensures k in Keys(ms) && k != key { OtherIsGreater(ms, key, k); }
      OtherMembersPrintAlike(ms, key, others);
      assert keys[1..] == others;
      Enclosed(CanonMember(ms, key), CanonMembers(ms, others));
    }
  }
}
