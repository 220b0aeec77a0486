/**
 How `JSON.stringify` prints, compared with canonical JSON: they differ in the order of members only.
 */
module JsonTexts {
  import opened CodeUnits
  import opened Utf8
  import opened CanonicalJson
  import opened CanonicalText
  import opened CanonicalObjects
  import opened JsonRecords

  /** Every object has its members in ascending order of their names. */
  ghost predicate InOrder(v: Json) {
    match v
    case Arr(items) => forall i :: 0 <= i < |items| ==> InOrder(items[i])
    case Obj(ms) => Ascending(Keys(ms)) && forall i :: 0 <= i < |ms| ==> InOrder(ms[i].value)
    case _ => true
  }

  /** A value whose members are in order is printed as canonical JSON prints it. */
  lemma {:induction false} OrderedPrintsCanonically(v: Json)
    requires InOrder(v)
    ensures Stringify(v) == Canon(v)
    decreases v, 1
  {
    match v
    case Arr(items) => ItemsPrintCanonically(items);
    case Obj(ms) => MembersPrintCanonically(ms);
    case _ =>
  }

  lemma {:induction false} ItemsPrintCanonically(items: seq<Json>)
    requires forall i :: 0 <= i < |items| ==> InOrder(items[i])
    ensures StringifyItems(items) == CanonItems(items)
    decreases items, 0
  {
    if items != [] {
      OrderedPrintsCanonically(items[0]);
      ItemsPrintCanonically(items[1..]);
    }
  }

  lemma HeadIsLeast(ks: seq<Text>, k: Text)
    requires ks != [] && Ascending(ks) && k in ks
    ensures k == ks[0] || Less(ks[0], k)
  {
    var i :| 0 <= i < |ks| && ks[i] == k;
  }

  lemma TailAscends(ks: seq<Text>)
    requires ks != [] && Ascending(ks)
    ensures Ascending(ks[1..])
  {
    forall i, j | 0 <= i < j < |ks[1..]| ensures Less(ks[1..][i], ks[1..][j]) {
      assert Less(ks[i + 1], ks[j + 1]);
    }
  }

  lemma AscendingHasLeast(ks: seq<Text>)
    requires ks != [] && Ascending(ks)
    ensures Distinct(ks) && (forall k :: k in ks ==> k == ks[0] || Less(ks[0], k)) && ks[0] !in ks[1..]
  {
    AscendingDistinct(ks);
    forall k | k in ks ensures k == ks[0] || Less(ks[0], k) { HeadIsLeast(ks, k); }
  }

  lemma LeastIsFirst(ms: seq<Member>)
    requires ms != [] && Ascending(Keys(ms))
    ensures Distinct(Keys(ms)) && IsLeast(ms, ms[0].key) && Ascending(Keys(ms[1..]))
    ensures Get(ms, ms[0].key) == ms[0].value && Without(ms, ms[0].key) == ms[1..]
  {
    var ks := Keys(ms);
    assert ks == [ms[0].key] + Keys(ms[1..]);
    AscendingHasLeast(ks);
    TailAscends(ks);
    assert ks[1..] == Keys(ms[1..]);
    AbsentStays(ms[1..], ms[0].key);
  }

  lemma {:induction false} AbsentStays(ms: seq<Member>, key: Text)
    requires key !in Keys(ms)
    ensures Without(ms, key) == ms
  {
    if ms != [] {
      assert ms == [ms[0]] + ms[1..];
      KeysOfCons(ms[0], ms[1..]);
      AbsentStays(ms[1..], key);
    }
  }

  lemma {:induction false} MembersPrintCanonically(ms: seq<Member>)
    requires Ascending(Keys(ms)) && forall i :: 0 <= i < |ms| ==> InOrder(ms[i].value)
    ensures Stringify(Obj(ms)) == Canon(Obj(ms))
    decreases ms, 0
  {
    if ms == [] {
      Spelling();
    } else {
      LeastIsFirst(ms);
      ObjectPrintsLeastFirst(ms, ms[0].key);
      OrderedPrintsCanonically(ms[0].value);
      MembersPrintCanonically(ms[1..]);
      OneMoreMember(ms);
    }
  }

  lemma OneMoreMember(ms: seq<Member>)
    requires ms != []
    ensures Stringify(Obj(ms)) ==
            [LEFT_BRACE] + (PrintString(ms[0].key) + [COLON] + Stringify(ms[0].value))
            + if |ms| == 1 then [RIGHT_BRACE] else [COMMA] + Stringify(Obj(ms[1..]))[1..]
  {
    var first, others := StringifyMember(ms[0]), StringifyMembers(ms[1..]);
    if |ms| == 1 {
      assert first + [] == first;
    } else {
      assert first + ([COMMA] + others) == first + [COMMA] + others;
      Enclosed(first, others);
    }
  }

  /** The names in a record of the archive. */
  lemma RecordNames()
    ensures KEY_EVENT_ID == Units("outboxEventId") && KEY_PAYLOAD == Units("payload")
  {
  }

  /** A record of the archive is a canonical text when its payload is in order. */
  lemma RecordPrintsCanonically(event: int, payload: Json)
    requires InOrder(payload)
    ensures Record(event, payload) == Encode(Canon(Obj([Member(KEY_EVENT_ID, Num(event)), Member(KEY_PAYLOAD, payload)])))
  {
    var ms := [Member(KEY_EVENT_ID, Num(event)), Member(KEY_PAYLOAD, payload)];
    assert Keys(ms) == [KEY_EVENT_ID, KEY_PAYLOAD];
    assert Less(KEY_EVENT_ID, KEY_PAYLOAD) by { assert KEY_EVENT_ID[0] < KEY_PAYLOAD[0]; }
    OrderedPrintsCanonically(Obj(ms));
  }
}
