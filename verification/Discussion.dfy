/**
 The discussion view of a generation job: the reducer that folds stream events into the message list, and the cursor
 that filters events delivered again after a reconnection.
 */
module Discussion {
  import opened CodeUnits
  import opened Options

  /** Event types: those that change a message, those that make the view load something, and the rest. */
  datatype Kind =
    | Created | Delta | Completed | Interrupted | Failed
    | ResyncRequired | SpecCreated | JobChanged | Unrelated

  datatype Status = Streaming | Ended(kind: Kind)

  datatype Message = Message(id: Text, sequence: int, role: Text, status: Status, content: Text, createdAt: Text)

  /** An envelope with the payload fields that have the expected type. */
  datatype Event = Event(id: int, kind: Kind, emittedAt: Text, messageId: Option<Text>, sequence: Option<int>,
                         role: Option<Text>, content: Option<Text>, delta: Option<Text>)

  const MAX_SAFE_INTEGER := 9007199254740991
  const ASSISTANT: Text := [65, 83, 83, 73, 83, 84, 65, 78, 84]

  function OrElse<T>(o: Option<T>, otherwise: T): T {
    if o.Some? then o.value else otherwise
  }

  /** The event names a message: an absent or empty id names none. */
  predicate Names(e: Event) {
    e.messageId.Some? && e.messageId.value != []
  }

  predicate IsEnd(kind: Kind) {
    kind.Completed? || kind.Interrupted? || kind.Failed?
  }

  // ---------------------------------------------------------------------------------------------------------
  // One message
  // ---------------------------------------------------------------------------------------------------------

  function Blank(e: Event, id: Text): Message {
    Message(id, MAX_SAFE_INTEGER, ASSISTANT, Streaming, [], e.emittedAt)
  }

  /** What an event does to the message it names. */
  function Next(current: Option<Message>, e: Event, id: Text): Option<Message> {
    if e.kind.Created? then
      if current.Some? then current
      else Some(Message(id, OrElse(e.sequence, MAX_SAFE_INTEGER), OrElse(e.role, ASSISTANT), Streaming,
                        OrElse(e.content, []), e.emittedAt))
    else if e.kind.Delta? then
      var m := OrElse(current, Blank(e, id));
      Some(m.(status := Streaming, content := m.content + OrElse(e.delta, [])))
    else if IsEnd(e.kind) then
      var m := OrElse(current, Blank(e, id));
      Some(m.(status := Ended(e.kind), content := OrElse(e.content, m.content)))
    else current
  }

  predicate About(e: Event, id: Text) {
    Names(e) && e.messageId.value == id
  }

  function OwnEvents(events: seq<Event>, id: Text): seq<Event> {
    if events == [] then []
    else
      var before := OwnEvents(events[..|events| - 1], id);
      if About(events[|events| - 1], id) then before + [events[|events| - 1]] else before
  }

  /** A message folded over events that all name it. */
  function FoldOwn(current: Option<Message>, own: seq<Event>, id: Text): Option<Message> {
    if own == [] then current else Next(FoldOwn(current, own[..|own| - 1], id), own[|own| - 1], id)
  }

  // ---------------------------------------------------------------------------------------------------------
  // The list
  // ---------------------------------------------------------------------------------------------------------

  function FindIndex(ms: seq<Message>, id: Text): (i: int)
    ensures -1 <= i < |ms|
    ensures i >= 0 ==> ms[i].id == id
    ensures forall j :: 0 <= j < (if i < 0 then |ms| else i) ==> ms[j].id != id
  {
    if ms == [] then -1
    else if ms[0].id == id then 0
    else
      var i := FindIndex(ms[1..], id);
      if i < 0 then -1 else i + 1
  }

  function Lookup(ms: seq<Message>, id: Text): Option<Message> {
    var i := FindIndex(ms, id);
    if i < 0 then None else Some(ms[i])
  }

  function InsertMessage(ms: seq<Message>, m: Message): (r: seq<Message>)
    ensures multiset(r) == multiset(ms) + multiset{m}
    decreases |ms|
  {
    if ms != [] && m.sequence < ms[|ms| - 1].sequence then
      assert ms == ms[..|ms| - 1] + [ms[|ms| - 1]];
      InsertMessage(ms[..|ms| - 1], m) + [ms[|ms| - 1]]
    else ms + [m]
  }

  /** The stable sort by sequence number. */
  function SortMessages(ms: seq<Message>): (r: seq<Message>)
    ensures multiset(r) == multiset(ms)
    decreases |ms|
  {
    if ms == [] then []
    else
      assert ms == ms[..|ms| - 1] + [ms[|ms| - 1]];
      InsertMessage(SortMessages(ms[..|ms| - 1]), ms[|ms| - 1])
  }

  /** The list before sorting: the named message replaced where it stands, or added at the end. */
  function Updated(ms: seq<Message>, e: Event): seq<Message> {
    if !Names(e) then ms
    else
      var id := e.messageId.value;
      var i := FindIndex(ms, id);
      match Next(Lookup(ms, id), e, id)
      case None => ms
      case Some(m) => if i < 0 then ms + [m] else ms[i := m]
  }

  function Reduced(ms: seq<Message>, e: Event): seq<Message> {
    SortMessages(Updated(ms, e))
  }

  /** `reduceDiscussionEvent` */
  method ReduceDiscussionEvent(messages: seq<Message>, e: Event) returns (next: seq<Message>)
    ensures next == Reduced(messages, e)
  {
    next := messages;
    var named := Names(e);
    var id := if named then e.messageId.value else [];
    var index := if named then FindIndex(messages, id) else -1;
    if e.kind.Created? && named && index < 0 {
      next := next + [Message(id, OrElse(e.sequence, MAX_SAFE_INTEGER), OrElse(e.role, ASSISTANT), Streaming,
                              OrElse(e.content, []), e.emittedAt)];
    } else if e.kind.Delta? && named {
      var current := if index >= 0 then next[index] else Blank(e, id);
      var replacement := current.(status := Streaming, content := current.content + OrElse(e.delta, []));
      if index >= 0 { next := next[index := replacement]; } else { next := next + [replacement]; }
    } else if IsEnd(e.kind) && named {
      var current := if index >= 0 then next[index] else Blank(e, id);
      var replacement := current.(status := Ended(e.kind), content := OrElse(e.content, current.content));
      if index >= 0 { next := next[index := replacement]; } else { next := next + [replacement]; }
    }
    assert next == Updated(messages, e) by {
      assert named && index >= 0 ==> messages[index := messages[index]] == messages;
    }
    next := SortMessages(next);
  }

  // ---------------------------------------------------------------------------------------------------------
  // Unique ids and the order of the list
  // ---------------------------------------------------------------------------------------------------------

  ghost predicate UniqueIds(ms: seq<Message>) {
    forall i, j :: 0 <= i < j < |ms| ==> ms[i].id != ms[j].id
  }

  ghost predicate Ordered(ms: seq<Message>) {
    forall i, j :: 0 <= i < j < |ms| ==> ms[i].sequence <= ms[j].sequence
  }

  lemma {:induction false} InsertKeepsOrder(ms: seq<Message>, m: Message)
    requires Ordered(ms)
    ensures Ordered(InsertMessage(ms, m))
    decreases |ms|
  {
    if ms != [] && m.sequence < ms[|ms| - 1].sequence {
      InsertKeepsOrder(ms[..|ms| - 1], m);
      var front := InsertMessage(ms[..|ms| - 1], m);
      forall i | 0 <= i < |front| ensures front[i].sequence <= ms[|ms| - 1].sequence {
        assert front[i] in multiset(front);
        if front[i] != m { assert front[i] in multiset(ms[..|ms| - 1]); }
      }
    }
  }

  lemma {:induction false} SortIsOrdered(ms: seq<Message>)
    ensures Ordered(SortMessages(ms))
    decreases |ms|
  {
    if ms != [] {
      SortIsOrdered(ms[..|ms| - 1]);
      InsertKeepsOrder(SortMessages(ms[..|ms| - 1]), ms[|ms| - 1]);
    }
  }

  /** The messages of one sequence number, in their order. */
  function WithSequence(ms: seq<Message>, sequence: int): seq<Message> {
    if ms == [] then []
    else
      var last := ms[|ms| - 1];
      WithSequence(ms[..|ms| - 1], sequence) + if last.sequence == sequence then [last] else []
  }

  lemma {:induction false} InsertIsStable(ms: seq<Message>, m: Message, sequence: int)
    ensures WithSequence(InsertMessage(ms, m), sequence)
         == WithSequence(ms, sequence) + if m.sequence == sequence then [m] else []
    decreases |ms|
  {
    if ms != [] && m.sequence < ms[|ms| - 1].sequence {
      var front, last := ms[..|ms| - 1], ms[|ms| - 1];
      InsertIsStable(front, m, sequence);
      WithSequenceOneMore(InsertMessage(front, m), last, sequence);
    } else {
      WithSequenceOneMore(ms, m, sequence);
    }
  }

  lemma WithSequenceOneMore(ms: seq<Message>, m: Message, sequence: int)
    ensures WithSequence(ms + [m], sequence) == WithSequence(ms, sequence) + if m.sequence == sequence then [m] else []
  {
    assert (ms + [m])[..|ms|] == ms;
  }

  /** The sort is stable: messages of one sequence number keep their order. */
  lemma {:induction false} SortIsStable(ms: seq<Message>, sequence: int)
    ensures WithSequence(SortMessages(ms), sequence) == WithSequence(ms, sequence)
    decreases |ms|
  {
    if ms != [] {
      SortIsStable(ms[..|ms| - 1], sequence);
      InsertIsStable(SortMessages(ms[..|ms| - 1]), ms[|ms| - 1], sequence);
    }
  }

  lemma OrderedWithoutLast(ms: seq<Message>)
    requires Ordered(ms) && ms != []
    ensures Ordered(ms[..|ms| - 1])
    ensures InsertMessage(ms[..|ms| - 1], ms[|ms| - 1]) == ms
  {
    var front, last := ms[..|ms| - 1], ms[|ms| - 1];
    assert front != [] ==> ms[|ms| - 2].sequence <= last.sequence;
    assert ms == front + [last];
  }

  lemma {:induction false} SortOfOrdered(ms: seq<Message>)
    requires Ordered(ms)
    ensures SortMessages(ms) == ms
    decreases |ms|
  {
    if ms != [] {
      OrderedWithoutLast(ms);
      SortOfOrdered(ms[..|ms| - 1]);
    }
  }

  /** Every message with the id of m replaced by m. */
  function Put(ms: seq<Message>, m: Message): (r: seq<Message>)
    ensures |r| == |ms| && forall i :: 0 <= i < |r| ==> r[i] == if ms[i].id == m.id then m else ms[i]
  {
    seq(|ms|, i requires 0 <= i < |ms| => if ms[i].id == m.id then m else ms[i])
  }

  ghost predicate SamePlace(ms: seq<Message>, m: Message) {
    forall i :: 0 <= i < |ms| && ms[i].id == m.id ==> ms[i].sequence == m.sequence
  }

  function PutOne(x: Message, m: Message): Message {
    if x.id == m.id then m else x
  }

  lemma PutWithLast(front: seq<Message>, last: Message, m: Message)
    ensures Put(front + [last], m) == Put(front, m) + [PutOne(last, m)]
  {
  }

  lemma InsertBeforeLast(front: seq<Message>, last: Message, x: Message)
    requires x.sequence < last.sequence
    ensures InsertMessage(front + [last], x) == InsertMessage(front, x) + [last]
  {
    assert (front + [last])[..|front|] == front;
  }

  lemma {:induction false} PutAndInsert(ms: seq<Message>, x: Message, m: Message)
    requires SamePlace(ms, m) && (x.id == m.id ==> x.sequence == m.sequence)
    ensures Put(InsertMessage(ms, x), m) == InsertMessage(Put(ms, m), PutOne(x, m))
    decreases |ms|
  {
    if ms != [] && x.sequence < ms[|ms| - 1].sequence {
      var front, last := ms[..|ms| - 1], ms[|ms| - 1];
      assert ms == front + [last];
      assert SamePlace(front, m);
      PutAndInsert(front, x, m);
      PutWithLast(front, last, m);
      PutWithLast(InsertMessage(front, x), last, m);
      InsertBeforeLast(front, last, x);
      InsertBeforeLast(Put(front, m), PutOne(last, m), PutOne(x, m));
    } else {
      PutWithLast(ms, x, m);
    }
  }

  /** Replacing a message in its place commutes with sorting. */
  lemma {:induction false} PutAndSort(ms: seq<Message>, m: Message)
    requires SamePlace(ms, m)
    ensures Put(SortMessages(ms), m) == SortMessages(Put(ms, m))
    decreases |ms|
  {
    if ms != [] {
      var front := ms[..|ms| - 1];
      PutAndSort(front, m);
      assert Put(ms, m)[..|ms| - 1] == Put(front, m);
      assert SamePlace(SortMessages(front), m) by {
        forall i | 0 <= i < |SortMessages(front)| && SortMessages(front)[i].id == m.id
          ensures SortMessages(front)[i].sequence == m.sequence
        {
          assert SortMessages(front)[i] in multiset(front);
        }
      }
      PutAndInsert(SortMessages(front), ms[|ms| - 1], m);
    }
  }

  lemma LookupIs(ms: seq<Message>, id: Text, m: Message)
    requires UniqueIds(ms)
    ensures Lookup(ms, id) == Some(m) <==> m in ms && m.id == id
  {
    if m in ms && m.id == id {
      var i :| 0 <= i < |ms| && ms[i] == m;
    }
  }

  lemma {:induction false} InsertKeepsUnique(ms: seq<Message>, m: Message)
    requires UniqueIds(ms + [m])
    ensures UniqueIds(InsertMessage(ms, m))
    decreases |ms|
  {
    if ms != [] && m.sequence < ms[|ms| - 1].sequence {
      var front, last := ms[..|ms| - 1], ms[|ms| - 1];
      assert forall i :: 0 <= i < |ms| ==> (ms + [m])[i] == ms[i];
      assert (ms + [m])[|ms|] == m;
      assert forall i :: 0 <= i < |front| ==> (front + [m])[i] == ms[i];
      InsertKeepsUnique(front, m);
      var r := InsertMessage(front, m);
      forall i | 0 <= i < |r| ensures r[i].id != last.id {
        assert r[i] in multiset(r);
        if r[i] != m {
          assert r[i] in multiset(front);
          var j :| 0 <= j < |front| && front[j] == r[i];
          assert ms[j].id != ms[|ms| - 1].id;
        }
      }
    }
  }

  lemma {:induction false} SortKeepsUnique(ms: seq<Message>)
    requires UniqueIds(ms)
    ensures UniqueIds(SortMessages(ms))
    decreases |ms|
  {
    if ms != [] {
      var front, last := ms[..|ms| - 1], ms[|ms| - 1];
      SortKeepsUnique(front);
      var sorted := SortMessages(front);
      forall i | 0 <= i < |sorted| ensures sorted[i].id != last.id {
        assert sorted[i] in multiset(front);
        var j :| 0 <= j < |front| && front[j] == sorted[i];
        assert ms[j].id != ms[|ms| - 1].id;
      }
      InsertKeepsUnique(sorted, last);
    }
  }

  lemma SortKeepsLookup(ms: seq<Message>, id: Text)
    requires UniqueIds(ms)
    ensures Lookup(SortMessages(ms), id) == Lookup(ms, id)
  {
    SortKeepsUnique(ms);
    var a, b := Lookup(ms, id), Lookup(SortMessages(ms), id);
    if a.Some? {
      assert a.value in multiset(SortMessages(ms));
      LookupIs(SortMessages(ms), id, a.value);
    }
    if b.Some? {
      assert b.value in multiset(ms);
      LookupIs(ms, id, b.value);
    }
  }

  // ---------------------------------------------------------------------------------------------------------
  // Folding a log
  // ---------------------------------------------------------------------------------------------------------

  lemma NextKeepsPlace(current: Option<Message>, e: Event, id: Text)
    requires current.Some? ==> current.value.id == id
    ensures Next(current, e, id).Some? ==> Next(current, e, id).value.id == id
    ensures current.Some? ==> Next(current, e, id).Some? && Next(current, e, id).value.sequence == current.value.sequence
  {
  }

  lemma UpdatedKeepsUnique(ms: seq<Message>, e: Event)
    requires UniqueIds(ms)
    ensures UniqueIds(Updated(ms, e))
  {
    if Names(e) {
      NextKeepsPlace(Lookup(ms, e.messageId.value), e, e.messageId.value);
    }
  }

  /** An event changes the message it names as that message alone would change, and no other. */
  lemma UpdatedLookup(ms: seq<Message>, e: Event, id: Text)
    requires UniqueIds(ms)
    ensures Lookup(Updated(ms, e), id) == if About(e, id) then Next(Lookup(ms, id), e, id) else Lookup(ms, id)
  {
    UpdatedKeepsUnique(ms, e);
    if Names(e) {
      var named := e.messageId.value;
      var i, next := FindIndex(ms, named), Next(Lookup(ms, named), e, named);
      NextKeepsPlace(Lookup(ms, named), e, named);
      var r := Updated(ms, e);
      if next.Some? {
        assert r[if i < 0 then |ms| else i] == next.value;
        LookupIs(r, named, next.value);
      }
      if id != named {
        var a, b := Lookup(ms, id), Lookup(r, id);
        if a.Some? {
          var j := FindIndex(ms, id);
          assert r[j] == ms[j];
          LookupIs(r, id, a.value);
        }
        if b.Some? {
          var j := FindIndex(r, id);
          assert r[j] == ms[j];
          LookupIs(ms, id, b.value);
        }
      }
    }
  }

  lemma ReducedLookup(ms: seq<Message>, e: Event, id: Text)
    requires UniqueIds(ms)
    ensures UniqueIds(Reduced(ms, e))
    ensures Lookup(Reduced(ms, e), id) == if About(e, id) then Next(Lookup(ms, id), e, id) else Lookup(ms, id)
  {
    UpdatedKeepsUnique(ms, e);
    UpdatedLookup(ms, e, id);
    SortKeepsUnique(Updated(ms, e));
    SortKeepsLookup(Updated(ms, e), id);
  }

  function Replay(ms: seq<Message>, events: seq<Event>): seq<Message> {
    if events == [] then ms else Reduced(Replay(ms, events[..|events| - 1]), events[|events| - 1])
  }

  /** After any log, ids are unique and each message is the fold of its own events only, each taken once. */
  lemma {:induction false} MessagesFoldTheirOwnEvents(ms: seq<Message>, events: seq<Event>, id: Text)
    requires UniqueIds(ms)
    ensures UniqueIds(Replay(ms, events))
    ensures Lookup(Replay(ms, events), id) == FoldOwn(Lookup(ms, id), OwnEvents(events, id), id)
  {
    if events != [] {
      var before, e := events[..|events| - 1], events[|events| - 1];
      MessagesFoldTheirOwnEvents(ms, before, id);
      ReducedLookup(Replay(ms, before), e, id);
      assert (OwnEvents(before, id) + [e])[..|OwnEvents(before, id)|] == OwnEvents(before, id);
    }
  }

  // The order of the list: sorting after every event is sorting once ------------------------------------------

  function UnsortedReplay(ms: seq<Message>, events: seq<Event>): seq<Message> {
    if events == [] then ms else Updated(UnsortedReplay(ms, events[..|events| - 1]), events[|events| - 1])
  }

  lemma UpdatedInPlace(ms: seq<Message>, m: Message, i: nat)
    requires UniqueIds(ms) && i < |ms| && ms[i].id == m.id && ms[i].sequence == m.sequence
    ensures ms[i := m] == Put(ms, m) && SamePlace(ms, m)
  {
  }

  lemma ReducedOfSorted(ms: seq<Message>, e: Event)
    requires UniqueIds(ms)
    ensures Reduced(SortMessages(ms), e) == SortMessages(Updated(ms, e))
  {
    var sorted := SortMessages(ms);
    SortIsOrdered(ms);
    SortOfOrdered(sorted);
    SortKeepsUnique(ms);
    if Names(e) {
      var id := e.messageId.value;
      SortKeepsLookup(ms, id);
      var next := Next(Lookup(ms, id), e, id);
      NextKeepsPlace(Lookup(ms, id), e, id);
      var i, j := FindIndex(ms, id), FindIndex(sorted, id);
      assert i < 0 <==> j < 0;
      if next.Some? {
        var m := next.value;
        if i < 0 {
          assert (ms + [m])[..|ms|] == ms && (sorted + [m])[..|sorted|] == sorted;
        } else {
          UpdatedInPlace(ms, m, i);
          UpdatedInPlace(sorted, m, j);
          PutAndSort(ms, m);
          SortIsOrdered(Put(ms, m));
          SortOfOrdered(SortMessages(Put(ms, m)));
        }
      }
    }
  }

  /**
   The list is in order of sequence number, and messages with equal numbers stand in the order in which they first
   appeared: it is the stable sort of the list that is never sorted on the way.
   */
  lemma {:induction false} SortingOnceIsEnough(ms: seq<Message>, events: seq<Event>)
    requires UniqueIds(ms) && Ordered(ms)
    ensures UniqueIds(UnsortedReplay(ms, events))
    ensures Replay(ms, events) == SortMessages(UnsortedReplay(ms, events))
  {
    if events == [] {
      SortOfOrdered(ms);
    } else {
      SortingOnceIsEnough(ms, events[..|events| - 1]);
      var before := UnsortedReplay(ms, events[..|events| - 1]);
      UpdatedKeepsUnique(before, events[|events| - 1]);
      ReducedOfSorted(before, events[|events| - 1]);
    }
  }

  // ---------------------------------------------------------------------------------------------------------
  // The cursor
  // ---------------------------------------------------------------------------------------------------------

  /** What the view asks of the server: the whole workspace when it resynchronises, or a part of it. */
  datatype Request = LoadWorkspace | LoadSpec | LoadJobs

  datatype View = View(cursor: int, messages: seq<Message>, requests: seq<Request>)

  function RequestsOf(kind: Kind): seq<Request> {
    match kind
    case ResyncRequired => [LoadWorkspace]
    case SpecCreated => [LoadSpec]
    case JobChanged => [LoadJobs]
    case _ => []
  }

  function Handled(v: View, e: Event): View {
    if 0 < e.id <= v.cursor then v
    else View(if e.id > 0 then e.id else v.cursor,
              if e.kind.ResyncRequired? then v.messages else Reduced(v.messages, e),
              v.requests + RequestsOf(e.kind))
  }

  class DiscussionView {
    var cursor: int
    var messages: seq<Message>
    var requests: seq<Request>

    ghost function State(): View
      reads this
    {
      View(cursor, messages, requests)
    }

    /** `handleEvent` */
    method HandleEvent(e: Event)
      modifies this
      ensures State() == Handled(old(State()), e)
    {
      var eventId := e.id;
      if eventId > 0 && eventId <= cursor { return; }
      if eventId > 0 { cursor := eventId; }
      if e.kind.ResyncRequired? {
        requests := requests + [LoadWorkspace];
        return;
      }
      messages := ReduceDiscussionEvent(messages, e);
      if e.kind.SpecCreated? { requests := requests + [LoadSpec]; }
      if e.kind.JobChanged? { requests := requests + [LoadJobs]; }
      assert e.kind.SpecCreated? || e.kind.JobChanged? || requests == old(requests) + [];
    }

    /** The completion of a resynchronisation. */
    method LoadSnapshot(snapshot: seq<Message>, snapshotCursor: int)
      modifies this
      ensures messages == snapshot && requests == old(requests)
      ensures cursor == if snapshotCursor > old(cursor) then snapshotCursor else old(cursor)
    {
      messages := snapshot;
      if snapshotCursor > cursor { cursor := snapshotCursor; }
    }
  }

  /** Numbered events in order, none of them a request to resynchronise. */
  ghost predicate IsLog(log: seq<Event>) {
    && (forall i :: 0 <= i < |log| ==> log[i].id > 0 && !log[i].kind.ResyncRequired?)
    && (forall i, j :: 0 <= i < j < |log| ==> log[i].id < log[j].id)
  }

  /** The cursor stands behind the first n events of the log. */
  ghost predicate StandsAt(v: View, log: seq<Event>, n: nat) {
    && n <= |log|
    && (forall i :: 0 <= i < n ==> log[i].id <= v.cursor)
    && (forall i :: n <= i < |log| ==> v.cursor < log[i].id)
  }

  /** Positions of the log, in the order in which a stream with reconnections delivers them. */
  ghost predicate InLog(log: seq<Event>, ds: seq<nat>) {
    forall k :: 0 <= k < |ds| ==> ds[k] < |log|
  }

  function Delivered(v: View, log: seq<Event>, ds: seq<nat>): View
    requires InLog(log, ds)
  {
    if ds == [] then v else Handled(Delivered(v, log, ds[..|ds| - 1]), log[ds[|ds| - 1]])
  }

  /** How far the deliveries have reached. */
  function Reach(n: nat, ds: seq<nat>): (r: nat)
    ensures n <= r
  {
    if ds == [] then n
    else
      var before := Reach(n, ds[..|ds| - 1]);
      if ds[|ds| - 1] >= before then ds[|ds| - 1] + 1 else before
  }

  /** The events that went beyond everything delivered before them. */
  function Records(n: nat, log: seq<Event>, ds: seq<nat>): seq<Event>
    requires InLog(log, ds)
  {
    if ds == [] then []
    else
      var before := Records(n, log, ds[..|ds| - 1]);
      if ds[|ds| - 1] >= Reach(n, ds[..|ds| - 1]) then before + [log[ds[|ds| - 1]]] else before
  }

  /** No delivery skips an event: each is at most one beyond what was reached. */
  ghost predicate NoGap(n: nat, ds: seq<nat>) {
    forall k :: 0 <= k < |ds| ==> ds[k] <= Reach(n, ds[..k])
  }

  lemma OneDelivery(v: View, log: seq<Event>, n: nat, d: nat)
    requires IsLog(log) && StandsAt(v, log, n) && d < |log|
    ensures d < n ==> Handled(v, log[d]) == v
    ensures d >= n ==> StandsAt(Handled(v, log[d]), log, d + 1) && Handled(v, log[d]).messages == Reduced(v.messages, log[d])
  {
    if d >= n {
      var next := Handled(v, log[d]);
      assert next.cursor == log[d].id;
      forall i | 0 <= i < d + 1 ensures log[i].id <= next.cursor { assert i < d ==> log[i].id < log[d].id; }
    }
  }

  lemma ReplayWithLast(ms: seq<Message>, events: seq<Event>, e: Event)
    ensures Replay(ms, events + [e]) == Reduced(Replay(ms, events), e)
  {
    assert (events + [e])[..|events|] == events;
  }

  /** Whatever is delivered, however often and in whatever order, the records are folded, each once. */
  lemma {:induction false} DeliveriesFoldTheirRecords(v: View, log: seq<Event>, n: nat, ds: seq<nat>)
    requires IsLog(log) && InLog(log, ds) && StandsAt(v, log, n)
    ensures StandsAt(Delivered(v, log, ds), log, Reach(n, ds))
    ensures Delivered(v, log, ds).messages == Replay(v.messages, Records(n, log, ds))
  {
    if ds != [] {
      var before, d := ds[..|ds| - 1], ds[|ds| - 1];
      DeliveriesFoldTheirRecords(v, log, n, before);
      OneDelivery(Delivered(v, log, before), log, Reach(n, before), d);
      ReplayWithLast(v.messages, Records(n, log, before), log[d]);
    }
  }

  lemma NoGapSoFar(n: nat, ds: seq<nat>)
    requires ds != []
    ensures NoGap(n, ds) <==> NoGap(n, ds[..|ds| - 1]) && ds[|ds| - 1] <= Reach(n, ds[..|ds| - 1])
  {
    var before := ds[..|ds| - 1];
    forall k | 0 <= k < |before| ensures before[k] == ds[k] && before[..k] == ds[..k] {
    }
    if NoGap(n, ds) {
      assert ds[|ds| - 1] <= Reach(n, ds[..|ds| - 1]);
      forall k | 0 <= k < |before| ensures before[k] <= Reach(n, before[..k]) {
        assert ds[k] <= Reach(n, ds[..k]);
      }
    }
    if NoGap(n, before) && ds[|ds| - 1] <= Reach(n, before) {
      forall k | 0 <= k < |ds| ensures ds[k] <= Reach(n, ds[..k]) {
        if k < |before| { assert before[k] <= Reach(n, before[..k]); }
      }
    }
  }

  /** The records make up the whole reached part of the log exactly when no delivery skipped an event. */
  lemma {:induction false} RecordsAreThePrefix(n: nat, log: seq<Event>, ds: seq<nat>)
    requires InLog(log, ds) && n <= |log|
    ensures Reach(n, ds) <= |log| && |Records(n, log, ds)| <= Reach(n, ds) - n
    ensures NoGap(n, ds) <==> |Records(n, log, ds)| == Reach(n, ds) - n
    ensures NoGap(n, ds) ==> Records(n, log, ds) == log[n..Reach(n, ds)]
  {
    if ds != [] {
      var before, d := ds[..|ds| - 1], ds[|ds| - 1];
      RecordsAreThePrefix(n, log, before);
      NoGapSoFar(n, ds);
      if d == Reach(n, before) && NoGap(n, before) {
        assert log[n..d + 1] == log[n..d] + [log[d]];
      }
    }
  }

  /** Replayed from earlier points without gaps, the view is the fold of the seen part of the log, each event once. */
  lemma ReplayedStreamFoldsThePrefix(v: View, log: seq<Event>, n: nat, ds: seq<nat>, id: Text)
    requires IsLog(log) && InLog(log, ds) && StandsAt(v, log, n) && NoGap(n, ds) && UniqueIds(v.messages)
    ensures Reach(n, ds) <= |log|
    ensures var (seen, result) := (log[n..Reach(n, ds)], Delivered(v, log, ds).messages);
            && result == Replay(v.messages, seen) && UniqueIds(result)
            && Lookup(result, id) == FoldOwn(Lookup(v.messages, id), OwnEvents(seen, id), id)
  {
    DeliveriesFoldTheirRecords(v, log, n, ds);
    RecordsAreThePrefix(n, log, ds);
    MessagesFoldTheirOwnEvents(v.messages, log[n..Reach(n, ds)], id);
  }

  // Where the filter does not help ----------------------------------------------------------------------------

  /** A delta without an event id is appended every time it is delivered. */
  lemma UnnumberedDeltaIsDoubled(v: View, e: Event, id: Text)
    requires e.id <= 0 && e.kind.Delta? && About(e, id) && UniqueIds(v.messages)
    ensures var (text, delta) := (OrElse(Lookup(v.messages, id), Blank(e, id)).content, OrElse(e.delta, []));
            var twice := Lookup(Handled(Handled(v, e), e).messages, id);
            twice.Some? && twice.value.content == text + delta + delta
  {
    ReducedLookup(v.messages, e, id);
    ReducedLookup(Handled(v, e).messages, e, id);
  }

  /** An event as it travels: the server leaves out the id line of heartbeats and of requests to resynchronise. */
  datatype Frame = Frame(id: Option<nat>, event: Event)

  /** The event id a browser reports: that of the latest frame on the connection which had one. */
  function StickyId(last: nat, f: Frame): nat {
    OrElse(f.id, last)
  }

  /** The id that a browser would report for a frame without one, after the frames of a connection. */
  function StickyAfter(frames: seq<Frame>): nat {
    if frames == [] then 0 else StickyId(StickyAfter(frames[..|frames| - 1]), frames[|frames| - 1])
  }

  /** The view after the frames of one connection. */
  function HandledFrames(v: View, frames: seq<Frame>): View {
    if frames == [] then v
    else
      var before, f := frames[..|frames| - 1], frames[|frames| - 1];
      Handled(HandledFrames(v, before), f.event.(id := StickyId(StickyAfter(before), f)))
  }

  function NumberedFrames(frames: seq<Frame>): seq<Frame> {
    if frames == [] then []
    else
      var before, f := NumberedFrames(frames[..|frames| - 1]), frames[|frames| - 1];
      if f.id.Some? then before + [f] else before
  }

  ghost predicate ProperIds(frames: seq<Frame>) {
    forall i :: 0 <= i < |frames| && frames[i].id.Some? ==> frames[i].id.value > 0
  }

  /** The sticky id is that of the last numbered frame, and the cursor has reached it. */
  lemma {:induction false} StickyIsBehindCursor(v: View, frames: seq<Frame>)
    requires ProperIds(frames)
    ensures StickyAfter(frames) == 0 <==> NumberedFrames(frames) == []
    ensures StickyAfter(frames) > 0 ==> StickyAfter(frames) <= HandledFrames(v, frames).cursor
  {
    if frames != [] {
      var before, f := frames[..|frames| - 1], frames[|frames| - 1];
      assert ProperIds(before);
      assert frames[|frames| - 1] == f;
      StickyIsBehindCursor(v, before);
    }
  }

  function Resynchronisations(requests: seq<Request>): nat {
    if requests == [] then 0
    else Resynchronisations(requests[..|requests| - 1]) + if requests[|requests| - 1].LoadWorkspace? then 1 else 0
  }

  /**
   A request to resynchronise travels without an id, and starts a resynchronisation exactly when no numbered frame came
   before it on its connection.
   */
  lemma ResyncIsHeardOnlyFirst(v: View, frames: seq<Frame>, resync: Frame)
    requires ProperIds(frames) && resync.id.None? && resync.event.kind.ResyncRequired?
    ensures var before, after := HandledFrames(v, frames), HandledFrames(v, frames + [resync]);
            && Resynchronisations(after.requests)
               == Resynchronisations(before.requests) + (if NumberedFrames(frames) == [] then 1 else 0)
            && (NumberedFrames(frames) != [] ==> after == before)
  {
    StickyIsBehindCursor(v, frames);
    var before := HandledFrames(v, frames);
    assert (frames + [resync])[..|frames|] == frames;
    assert (before.requests + [LoadWorkspace])[..|before.requests|] == before.requests;
  }

  lemma HandledWithNumbered(v: View, frames: seq<Frame>, f: Frame)
    requires f.id.Some?
    ensures HandledFrames(v, frames + [f]) == Handled(HandledFrames(v, frames), f.event.(id := f.id.value))
  {
    assert (frames + [f])[..|frames|] == frames;
  }

  lemma IdlessIsDropped(v: View, frames: seq<Frame>, f: Frame)
    requires ProperIds(frames) && NumberedFrames(frames) != [] && f.id.None?
    ensures HandledFrames(v, frames + [f]) == HandledFrames(v, frames)
  {
    StickyIsBehindCursor(v, frames);
    assert (frames + [f])[..|frames|] == frames;
  }

  lemma NumberedWithOne(frames: seq<Frame>, f: Frame)
    ensures NumberedFrames(frames + [f]) == NumberedFrames(frames) + if f.id.Some? then [f] else []
  {
    assert (frames + [f])[..|frames|] == frames;
  }

  /**
   Once a connection has brought a numbered event, every later frame on it without an id is dropped: the view, with its
   messages, its cursor and the requests it started, is that of the numbered frames alone.
   */
  lemma {:induction false} IdlessFramesAreDropped(v: View, frames: seq<Frame>)
    requires ProperIds(frames) && frames != [] && frames[0].id.Some?
    ensures HandledFrames(v, frames) == HandledFrames(v, NumberedFrames(frames)) && NumberedFrames(frames) != []
  {
    var before, f := frames[..|frames| - 1], frames[|frames| - 1];
    assert frames == before + [f];
    NumberedWithOne(before, f);
    if before == [] {
      assert [] + [f] == frames;
    } else {
      assert before[0] == frames[0] && ProperIds(before);
      IdlessFramesAreDropped(v, before);
      if f.id.Some? {
        HandledWithNumbered(v, before, f);
        HandledWithNumbered(v, NumberedFrames(before), f);
      } else {
        IdlessIsDropped(v, before, f);
      }
    }
  }

  /**
   A snapshot older than the cursor replaces the list but not the cursor, so the events between the two are gone:
   whatever is delivered afterwards, only later ones are folded onto the snapshot.
   */
  lemma OldSnapshotLosesEvents(v: View, snapshot: seq<Message>, log: seq<Event>, n: nat, ds: seq<nat>)
    requires IsLog(log) && InLog(log, ds) && StandsAt(v, log, n)
    ensures Delivered(View(v.cursor, snapshot, v.requests), log, ds).messages == Replay(snapshot, Records(n, log, ds))
    ensures forall e :: e in Records(n, log, ds) ==> e.id > v.cursor
  {
    DeliveriesFoldTheirRecords(View(v.cursor, snapshot, v.requests), log, n, ds);
    RecordsAreLater(v.cursor, log, n, ds);
  }

  lemma {:induction false} RecordsAreLater(cursor: int, log: seq<Event>, n: nat, ds: seq<nat>)
    requires InLog(log, ds) && forall i :: n <= i < |log| ==> cursor < log[i].id
    ensures forall e :: e in Records(n, log, ds) ==> e.id > cursor
  {
    if ds != [] { RecordsAreLater(cursor, log, n, ds[..|ds| - 1]); }
  }
}
