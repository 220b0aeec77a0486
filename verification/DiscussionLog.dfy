/**
 What a message of the discussion view says after a log of events: who opened it, what its text is made of, and which
 event gave it its status. And which events made the view ask the server for more.
 */
module DiscussionLog {
  import opened CodeUnits
  import opened Options
  import opened Discussion

  /** The events of a log that concern a message: those that create it, extend it or end it. */
  function Concerning(events: seq<Event>, id: Text): (own: seq<Event>)
    ensures forall i :: 0 <= i < |own| ==> Concerns(own[i], id)
  {
    if events == [] then []
    else
      var before, e := Concerning(events[..|events| - 1], id), events[|events| - 1];
      if Concerns(e, id) then before + [e] else before
  }

  predicate Concerns(e: Event, id: Text) {
    e.messageId == Some(id) && id != [] && (e.kind.Created? || e.kind.Delta? || Ends(e))
  }

  predicate Ends(e: Event) {
    e.kind == Kind.Completed || e.kind == Kind.Interrupted || e.kind == Kind.Failed
  }

  /** The text that an event carries for good: that of an ending event, if it has one. */
  predicate BringsText(e: Event) {
    Ends(e) && e.content.Some?
  }

  /** The last event that brings a text, or -1. */
  function LastText(own: seq<Event>): (k: int)
    ensures -1 <= k < |own| && (k >= 0 ==> BringsText(own[k]))
    ensures forall i :: k < i < |own| ==> !BringsText(own[i])
  {
    if own == [] then -1
    else if BringsText(own[|own| - 1]) then |own| - 1
    else LastText(own[..|own| - 1])
  }

  /** The last event that is not a creation, or -1. */
  function LastWord(own: seq<Event>): (k: int)
    ensures -1 <= k < |own| && (k >= 0 ==> !own[k].kind.Created?)
    ensures forall i :: k < i < |own| ==> own[i].kind.Created?
  {
    if own == [] then -1
    else if !own[|own| - 1].kind.Created? then |own| - 1
    else LastWord(own[..|own| - 1])
  }

  /** The deltas, one after the other. */
  function Deltas(own: seq<Event>): Text {
    if own == [] then []
    else
      var e := own[|own| - 1];
      Deltas(own[..|own| - 1]) + if e.kind.Delta? && e.delta.Some? then e.delta.value else []
  }

  /** A message as its first event opens it. */
  function Opened(e: Event, id: Text): Message {
    Message(id,
            if e.kind.Created? && e.sequence.Some? then e.sequence.value else MAX_SAFE_INTEGER,
            if e.kind.Created? && e.role.Some? then e.role.value else ASSISTANT,
            Streaming,
            if e.kind.Created? && e.content.Some? then e.content.value else [],
            e.emittedAt)
  }

  /** The message that was there before, or as its first event opened it. */
  function Origin(start: Option<Message>, own: seq<Event>, id: Text): Message
    requires start.Some? || own != []
  {
    if start.Some? then start.value else Opened(own[0], id)
  }

  /** The text of a message: the one its last ending event brought, or the original one, and all deltas since then. */
  function TextTold(origin: Text, own: seq<Event>): Text {
    TextSince(origin, own, LastText(own))
  }

  /** The text brought by event k, or the original one, and the deltas after it. */
  function TextSince(origin: Text, own: seq<Event>, k: int): Text
    requires -1 <= k < |own| && (k >= 0 ==> BringsText(own[k]))
  {
    (if k >= 0 then own[k].content.value else origin) + Deltas(own[k + 1..])
  }

  /** Its status: streaming after a delta, ended after an ending event, the original one when there was neither. */
  function StatusTold(origin: Status, own: seq<Event>): Status {
    var last := LastWord(own);
    if last < 0 then origin else if own[last].kind.Delta? then Streaming else Ended(own[last].kind)
  }

  /** All else is as it was originally. */
  function Told(start: Option<Message>, own: seq<Event>, id: Text): Option<Message> {
    if start.None? && own == [] then None
    else
      var origin := Origin(start, own, id);
      Some(origin.(content := TextTold(origin.content, own), status := StatusTold(origin.status, own)))
  }

  function DeltaOf(e: Event): Text {
    if e.kind.Delta? && e.delta.Some? then e.delta.value else []
  }

  lemma DeltasOfOneMore(own: seq<Event>, k: int, e: Event)
    requires -1 <= k < |own|
    ensures Deltas((own + [e])[k + 1..]) == Deltas(own[k + 1..]) + DeltaOf(e)
  {
    var since := own[k + 1..];
    assert (own + [e])[k + 1..] == since + [e];
    assert (since + [e])[..|since|] == since;
  }

  lemma LastsOfOneMore(own: seq<Event>, e: Event)
    ensures LastText(own + [e]) == if BringsText(e) then |own| else LastText(own)
    ensures LastWord(own + [e]) == if !e.kind.Created? then |own| else LastWord(own)
  {
    assert (own + [e])[..|own|] == own;
  }

  lemma Appended(base: Text, deltas: Text, delta: Text)
    ensures base + deltas + delta == base + (deltas + delta)
  {
  }

  lemma SinceOneMore(origin: Text, own: seq<Event>, e: Event, k: int)
    requires -1 <= k < |own| && (k >= 0 ==> BringsText(own[k]))
    ensures k >= 0 ==> (own + [e])[k] == own[k]
    ensures TextSince(origin, own + [e], k) == TextSince(origin, own, k) + DeltaOf(e)
  {
    DeltasOfOneMore(own, k, e);
    Appended(if k >= 0 then own[k].content.value else origin, Deltas(own[k + 1..]), DeltaOf(e));
  }

  lemma SinceNow(origin: Text, own: seq<Event>, e: Event)
    requires BringsText(e)
    ensures (own + [e])[|own|] == e && TextSince(origin, own + [e], |own|) == e.content.value
  {
    assert (own + [e])[|own| + 1..] == [];
    assert e.content.value + [] == e.content.value;
  }

  lemma TextOneMore(origin: Text, own: seq<Event>, e: Event)
    ensures TextTold(origin, own + [e]) == if BringsText(e) then e.content.value else TextTold(origin, own) + DeltaOf(e)
  {
    LastsOfOneMore(own, e);
    if BringsText(e) { SinceNow(origin, own, e); } else { SinceOneMore(origin, own, e, LastText(own)); }
  }

  lemma StatusOneMore(origin: Status, own: seq<Event>, e: Event)
    ensures StatusTold(origin, own + [e]) ==
            if e.kind.Created? then StatusTold(origin, own) else if e.kind.Delta? then Streaming else Ended(e.kind)
  {
    LastsOfOneMore(own, e);
    assert LastWord(own) >= 0 ==> (own + [e])[LastWord(own)] == own[LastWord(own)];
  }

  lemma NothingMore(text: Text, e: Event)
    ensures !e.kind.Delta? || e.delta.None? ==> text + DeltaOf(e) == text
    ensures [] + DeltaOf(e) == DeltaOf(e)
  {
  }

  /** What the next event makes of a message whose text and status are known. */
  lemma OneMore(origin: Message, text: Text, status: Status, m: Option<Message>, e: Event, id: Text)
    requires Concerns(e, id)
    requires m == Some(origin.(content := text, status := status))
          || (m == None && origin == Opened(e, id) && text == origin.content && status == Streaming)
    ensures Next(m, e, id) ==
            Some(origin.(content := if BringsText(e) then e.content.value else text + DeltaOf(e),
                         status := if e.kind.Created? then status else if e.kind.Delta? then Streaming else Ended(e.kind)))
  {
    NothingMore(text, e);
  }

  lemma OriginOfOneMore(start: Option<Message>, own: seq<Event>, e: Event, id: Text)
    ensures Origin(start, own + [e], id) == if start.None? && own == [] then Opened(e, id) else Origin(start, own, id)
  {
    assert (own + [e])[0] == if own == [] then e else own[0];
  }

  lemma ToldIs(start: Option<Message>, own: seq<Event>, id: Text, origin: Message)
    requires own != [] || start.Some?
    requires Origin(start, own, id) == origin
    ensures Told(start, own, id) == Some(origin.(content := TextTold(origin.content, own),
                                                 status := StatusTold(origin.status, own)))
  {
  }

  lemma OneDelta(one: seq<Event>)
    requires |one| == 1
    ensures Deltas(one) == DeltaOf(one[0])
  {
    assert one[..0] == [];
    NothingMore([], one[0]);
  }

  lemma TextOfOne(text: Text, one: seq<Event>)
    requires |one| == 1
    ensures TextTold(text, one) == if BringsText(one[0]) then one[0].content.value else text + DeltaOf(one[0])
  {
    if BringsText(one[0]) {
      assert LastText(one) == 0 && one[1..] == [];
      assert one[0].content.value + [] == one[0].content.value;
    } else {
      assert LastText(one) == -1 && one[0..] == one;
      OneDelta(one);
    }
  }

  lemma StatusOfOne(status: Status, one: seq<Event>)
    requires |one| == 1
    ensures StatusTold(status, one) ==
            if one[0].kind.Created? then status else if one[0].kind.Delta? then Streaming else Ended(one[0].kind)
  {
    assert LastWord(one) == if one[0].kind.Created? then -1 else 0;
  }

  lemma ToldOfOne(one: seq<Event>, id: Text, origin: Message)
    requires |one| == 1 && origin == Opened(one[0], id)
    ensures Told(None, one, id) ==
            Some(origin.(content := if BringsText(one[0]) then one[0].content.value else origin.content + DeltaOf(one[0]),
                         status := if one[0].kind.Created? then origin.status
                                   else if one[0].kind.Delta? then Streaming else Ended(one[0].kind)))
  {
    ToldIs(None, one, id, origin);
    TextOfOne(origin.content, one);
    StatusOfOne(origin.status, one);
  }

  lemma ToldFirst(one: seq<Event>, e: Event, id: Text)
    requires Concerns(e, id) && |one| == 1 && one[0] == e
    ensures Told(None, one, id) == Next(None, e, id)
  {
    var origin := Opened(e, id);
    ToldOfOne(one, id, origin);
    OneMore(origin, origin.content, Streaming, None, e, id);
  }

  lemma ToldNext(start: Option<Message>, own: seq<Event>, e: Event, id: Text)
    requires Concerns(e, id) && (start.Some? || own != [])
    ensures Told(start, own + [e], id) == Next(Told(start, own, id), e, id)
  {
    var origin := Origin(start, own, id);
    OriginOfOneMore(start, own, e, id);
    ToldIs(start, own + [e], id, origin);
    ToldIs(start, own, id, origin);
    TextOneMore(origin.content, own, e);
    StatusOneMore(origin.status, own, e);
    OneMore(origin, TextTold(origin.content, own), StatusTold(origin.status, own), Told(start, own, id), e, id);
  }

  /** One more event that concerns a message. */
  lemma ToldOneMore(start: Option<Message>, own: seq<Event>, e: Event, id: Text)
    requires Concerns(e, id)
    ensures Told(start, own + [e], id) == Next(Told(start, own, id), e, id)
  {
    if start.None? && own == [] {
      ToldFirst(own + [e], e, id);
    } else {
      ToldNext(start, own, e, id);
    }
  }

  /** After any log, each message of the view is what its own events tell, and nothing else. */
  lemma {:induction false} MessagesAreTold(ms: seq<Message>, events: seq<Event>, id: Text)
    requires UniqueIds(ms) && id != []
    ensures UniqueIds(Replay(ms, events))
    ensures Lookup(Replay(ms, events), id) == Told(Lookup(ms, id), Concerning(events, id), id)
  {
    if events == [] {
      NothingTold(ms, id);
    } else {
      var before, e := events[..|events| - 1], events[|events| - 1];
      MessagesAreTold(ms, before, id);
      ReducedLookup(Replay(ms, before), e, id);
      if Concerns(e, id) { ToldOneMore(Lookup(ms, id), Concerning(before, id), e, id); }
    }
  }

  lemma NothingTold(ms: seq<Message>, id: Text)
    ensures Told(Lookup(ms, id), [], id) == Lookup(ms, id)
  {
    var start := Lookup(ms, id);
    if start.Some? { assert start.value.content + [] == start.value.content; }
  }

  // ---------------------------------------------------------------------------------------------------------
  // Requests to the server
  // ---------------------------------------------------------------------------------------------------------

  function CountKind(events: seq<Event>, kind: Kind): nat {
    if events == [] then 0
    else CountKind(events[..|events| - 1], kind) + if events[|events| - 1].kind == kind then 1 else 0
  }

  lemma CountOneMore(events: seq<Event>, e: Event, kind: Kind)
    ensures CountKind(events + [e], kind) == CountKind(events, kind) + if e.kind == kind then 1 else 0
  {
    assert (events + [e])[..|events|] == events;
  }

  /** The requests a view started after `before`: so many for the specification, so many for the jobs, none for the rest. */
  ghost predicate Asked(before: seq<Request>, after: seq<Request>, specs: nat, jobs: nat) {
    && before <= after
    && multiset(after)[LoadSpec] == multiset(before)[LoadSpec] + specs
    && multiset(after)[LoadJobs] == multiset(before)[LoadJobs] + jobs
    && multiset(after)[LoadWorkspace] == multiset(before)[LoadWorkspace]
  }

  lemma AskedOneMore(before: seq<Request>, v: View, e: Event, specs: nat, jobs: nat)
    requires Asked(before, v.requests, specs, jobs) && e.id > v.cursor && e.id > 0 && !e.kind.ResyncRequired?
    ensures Asked(before, Handled(v, e).requests,
                  specs + (if e.kind == SpecCreated then 1 else 0), jobs + if e.kind == JobChanged then 1 else 0)
  {
  }

  /** The records once delivery d has been made. */
  lemma RecordsOneMore(n: nat, log: seq<Event>, ds: seq<nat>, kind: Kind)
    requires InLog(log, ds) && ds != []
    ensures var before, d := ds[..|ds| - 1], ds[|ds| - 1];
            CountKind(Records(n, log, ds), kind) ==
            CountKind(Records(n, log, before), kind) + if d >= Reach(n, before) && log[d].kind == kind then 1 else 0
  {
    var before, d := ds[..|ds| - 1], ds[|ds| - 1];
    CountOneMore(Records(n, log, before), log[d], kind);
  }

  /**
   However a log is delivered, each event that goes beyond what was delivered before starts its request, once: a new
   specification revision one for the specification, a change of the job one for the list of jobs.
   */
  lemma {:induction false} RequestsFollowTheRecords(v: View, log: seq<Event>, n: nat, ds: seq<nat>)
    requires IsLog(log) && InLog(log, ds) && StandsAt(v, log, n)
    ensures var records := Records(n, log, ds);
            Asked(v.requests, Delivered(v, log, ds).requests, CountKind(records, SpecCreated), CountKind(records, JobChanged))
  {
    if ds != [] {
      var before, d := ds[..|ds| - 1], ds[|ds| - 1];
      RequestsFollowTheRecords(v, log, n, before);
      DeliveriesFoldTheirRecords(v, log, n, before);
      RecordsOneMore(n, log, ds, SpecCreated);
      RecordsOneMore(n, log, ds, JobChanged);
      var w, specs, jobs := Delivered(v, log, before), CountKind(Records(n, log, before), SpecCreated),
                            CountKind(Records(n, log, before), JobChanged);
      if d < Reach(n, before) {
        OneDelivery(w, log, Reach(n, before), d);
      } else {
        AskedOneMore(v.requests, w, log[d], specs, jobs);
      }
    }
  }
}
