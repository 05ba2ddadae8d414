/** src/eventBus.js: bounded event buffers, and a run-length encoded timeline for each request. */
module Timeline {
  import opened Wrappers

  /** `signature` is what decides whether an event repeats the one before: its type, client and compact data. */
  datatype Event = Event(requestId: string, signature: string, time: string, noisy: bool)

  datatype Entry = Entry(signature: string, time: string, repeat: nat)

  function LastOf<T>(s: seq<T>, n: nat): seq<T> {
    if |s| <= n then s else s[|s| - n..]
  }

  /** Run-length encoding; an entry carries the time of the last event of its run. */
  function Runs(events: seq<Event>): seq<Entry> {
    if events == [] then [] else AddRun(Runs(events[..|events| - 1]), events[|events| - 1])
  }

  function AddRun(runs: seq<Entry>, e: Event): seq<Entry> {
    if runs != [] && runs[|runs| - 1].signature == e.signature then
      runs[|runs| - 1 := Entry(e.signature, e.time, runs[|runs| - 1].repeat + 1)]
    else runs + [Entry(e.signature, e.time, 1)]
  }

  /** Adjacent entries differ. */
  lemma {:induction false} RunsDiffer(events: seq<Event>)
    ensures forall i :: 0 < i < |Runs(events)| ==> Runs(events)[i - 1].signature != Runs(events)[i].signature
    ensures events != [] ==>
      Runs(events) != [] && Runs(events)[|Runs(events)| - 1].signature == events[|events| - 1].signature
  {
    if events != [] {
      RunsDiffer(events[..|events| - 1]);
    }
  }

  /** The events that the entries stand for, one signature for each. */
  function Expand(runs: seq<Entry>): seq<string> {
    if runs == [] then [] else Expand(runs[..|runs| - 1]) + Times(runs[|runs| - 1].signature, runs[|runs| - 1].repeat)
  }

  function Times(signature: string, n: nat): seq<string> {
    if n == 0 then [] else Times(signature, n - 1) + [signature]
  }

  function Signatures(events: seq<Event>): seq<string> {
    if events == [] then [] else Signatures(events[..|events| - 1]) + [events[|events| - 1].signature]
  }

  lemma ExpandLast(runs: seq<Entry>, last: Entry)
    ensures Expand(runs + [last]) == Expand(runs) + Times(last.signature, last.repeat)
  {
    assert (runs + [last])[..|runs|] == runs;
    hide Times;
  }

  lemma ExpandAdd(runs: seq<Entry>, e: Event)
    ensures Expand(AddRun(runs, e)) == Expand(runs) + [e.signature]
  {
    hide Expand;
    if runs != [] && runs[|runs| - 1].signature == e.signature {
      var init, last := runs[..|runs| - 1], runs[|runs| - 1];
      ExpandLast(init, last);
      ExpandLast(init, Entry(e.signature, e.time, last.repeat + 1));
      assert runs == init + [last] && AddRun(runs, e) == init + [Entry(e.signature, e.time, last.repeat + 1)];
    } else {
      ExpandLast(runs, Entry(e.signature, e.time, 1));
      assert Times(e.signature, 1) == Times(e.signature, 0) + [e.signature];
    }
  }

  /** Nothing is lost by the encoding: the entries stand for exactly the signatures, in order. */
  lemma {:induction false} RunsExpand(events: seq<Event>)
    ensures Expand(Runs(events)) == Signatures(events)
  {
    if events != [] {
      hide Expand, AddRun;
      RunsExpand(events[..|events| - 1]);
      ExpandAdd(Runs(events[..|events| - 1]), events[|events| - 1]);
    } else {
      assert Expand([]) == [];
    }
  }

  lemma AddRunIs(runs: seq<Entry>, e: Event)
    ensures runs != [] && runs[|runs| - 1].signature == e.signature ==>
      AddRun(runs, e) == runs[|runs| - 1 := Entry(e.signature, e.time, runs[|runs| - 1].repeat + 1)]
    ensures runs == [] || runs[|runs| - 1].signature != e.signature ==>
      AddRun(runs, e) == runs + [Entry(e.signature, e.time, 1)]
  {}

  lemma LastAppend<T>(s: seq<T>, n: nat, x: T)
    ensures LastOf(LastOf(s, n) + [x], n) == LastOf(s + [x], n)
  {}

  lemma LastUpdate<T>(s: seq<T>, n: nat, x: T)
    requires s != [] && n > 0
    ensures var kept := LastOf(s, n);
      && kept != [] && kept[|kept| - 1] == s[|s| - 1]
      && kept[|kept| - 1 := x] == LastOf(s[|s| - 1 := x], n)
      && LastOf(kept[|kept| - 1 := x], n) == kept[|kept| - 1 := x]
  {}

  lemma LastShift<T>(s: seq<T>, n: nat)
    requires |s| > n
    ensures LastOf(s[1..], n) == LastOf(s, n)
  {}

  lemma LastOfShort<T>(s: seq<T>, n: nat)
    requires |s| <= n
    ensures LastOf(s, n) == s
  {}

  lemma LastIsShort<T>(s: seq<T>, n: nat)
    ensures |LastOf(s, n)| <= n && (n > 0 ==> (LastOf(s, n) == [] <==> s == []))
  {}

  /** Truncating and then adding is adding and then truncating, as long as at least one entry is kept. */
  lemma AddToLast(runs: seq<Entry>, e: Event, limit: nat)
    requires limit > 0
    ensures LastOf(AddRun(LastOf(runs, limit), e), limit) == LastOf(AddRun(runs, e), limit)
  {
    hide LastOf;
    var kept := LastOf(runs, limit);
    LastIsShort(runs, limit);
    LastAppend(runs, limit, Entry(e.signature, e.time, 1));
    if runs != [] {
      LastUpdate(runs, limit, Entry(e.signature, e.time, runs[|runs| - 1].repeat + 1));
    }
  }

  /** Every retained timeline is the last part of the run-length encoding of what was told since it was created. */
  ghost predicate Told(timelines: map<string, seq<Entry>>, told: map<string, seq<Event>>, limit: nat) {
    && timelines.Keys == told.Keys
    && forall id :: id in timelines ==> told[id] != [] && timelines[id] == LastOf(Runs(told[id]), limit)
  }

  /** The order lists the timelines, each once. */
  ghost predicate Listed(order: seq<string>, timelines: map<string, seq<Entry>>) {
    && (forall id :: id in order <==> id in timelines)
    && (forall i, j :: 0 <= i < j < |order| ==> order[i] != order[j])
  }

  /** Nothing but the timelines of `ids` differs, or is gone. */
  ghost predicate OthersKept(a: map<string, seq<Entry>>, b: map<string, seq<Entry>>, x: map<string, seq<Event>>,
          y: map<string, seq<Event>>, id: string) {
    forall other :: other in b && other != id ==>
      other in a && b[other] == a[other] && other in x && other in y && y[other] == x[other]
  }

  lemma ToldPut(timelines: map<string, seq<Entry>>, told: map<string, seq<Event>>, limit: nat, id: string,
          list: seq<Entry>, events: seq<Event>)
    requires Told(timelines, told, limit) && events != [] && list == LastOf(Runs(events), limit)
    ensures Told(timelines[id := list], told[id := events], limit)
    ensures OthersKept(timelines, timelines[id := list], told, told[id := events], id)
  {
    hide Runs, LastOf;
  }

  lemma ToldDrop(timelines: map<string, seq<Entry>>, told: map<string, seq<Event>>, limit: nat, first: string)
    requires Told(timelines, told, limit)
    ensures Told(timelines - {first}, told - {first}, limit)
  {
    hide Runs, LastOf;
  }

  lemma OthersStillKept(a: map<string, seq<Entry>>, b: map<string, seq<Entry>>, x: map<string, seq<Event>>,
          y: map<string, seq<Event>>, id: string, first: string)
    requires OthersKept(a, b, x, y, id)
    ensures OthersKept(a, b - {first}, x, y - {first}, id)
  {}

  lemma ListedPut(order: seq<string>, timelines: map<string, seq<Entry>>, id: string, list: seq<Entry>)
    requires Listed(order, timelines)
    ensures Listed(if id in timelines then order else order + [id], timelines[id := list])
  {}

  lemma ListedDrop(order: seq<string>, timelines: map<string, seq<Entry>>)
    requires Listed(order, timelines) && order != []
    ensures Listed(order[1..], timelines - {order[0]})
  {
    assert order == [order[0]] + order[1..];
  }

  lemma FirstIsOther(order: seq<string>, timelines: map<string, seq<Entry>>)
    requires Listed(order, timelines)
    ensures |order| > 1 ==> order[0] != order[|order| - 1]
  {}

  lemma ToldAt(timelines: map<string, seq<Entry>>, told: map<string, seq<Event>>, limit: nat, id: string)
    requires Told(timelines, told, limit)
    ensures id in timelines <==> id in told
    ensures id in timelines ==> timelines[id] == LastOf(Runs(told[id]), limit)
  {
    hide Runs, LastOf;
  }

  lemma NothingRun(limit: nat)
    ensures LastOf(Runs([]), limit) == []
  {}

  lemma RunsNext(events: seq<Event>, e: Event)
    ensures Runs(events + [e]) == AddRun(Runs(events), e)
  {
    assert (events + [e])[..|events|] == events;
  }

  /** A new request comes last, and the first ones go when there are more than the limit. */
  function NextOrder(order: seq<string>, timelines: map<string, seq<Entry>>, e: Event, limit: nat): seq<string> {
    if e.requestId == "" || e.noisy || e.requestId in timelines then order else LastOf(order + [e.requestId], limit)
  }

  class EventBus {
    var events: seq<Event>
    /** The request ids in the order in which their timelines were created, and the timelines. */
    var order: seq<string>
    var timelines: map<string, seq<Entry>>
    const limit: nat
    const timelineLimit: nat
    /** All events that were emitted, and for each retained request those of its timeline. */
    ghost var history: seq<Event>
    ghost var told: map<string, seq<Event>>

    ghost predicate Valid()
      reads this
    {
      && timelineLimit >= 50 && |order| <= limit
      && events == LastOf(history, limit)
      && Told(timelines, told, timelineLimit) && Listed(order, timelines)
    }

    constructor (limit: nat, timelineLimit: nat)
      ensures Valid() && events == [] && timelines == map[] && history == []
      ensures this.limit == limit
      ensures this.timelineLimit == if timelineLimit == 0 then 300 else if timelineLimit < 50 then 50 else timelineLimit
    {
      events, order, timelines := [], [], map[];
      this.limit := limit;
      this.timelineLimit := if timelineLimit == 0 then 300 else if timelineLimit < 50 then 50 else timelineLimit;
      history, told := [], map[];
    }

    /** emitUser: the event goes into the buffer and into the timeline of its request. */
    method EmitUser(e: Event)
      requires Valid()
      modifies this
      ensures e.requestId == "" || e.noisy || e.requestId in old(timelines) ==> order == old(order)
      ensures e.requestId != "" && !e.noisy && e.requestId !in old(timelines) ==>
        order == LastOf(old(order) + [e.requestId], limit)
      ensures Valid() && history == old(history) + [e]
      ensures OthersKept(old(timelines), timelines, old(told), told, e.requestId)
      ensures e.requestId == "" || e.noisy ==> timelines == old(timelines) && told == old(told)
      ensures e.requestId != "" && !e.noisy && limit > 0 ==>
        e.requestId in told
          && told[e.requestId] == (if e.requestId in old(told) then old(told)[e.requestId] else []) + [e]
    {
      hide Told, Listed, OthersKept, LastOf;
      events := Pushed(events, e, history, limit);
      history := history + [e];
      PushRequestTimeline(e);
    }

    /** #push. */
    static method Pushed(buffer: seq<Event>, e: Event, ghost history: seq<Event>,
            limit: nat) returns (after: seq<Event>)
      requires buffer == LastOf(history, limit)
      ensures after == LastOf(history + [e], limit)
    {
      hide LastOf;
      LastAppend(history, limit, e);
      after := buffer + [e];
      while |after| > limit
        invariant LastOf(after, limit) == LastOf(history + [e], limit)
      {
        LastShift(after, limit);
        after := after[1..];
      }
      LastOfShort(after, limit);
    }

    /** #pushRequestTimeline. */
    method PushRequestTimeline(e: Event)
      requires Valid()
      modifies this`order, this`timelines, this`told
      ensures Valid() && order == NextOrder(old(order), old(timelines), e, limit)
      ensures OthersKept(old(timelines), timelines, old(told), told, e.requestId)
      ensures e.requestId == "" || e.noisy ==> timelines == old(timelines) && told == old(told)
      ensures e.requestId != "" && !e.noisy && limit > 0 ==>
        e.requestId in told
          && told[e.requestId] == (if e.requestId in old(told) then old(told)[e.requestId] else []) + [e]
    {
      var id := e.requestId;
      NothingTold(timelines, told, id);
      hide Told, Listed, OthersKept, LastOf, Runs, AddRun;
      if id == "" || e.noisy {
        return;
      }
      ToldAt(timelines, told, timelineLimit, id);
      NothingRun(timelineLimit);
      ghost var before: seq<Event> := if id in told then told[id] else [];
      var list := AddToTimeline(if id in timelines then timelines[id] else [], e, timelineLimit, before);
      Keep(id, list, before + [e]);
    }

    /** `set(requestId, list)`, and making room for it. */
    method Keep(id: string, list: seq<Entry>, ghost events': seq<Event>)
      requires Valid() && events' != [] && list == LastOf(Runs(events'), timelineLimit)
      modifies this`order, this`timelines, this`told
      ensures Valid() && OthersKept(old(timelines), timelines, old(told), told, id)
      ensures limit > 0 ==> id in told && told[id] == events'
      ensures order == if id in old(timelines) then old(order) else LastOf(old(order) + [id], limit)
    {
      hide Told, Listed, OthersKept, LastOf, Runs;
      LastOfShort(order, limit);
      ToldPut(timelines, told, timelineLimit, id, list, events');
      ListedPut(order, timelines, id, list);
      if id !in timelines {
        order := order + [id];
      }
      timelines, told := timelines[id := list], told[id := events'];
      Evict(id, old(timelines), old(told));
    }

    /** The entry is merged into the last one or pushed, and the oldest entries go when there are too many. */
    static method AddToTimeline(list: seq<Entry>, e: Event, limit: nat,
            ghost before: seq<Event>) returns (after: seq<Entry>)
      requires list == LastOf(Runs(before), limit) && limit > 0
      ensures after == LastOf(Runs(before + [e]), limit)
    {
      hide Runs, LastOf, AddRun;
      AddToLast(Runs(before), e, limit);
      RunsNext(before, e);
      LastIsShort(Runs(before), limit);
      AddRunIs(list, e);
      if list != [] && list[|list| - 1].signature == e.signature {
        after := list[|list| - 1 := Entry(e.signature, e.time, list[|list| - 1].repeat + 1)];
        LastOfShort(after, limit);
        return;
      }
      after := list + [Entry(e.signature, e.time, 1)];
      while |after| > limit
        invariant LastOf(after, limit) == LastOf(Runs(before + [e]), limit)
      {
        LastShift(after, limit);
        after := after[1..];
      }
      LastOfShort(after, limit);
    }

    /** The timeline that was created first goes when there are too many requests. There is never more than one too
        many. */
    method Evict(id: string, ghost timelinesBefore: map<string, seq<Entry>>, ghost toldBefore: map<string, seq<Event>>)
      requires timelineLimit >= 50 && events == LastOf(history, limit) && |order| <= limit + 1
      requires Told(timelines, told, timelineLimit) && Listed(order, timelines) && id in timelines
      requires (|order| > limit ==> order[|order| - 1] == id)
      requires OthersKept(timelinesBefore, timelines, toldBefore, told, id)
      modifies this`order, this`timelines, this`told
      ensures Valid() && OthersKept(timelinesBefore, timelines, toldBefore, told, id)
      ensures limit > 0 ==> id in told && told[id] == old(told)[id]
      ensures order == LastOf(old(order), limit)
    {
      hide Told, Listed, OthersKept;
      ToldAt(timelines, told, timelineLimit, id);
      if |order| > limit {
        var first := order[0];
        FirstIsOther(order, timelines);
        ToldDrop(timelines, told, timelineLimit, first);
        OthersStillKept(timelinesBefore, timelines, toldBefore, told, id, first);
        ListedDrop(order, timelines);
        timelines, told, order := timelines - {first}, told - {first}, order[1..];
        ToldAt(timelines, told, timelineLimit, id);
      }
    }
  }

  lemma NothingTold(timelines: map<string, seq<Entry>>, told: map<string, seq<Event>>, id: string)
    requires timelines.Keys == told.Keys
    ensures OthersKept(timelines, timelines, told, told, id)
  {}
}
