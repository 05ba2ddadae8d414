/** Promise chains as queues: AsyncMutex of src/mutex.js, which is one queue that is never deleted, and the per-key
    message queues of src/browserExtensionHub.js, one step per turn of the event loop. */
module PromiseQueues {
  import opened Wrappers

  datatype Status = Waiting | Running | Settled(failed: bool)

  /** The queue of a key between two closings of the hub. */
  datatype Lane = Lane(key: string, epoch: nat)

  /** `previous` is the call whose promise this one waits for. */
  datatype Task = Task(lane: Lane, previous: Option<nat>, status: Status)

  /** `queues` holds the last promise of each key, and `epoch` counts the closings. */
  datatype State = State(tasks: seq<Task>, queues: map<string, nat>, epoch: nat)

  datatype Event =
    | Enqueue(key: string)
    | Start(i: nat)
    | Settle(i: nat, failed: bool)
    | CleanUp(i: nat)
    | Close

  const Empty := State([], map[], 0)

  /** The promise waited for has settled, one way or the other. */
  predicate MayStart(s: State, task: Task) {
    task.previous.None? || (task.previous.value < |s.tasks| && s.tasks[task.previous.value].status.Settled?)
  }

  function Move(s: State, i: nat, status: Status): State
    requires i < |s.tasks|
  {
    s.(tasks := s.tasks[i := s.tasks[i].(status := status)])
  }

  function Step(s: State, e: Event): Option<State> {
    match e
    case Enqueue(key) =>
      var previous := if key in s.queues then Some(s.queues[key]) else None;
      Some(State(s.tasks + [Task(Lane(key, s.epoch), previous, Waiting)], s.queues[key := |s.tasks|], s.epoch))
    case Start(i) =>
      if i < |s.tasks| && s.tasks[i].status.Waiting? && MayStart(s, s.tasks[i]) then Some(Move(s, i, Running)) else None
    case Settle(i, failed) =>
      if i < |s.tasks| && s.tasks[i].status.Running? then Some(Move(s, i, Settled(failed))) else None
    case CleanUp(i) =>
      if i < |s.tasks| && s.tasks[i].status.Settled? then
        var key := s.tasks[i].lane.key;
        Some(if key in s.queues && s.queues[key] == i then s.(queues := s.queues - {key}) else s)
      else None
    case Close =>
      Some(State(s.tasks, map[], s.epoch + 1))
  }

  function Run(events: seq<Event>): Option<State> {
    if events == [] then Some(Empty)
    else
      match Run(events[..|events| - 1])
      case None => None
      case Some(s) => Step(s, events[|events| - 1])
  }

  /** Everything in this lane before `n` has settled. */
  ghost predicate SettledBefore(s: State, lane: Lane, n: nat) {
    forall i :: 0 <= i < n && i < |s.tasks| && s.tasks[i].lane == lane ==> s.tasks[i].status.Settled?
  }

  /** Nothing in this lane lies strictly between. */
  ghost predicate NoneBetween(s: State, lane: Lane, lo: nat, hi: nat) {
    forall i :: lo < i < hi && i < |s.tasks| ==> s.tasks[i].lane != lane
  }

  /** A task waits for the one before it in its lane, or for none when all of those have settled. */
  ghost predicate Linked(s: State, j: nat)
    requires j < |s.tasks|
  {
    match s.tasks[j].previous
    case None => SettledBefore(s, s.tasks[j].lane, j)
    case Some(p) => p < j && s.tasks[p].lane == s.tasks[j].lane && NoneBetween(s, s.tasks[j].lane, p, j)
  }

  /** The entry of a key is its last task; a key without entry has no unsettled task. */
  ghost predicate Entry(s: State, key: string) {
    var lane := Lane(key, s.epoch);
    if key in s.queues then s.queues[key] < |s.tasks| && s.tasks[s.queues[key]].lane == lane
      && NoneBetween(s, lane, s.queues[key], |s.tasks|)
    else SettledBefore(s, lane, |s.tasks|)
  }

  /** Whatever has begun comes after tasks of its lane that have all settled. */
  ghost predicate InTurn(s: State) {
    forall i, j :: 0 <= i < j < |s.tasks| && s.tasks[i].lane == s.tasks[j].lane && !s.tasks[j].status.Waiting? ==>
      s.tasks[i].status.Settled?
  }

  ghost predicate Inv(s: State) {
    && InTurn(s) && (forall i :: 0 <= i < |s.tasks| ==> s.tasks[i].lane.epoch <= s.epoch)
    && (forall j :: 0 <= j < |s.tasks| ==> Linked(s, j))
    && (forall key :: Entry(s, key))
  }

  /** The state of an earlier task only moves towards settled. */
  lemma MoveKeeps(s: State, i: nat, status: Status)
    requires Inv(s) && i < |s.tasks| && !s.tasks[i].status.Settled?
    ensures var t := Move(s, i, status);
      && (forall j :: 0 <= j < |t.tasks| ==> Linked(t, j))
      && (forall key :: Entry(t, key))
  {
    var t := Move(s, i, status);
    hide InTurn;
    forall lane, n: nat | SettledBefore(s, lane, n)
      ensures SettledBefore(t, lane, n)
    {
      assert !(i < n && s.tasks[i].lane == lane);
    }
    forall lane, lo: nat, hi: nat | NoneBetween(s, lane, lo, hi)
      ensures NoneBetween(t, lane, lo, hi)
    {}
    hide SettledBefore, NoneBetween;
    forall j | 0 <= j < |t.tasks|
      ensures Linked(t, j)
    {
      assert Linked(s, j);
    }
    forall key
      ensures Entry(t, key)
    {
      assert Entry(s, key);
    }
  }

  lemma StartInTurn(s: State, i: nat)
    requires Inv(s) && i < |s.tasks| && s.tasks[i].status.Waiting? && MayStart(s, s.tasks[i])
    ensures SettledBefore(s, s.tasks[i].lane, i)
  {
    assert Linked(s, i);
    if s.tasks[i].previous.Some? {
      var p := s.tasks[i].previous.value;
      forall k | 0 <= k < i && s.tasks[k].lane == s.tasks[i].lane
        ensures s.tasks[k].status.Settled?
      {
        assert k <= p;
      }
    }
  }

  lemma EnqueueKeeps(s: State, key: string)
    requires Inv(s)
    ensures Inv(Step(s, Enqueue(key)).value)
  {
    var t := Step(s, Enqueue(key)).value;
    assert Entry(s, key);
    forall j | 0 <= j < |t.tasks|
      ensures Linked(t, j)
    {
      if j < |s.tasks| {
        assert Linked(s, j);
      }
    }
    forall k
      ensures Entry(t, k)
    {
      assert Entry(s, k);
    }
  }

  lemma CleanUpKeeps(s: State, i: nat)
    requires Inv(s) && Step(s, CleanUp(i)).Some?
    ensures Inv(Step(s, CleanUp(i)).value)
  {
    var t := Step(s, CleanUp(i)).value;
    var own := s.tasks[i].lane.key;
    forall j | 0 <= j < |t.tasks|
      ensures Linked(t, j)
    {
      assert Linked(s, j);
    }
    forall key
      ensures Entry(t, key)
    {
      assert Entry(s, key);
      if key == own && key !in t.queues && key in s.queues {
        forall k | 0 <= k < |s.tasks| && s.tasks[k].lane == Lane(key, s.epoch)
          ensures s.tasks[k].status.Settled?
        {
          assert k <= i;
        }
      }
    }
  }

  /** After a closing every key has a new, empty lane. */
  lemma CloseKeeps(s: State)
    requires Inv(s)
    ensures Inv(Step(s, Close).value)
  {
    var t := Step(s, Close).value;
    forall j | 0 <= j < |t.tasks|
      ensures Linked(t, j)
    {
      assert Linked(s, j);
    }
  }

  lemma StepKeeps(s: State, e: Event)
    requires Inv(s) && Step(s, e).Some?
    ensures Inv(Step(s, e).value)
  {
    hide Linked, Entry;
    match e
    case Enqueue(key) =>
      EnqueueKeeps(s, key);
    case Start(i) =>
      MoveKeeps(s, i, Running);
      StartInTurn(s, i);
    case Settle(i, failed) =>
      MoveKeeps(s, i, Settled(failed));
    case CleanUp(i) =>
      CleanUpKeeps(s, i);
    case Close =>
      CloseKeeps(s);
  }

  lemma {:induction false} RunKeeps(events: seq<Event>)
    requires Run(events).Some?
    ensures Inv(Run(events).value)
  {
    hide Step, Inv;
    if events == [] {
      EmptyKeeps();
    } else {
      RunKeeps(events[..|events| - 1]);
      StepKeeps(Run(events[..|events| - 1]).value, events[|events| - 1]);
    }
  }

  lemma EmptyKeeps()
    ensures Inv(Empty)
  {}

  /** A failure blocks nobody: the first task of a key that has not begun may start as soon as none of that key runs,
      however the earlier ones ended. */
  lemma FailureBlocksNobody(events: seq<Event>, j: nat)
    requires Run(events).Some? && j < |Run(events).value.tasks| && Run(events).value.tasks[j].status.Waiting?
    requires SettledBefore(Run(events).value, Run(events).value.tasks[j].lane, j)
    ensures Step(Run(events).value, Start(j)).Some?
  {
    RunKeeps(events);
    hide Run;
    var s := Run(events).value;
    assert Linked(s, j);
  }

  lemma RunMore(events: seq<Event>, e: Event)
    requires Run(events).Some?
    ensures Run(events + [e]) == Step(Run(events).value, e)
  {
    hide Step;
    assert (events + [e])[..|events|] == events;
  }

  /** Nothing of this key is waiting or running. */
  ghost predicate AllSettled(s: State, key: string) {
    forall i :: 0 <= i < |s.tasks| && s.tasks[i].lane.key == key ==> s.tasks[i].status.Settled?
  }

  /** Whatever has begun comes after tasks of its key that have all settled, closings of the hub included. */
  ghost predicate InOrder(s: State, key: string) {
    forall i, j | 0 <= i < j < |s.tasks| && s.tasks[i].lane.key == s.tasks[j].lane.key == key ::
      !s.tasks[j].status.Waiting? ==> s.tasks[i].status.Settled?
  }

  /** No task of this key outlives a closing: those called before the last one have settled. */
  ghost predicate NoneLeftBehind(s: State, key: string) {
    forall i :: 0 <= i < |s.tasks| && s.tasks[i].lane.key == key && s.tasks[i].lane.epoch != s.epoch ==>
      s.tasks[i].status.Settled?
  }

  ghost predicate EpochsRise(s: State) {
    forall i, j :: 0 <= i < j < |s.tasks| ==> s.tasks[i].lane.epoch <= s.tasks[j].lane.epoch <= s.epoch
  }

  lemma {:induction false} RunRises(events: seq<Event>)
    requires Run(events).Some?
    ensures EpochsRise(Run(events).value)
  {
    if events != [] {
      var s := Run(events[..|events| - 1]).value;
      RunRises(events[..|events| - 1]);
      RunKeeps(events[..|events| - 1]);
      hide Run, InTurn, Linked, Entry;
      assert EpochsRise(Step(s, events[|events| - 1]).value);
    }
  }

  lemma NoneLeftInOrder(s: State, key: string)
    requires InTurn(s) && EpochsRise(s) && NoneLeftBehind(s, key)
    ensures InOrder(s, key)
  {
    forall i, j | 0 <= i < j < |s.tasks| && s.tasks[i].lane.key == s.tasks[j].lane.key == key
      && !s.tasks[j].status.Waiting?
      ensures s.tasks[i].status.Settled?
    {
      if s.tasks[i].lane.epoch == s.epoch {
        assert s.tasks[i].lane == s.tasks[j].lane;
      }
    }
  }

  lemma StepLeavesNone(s: State, e: Event, key: string)
    requires NoneLeftBehind(s, key) && Step(s, e).Some? && (e.Close? ==> AllSettled(s, key))
    ensures NoneLeftBehind(Step(s, e).value, key)
  {}

  /** Every closing from the `from`-th event on finds all tasks of this key settled. */
  ghost predicate CalmClosings(events: seq<Event>, from: nat, key: string) {
    forall k :: from <= k < |events| && events[k].Close? && Run(events[..k]).Some? ==>
      AllSettled(Run(events[..k]).value, key)
  }

  lemma {:induction false} RunLeavesNone(events: seq<Event>, from: nat, key: string)
    requires from <= |events| && Run(events).Some? && CalmClosings(events, from, key)
    requires Run(events[..from]).Some? ==> NoneLeftBehind(Run(events[..from]).value, key)
    ensures NoneLeftBehind(Run(events).value, key)
  {
    hide Step, NoneLeftBehind, AllSettled;
    if from == |events| {
      assert events[..from] == events;
    } else {
      var before := events[..|events| - 1];
      assert forall k :: 0 <= k <= |before| ==> before[..k] == events[..k];
      RunLeavesNone(before, from, key);
      assert before == events[..|before|];
      StepLeavesNone(Run(before).value, events[|before|], key);
    }
  }

  /** A run keeps the order of a key if every closing of the hub finds the key's tasks settled: each task begins only
      after all earlier ones of the key have settled. So at most one of them runs at a time, they start in the order of
      the calls, and deleting an idle key lets none overtake another. */
  lemma OneAtATimeInOrder(events: seq<Event>, key: string)
    requires Run(events).Some? && CalmClosings(events, 0, key)
    ensures InOrder(Run(events).value, key)
  {
    RunKeeps(events);
    RunRises(events);
    assert NoneLeftBehind(Empty, key);
    RunLeavesNone(events, 0, key);
    NoneLeftInOrder(Run(events).value, key);
  }

  /** The task `i` had settled at every closing between its call and that of `j`. */
  ghost predicate SettledAtClosings(events: seq<Event>, i: nat, j: nat) {
    forall k :: 0 <= k < |events| && events[k].Close? && Run(events[..k]).Some? ==>
      SettledWithin(Run(events[..k]).value, i, j)
  }

  ghost predicate SettledWithin(s: State, i: nat, j: nat) {
    i < |s.tasks| <= j ==> s.tasks[i].status.Settled?
  }

  /** As long as `j` has not been called its epoch will be the present one. */
  ghost predicate SameEpochOrSettled(s: State, i: nat, j: nat) {
    var epoch := if j < |s.tasks| then s.tasks[j].lane.epoch else s.epoch;
    i < |s.tasks| ==> s.tasks[i].status.Settled? || s.tasks[i].lane.epoch == epoch
  }

  lemma {:induction false} RunSettles(events: seq<Event>, i: nat, j: nat)
    requires i < j && Run(events).Some? && SettledAtClosings(events, i, j)
    ensures SameEpochOrSettled(Run(events).value, i, j)
  {
    if events != [] {
      var before := events[..|events| - 1];
      assert forall k :: 0 <= k <= |before| ==> before[..k] == events[..k];
      RunSettles(before, i, j);
      assert before == events[..|before|];
      hide Run;
    }
  }

  /** For two tasks of the same key it is enough that the earlier one had settled at every closing between the two
      calls, whatever the others did: then the later one begins only after the earlier one has settled. */
  lemma NeverOvertaken(events: seq<Event>, i: nat, j: nat)
    requires Run(events).Some? && i < j < |Run(events).value.tasks| && SettledAtClosings(events, i, j)
    requires Run(events).value.tasks[i].lane.key == Run(events).value.tasks[j].lane.key
    requires !Run(events).value.tasks[j].status.Waiting?
    ensures Run(events).value.tasks[i].status.Settled?
  {
    RunKeeps(events);
    RunSettles(events, i, j);
    hide Run;
  }

  /** Nothing that follows gets the key out of order unless the hub is closed over an unsettled task of it. */
  ghost predicate StaysInOrder(events: seq<Event>, key: string) {
    forall more: seq<Event> :: Run(events + more).Some? && CalmClosings(events + more, |events|, key) ==>
      InOrder(Run(events + more).value, key)
  }

  ghost predicate NoneBefore(s: State, lane: Lane, n: nat) {
    forall i :: 0 <= i < n && i < |s.tasks| ==> s.tasks[i].lane != lane
  }

  /** The first task of a lane, if there is one. */
  lemma FirstOfLane(s: State, lane: Lane) returns (first: nat)
    ensures first <= |s.tasks| && NoneBefore(s, lane, first)
    ensures first < |s.tasks| ==> s.tasks[first].lane == lane
  {
    first := 0;
    while first < |s.tasks| && s.tasks[first].lane != lane
      invariant first <= |s.tasks| && NoneBefore(s, lane, first)
    {
      first := first + 1;
    }
  }

  /** A task that has begun after an unsettled one of its key. */
  lemma OutOfOrder(s: State, i: nat, j: nat)
    requires i < j < |s.tasks| && s.tasks[i].lane.key == s.tasks[j].lane.key
    requires !s.tasks[i].status.Settled? && !s.tasks[j].status.Waiting?
    ensures !InOrder(s, s.tasks[j].lane.key)
  {}

  /** A task that outlives a closing can be overtaken by at most two more steps. */
  lemma Overtake(events: seq<Event>, i: nat, key: string)
    requires Run(events).Some? && i < |Run(events).value.tasks|
    requires var s := Run(events).value;
      s.tasks[i].lane.key == key && s.tasks[i].lane.epoch != s.epoch && !s.tasks[i].status.Settled?
    ensures !StaysInOrder(events, key)
  {
    var s := Run(events).value;
    RunKeeps(events);
    RunRises(events);
    hide Run, Linked, Entry, InTurn, Step;
    var first := FirstOfLane(s, Lane(key, s.epoch));
    if first == |s.tasks| {
      OvertakeNew(events, i, key);
    } else {
      assert i < first;
      if s.tasks[first].status.Waiting? {
        OvertakeFirst(events, i, first);
      } else {
        OutOfOrder(s, i, first);
        assert events + [] == events;
      }
    }
  }

  lemma OvertakeFirst(events: seq<Event>, i: nat, first: nat)
    requires Run(events).Some? && i < first < |Run(events).value.tasks|
    requires var s := Run(events).value;
      && s.tasks[i].lane.key == s.tasks[first].lane.key && s.tasks[first].status.Waiting?
      && NoneBefore(s, s.tasks[first].lane, first) && !s.tasks[i].status.Settled?
    ensures !StaysInOrder(events, Run(events).value.tasks[first].lane.key)
  {
    var s := Run(events).value;
    FailureBlocksNobody(events, first);
    RunMore(events, Start(first));
    hide Run, InOrder;
    OutOfOrder(Run(events + [Start(first)]).value, i, first);
  }

  lemma OvertakeNew(events: seq<Event>, i: nat, key: string)
    requires Run(events).Some? && Inv(Run(events).value) && i < |Run(events).value.tasks|
    requires var s := Run(events).value;
      && s.tasks[i].lane.key == key && !s.tasks[i].status.Settled?
      && NoneBefore(s, Lane(key, s.epoch), |s.tasks|)
    ensures !StaysInOrder(events, key)
  {
    var s := Run(events).value;
    assert Entry(s, key);
    RunMore(events, Enqueue(key));
    RunMore(events + [Enqueue(key)], Start(|s.tasks|));
    hide Run, InOrder, Inv;
    var more := [Enqueue(key), Start(|s.tasks|)];
    assert events + more == events + [Enqueue(key)] + [Start(|s.tasks|)];
    assert !more[0].Close? && !more[1].Close?;
    OutOfOrder(Run(events + more).value, i, |s.tasks|);
  }

  /** Whether anything can get a key out of order is decided by the state alone: after any run nothing can exactly
      when no unsettled task of the key was called before the last closing. */
  lemma StaysInOrderExactly(events: seq<Event>, key: string)
    requires Run(events).Some?
    ensures StaysInOrder(events, key) <==> NoneLeftBehind(Run(events).value, key)
  {
    if NoneLeftBehind(Run(events).value, key) {
      forall more: seq<Event> | Run(events + more).Some? && CalmClosings(events + more, |events|, key)
        ensures InOrder(Run(events + more).value, key)
      {
        assert (events + more)[..|events|] == events;
        RunLeavesNone(events + more, |events|, key);
        RunKeeps(events + more);
        RunRises(events + more);
        NoneLeftInOrder(Run(events + more).value, key);
      }
    } else {
      var i :| 0 <= i < |Run(events).value.tasks| && Run(events).value.tasks[i].lane.key == key
        && Run(events).value.tasks[i].lane.epoch != Run(events).value.epoch
        && !Run(events).value.tasks[i].status.Settled?;
      Overtake(events, i, key);
    }
  }

  /** Closing the hub keeps the order of a key exactly when nothing of the key is waiting or running at that time. If
      something is, the next call of the key can begin at once, beside it or before it. */
  lemma ClosingKeepsOrderExactly(events: seq<Event>, key: string)
    requires Run(events).Some?
    ensures StaysInOrder(events + [Close], key) <==> AllSettled(Run(events).value, key)
    ensures var s := Run(events).value;
      var next := Run(events + [Close] + [Enqueue(key)] + [Start(|s.tasks|)]);
      next.Some? && (InOrder(next.value, key) <==> AllSettled(s, key))
  {
    var s := Run(events).value;
    RunKeeps(events);
    RunMore(events, Close);
    RunMore(events + [Close], Enqueue(key));
    RunMore(events + [Close] + [Enqueue(key)], Start(|s.tasks|));
    StaysInOrderExactly(events + [Close], key);
    hide Run, StaysInOrder, Linked, Entry;
    var next := Run(events + [Close] + [Enqueue(key)] + [Start(|s.tasks|)]).value;
    assert next.tasks[|s.tasks|].lane.key == key && next.tasks[|s.tasks|].status.Running?;
    assert forall i :: 0 <= i < |s.tasks| ==> next.tasks[i] == s.tasks[i];
  }
}
