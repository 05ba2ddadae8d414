/** The passive-prompt protocol for one request id: src/bridge/passivePromptService.js on top of
    src/bridge/passivePromptLedger.js and src/metadataTurnStore.js, one step per await, with any number of calls. */
module PassivePrompt {
  import opened Wrappers

  /** Where the reservation lives: an SQL row, an in-process object saved to a JSON file, or the process alone. */
  datatype Store = Sql | Json | Memory

  datatype Status = INFLIGHT | SUBMITTED | REJECTED_BEFORE_SUBMIT

  /** A turn. `proof` is its output when submitted and its error when rejected. */
  datatype Record = Record(status: Status, proof: string)

  /** What the physical command reports. */
  datatype Reply = Confirmed(proof: string) | Refused(error: string) | Broken

  /** How a call ends. `Uncertain` covers every error that tells the caller not to resend. */
  datatype Outcome = Proof(proof: string) | Rejected(error: string) | Uncertain | Reconciled

  /** Where a call stands. */
  datatype Pc =
    | Reserving
    | Inserted(created: bool)
    | Locked
    | Absent
    | SavingReservation
    | Reserved
    | Commanded
    | Marking(mark: Record)
    | MarkChecked(mark: Record)
    | MarkWritten(mark: Record)
    | MarkLocked(mark: Record)
    | SavingMark(settled: Record)
    | OwnerCalled
    | OwnerChecked
    | OwnerReviewed
    | Done(outcome: Outcome)
    | Dead

  /** `record` is the SQL row or the in-process object; `disk` is what the JSON file holds, nothing if it is torn;
      `others` are the snapshots that saves of unrelated records are about to write, and `window` those of all saves
      that have begun since the file was last at rest. The last five fields are history. */
  datatype State = State(
    store: Store,
    record: Option<Record>,
    reconciliations: nat,
    disk: Option<Record>,
    others: seq<Option<Record>>,
    window: seq<Option<Record>>,
    lock: Option<nat>,
    calls: seq<Pc>,
    sends: nat,
    epochSends: nat,
    losses: nat,
    replies: seq<Reply>,
    faithful: bool)

  datatype Event =
    | Call
    | Insert(i: nat, ok: bool)
    | Read(i: nat, ok: bool)
    | Acquire(i: nat)
    | Look(i: nat)
    | Put(i: nat)
    | SaveEnd(i: nat, ok: bool, left: Option<Record>)
    | Send(i: nat)
    | Answer(i: nat, reply: Reply)
    | MarkRead(i: nat, ok: bool)
    | MarkWrite(i: nat, ok: bool)
    | MarkReread(i: nat, ok: bool)
    | MarkAcquire(i: nat)
    | MarkPut(i: nat)
    | MarkSaveEnd(i: nat, ok: bool, left: Option<Record>)
    | OwnerCall
    | OwnerLook(i: nat)
    | OwnerReview(i: nat, aged: bool)
    | OwnerRecord(i: nat)
    | OtherSaveBegin
    | OtherSaveEnd(k: nat, ok: bool, left: Option<Record>)
    | Restart(found: Option<Record>, reconciliations: nat)

  function Start(store: Store): State {
    State(store, None, 0, None, [], [], None, [], 0, 0, 0, [], true)
  }

  predicate At(s: State, i: nat, pc: Pc) {
    i < |s.calls| && s.calls[i] == pc
  }

  function Move(s: State, i: nat, pc: Pc): State
    requires i < |s.calls|
  {
    s.(calls := s.calls[i := pc])
  }

  // ------------------------------------------------------------ what a call makes of a record

  /** A call that did not create the reservation never sends: it repeats the recorded outcome or reports uncertainty. */
  function Decide(record: Option<Record>): Outcome {
    match record
    case Some(Record(SUBMITTED, proof)) => Proof(proof)
    case Some(Record(REJECTED_BEFORE_SUBMIT, error)) => Rejected(error)
    case _ => Uncertain
  }

  /** The end of the call that sent, from the mark it wanted to make and the record it then found. */
  function Settle(mark: Record, settled: Option<Record>): Outcome {
    if mark.status == SUBMITTED then
      if settled.Some? && settled.value.status == SUBMITTED then Proof(settled.value.proof) else Uncertain
    else
      if settled.Some? && settled.value.status == REJECTED_BEFORE_SUBMIT then Rejected(settled.value.proof)
        else Rejected(mark.proof)
  }

  /** The compare-and-set of a mark. */
  function Marked(record: Option<Record>, mark: Record): Option<Record> {
    if record.Some? && record.value.status == INFLIGHT then Some(mark) else record
  }

  // ------------------------------------------------------------ the steps

  predicate IsSaving(pc: Pc) {
    pc.SavingReservation? || pc.SavingMark?
  }

  predicate SomeSaving(calls: seq<Pc>) {
    exists i :: 0 <= i < |calls| && IsSaving(calls[i])
  }

  /** Some save to the JSON file is under way. */
  predicate Running(s: State) {
    s.others != [] || SomeSaving(s.calls)
  }

  /** What a save of this content may leave in the file. Saves are neither atomic nor in any order: one that fails
      leaves what was there, a torn file, or its content after all, and of several that overlapped any may be what is
      left, or a torn file, although they all succeed. */
  predicate MayLeave(s: State, content: Option<Record>, ok: bool, left: Option<Record>) {
    || left == content
    || (!ok && (left.None? || left == s.disk))
    || (|s.window| > 1 && (left.None? || left in s.window))
  }

  /** After the end of a save. The file is at rest when no other save is under way. */
  function Rested(s: State, left: Option<Record>): State {
    s.(disk := left, window := if Running(s) then s.window else [])
  }

  /** The steps of reserve. */
  function ReserveStep(s: State, e: Event): Option<State> {
    match e
    case Call => Some(s.(calls := s.calls + [Reserving]))
    case Insert(i, ok) =>
      if s.store == Sql && At(s, i, Reserving) then
        if !ok then Some(Move(s, i, Done(Uncertain)))
        else if s.record.None? then Some(Move(s, i, Inserted(true)).(record := Some(Record(INFLIGHT, ""))))
        else Some(Move(s, i, Inserted(false)))
      else None
    case Read(i, ok) =>
      if i < |s.calls| && s.calls[i].Inserted? then
        Some(Move(s, i, if !ok then Done(Uncertain) else if s.calls[i].created then Reserved
          else Done(Decide(s.record))))
      else None
    case Acquire(i) =>
      if s.store != Sql && At(s, i, Reserving) && s.lock.None? then Some(Move(s, i, Locked).(lock := Some(i))) else None
    case Look(i) =>
      if At(s, i, Locked) then
        if s.record.Some? then Some(Move(s, i, Done(Decide(s.record))).(lock := None)) else Some(Move(s, i, Absent))
      else None
    case Put(i) =>
      if At(s, i, Absent) then
        var put := s.(record := Some(Record(INFLIGHT, "")));
        if s.store == Json then Some(Move(put, i, SavingReservation).(window := s.window + [put.record]))
          else Some(Move(put, i, Reserved).(lock := None))
      else None
    case SaveEnd(i, ok, left) =>
      if At(s, i, SavingReservation) then
        if MayLeave(s, Some(Record(INFLIGHT, "")), ok, left) then
          Some(Rested(Move(s, i, if ok then Reserved else Done(Uncertain)).(lock := None), left))
        else None
      else None
    case _ => None
  }

  /** The physical command and its answer. */
  function CommandStep(s: State, e: Event): Option<State> {
    match e
    case Send(i) =>
      if At(s, i, Reserved) then Some(Move(s, i, Commanded).(sends := s.sends + 1, epochSends := s.epochSends + 1))
        else None
    case Answer(i, reply) =>
      if At(s, i, Commanded) then
        var pc := match reply
          case Confirmed(proof) => Marking(Record(SUBMITTED, proof))
          case Refused(error) => Marking(Record(REJECTED_BEFORE_SUBMIT, error))
          case Broken => Done(Uncertain);
        Some(Move(s, i, pc).(replies := s.replies + [reply]))
      else None
    case _ => None
  }

  /** The steps of markSubmitted and markRejectedBeforeSubmit. */
  function MarkStep(s: State, e: Event): Option<State> {
    match e
    case MarkRead(i, ok) =>
      if s.store == Sql && i < |s.calls| && s.calls[i].Marking? then
        var mark := s.calls[i].mark;
        Some(Move(s, i,
          if !ok then Done(Uncertain)
          else if s.record.Some? && s.record.value.status == INFLIGHT then MarkChecked(mark)
          else Done(Settle(mark, s.record))))
      else None
    case MarkWrite(i, ok) =>
      if i < |s.calls| && s.calls[i].MarkChecked? then
        if ok then Some(Move(s, i, MarkWritten(s.calls[i].mark)).(record := Marked(s.record, s.calls[i].mark)))
          else Some(Move(s, i, Done(Uncertain)))
      else None
    case MarkReread(i, ok) =>
      if i < |s.calls| && s.calls[i].MarkWritten? then
        Some(Move(s, i, Done(if ok then Settle(s.calls[i].mark, s.record) else Uncertain)))
      else None
    case MarkAcquire(i) =>
      if s.store != Sql && i < |s.calls| && s.calls[i].Marking? && s.lock.None? then
        Some(Move(s, i, MarkLocked(s.calls[i].mark)).(lock := Some(i)))
      else None
    case MarkPut(i) =>
      if i < |s.calls| && s.calls[i].MarkLocked? then
        var mark := s.calls[i].mark;
        var after := Marked(s.record, mark);
        if s.store == Json && s.record.Some? && s.record.value.status == INFLIGHT then
          Some(Move(s, i, SavingMark(mark)).(record := after, window := s.window + [after]))
        else Some(Move(s, i, Done(Settle(mark, after))).(record := after, lock := None))
      else None
    case MarkSaveEnd(i, ok, left) =>
      if i < |s.calls| && s.calls[i].SavingMark? then
        var settled := s.calls[i].settled;
        if MayLeave(s, Some(settled), ok, left) then
          Some(Rested(Move(s, i, Done(if ok then Settle(settled, Some(settled)) else Uncertain)).(lock := None), left))
        else None
      else None
    case _ => None
  }

  /** What an operator is shown. */
  datatype View = View(storage: Option<Status>, reconciled: bool, needsReview: bool, canRetry: bool)

  /** #operatorView. `aged` says whether the review window has passed. */
  function OperatorView(record: Option<Record>, reconciliations: nat, aged: bool): View {
    match record
    case None => View(None, false, false, false)
    case Some(Record(SUBMITTED, _)) => View(Some(SUBMITTED), false, false, false)
    case Some(Record(REJECTED_BEFORE_SUBMIT, _)) => View(Some(REJECTED_BEFORE_SUBMIT), false, false, true)
    case Some(Record(INFLIGHT, _)) =>
      if reconciliations > 0 then View(Some(INFLIGHT), true, false, false) else View(Some(INFLIGHT), false, aged, false)
  }

  /** The steps of reconcileOwnerNotSent with valid evidence. */
  function OwnerStep(s: State, e: Event): Option<State> {
    match e
    case OwnerCall => Some(s.(calls := s.calls + [OwnerCalled]))
    case OwnerLook(i) =>
      if At(s, i, OwnerCalled) then
        Some(Move(s, i, if s.record.Some? && s.record.value.status == INFLIGHT then OwnerChecked else Done(Uncertain)))
      else None
    case OwnerReview(i, aged) =>
      if At(s, i, OwnerChecked) then
        Some(Move(s, i, if OperatorView(s.record, s.reconciliations, aged).needsReview then OwnerReviewed
          else Done(Uncertain)))
      else None
    case OwnerRecord(i) =>
      if At(s, i, OwnerReviewed) then
        var noted := Move(s, i, Done(Reconciled)).(reconciliations := s.reconciliations + 1);
        Some(if s.store == Json then noted.(others := s.others + [s.record], window := s.window + [s.record])
          else noted)
      else None
    case _ => None
  }

  /** What a restart may find: the SQL row; nothing without a store; of a JSON file what it holds or, when saves were
      cut off, any of their contents or nothing (a torn file is replaced by an empty one). */
  predicate MayFind(s: State, found: Option<Record>) {
    match s.store
    case Sql => found == s.record
    case Memory => found.None?
    case Json => found == s.disk || (s.window != [] && (found.None? || found in s.window))
  }

  function AllDead(calls: seq<Pc>): (dead: seq<Pc>)
    ensures |dead| == |calls|
    ensures forall i :: 0 <= i < |calls| ==> dead[i] == if calls[i].Done? then calls[i] else Dead
  {
    seq(|calls|, i requires 0 <= i < |calls| => if calls[i].Done? then calls[i] else Dead)
  }

  /** Saves of unrelated records to the same JSON file, and the crash and restart of the process. */
  function WorldStep(s: State, e: Event): Option<State> {
    match e
    case OtherSaveBegin =>
      if s.store == Json then Some(s.(others := s.others + [s.record], window := s.window + [s.record])) else None
    case OtherSaveEnd(k, ok, left) =>
      if k < |s.others| && MayLeave(s, s.others[k], ok, left) then
        Some(Rested(s.(others := s.others[..k] + s.others[k + 1..]), left))
      else None
    case Restart(found, reconciliations) =>
      if MayFind(s, found) && (s.store == Sql ==> reconciliations == s.reconciliations) then
        var forgot := s.record.Some? && found.None?;
        Some(s.(record := found, reconciliations := reconciliations, disk := found, others := [], window := [],
          lock := None, calls := AllDead(s.calls),
          losses := if forgot && s.epochSends > 0 then s.losses + 1 else s.losses,
          epochSends := if forgot then 0 else s.epochSends,
          faithful := s.faithful && found == s.record))
      else None
    case _ => None
  }

  function Step(s: State, e: Event): Option<State> {
    match ReserveStep(s, e)
    case Some(t) => Some(t)
    case None =>
      match CommandStep(s, e)
      case Some(t) => Some(t)
      case None =>
        match MarkStep(s, e)
        case Some(t) => Some(t)
        case None =>
          match OwnerStep(s, e)
          case Some(t) => Some(t)
          case None => WorldStep(s, e)
  }

  /** A run, with `None` when one of its events was not possible. */
  function Run(s: State, events: seq<Event>): Option<State>
    decreases |events|
  {
    if events == [] then Some(s)
    else
      match Run(s, events[..|events| - 1])
      case None => None
      case Some(t) => Step(t, events[|events| - 1])
  }

  // ------------------------------------------------------------ counting calls

  ghost function Count(calls: seq<Pc>, p: Pc -> bool): nat {
    if calls == [] then 0 else Count(calls[..|calls| - 1], p) + if p(calls[|calls| - 1]) then 1 else 0
  }

  lemma CountAppend(calls: seq<Pc>, pc: Pc, p: Pc -> bool)
    ensures Count(calls + [pc], p) == Count(calls, p) + if p(pc) then 1 else 0
  {
    assert (calls + [pc])[..|calls|] == calls;
  }

  lemma {:induction false} CountMove(calls: seq<Pc>, i: nat, pc: Pc, p: Pc -> bool)
    requires i < |calls|
    ensures Count(calls[i := pc], p) == Count(calls, p) - (if p(calls[i]) then 1 else 0) + if p(pc) then 1 else 0
  {
    var n := |calls| - 1;
    if i == n {
      assert calls[i := pc][..n] == calls[..n];
    } else {
      assert calls[i := pc][..n] == calls[..n][i := pc];
      CountMove(calls[..n], i, pc, p);
    }
  }

  lemma {:induction false} CountNone(calls: seq<Pc>, p: Pc -> bool)
    requires forall i :: 0 <= i < |calls| ==> !p(calls[i])
    ensures Count(calls, p) == 0
  {
    if calls != [] {
      CountNone(calls[..|calls| - 1], p);
    }
  }

  /** Calls that hold the reservation and have not sent yet. */
  predicate MaySend(pc: Pc) {
    pc == Inserted(true) || pc.SavingReservation? || pc.Reserved?
  }

  ghost const BeforeSend: Pc -> bool := (pc: Pc) => MaySend(pc)

  ghost const AwaitingReply: Pc -> bool := (pc: Pc) => pc.Commanded?

  // ------------------------------------------------------------ at most once

  /** Since the record was last forgotten, at most one call has sent or may yet send, and only if there is a record.
      Every earlier send was paid for by a restart that forgot it. */
  ghost predicate Counted(s: State) {
    && s.epochSends + Count(s.calls, BeforeSend) <= (if s.record.Some? then 1 else 0)
    && s.sends == s.losses + s.epochSends
    && |s.replies| + Count(s.calls, AwaitingReply) <= s.sends
  }

  ghost predicate NeedsLock(pc: Pc) {
    pc.Locked? || pc.Absent? || pc.SavingReservation? || pc.MarkLocked? || pc.SavingMark?
  }

  /** The mutation lock excludes, and a call that found no record still finds none. */
  ghost predicate Locking(s: State) {
    forall i :: 0 <= i < |s.calls| && NeedsLock(s.calls[i]) ==>
      s.lock == Some(i) && s.store != Sql && (s.calls[i].Absent? ==> s.record.None?)
  }

  lemma MoveCounts(calls: seq<Pc>, i: nat, pc: Pc)
    requires i < |calls|
    ensures Count(calls[i := pc], BeforeSend) ==
      Count(calls, BeforeSend) - (if BeforeSend(calls[i]) then 1 else 0) + if BeforeSend(pc) then 1 else 0
    ensures Count(calls[i := pc], AwaitingReply) ==
      Count(calls, AwaitingReply) - (if AwaitingReply(calls[i]) then 1 else 0) + if AwaitingReply(pc) then 1 else 0
  {
    CountMove(calls, i, pc, BeforeSend);
    CountMove(calls, i, pc, AwaitingReply);
  }

  /** A step that moves one call, as the counts see it. */
  lemma CountedMove(s: State, t: State, i: nat, pc: Pc)
    requires Counted(s) && i < |s.calls| && t.calls == s.calls[i := pc]
    requires t.sends == s.sends + (if s.calls[i].Reserved? then 1 else 0)
    requires t.epochSends - s.epochSends == t.sends - s.sends && t.losses == s.losses
    requires |t.replies| == |s.replies| + (if s.calls[i].Commanded? then 1 else 0)
    requires s.calls[i].Reserved? <==> pc.Commanded?
    requires MaySend(pc) && !MaySend(s.calls[i]) ==> s.record.None? && t.record.Some?
    requires s.record.Some? ==> t.record.Some?
    ensures Counted(t)
  {
    hide Count;
    MoveCounts(s.calls, i, pc);
  }

  ghost function Mover(e: Event): Option<nat> {
    match e
    case Insert(i, _) => Some(i)
    case Read(i, _) => Some(i)
    case Acquire(i) => Some(i)
    case Look(i) => Some(i)
    case Put(i) => Some(i)
    case SaveEnd(i, _, _) => Some(i)
    case Send(i) => Some(i)
    case Answer(i, _) => Some(i)
    case MarkRead(i, _) => Some(i)
    case MarkWrite(i, _) => Some(i)
    case MarkReread(i, _) => Some(i)
    case MarkAcquire(i) => Some(i)
    case MarkPut(i) => Some(i)
    case MarkSaveEnd(i, _, _) => Some(i)
    case OwnerLook(i) => Some(i)
    case OwnerReview(i, _) => Some(i)
    case OwnerRecord(i) => Some(i)
    case _ => None
  }

  lemma ReserveCounted(s: State, e: Event)
    requires Counted(s) && Locking(s) && ReserveStep(s, e).Some?
    ensures Counted(ReserveStep(s, e).value)
  {
    var t := ReserveStep(s, e).value;
    hide Counted, Count, MayLeave, Decide, Locking, BeforeSend, AwaitingReply;
    if e.Call? {
      NewCallCounted(s, t, Reserving);
    } else {
      var i := Mover(e).value;
      if NeedsLock(s.calls[i]) {
        LockingAt(s, i);
      }
      CountedMove(s, t, i, t.calls[i]);
    }
  }

  lemma NewCallCounted(s: State, t: State, pc: Pc)
    requires Counted(s) && t == s.(calls := s.calls + [pc]) && !MaySend(pc) && !pc.Commanded?
    ensures Counted(t)
  {
    hide Count;
    CountAppend(s.calls, pc, BeforeSend);
    CountAppend(s.calls, pc, AwaitingReply);
  }

  lemma CommandCounted(s: State, e: Event)
    requires Counted(s) && CommandStep(s, e).Some?
    ensures Counted(CommandStep(s, e).value)
  {
    var t := CommandStep(s, e).value;
    hide Counted, Count, BeforeSend, AwaitingReply;
    CountedMove(s, t, Mover(e).value, t.calls[Mover(e).value]);
  }

  lemma MarkCounted(s: State, e: Event)
    requires Counted(s) && MarkStep(s, e).Some?
    ensures Counted(MarkStep(s, e).value)
  {
    var t := MarkStep(s, e).value;
    hide Counted, Count, MayLeave, Settle, Marked, BeforeSend, AwaitingReply;
    CountedMove(s, t, Mover(e).value, t.calls[Mover(e).value]);
  }

  lemma OwnerCounted(s: State, e: Event)
    requires Counted(s) && OwnerStep(s, e).Some?
    ensures Counted(OwnerStep(s, e).value)
  {
    var t := OwnerStep(s, e).value;
    hide Counted, Count, OperatorView, BeforeSend, AwaitingReply;
    if e.OwnerCall? {
      NewCallCounted(s, t, OwnerCalled);
    } else {
      CountedMove(s, t, Mover(e).value, t.calls[Mover(e).value]);
    }
  }

  lemma WorldCounted(s: State, e: Event)
    requires Counted(s) && WorldStep(s, e).Some?
    ensures Counted(WorldStep(s, e).value)
  {
    hide Count, MayFind;
    if e.Restart? {
      CountNone(AllDead(s.calls), BeforeSend);
      CountNone(AllDead(s.calls), AwaitingReply);
    }
  }

  /** A step that moves one call, as the lock sees it. */
  lemma LockingMove(s: State, t: State, i: nat, pc: Pc)
    requires Locking(s) && i < |s.calls| && t.calls == s.calls[i := pc] && t.store == s.store
    requires NeedsLock(pc) ==> t.lock == Some(i) && s.store != Sql && (pc.Absent? ==> t.record.None?)
    requires t.lock == s.lock || s.lock.None? || s.lock == Some(i)
    requires s.record.None? && t.record.Some? ==> s.store == Sql || s.lock == Some(i)
    ensures Locking(t)
  {
    forall k | 0 <= k < |t.calls| && NeedsLock(t.calls[k])
      ensures t.lock == Some(k) && t.store != Sql && (t.calls[k].Absent? ==> t.record.None?)
    {
      if k != i {
        assert t.calls[k] == s.calls[k];
      }
    }
  }

  lemma LockingAt(s: State, i: nat)
    requires Locking(s) && i < |s.calls| && NeedsLock(s.calls[i])
    ensures s.lock == Some(i) && s.store != Sql && (s.calls[i].Absent? ==> s.record.None?)
  {}

  lemma NewCallLocking(s: State, t: State, pc: Pc)
    requires Locking(s) && t == s.(calls := s.calls + [pc]) && !NeedsLock(pc)
    ensures Locking(t)
  {}

  lemma ReserveLocking(s: State, e: Event)
    requires Locking(s) && ReserveStep(s, e).Some?
    ensures Locking(ReserveStep(s, e).value)
  {
    var t := ReserveStep(s, e).value;
    hide Locking, MayLeave, Decide;
    if e.Call? {
      NewCallLocking(s, t, Reserving);
    } else {
      var i := Mover(e).value;
      if NeedsLock(s.calls[i]) {
        LockingAt(s, i);
      }
      LockingMove(s, t, i, t.calls[i]);
    }
  }

  lemma CommandLocking(s: State, e: Event)
    requires Locking(s) && CommandStep(s, e).Some?
    ensures Locking(CommandStep(s, e).value)
  {
    var t := CommandStep(s, e).value;
    hide Locking;
    LockingMove(s, t, Mover(e).value, t.calls[Mover(e).value]);
  }

  lemma MarkLocking(s: State, e: Event)
    requires Locking(s) && MarkStep(s, e).Some?
    ensures Locking(MarkStep(s, e).value)
  {
    var t := MarkStep(s, e).value;
    var i := Mover(e).value;
    hide Locking, MayLeave, Settle;
    if NeedsLock(s.calls[i]) {
      LockingAt(s, i);
    }
    LockingMove(s, t, i, t.calls[i]);
  }

  lemma OwnerLocking(s: State, e: Event)
    requires Locking(s) && OwnerStep(s, e).Some?
    ensures Locking(OwnerStep(s, e).value)
  {
    var t := OwnerStep(s, e).value;
    hide Locking, OperatorView;
    if e.OwnerCall? {
      NewCallLocking(s, t, OwnerCalled);
    } else {
      LockingMove(s, t, Mover(e).value, t.calls[Mover(e).value]);
    }
  }

  lemma WorldLocking(s: State, e: Event)
    requires Locking(s) && WorldStep(s, e).Some?
    ensures Locking(WorldStep(s, e).value)
  {
    hide MayFind;
  }

  lemma StepCases(s: State, e: Event)
    requires Step(s, e).Some?
    ensures Step(s, e) == ReserveStep(s, e) || Step(s, e) == CommandStep(s, e) || Step(s, e) == MarkStep(s, e)
      || Step(s, e) == OwnerStep(s, e) || Step(s, e) == WorldStep(s, e)
  {
    hide ReserveStep, CommandStep, MarkStep, OwnerStep, WorldStep;
  }

  lemma StepKeepsCounts(s: State, e: Event)
    requires Counted(s) && Locking(s) && Step(s, e).Some?
    ensures Counted(Step(s, e).value) && Locking(Step(s, e).value)
  {
    StepCases(s, e);
    hide *;
    if Step(s, e) == ReserveStep(s, e) {
      ReserveCounted(s, e);
      ReserveLocking(s, e);
    } else if Step(s, e) == CommandStep(s, e) {
      CommandCounted(s, e);
      CommandLocking(s, e);
    } else if Step(s, e) == MarkStep(s, e) {
      MarkCounted(s, e);
      MarkLocking(s, e);
    } else if Step(s, e) == OwnerStep(s, e) {
      OwnerCounted(s, e);
      OwnerLocking(s, e);
    } else {
      WorldCounted(s, e);
      WorldLocking(s, e);
    }
  }

  lemma RunLast(s: State, events: seq<Event>)
    requires events != [] && Run(s, events).Some?
    ensures var init := Run(s, events[..|events| - 1]);
      init.Some? && Step(init.value, events[|events| - 1]) == Run(s, events)
  {
    hide Step;
  }

  lemma RunNothing(s: State)
    ensures Run(s, []) == Some(s)
  {}

  lemma StartCounts(store: Store)
    ensures Counted(Start(store)) && Locking(Start(store))
  {
    hide *;
    NobodyCounts(Start(store));
    NobodyLocks(Start(store));
    StartIs(store);
  }

  lemma StartIs(store: Store)
    ensures var s := Start(store);
      s.calls == [] && s.record.None? && s.sends == 0 && s.epochSends == 0 && s.losses == 0 && s.replies == []
  {}

  lemma NobodyCounts(s: State)
    ensures s.calls == [] && s.record.None? && s.sends == 0 && s.epochSends == 0 && s.losses == 0 && s.replies == [] ==>
      Counted(s)
  {
    hide BeforeSend, AwaitingReply;
  }

  lemma NobodyLocks(s: State)
    ensures s.calls == [] ==> Locking(s)
  {}

  lemma {:induction false} RunKeepsCounts(store: Store, events: seq<Event>)
    requires Run(Start(store), events).Some?
    ensures Counted(Run(Start(store), events).value) && Locking(Run(Start(store), events).value)
    decreases |events|
  {
    hide *;
    if events == [] {
      RunNothing(Start(store));
      StartCounts(store);
    } else {
      RunLast(Start(store), events);
      RunKeepsCounts(store, events[..|events| - 1]);
      StepKeepsCounts(Run(Start(store), events[..|events| - 1]).value, events[|events| - 1]);
    }
  }

  /** In every run, with any number of calls, any interleaving and any crashes, the physical command is issued at most
      once more than restarts have forgotten a reservation that had already been used. */
  lemma SendsAreAccountedFor(store: Store, events: seq<Event>)
    requires Run(Start(store), events).Some?
    ensures var t := Run(Start(store), events).value; t.sends <= 1 + t.losses
  {
    RunKeepsCounts(store, events);
    hide Run, Count;
  }

  lemma {:induction false} SqlLosesNothing(events: seq<Event>)
    requires Run(Start(Sql), events).Some?
    ensures var t := Run(Start(Sql), events).value; t.store == Sql && t.losses == 0 && t.faithful
    decreases |events|
  {
    if events == [] {
      RunNothing(Start(Sql));
    } else {
      RunLast(Start(Sql), events);
      SqlLosesNothing(events[..|events| - 1]);
      hide Run;
      SqlStepLosesNothing(Run(Start(Sql), events[..|events| - 1]).value, events[|events| - 1]);
    }
  }

  lemma SqlStepLosesNothing(s: State, e: Event)
    requires s.store == Sql && s.losses == 0 && s.faithful && Step(s, e).Some?
    ensures var t := Step(s, e).value; t.store == Sql && t.losses == 0 && t.faithful
  {
    StepCases(s, e);
    hide Step, Decide, Settle, OperatorView, MayLeave;
  }

  /** With the SQL store the physical command is issued at most once in every run. */
  lemma AtMostOneSend(events: seq<Event>)
    requires Run(Start(Sql), events).Some?
    ensures Run(Start(Sql), events).value.sends <= 1
  {
    hide *;
    SendsAreAccountedFor(Sql, events);
    SqlLosesNothing(events);
  }

  // ------------------------------------------------------------ the stores that forget

  lemma RunMore(s: State, events: seq<Event>, e: Event)
    ensures Run(s, events + [e]) == match Run(s, events) { case None => None case Some(t) => Step(t, e) }
  {
    assert (events + [e])[..|events|] == events;
    hide Step;
  }

  /** Runs from a given state, first event first. */
  function Play(s: State, events: seq<Event>): Option<State>
    decreases |events|
  {
    if events == [] then Some(s)
    else
      match Step(s, events[0])
      case None => None
      case Some(t) => Play(t, events[1..])
  }

  lemma {:induction false} PlayIsRun(s: State, past: seq<Event>, t: State, events: seq<Event>)
    requires Run(s, past) == Some(t)
    ensures Run(s, past + events) == Play(t, events)
    decreases |events|
  {
    hide Step;
    if events == [] {
      assert past + events == past;
    } else {
      assert past + events == (past + [events[0]]) + events[1..];
      RunMore(s, past, events[0]);
      match Step(t, events[0])
      case None =>
        NoRunFurther(s, past + [events[0]], events[1..]);
      case Some(next) =>
        PlayIsRun(s, past + [events[0]], next, events[1..]);
    }
  }

  lemma {:induction false} NoRunFurther(s: State, past: seq<Event>, events: seq<Event>)
    requires Run(s, past).None?
    ensures Run(s, past + events).None?
    decreases |events|
  {
    if events == [] {
      assert past + events == past;
    } else {
      NoRunFurther(s, past, events[..|events| - 1]);
      RunMore(s, past + events[..|events| - 1], events[|events| - 1]);
      assert past + events == (past + events[..|events| - 1]) + [events[|events| - 1]];
    }
  }

  lemma PlayFirst(s: State, events: seq<Event>, t: State)
    requires events != [] && Step(s, events[0]) == Some(t)
    ensures Play(s, events) == Play(t, events[1..])
  {
    hide Step;
  }

  lemma {:induction false} PlayTwice(s: State, a: seq<Event>, t: State, b: seq<Event>)
    requires Play(s, a) == Some(t)
    ensures Play(s, a + b) == Play(t, b)
    decreases |a|
  {
    hide Step;
    if a == [] {
      assert a + b == b;
    } else {
      assert (a + b)[0] == a[0] && (a + b)[1..] == a[1..] + b;
      PlayTwice(Step(s, a[0]).value, a[1..], t, b);
    }
  }

  /** What a process does that finds no reservation and is not disturbed. */
  function Undisturbed(store: Store, n: nat): seq<Event> {
    match store
    case Sql => [Call, Insert(n, true), Read(n, true), Send(n)]
    case Json => [Call, Acquire(n), Look(n), Put(n), SaveEnd(n, true, Some(Record(INFLIGHT, ""))), Send(n)]
    case Memory => [Call, Acquire(n), Look(n), Put(n), Send(n)]
  }

  ghost predicate Quiet(s: State) {
    s.record.None? && s.lock.None?
  }

  function AfterSend(s: State): State {
    var inflight := Some(Record(INFLIGHT, ""));
    var saved := if s.store == Json then AfterSave(s, inflight) else s;
    saved.(record := inflight, calls := s.calls + [Commanded], sends := s.sends + 1, epochSends := s.epochSends + 1)
  }

  /** The file after a save of its own that nothing disturbed. */
  function AfterSave(s: State, content: Option<Record>): State {
    s.(disk := content, window := if Running(s) then s.window + [content] else [])
  }

  lemma SavingAppend(calls: seq<Pc>, pc: Pc)
    ensures SomeSaving(calls + [pc]) <==> SomeSaving(calls) || IsSaving(pc)
  {
    var more := calls + [pc];
    assert more[|calls|] == pc;
    if SomeSaving(calls) {
      var i :| 0 <= i < |calls| && IsSaving(calls[i]);
      assert IsSaving(more[i]);
    }
  }

  lemma SavingMove(calls: seq<Pc>, i: nat, pc: Pc)
    requires i < |calls| && !IsSaving(calls[i])
    ensures SomeSaving(calls[i := pc]) <==> SomeSaving(calls) || IsSaving(pc)
  {
    var after := calls[i := pc];
    assert after[i] == pc;
    if SomeSaving(calls) {
      var k :| 0 <= k < |calls| && IsSaving(calls[k]);
      assert IsSaving(after[k]);
    }
    if SomeSaving(after) && !IsSaving(pc) {
      var k :| 0 <= k < |after| && IsSaving(after[k]);
      assert IsSaving(calls[k]);
    }
  }

  /** Wherever no reservation is found, the next call sends. */
  lemma UndisturbedSends(s: State)
    requires Quiet(s)
    ensures Play(s, Undisturbed(s.store, |s.calls|)) == Some(AfterSend(s))
  {
    match s.store
    case Sql => UndisturbedSql(s);
    case Json => UndisturbedJson(s);
    case Memory => UndisturbedMemory(s);
  }

  lemma AppendThenMove(calls: seq<Pc>, a: Pc, b: Pc)
    ensures (calls + [a])[|calls| := b] == calls + [b]
  {}

  lemma PlayTwo(s: State, e: Event, t: State, e': Event, t': State)
    requires Step(s, e) == Some(t) && Step(t, e') == Some(t')
    ensures Play(s, [e, e']) == Some(t')
  {
    hide Step, Play;
    PlayFirst(s, [e, e'], t);
    PlayOne(t, e', t');
    assert [e, e'][1..] == [e'];
  }

  lemma PlayOne(s: State, e: Event, t: State)
    requires Step(s, e) == Some(t)
    ensures Play(s, [e]) == Some(t)
  {
    hide Step;
  }

  lemma UndisturbedSql(s: State)
    requires Quiet(s) && s.store == Sql
    ensures Play(s, Undisturbed(Sql, |s.calls|)) == Some(AfterSend(s))
  {
    var n := |s.calls|;
    var reserved := s.(record := Some(Record(INFLIGHT, "")));
    var s1, s2, s3 :=
      s.(calls := s.calls + [Reserving]), reserved.(calls := s.calls + [Inserted(true)]),
          reserved.(calls := s.calls + [Reserved]);
    hide Play;
    CallAndInsert(s, s1, s2);
    ReadAndSend(s2, s3, AfterSend(s), s.calls);
    PlayTwo(s, Call, s1, Insert(n, true), s2);
    PlayTwo(s2, Read(n, true), s3, Send(n), AfterSend(s));
    PlayTwice(s, [Call, Insert(n, true)], s2, [Read(n, true), Send(n)]);
    assert [Call, Insert(n, true)] + [Read(n, true), Send(n)] == Undisturbed(Sql, n);
  }

  lemma CallAndInsert(s: State, s1: State, s2: State)
    requires Quiet(s) && s.store == Sql
    requires s1 == s.(calls := s.calls + [Reserving])
    requires s2 == s.(record := Some(Record(INFLIGHT, "")), calls := s.calls + [Inserted(true)])
    ensures Step(s, Call) == Some(s1) && Step(s1, Insert(|s.calls|, true)) == Some(s2)
  {
    AppendThenMove(s.calls, Reserving, Inserted(true));
  }

  lemma ReadAndSend(s: State, t: State, u: State, calls: seq<Pc>)
    requires s.calls == calls + [Inserted(true)] && t == s.(calls := calls + [Reserved])
    requires u == t.(calls := calls + [Commanded], sends := s.sends + 1, epochSends := s.epochSends + 1)
    ensures Step(s, Read(|calls|, true)) == Some(t) && Step(t, Send(|calls|)) == Some(u)
  {
    AppendThenMove(calls, Inserted(true), Reserved);
    AppendThenMove(calls, Reserved, Commanded);
  }

  lemma CallAndAcquire(s: State, s1: State, s2: State)
    requires Quiet(s) && s.store != Sql
    requires s1 == s.(calls := s.calls + [Reserving]) && s2 == s.(calls := s.calls + [Locked], lock := Some(|s.calls|))
    ensures Step(s, Call) == Some(s1) && Step(s1, Acquire(|s.calls|)) == Some(s2)
  {
    AppendThenMove(s.calls, Reserving, Locked);
  }

  /** After the reservation is made in the process. */
  function HasPut(s: State, calls: seq<Pc>, put: Pc): State {
    var inflight := Some(Record(INFLIGHT, ""));
    var made := s.(record := inflight, calls := calls + [put]);
    if s.store == Json then made.(lock := Some(|calls|), window := s.window + [inflight]) else made.(lock := None)
  }

  lemma LookAndPut(s: State, t: State, u: State, calls: seq<Pc>, put: Pc)
    requires s.record.None? && s.lock == Some(|calls|) && s.calls == calls + [Locked]
    requires t == s.(calls := calls + [Absent])
    requires put == if s.store == Json then SavingReservation else Reserved
    requires u == HasPut(s, calls, put)
    ensures Step(s, Look(|calls|)) == Some(t) && Step(t, Put(|calls|)) == Some(u)
  {
    AppendThenMove(calls, Locked, Absent);
    AppendThenMove(calls, Absent, put);
  }

  lemma LockedSteps(s: State, put: Pc)
    requires Quiet(s) && s.store != Sql
    requires put == if s.store == Json then SavingReservation else Reserved
    ensures var n := |s.calls|;
      && Play(s, [Call, Acquire(n), Look(n), Put(n)]) ==
        Some(HasPut(s, s.calls, put))
  {
    var n := |s.calls|;
    var s1 := s.(calls := s.calls + [Reserving]);
    var s2 := s.(calls := s.calls + [Locked], lock := Some(n));
    var s3 := s2.(calls := s.calls + [Absent]);
    var s4 := HasPut(s, s.calls, put);
    hide Step, Play;
    CallAndAcquire(s, s1, s2);
    LookAndPut(s2, s3, s4, s.calls, put);
    PlayTwo(s, Call, s1, Acquire(n), s2);
    PlayTwo(s2, Look(n), s3, Put(n), s4);
    PlayTwice(s, [Call, Acquire(n)], s2, [Look(n), Put(n)]);
    assert [Call, Acquire(n)] + [Look(n), Put(n)] == [Call, Acquire(n), Look(n), Put(n)];
  }

  lemma SendOnly(s: State, t: State, calls: seq<Pc>)
    requires s.calls == calls + [Reserved]
    requires t == s.(calls := calls + [Commanded], sends := s.sends + 1, epochSends := s.epochSends + 1)
    ensures Step(s, Send(|calls|)) == Some(t)
  {
    AppendThenMove(calls, Reserved, Commanded);
  }

  lemma UndisturbedMemory(s: State)
    requires Quiet(s) && s.store == Memory
    ensures Play(s, Undisturbed(Memory, |s.calls|)) == Some(AfterSend(s))
  {
    var n := |s.calls|;
    var t := s.(record := Some(Record(INFLIGHT, "")), calls := s.calls + [Reserved], lock := None);
    hide Step, Play;
    SendOnly(t, AfterSend(s), s.calls);
    LockedSteps(s, Reserved);
    PlayOne(t, Send(n), AfterSend(s));
    PlayTwice(s, [Call, Acquire(n), Look(n), Put(n)], t, [Send(n)]);
    assert [Call, Acquire(n), Look(n), Put(n)] + [Send(n)] == Undisturbed(Memory, n);
  }

  lemma SaveAndSend(s: State, t: State, t': State, u: State)
    requires s.store == Json && s.lock.None? && t == HasPut(s, s.calls, SavingReservation)
    requires t' == AfterSave(s, Some(Record(INFLIGHT, ""))).(record := t.record, calls := s.calls + [Reserved])
    requires u == AfterSend(s)
    ensures Step(t, SaveEnd(|s.calls|, true, Some(Record(INFLIGHT, "")))) == Some(t')
    ensures Step(t', Send(|s.calls|)) == Some(u)
  {
    AppendThenMove(s.calls, SavingReservation, Reserved);
    AppendThenMove(s.calls, Reserved, Commanded);
    SavingAppend(s.calls, Reserved);
    hide SomeSaving;
  }

  lemma UndisturbedJson(s: State)
    requires Quiet(s) && s.store == Json
    ensures Play(s, Undisturbed(Json, |s.calls|)) == Some(AfterSend(s))
  {
    var n := |s.calls|;
    var inflight := Some(Record(INFLIGHT, ""));
    var t := HasPut(s, s.calls, SavingReservation);
    var t' := AfterSave(s, inflight).(record := inflight, calls := s.calls + [Reserved]);
    hide Step, Play, Running;
    LockedSteps(s, SavingReservation);
    SaveAndSend(s, t, t', AfterSend(s));
    PlayTwo(t, SaveEnd(n, true, inflight), t', Send(n), AfterSend(s));
    PlayTwice(s, [Call, Acquire(n), Look(n), Put(n)], t, [SaveEnd(n, true, inflight), Send(n)]);
    assert [Call, Acquire(n), Look(n), Put(n)] + [SaveEnd(n, true, inflight), Send(n)] == Undisturbed(Json, n);
  }

  // ------------------------------------------------------------ what an undisturbed call returns

  /** A call that finds a record, and is not disturbed. */
  function Repeating(store: Store, n: nat): seq<Event> {
    if store == Sql then [Call, Insert(n, true), Read(n, true)] else [Call, Acquire(n), Look(n)]
  }

  lemma PlayThree(s: State, e: Event, t: State, e': Event, t': State, e'': Event, t'': State)
    requires Step(s, e) == Some(t) && Step(t, e') == Some(t') && Step(t', e'') == Some(t'')
    ensures Play(s, [e, e', e'']) == Some(t'')
  {
    hide Step, Play;
    PlayFirst(s, [e, e', e''], t);
    PlayTwo(t, e', t', e'', t'');
    assert [e, e', e''][1..] == [e', e''];
  }

  /** Every later call repeats the recorded outcome, or reports uncertainty while there is none. It changes nothing else
      and sends nothing. */
  lemma LaterCallsRepeat(s: State)
    requires s.record.Some? && s.lock.None?
    ensures var r := Play(s, Repeating(s.store, |s.calls|));
      && r.Some? && |r.value.calls| == |s.calls| + 1 && r.value == s.(calls := s.calls + [r.value.calls[|s.calls|]])
      && match s.record.value
         case Record(SUBMITTED, proof) => r.value.calls[|s.calls|] == Done(Proof(proof))
         case Record(REJECTED_BEFORE_SUBMIT, error) => r.value.calls[|s.calls|] == Done(Rejected(error))
         case Record(INFLIGHT, _) => r.value.calls[|s.calls|] == Done(Uncertain)
  {
    RepeatsDecision(s);
    hide Play, Repeating;
  }

  lemma RepeatsDecision(s: State)
    requires s.record.Some? && s.lock.None?
    ensures Play(s, Repeating(s.store, |s.calls|)) == Some(s.(calls := s.calls + [Done(Decide(s.record))]))
  {
    var n, calls := |s.calls|, s.calls;
    var s1, s3 := s.(calls := calls + [Reserving]), s.(calls := calls + [Done(Decide(s.record))]);
    if s.store == Sql {
      var s2 := s.(calls := calls + [Inserted(false)]);
      RepeatSql(s, s1, s2, s3);
      PlayThree(s, Call, s1, Insert(n, true), s2, Read(n, true), s3);
    } else {
      var s2 := s.(calls := calls + [Locked], lock := Some(n));
      RepeatLocked(s, s1, s2, s3);
      PlayThree(s, Call, s1, Acquire(n), s2, Look(n), s3);
    }
  }

  lemma RepeatSql(s: State, s1: State, s2: State, s3: State)
    requires s.store == Sql && s.record.Some?
    requires s1 == s.(calls := s.calls + [Reserving]) && s2 == s.(calls := s.calls + [Inserted(false)])
    requires s3 == s.(calls := s.calls + [Done(Decide(s.record))])
    ensures Step(s, Call) == Some(s1) && Step(s1, Insert(|s.calls|, true)) == Some(s2)
    ensures Step(s2, Read(|s.calls|, true)) == Some(s3)
  {
    hide Decide;
    AppendThenMove(s.calls, Reserving, Inserted(false));
    AppendThenMove(s.calls, Inserted(false), Done(Decide(s.record)));
  }

  lemma RepeatLocked(s: State, s1: State, s2: State, s3: State)
    requires s.store != Sql && s.record.Some? && s.lock.None?
    requires s1 == s.(calls := s.calls + [Reserving]) && s2 == s.(calls := s.calls + [Locked], lock := Some(|s.calls|))
    requires s3 == s.(calls := s.calls + [Done(Decide(s.record))])
    ensures Step(s, Call) == Some(s1) && Step(s1, Acquire(|s.calls|)) == Some(s2)
    ensures Step(s2, Look(|s.calls|)) == Some(s3)
  {
    hide Decide;
    AppendThenMove(s.calls, Reserving, Locked);
    AppendThenMove(s.calls, Locked, Done(Decide(s.record)));
  }

  /** The steps after the command's answer, undisturbed. */
  function Settling(store: Store, i: nat, reply: Reply): seq<Event>
    requires !reply.Broken?
  {
    match store
    case Sql => [Answer(i, reply), MarkRead(i, true)] + [MarkWrite(i, true), MarkReread(i, true)]
    case Json => [Answer(i, reply), MarkAcquire(i)] + [MarkPut(i), MarkSaveEnd(i, true, Some(MarkOf(reply)))]
    case Memory => [Answer(i, reply), MarkAcquire(i)] + [MarkPut(i)]
  }

  function MarkOf(reply: Reply): Record
    requires !reply.Broken?
  {
    match reply
    case Confirmed(proof) => Record(SUBMITTED, proof)
    case Refused(error) => Record(REJECTED_BEFORE_SUBMIT, error)
  }

  function AfterAnswer(s: State, i: nat, reply: Reply): State
    requires i < |s.calls| && !reply.Broken?
  {
    var mark := Some(MarkOf(reply));
    var saved := if s.store == Json then AfterSave(s, mark) else s;
    saved.(record := mark, calls := s.calls[i := Done(Decide(mark))], replies := s.replies + [reply])
  }

  /** What the command reports is recorded, saved to the file of a JSON store and returned: a confirmation as the proof,
      a refusal as a rejection. */
  lemma AnswerIsRecorded(s: State, i: nat, reply: Reply)
    requires At(s, i, Commanded) && s.record == Some(Record(INFLIGHT, "")) && s.lock.None? && !reply.Broken?
    ensures var r := Play(s, Settling(s.store, i, reply));
      && r.Some? && r.value.replies == s.replies + [reply] && r.value.sends == s.sends && r.value.lock.None?
      && (s.store == Json ==> r.value.disk == r.value.record)
      && match reply
         case Confirmed(proof) =>
           r.value.record == Some(Record(SUBMITTED, proof)) && r.value.calls == s.calls[i := Done(Proof(proof))]
         case Refused(error) =>
           r.value.record == Some(Record(REJECTED_BEFORE_SUBMIT, error))
             && r.value.calls == s.calls[i := Done(Rejected(error))]
  {
    SettlesAnswer(s, i, reply);
    hide Play, Settling, Running;
  }

  /** What a call tells when it has read back, under its lock or after saving, what became of its mark. */
  lemma MarkAnswers(s: State, e: Event)
    requires MarkStep(s, e).Some? && Succeeds(e)
    ensures var t, i := MarkStep(s, e).value, Mover(e).value; var mark := HeldMark(s.calls[i]);
      var found := if e.MarkSaveEnd? then Some(mark) else t.record;
      t.calls[i].Done? ==>
        if mark.status == SUBMITTED then
          if found.Some? && found.value.status == SUBMITTED then t.calls[i].outcome == Proof(found.value.proof)
          else t.calls[i].outcome == Uncertain
        else if found.Some? && found.value.status == REJECTED_BEFORE_SUBMIT then
          t.calls[i].outcome == Rejected(found.value.proof)
        else t.calls[i].outcome == Rejected(mark.proof)
  {
    hide MayLeave, Running;
  }

  predicate Succeeds(e: Event) {
    match e
    case MarkRead(_, ok) => ok
    case MarkWrite(_, ok) => ok
    case MarkReread(_, ok) => ok
    case MarkSaveEnd(_, ok, _) => ok
    case _ => true
  }

  lemma SettlesAnswer(s: State, i: nat, reply: Reply)
    requires At(s, i, Commanded) && s.record == Some(Record(INFLIGHT, "")) && s.lock.None? && !reply.Broken?
    ensures Play(s, Settling(s.store, i, reply)) == Some(AfterAnswer(s, i, reply))
  {
    var mark := MarkOf(reply);
    var s1 := s.(calls := s.calls[i := Marking(mark)], replies := s.replies + [reply]);
    var t := AfterAnswer(s, i, reply);
    match s.store
    case Sql =>
      var s2, s3 :=
        s1.(calls := s.calls[i := MarkChecked(mark)]),
            s1.(record := Some(mark), calls := s.calls[i := MarkWritten(mark)]);
      AnswerSteps(s, i, reply, s1, s2);
      WriteSteps(s2, i, mark, s3, t, s.calls);
      PlayTwo(s, Answer(i, reply), s1, MarkRead(i, true), s2);
      PlayTwo(s2, MarkWrite(i, true), s3, MarkReread(i, true), t);
      PlayTwice(s, [Answer(i, reply), MarkRead(i, true)], s2, [MarkWrite(i, true), MarkReread(i, true)]);
    case Json =>
      var s2 := s1.(calls := s.calls[i := MarkLocked(mark)], lock := Some(i));
      var s3 := s2.(record := Some(mark), calls := s.calls[i := SavingMark(mark)], window := s.window + [Some(mark)]);
      AnswerSteps(s, i, reply, s1, s2);
      SavingMove(s.calls, i, Done(Decide(Some(mark))));
      SaveSteps(s2, i, mark, s3, t, s.calls);
      PlayTwo(s, Answer(i, reply), s1, MarkAcquire(i), s2);
      PlayTwo(s2, MarkPut(i), s3, MarkSaveEnd(i, true, Some(mark)), t);
      PlayTwice(s, [Answer(i, reply), MarkAcquire(i)], s2, [MarkPut(i), MarkSaveEnd(i, true, Some(mark))]);
    case Memory =>
      var s2 := s1.(calls := s.calls[i := MarkLocked(mark)], lock := Some(i));
      AnswerSteps(s, i, reply, s1, s2);
      PutStep(s2, i, mark, t, s.calls);
      PlayTwo(s, Answer(i, reply), s1, MarkAcquire(i), s2);
      PlayOne(s2, MarkPut(i), t);
      PlayTwice(s, [Answer(i, reply), MarkAcquire(i)], s2, [MarkPut(i)]);
  }

  lemma MoveTwice(calls: seq<Pc>, i: nat, a: Pc, b: Pc)
    requires i < |calls|
    ensures calls[i := a][i := b] == calls[i := b] && calls[i := a][i] == a
  {}

  lemma AnswerSteps(s: State, i: nat, reply: Reply, s1: State, s2: State)
    requires At(s, i, Commanded) && s.record == Some(Record(INFLIGHT, "")) && s.lock.None? && !reply.Broken?
    requires s1 == s.(calls := s.calls[i := Marking(MarkOf(reply))], replies := s.replies + [reply])
    requires s2 == if s.store == Sql then s1.(calls := s.calls[i := MarkChecked(MarkOf(reply))])
      else s1.(calls := s.calls[i := MarkLocked(MarkOf(reply))], lock := Some(i))
    ensures Step(s, Answer(i, reply)) == Some(s1)
    ensures Step(s1, if s.store == Sql then MarkRead(i, true) else MarkAcquire(i)) == Some(s2)
  {
    MoveTwice(s.calls, i, Marking(MarkOf(reply)), MarkChecked(MarkOf(reply)));
    MoveTwice(s.calls, i, Marking(MarkOf(reply)), MarkLocked(MarkOf(reply)));
  }

  lemma WriteSteps(s2: State, i: nat, mark: Record, s3: State, t: State, calls: seq<Pc>)
    requires i < |calls| && s2.store == Sql && s2.calls == calls[i := MarkChecked(mark)]
    requires s2.record == Some(Record(INFLIGHT, "")) && mark.status != INFLIGHT
    requires s3 == s2.(record := Some(mark), calls := calls[i := MarkWritten(mark)])
    requires t == s3.(calls := calls[i := Done(Decide(Some(mark)))])
    ensures Step(s2, MarkWrite(i, true)) == Some(s3) && Step(s3, MarkReread(i, true)) == Some(t)
  {
    MoveTwice(calls, i, MarkChecked(mark), MarkWritten(mark));
    MoveTwice(calls, i, MarkWritten(mark), Done(Decide(Some(mark))));
  }

  lemma SaveSteps(s2: State, i: nat, mark: Record, s3: State, t: State, calls: seq<Pc>)
    requires i < |calls| && s2.store == Json && s2.calls == calls[i := MarkLocked(mark)]
    requires s2.record == Some(Record(INFLIGHT, "")) && mark.status != INFLIGHT
    requires s3 == s2.(record := Some(mark), calls := calls[i := SavingMark(mark)], window := s2.window + [Some(mark)])
    requires t == Rested(s3.(calls := calls[i := Done(Decide(Some(mark)))], lock := None), Some(mark))
    ensures Step(s2, MarkPut(i)) == Some(s3) && Step(s3, MarkSaveEnd(i, true, Some(mark))) == Some(t)
  {
    hide Rested;
    MoveTwice(calls, i, MarkLocked(mark), SavingMark(mark));
    MoveTwice(calls, i, SavingMark(mark), Done(Decide(Some(mark))));
  }

  lemma PutStep(s2: State, i: nat, mark: Record, t: State, calls: seq<Pc>)
    requires i < |calls| && s2.store == Memory && s2.calls == calls[i := MarkLocked(mark)]
    requires s2.record == Some(Record(INFLIGHT, "")) && mark.status != INFLIGHT
    requires t == s2.(record := Some(mark), calls := calls[i := Done(Decide(Some(mark)))], lock := None)
    ensures Step(s2, MarkPut(i)) == Some(t)
  {
    MoveTwice(calls, i, MarkLocked(mark), Done(Decide(Some(mark))));
  }

  /** How a store other than SQL comes to forget: the process ends, for JSON while the file is being written. */
  function Forgetting(store: Store): seq<Event> {
    if store == Json then [OtherSaveBegin, Restart(None, 0)] else [Restart(None, 0)]
  }

  lemma Forgets(s: State)
    requires s.store != Sql && s.record.Some?
    ensures var r := Play(s, Forgetting(s.store));
      r.Some? && Quiet(r.value) && r.value.sends == s.sends && r.value.store == s.store
  {
    var saving := s.(others := s.others + [s.record], window := s.window + [s.record]);
    var start := if s.store == Json then saving else s;
    assert MayFind(start, None);
    assert Step(start, Restart(None, 0)) == WorldStep(start, Restart(None, 0));
    var t := WorldStep(start, Restart(None, 0)).value;
    assert s.store == Json ==> Step(s, OtherSaveBegin) == Some(saving);
    hide Step;
    PlayFirst(start, [Restart(None, 0)], t);
    if s.store == Json {
      PlayFirst(s, [OtherSaveBegin, Restart(None, 0)], saving);
    }
  }

  /** With any other store the number of sends has no bound. */
  lemma {:induction false} SendsAreUnbounded(store: Store, k: nat) returns (events: seq<Event>)
    requires store != Sql
    ensures var r := Run(Start(store), events);
      r.Some? && r.value.sends == k && Quiet(r.value) && r.value.store == store
    decreases k
  {
    hide Step, Play, Run, Undisturbed, Forgetting, AfterSend;
    if k == 0 {
      events := [];
      RunNothing(Start(store));
    } else {
      var past := SendsAreUnbounded(store, k - 1);
      var s := Run(Start(store), past).value;
      UndisturbedSends(s);
      AfterSendMeans(s);
      Forgets(AfterSend(s));
      var round := Undisturbed(store, |s.calls|) + Forgetting(store);
      PlayTwice(s, Undisturbed(store, |s.calls|), AfterSend(s), Forgetting(store));
      PlayIsRun(Start(store), past, s, round);
      events := past + round;
    }
  }

  lemma AfterSendMeans(s: State)
    ensures AfterSend(s).sends == s.sends + 1 && AfterSend(s).record.Some? && AfterSend(s).store == s.store
  {}

  /** At most one send in every run: exactly the property of the SQL store. */
  lemma AtMostOnceExactlyWithSql(store: Store)
    ensures (forall events :: Run(Start(store), events).Some? ==> Run(Start(store), events).value.sends <= 1) <==>
      store == Sql
  {
    hide Step, Run;
    if store == Sql {
      forall events | Run(Start(store), events).Some?
        ensures Run(Start(store), events).value.sends <= 1
      {
        AtMostOneSend(events);
      }
    } else {
      var events := SendsAreUnbounded(store, 2);
      assert Run(Start(store), events).Some?;
    }
  }

  // ------------------------------------------------------------ the file is at rest, or a save is under way

  /** The window is empty exactly when no save is under way, and only the JSON store saves. */
  ghost predicate Windowed(s: State) {
    (s.window != [] <==> Running(s)) && (Running(s) ==> s.store == Json)
  }

  /** A call that is saving starts or ends its save, or neither. */
  lemma WindowedMove(s: State, t: State, i: nat)
    requires Windowed(s) && i < |s.calls| && |t.calls| == |s.calls| && t.calls == s.calls[i := t.calls[i]]
    requires t.store == s.store && (t.others != [] <==> s.others != [] || |t.others| > |s.others|)
    requires if IsSaving(t.calls[i]) || |t.others| > |s.others| then
        t.store == Json && t.window != [] && (IsSaving(t.calls[i]) ==> !IsSaving(s.calls[i]))
      else if IsSaving(s.calls[i]) then t.window == if Running(t) then s.window else []
      else t.window == s.window
    ensures Windowed(t)
  {
    if !IsSaving(s.calls[i]) {
      SavingMove(s.calls, i, t.calls[i]);
    } else {
      assert SomeSaving(s.calls);
    }
    if IsSaving(t.calls[i]) {
      assert SomeSaving(t.calls);
    }
    hide SomeSaving;
  }

  lemma WindowedAppend(s: State, t: State, pc: Pc)
    requires Windowed(s) && t == s.(calls := s.calls + [pc]) && !IsSaving(pc)
    ensures Windowed(t)
  {
    SavingAppend(s.calls, pc);
  }

  lemma ReserveWindowed(s: State, e: Event)
    requires Windowed(s) && ReserveStep(s, e).Some?
    ensures Windowed(ReserveStep(s, e).value)
  {
    hide Windowed, MayLeave, Decide, SomeSaving;
    if e.Call? {
      WindowedAppend(s, ReserveStep(s, e).value, Reserving);
    } else {
      WindowedMove(s, ReserveStep(s, e).value, Mover(e).value);
    }
  }

  lemma CommandWindowed(s: State, e: Event)
    requires Windowed(s) && CommandStep(s, e).Some?
    ensures Windowed(CommandStep(s, e).value)
  {
    hide Windowed;
    WindowedMove(s, CommandStep(s, e).value, Mover(e).value);
  }

  lemma MarkWindowed(s: State, e: Event)
    requires Windowed(s) && MarkStep(s, e).Some?
    ensures Windowed(MarkStep(s, e).value)
  {
    hide Windowed, MayLeave, Settle, Marked, SomeSaving;
    WindowedMove(s, MarkStep(s, e).value, Mover(e).value);
  }

  lemma OwnerWindowed(s: State, e: Event)
    requires Windowed(s) && OwnerStep(s, e).Some?
    ensures Windowed(OwnerStep(s, e).value)
  {
    hide Windowed, OperatorView;
    if e.OwnerCall? {
      WindowedAppend(s, OwnerStep(s, e).value, OwnerCalled);
    } else {
      WindowedMove(s, OwnerStep(s, e).value, Mover(e).value);
    }
  }

  lemma WorldWindowed(s: State, e: Event)
    requires Windowed(s) && WorldStep(s, e).Some?
    ensures Windowed(WorldStep(s, e).value)
  {
    hide MayLeave, MayFind;
    if e.Restart? {
      assert !SomeSaving(AllDead(s.calls));
    }
    hide SomeSaving;
  }

  lemma StepWindowed(s: State, e: Event)
    requires Windowed(s) && Step(s, e).Some?
    ensures Windowed(Step(s, e).value)
  {
    StepCases(s, e);
    hide *;
    if Step(s, e) == ReserveStep(s, e) {
      ReserveWindowed(s, e);
    } else if Step(s, e) == CommandStep(s, e) {
      CommandWindowed(s, e);
    } else if Step(s, e) == MarkStep(s, e) {
      MarkWindowed(s, e);
    } else if Step(s, e) == OwnerStep(s, e) {
      OwnerWindowed(s, e);
    } else {
      WorldWindowed(s, e);
    }
  }

  lemma StartWindowed(store: Store)
    ensures Windowed(Start(store))
  {}

  lemma {:induction false} RunWindowed(store: Store, events: seq<Event>)
    requires Run(Start(store), events).Some?
    ensures Windowed(Run(Start(store), events).value)
    decreases |events|
  {
    hide *;
    if events == [] {
      RunNothing(Start(store));
      StartWindowed(store);
    } else {
      RunLast(Start(store), events);
      RunWindowed(store, events[..|events| - 1]);
      StepWindowed(Run(Start(store), events[..|events| - 1]).value, events[|events| - 1]);
    }
  }

  // ------------------------------------------------------------ exactly when a second send can happen

  /** A restart now may forget a reservation that has been used. For JSON: the file lacks the record, or is being
      written. */
  ghost predicate Dangerous(s: State) {
    s.record.Some? && s.epochSends > 0 && MayFind(s, None)
  }

  /** No process ends in a dangerous state, unless the next one finds the reservation all the same. Saves may fail, and
      the process may end during a save as long as nothing has been sent on the reservation. */
  ghost predicate CarefulRun(s: State, events: seq<Event>)
    decreases |events|
  {
    events == [] ||
      var init := events[..|events| - 1];
      && CarefulRun(s, init) && Run(s, init).Some?
      && var last := events[|events| - 1]; last.Restart? ==> !Dangerous(Run(s, init).value) || last.found.Some?
  }

  lemma StepLosses(s: State, e: Event)
    requires Step(s, e).Some? && (e.Restart? ==> !Dangerous(s) || e.found.Some?)
    ensures var t := Step(s, e).value; t.losses == s.losses && t.store == s.store
  {
    StepCases(s, e);
    hide Step, Decide, Settle, OperatorView, MayLeave, Marked;
  }

  lemma {:induction false} CarefulLosesNothing(store: Store, events: seq<Event>)
    requires CarefulRun(Start(store), events) && Run(Start(store), events).Some?
    ensures Run(Start(store), events).value.losses == 0 && Run(Start(store), events).value.store == store
    decreases |events|
  {
    hide Step, Run, Dangerous;
    if events == [] {
      RunNothing(Start(store));
    } else {
      RunLast(Start(store), events);
      CarefulLosesNothing(store, events[..|events| - 1]);
      StepLosses(Run(Start(store), events[..|events| - 1]).value, events[|events| - 1]);
    }
  }

  /** With any store the command is issued at most once in every careful run. */
  lemma AtMostOneSendWhenCareful(store: Store, events: seq<Event>)
    requires CarefulRun(Start(store), events) && Run(Start(store), events).Some?
    ensures Run(Start(store), events).value.sends <= 1
  {
    hide *;
    SendsAreAccountedFor(store, events);
    CarefulLosesNothing(store, events);
  }

  /** A file at rest can be torn without any crash, and without the protocol taking part: by one foreign save that
      fails, or by two that overlap and both succeed. What has been sent is then no longer on file. */
  lemma SavesMayTear(s: State)
    requires s.store == Json && s.window == [] && !Running(s)
    ensures Play(s, [OtherSaveBegin, OtherSaveEnd(0, false, None)]) == Some(s.(disk := None))
    ensures Play(s, [OtherSaveBegin, OtherSaveBegin] + [OtherSaveEnd(0, true, None), OtherSaveEnd(0, true, None)]) ==
      Some(s.(disk := None))
    ensures s.record.Some? && s.epochSends > 0 ==> Dangerous(s.(disk := None))
  {
    var one := s.(others := [s.record], window := [s.record]);
    var two := s.(others := [s.record, s.record], window := [s.record, s.record]);
    var left := two.(others := [s.record], disk := None);
    var torn := s.(disk := None);
    ForeignBegins(s, one);
    ForeignBegins(one, two);
    ForeignEnds(one, torn, false);
    ForeignEnds(two, left, true);
    ForeignEnds(left, torn, true);
    hide Step, Play, Running;
    PlayTwo(s, OtherSaveBegin, one, OtherSaveEnd(0, false, None), torn);
    PlayTwo(s, OtherSaveBegin, one, OtherSaveBegin, two);
    PlayTwo(two, OtherSaveEnd(0, true, None), left, OtherSaveEnd(0, true, None), torn);
    PlayTwice(s, [OtherSaveBegin, OtherSaveBegin], two, [OtherSaveEnd(0, true, None), OtherSaveEnd(0, true, None)]);
  }

  lemma ForeignBegins(s: State, t: State)
    requires s.store == Json && t == s.(others := s.others + [s.record], window := s.window + [s.record])
    ensures Step(s, OtherSaveBegin) == Some(t)
  {}

  lemma ForeignEnds(s: State, t: State, ok: bool)
    requires s.others != [] && (ok ==> |s.window| > 1) && !SomeSaving(s.calls)
    requires t == s.(others := s.others[1..], disk := None, window := if |s.others| > 1 then s.window else [])
    ensures Step(s, OtherSaveEnd(0, ok, None)) == Some(t)
  {
    assert s.others[..0] + s.others[1..] == s.others[1..];
    hide SomeSaving;
  }

  predicate NoRestart(events: seq<Event>) {
    forall i :: 0 <= i < |events| ==> !events[i].Restart?
  }

  lemma {:induction false} NoRestartIsCareful(s: State, past: seq<Event>, more: seq<Event>)
    requires CarefulRun(s, past) && NoRestart(more) && Run(s, past + more).Some?
    ensures CarefulRun(s, past + more)
    decreases |more|
  {
    hide Step, Run, Dangerous;
    if more == [] {
      assert past + more == past;
    } else {
      var n := |more| - 1;
      assert (past + more)[..|past + more| - 1] == past + more[..n];
      RunLast(s, past + more);
      NoRestartIsCareful(s, past, more[..n]);
    }
  }

  /** The process ends and starts again, and goes on without ending: a run with a second send. */
  ghost predicate SendsAgain(store: Store, events: seq<Event>, found: Option<Record>, reconciliations: nat,
      more: seq<Event>) {
    && NoRestart(more)
    && var r := Run(Start(store), events + [Restart(found, reconciliations)] + more); r.Some? && r.value.sends >= 2
  }

  /** The condition is exact: after a careful run, ending the process can lead to a second send if and only if the state
      is dangerous. */
  lemma SecondSendExactlyWhenDangerous(store: Store, events: seq<Event>)
    requires CarefulRun(Start(store), events) && Run(Start(store), events).Some?
    ensures Dangerous(Run(Start(store), events).value) <==>
      exists found, reconciliations, more :: SendsAgain(store, events, found, reconciliations, more)
  {
    hide Step, Run, Dangerous, SendsAgain;
    var s := Run(Start(store), events).value;
    if Dangerous(s) {
      DangerousSendsAgain(store, events);
    } else {
      forall found, reconciliations, more
        ensures !SendsAgain(store, events, found, reconciliations, more)
      {
        if SendsAgain(store, events, found, reconciliations, more) {
          NotDangerousSendsOnce(store, events, found, reconciliations, more);
        }
      }
    }
  }

  lemma NotDangerousSendsOnce(store: Store, events: seq<Event>, found: Option<Record>, reconciliations: nat,
      more: seq<Event>)
    requires CarefulRun(Start(store), events) && Run(Start(store), events).Some?
    requires !Dangerous(Run(Start(store), events).value)
    ensures !SendsAgain(store, events, found, reconciliations, more)
  {
    var ended := events + [Restart(found, reconciliations)];
    hide Step, Run, Dangerous;
    if SendsAgain(store, events, found, reconciliations, more) {
      assert ended[..|events|] == events;
      NoRestartIsCareful(Start(store), ended, more);
      AtMostOneSendWhenCareful(store, ended + more);
    }
  }

  lemma DangerousSendsAgain(store: Store, events: seq<Event>)
    requires CarefulRun(Start(store), events) && Run(Start(store), events).Some?
    requires Dangerous(Run(Start(store), events).value)
    ensures exists found, reconciliations, more :: SendsAgain(store, events, found, reconciliations, more)
  {
    hide Run, Step, Play, Undisturbed, CarefulRun;
    var s := Run(Start(store), events).value;
    CarefulLosesNothing(store, events);
    RunKeepsCounts(store, events);
    var e := Restart(None, s.reconciliations);
    var t := Forgotten(s);
    RunMore(Start(store), events, e);
    UndisturbedSends(t);
    var more := Undisturbed(t.store, |t.calls|);
    PlayIsRun(Start(store), events + [e], t, more);
    NobodyRestarts(t.store, |t.calls|);
    assert SendsAgain(store, events, None, s.reconciliations, more);
  }

  lemma Forgotten(s: State) returns (t: State)
    requires Dangerous(s) && Counted(s)
    ensures Step(s, Restart(None, s.reconciliations)) == Some(t)
    ensures Quiet(t) && t.sends == s.sends >= 1 && t.store == s.store
  {
    assert Step(s, Restart(None, s.reconciliations)) == WorldStep(s, Restart(None, s.reconciliations));
    t := WorldStep(s, Restart(None, s.reconciliations)).value;
    hide Step, Count;
  }

  lemma NobodyRestarts(store: Store, n: nat)
    ensures NoRestart(Undisturbed(store, n))
  {}

  // ------------------------------------------------------------ the ledger over whole runs

  /** A terminal record repeats what the command reported. */
  ghost predicate Backed(mark: Record, replies: seq<Reply>) {
    match mark.status
    case SUBMITTED => Confirmed(mark.proof) in replies
    case REJECTED_BEFORE_SUBMIT => Refused(mark.proof) in replies
    case INFLIGHT => false
  }

  ghost predicate RecordTrue(record: Option<Record>, replies: seq<Reply>) {
    record.Some? ==> record.value == Record(INFLIGHT, "") || Backed(record.value, replies)
  }

  /** What a call is about to record, and what it has returned, was reported by the command. */
  ghost predicate PcTrue(pc: Pc, replies: seq<Reply>) {
    match pc
    case Marking(mark) => Backed(mark, replies)
    case MarkChecked(mark) => Backed(mark, replies)
    case MarkWritten(mark) => Backed(mark, replies)
    case MarkLocked(mark) => Backed(mark, replies)
    case SavingMark(settled) => Backed(settled, replies)
    case Done(Proof(proof)) => Confirmed(proof) in replies
    case Done(Rejected(error)) => Refused(error) in replies
    case _ => true
  }

  ghost predicate AllTrue(records: seq<Option<Record>>, replies: seq<Reply>) {
    forall i :: 0 <= i < |records| ==> RecordTrue(records[i], replies)
  }

  /** Nothing was made up: neither in the process nor in the file nor in any save, and no answer. */
  ghost predicate Truthful(s: State) {
    && RecordTrue(s.record, s.replies) && RecordTrue(s.disk, s.replies)
    && AllTrue(s.others, s.replies) && AllTrue(s.window, s.replies)
    && forall i :: 0 <= i < |s.calls| ==> PcTrue(s.calls[i], s.replies)
  }

  lemma StaysTrue(record: Option<Record>, pc: Pc, records: seq<Option<Record>>, before: seq<Reply>, after: seq<Reply>)
    requires before <= after
    ensures RecordTrue(record, before) ==> RecordTrue(record, after)
    ensures PcTrue(pc, before) ==> PcTrue(pc, after)
    ensures AllTrue(records, before) ==> AllTrue(records, after)
  {
    forall i | 0 <= i < |records| && AllTrue(records, before)
      ensures RecordTrue(records[i], after)
    {
      assert RecordTrue(records[i], before);
    }
  }

  lemma TruthfulMove(s: State, t: State, i: nat)
    requires Truthful(s) && i < |s.calls| && |t.calls| == |s.calls| && t.calls == s.calls[i := t.calls[i]]
    requires s.replies <= t.replies && PcTrue(t.calls[i], t.replies)
    requires RecordTrue(t.record, t.replies) && RecordTrue(t.disk, t.replies)
    requires AllTrue(t.others, t.replies) && AllTrue(t.window, t.replies)
    ensures Truthful(t)
  {
    hide PcTrue, RecordTrue, AllTrue;
    forall k | 0 <= k < |t.calls|
      ensures PcTrue(t.calls[k], t.replies)
    {
      if k != i {
        StaysTrue(None, s.calls[k], [], s.replies, t.replies);
      }
    }
  }

  lemma TruthfulParts(s: State)
    requires Truthful(s)
    ensures RecordTrue(s.record, s.replies) && RecordTrue(s.disk, s.replies)
    ensures AllTrue(s.others, s.replies) && AllTrue(s.window, s.replies)
  {}

  lemma TruthfulAt(s: State, i: nat)
    requires Truthful(s) && i < |s.calls|
    ensures PcTrue(s.calls[i], s.replies)
  {}

  lemma OneMoreTrue(records: seq<Option<Record>>, record: Option<Record>, replies: seq<Reply>)
    requires AllTrue(records, replies) && RecordTrue(record, replies)
    ensures AllTrue(records + [record], replies)
  {
    hide RecordTrue;
  }

  /** Whatever a save leaves in the file is true if its content is. */
  lemma LeftTrue(s: State, content: Option<Record>, ok: bool, left: Option<Record>)
    requires MayLeave(s, content, ok, left) && RecordTrue(content, s.replies)
    requires RecordTrue(s.disk, s.replies) && AllTrue(s.window, s.replies)
    ensures RecordTrue(left, s.replies)
  {}

  lemma NewCallTruthful(s: State, t: State, pc: Pc)
    requires Truthful(s) && t == s.(calls := s.calls + [pc]) && (pc == Reserving || pc == OwnerCalled)
    ensures Truthful(t)
  {}

  /** What a call is told of a true record is true. */
  lemma DecideTrue(record: Option<Record>, replies: seq<Reply>)
    requires RecordTrue(record, replies)
    ensures PcTrue(Done(Decide(record)), replies)
  {}

  lemma SettleTrue(mark: Record, record: Option<Record>, replies: seq<Reply>)
    requires Backed(mark, replies) && RecordTrue(record, replies)
    ensures PcTrue(Done(Settle(mark, record)), replies) && RecordTrue(Marked(record, mark), replies)
    ensures RecordTrue(Some(mark), replies)
  {}

  lemma InflightTrue(replies: seq<Reply>)
    ensures RecordTrue(Some(Record(INFLIGHT, "")), replies) && RecordTrue(None, replies) && AllTrue([], replies)
  {}

  /** A call that neither holds a mark nor has an answer. */
  lemma SilentTrue(pc: Pc, replies: seq<Reply>)
    requires pc.Inserted? || pc.Locked? || pc.Absent? || pc.SavingReservation? || pc.Reserved? || pc.Done?
    ensures !pc.Done? || pc.outcome.Uncertain? ==> PcTrue(pc, replies)
  {}

  lemma ReserveTruthful(s: State, e: Event)
    requires Truthful(s) && ReserveStep(s, e).Some?
    ensures Truthful(ReserveStep(s, e).value)
  {
    var t := ReserveStep(s, e).value;
    hide Truthful, MayLeave, Running, RecordTrue, AllTrue, Decide, PcTrue;
    TruthfulParts(s);
    InflightTrue(s.replies);
    if e.Call? {
      NewCallTruthful(s, t, Reserving);
    } else {
      var i := Mover(e).value;
      DecideTrue(s.record, s.replies);
      SilentTrue(t.calls[i], s.replies);
      if e.SaveEnd? {
        LeftTrue(s, Some(Record(INFLIGHT, "")), e.ok, e.left);
      } else if e.Put? {
        OneMoreTrue(s.window, Some(Record(INFLIGHT, "")), s.replies);
      }
      TruthfulMove(s, t, i);
    }
  }

  lemma CommandTruthful(s: State, e: Event)
    requires Truthful(s) && CommandStep(s, e).Some?
    ensures Truthful(CommandStep(s, e).value)
  {
    var t := CommandStep(s, e).value;
    hide Truthful, RecordTrue, AllTrue;
    TruthfulParts(s);
    StaysTrue(s.record, OwnerCalled, s.others, s.replies, t.replies);
    StaysTrue(s.disk, OwnerCalled, s.window, s.replies, t.replies);
    TruthfulMove(s, t, Mover(e).value);
  }

  /** A mark is recorded only if the command reported it. */
  lemma MarkTruthful(s: State, e: Event)
    requires Truthful(s) && MarkStep(s, e).Some?
    ensures Truthful(MarkStep(s, e).value)
  {
    var t := MarkStep(s, e).value;
    var i := Mover(e).value;
    TruthfulParts(s);
    TruthfulAt(s, i);
    MarkedIs(s, e);
    hide *;
    var mark := HeldMark(s.calls[i]);
    SettlesTrulyIs(s, mark);
    SettleTrue(mark, s.record, s.replies);
    OneMoreTrue(s.window, Marked(s.record, mark), s.replies);
    InflightTrue(s.replies);
    if e.MarkSaveEnd? {
      LeftTrue(s, Some(mark), e.ok, e.left);
    }
    TruthfulMove(s, t, i);
  }

  function HeldMark(pc: Pc): Record {
    match pc
    case Marking(mark) => mark
    case MarkChecked(mark) => mark
    case MarkWritten(mark) => mark
    case MarkLocked(mark) => mark
    case SavingMark(settled) => settled
    case _ => Record(INFLIGHT, "")
  }

  /** Whatever record the call then finds, it does not tell anything that was made up. */
  ghost predicate SettlesTruly(s: State, mark: Record) {
    && PcTrue(Done(Settle(mark, s.record)), s.replies) && PcTrue(Done(Settle(mark, Some(mark))), s.replies)
    && PcTrue(Done(Settle(mark, Marked(s.record, mark))), s.replies)
  }

  lemma SettlesTrulyIs(s: State, mark: Record)
    requires Truthful(s) && Backed(mark, s.replies)
    ensures SettlesTruly(s, mark)
  {
    TruthfulParts(s);
    SettleTrue(mark, s.record, s.replies);
    SettleTrue(mark, Marked(s.record, mark), s.replies);
    SettleTrue(mark, Some(mark), s.replies);
    hide PcTrue, Settle, Marked, Truthful, Backed;
  }

  /** What a step on a mark holds before and leaves behind. */
  lemma MarkedIs(s: State, e: Event)
    requires MarkStep(s, e).Some? && PcTrue(s.calls[Mover(e).value], s.replies)
    ensures var t, i := MarkStep(s, e).value, Mover(e).value; var mark := HeldMark(s.calls[i]);
      && i < |s.calls| && |t.calls| == |s.calls| && t.calls == s.calls[i := t.calls[i]]
      && Backed(mark, s.replies) && t.replies == s.replies && t.others == s.others
      && (t.record == s.record || t.record == Marked(s.record, mark))
      && (t.window == s.window || t.window == [] || t.window == s.window + [Marked(s.record, mark)])
      && (if e.MarkSaveEnd? then MayLeave(s, Some(mark), e.ok, e.left) && t.disk == e.left else t.disk == s.disk)
      && (SettlesTruly(s, mark) ==> PcTrue(t.calls[i], t.replies))
  {
    hide MayLeave, Running, Settle, Marked, Backed;
  }

  lemma OwnerTruthful(s: State, e: Event)
    requires Truthful(s) && OwnerStep(s, e).Some?
    ensures Truthful(OwnerStep(s, e).value)
  {
    var t := OwnerStep(s, e).value;
    hide Truthful, OperatorView, RecordTrue, AllTrue;
    TruthfulParts(s);
    if e.OwnerCall? {
      NewCallTruthful(s, t, OwnerCalled);
    } else {
      OneMoreTrue(s.others, s.record, s.replies);
      OneMoreTrue(s.window, s.record, s.replies);
      TruthfulMove(s, t, Mover(e).value);
    }
  }

  /** A restart makes nothing up either: it finds the record, the file, or what was being written. */
  lemma WorldTruthful(s: State, e: Event)
    requires Truthful(s) && WorldStep(s, e).Some?
    ensures Truthful(WorldStep(s, e).value)
  {
    var t := WorldStep(s, e).value;
    TruthfulParts(s);
    InflightTrue(s.replies);
    match e
    case OtherSaveBegin =>
      hide RecordTrue, PcTrue;
      OneMoreTrue(s.others, s.record, s.replies);
      OneMoreTrue(s.window, s.record, s.replies);
    case OtherSaveEnd(k, ok, left) =>
      assert RecordTrue(s.others[k], s.replies);
      LeftTrue(s, s.others[k], ok, left);
      hide RecordTrue, PcTrue, Running, MayLeave;
    case Restart(found, _) =>
      hide RecordTrue;
  }

  lemma StepTruthful(s: State, e: Event)
    requires Truthful(s) && Step(s, e).Some?
    ensures Truthful(Step(s, e).value)
  {
    StepCases(s, e);
    hide *;
    if Step(s, e) == ReserveStep(s, e) {
      ReserveTruthful(s, e);
    } else if Step(s, e) == CommandStep(s, e) {
      CommandTruthful(s, e);
    } else if Step(s, e) == MarkStep(s, e) {
      MarkTruthful(s, e);
    } else if Step(s, e) == OwnerStep(s, e) {
      OwnerTruthful(s, e);
    } else {
      WorldTruthful(s, e);
    }
  }

  lemma StartTruthful(store: Store)
    ensures Truthful(Start(store))
  {}

  /** In every run of every store, whatever fails and whenever processes end, everything recorded, saved or returned
      repeats what the command reported. */
  lemma {:induction false} RunTruthful(store: Store, events: seq<Event>)
    requires Run(Start(store), events).Some?
    ensures Truthful(Run(Start(store), events).value)
    decreases |events|
  {
    hide *;
    if events == [] {
      RunNothing(Start(store));
      StartTruthful(store);
    } else {
      RunLast(Start(store), events);
      RunTruthful(store, events[..|events| - 1]);
      StepTruthful(Run(Start(store), events[..|events| - 1]).value, events[|events| - 1]);
    }
  }

  lemma FewReplies(s: State)
    requires Counted(s)
    ensures |s.replies| <= s.sends
  {
    hide Count;
  }

  // ------------------------------------------------------------ the status only moves forward

  ghost predicate Later(a: Option<Record>, b: Option<Record>) {
    match a
    case None => true
    case Some(Record(INFLIGHT, _)) => b.Some?
    case _ => b == a
  }

  /** A restart now may set the record back. For JSON: a save is under way, or the file is behind. */
  ghost predicate Stale(s: State) {
    s.record.Some? && match s.store
      case Sql => false
      case Memory => true
      case Json => s.window != [] || !Later(s.record, s.disk)
  }

  lemma ReserveEvolves(s: State, e: Event)
    requires Locking(s) && ReserveStep(s, e).Some?
    ensures Later(s.record, ReserveStep(s, e).value.record)
  {
    hide Locking, MayLeave, Decide, Running;
    if e.Put? && s.calls[e.i].Absent? {
      LockingAt(s, e.i);
    }
  }

  /** Nothing but a restart sets the record back, and a restart only from a stale state. */
  lemma StepMovesForward(s: State, e: Event)
    requires Locking(s) && Step(s, e).Some? && (e.Restart? ==> !Stale(s) || e.found == s.record)
    ensures Later(s.record, Step(s, e).value.record)
  {
    StepCases(s, e);
    hide Step, ReserveStep, Locking, MayLeave, Decide, Settle, OperatorView, Running;
    if Step(s, e) == ReserveStep(s, e) {
      ReserveEvolves(s, e);
    }
  }

  /** The condition is exact: some step sets the record back if and only if the state is stale. */
  lemma StaleExactly(s: State)
    requires Locking(s)
    ensures Stale(s) <==> exists e :: Step(s, e).Some? && !Later(s.record, Step(s, e).value.record)
  {
    if Stale(s) {
      var found := if s.store == Json && s.window == [] then s.disk else None;
      var e := Restart(found, 0);
      assert Step(s, e) == WorldStep(s, e);
      assert Step(s, e).Some? && !Later(s.record, Step(s, e).value.record);
    } else {
      hide Stale, Step, Later, Locking;
      forall e | Step(s, e).Some?
        ensures Later(s.record, Step(s, e).value.record)
      {
        StepMovesForward(s, e);
      }
    }
  }

  /** No process ends in a stale state, unless the next one finds what was recorded all the same. */
  ghost predicate FreshRun(s: State, events: seq<Event>)
    decreases |events|
  {
    events == [] ||
      var init := events[..|events| - 1];
      && FreshRun(s, init) && Run(s, init).Some?
      && var last := events[|events| - 1];
         last.Restart? ==> !Stale(Run(s, init).value) || last.found == Run(s, init).value.record
  }

  /** Storage status only moves from UNKNOWN to INFLIGHT to one terminal state, and a terminal record never changes. */
  lemma {:induction false} StatusMovesForward(store: Store, past: seq<Event>, more: seq<Event>)
    requires Run(Start(store), past + more).Some? && FreshRun(Start(store), past + more)
    ensures Run(Start(store), past).Some?
    ensures Later(Run(Start(store), past).value.record, Run(Start(store), past + more).value.record)
    decreases |more|
  {
    hide Step, Run, Locking, Counted, Stale;
    if more == [] {
      assert past + more == past;
    } else {
      var n := |more| - 1;
      assert (past + more)[..|past + more| - 1] == past + more[..n];
      RunLast(Start(store), past + more);
      RunKeepsCounts(store, past + more[..n]);
      StepMovesForward(Run(Start(store), past + more[..n]).value, more[n]);
      StatusMovesForward(store, past, more[..n]);
    }
  }

  /** With the SQL store every run is careful and fresh; with any store, a run in which restarts find what was
      recorded. */
  lemma {:induction false} RememberingRuns(store: Store, events: seq<Event>)
    requires Run(Start(store), events).Some?
    requires store == Sql || Run(Start(store), events).value.faithful
    ensures CarefulRun(Start(store), events) && FreshRun(Start(store), events)
    decreases |events|
  {
    if events != [] {
      var init := events[..|events| - 1];
      RunLast(Start(store), events);
      var s := Run(Start(store), init).value;
      hide Run, Step;
      if store == Sql {
        SqlLosesNothing(init);
        SqlLosesNothing(events);
      }
      StepRemembers(s, events[|events| - 1]);
      RememberingRuns(store, init);
    }
  }

  lemma StepRemembers(s: State, e: Event)
    requires Step(s, e).Some? && Step(s, e).value.faithful
    ensures s.faithful && (e.Restart? ==> e.found == s.record)
  {
    StepCases(s, e);
    hide Step, Decide, Settle, OperatorView, MayLeave, Running, Marked, MayFind;
  }

  // ------------------------------------------------------------ what the calls are told

  /** While nothing is set back, a proof that was returned stays recorded. */
  ghost predicate ProofsStand(s: State) {
    forall i :: 0 <= i < |s.calls| ==> ProofStands(s.calls[i], s.record)
  }

  ghost predicate ProofStands(pc: Pc, record: Option<Record>) {
    match pc
    case SavingMark(settled) => settled.status != INFLIGHT && record == Some(settled)
    case Done(Proof(proof)) => record == Some(Record(SUBMITTED, proof))
    case _ => true
  }

  lemma StillStands(pc: Pc, a: Option<Record>, b: Option<Record>)
    requires ProofStands(pc, a) && Later(a, b)
    ensures ProofStands(pc, b)
  {}

  lemma StandsAt(s: State, i: nat)
    requires ProofsStand(s) && i < |s.calls|
    ensures ProofStands(s.calls[i], s.record)
  {}

  /** A step of one call. */
  lemma ProofsStandMove(s: State, t: State, i: nat)
    requires ProofsStand(s) && i < |s.calls| && |t.calls| == |s.calls| && t.calls == s.calls[i := t.calls[i]]
    requires Later(s.record, t.record) && ProofStands(t.calls[i], t.record)
    ensures ProofsStand(t)
  {
    hide ProofStands, Later;
    forall k | 0 <= k < |t.calls|
      ensures ProofStands(t.calls[k], t.record)
    {
      if k != i {
        StillStands(s.calls[k], s.record, t.record);
      }
    }
  }

  lemma DecideStands(record: Option<Record>)
    ensures ProofStands(Done(Decide(record)), record)
  {}

  lemma SettleStands(mark: Record, record: Option<Record>)
    ensures ProofStands(Done(Settle(mark, record)), record)
  {}

  lemma MarkStands(mark: Record, record: Option<Record>, replies: seq<Reply>)
    requires Backed(mark, replies)
    ensures mark.status != INFLIGHT
    ensures record.Some? && record.value.status == INFLIGHT ==> ProofStands(SavingMark(mark), Marked(record, mark))
  {}

  lemma NewCallStands(s: State, t: State, pc: Pc)
    requires ProofsStand(s) && t == s.(calls := s.calls + [pc]) && (pc == Reserving || pc == OwnerCalled)
    ensures ProofsStand(t)
  {}

  lemma ReserveStands(s: State, e: Event)
    requires ProofsStand(s) && ReserveStep(s, e).Some? && Later(s.record, ReserveStep(s, e).value.record)
    ensures ProofsStand(ReserveStep(s, e).value)
  {
    var t := ReserveStep(s, e).value;
    hide ProofsStand, Later, MayLeave, Running, Decide;
    if e.Call? {
      NewCallStands(s, t, Reserving);
    } else {
      DecideStands(s.record);
      ProofsStandMove(s, t, Mover(e).value);
    }
  }

  lemma CommandStands(s: State, e: Event)
    requires ProofsStand(s) && CommandStep(s, e).Some?
    ensures ProofsStand(CommandStep(s, e).value)
  {
    var t := CommandStep(s, e).value;
    hide ProofsStand;
    ProofsStandMove(s, t, Mover(e).value);
  }

  lemma MarkStepStands(s: State, e: Event)
    requires ProofsStand(s) && Truthful(s) && MarkStep(s, e).Some? && Later(s.record, MarkStep(s, e).value.record)
    ensures ProofsStand(MarkStep(s, e).value)
  {
    var t := MarkStep(s, e).value;
    var i := Mover(e).value;
    StandsAt(s, i);
    TruthfulAt(s, i);
    hide ProofsStand, Truthful, Later, MayLeave, Running, Settle, Marked, Backed;
    if e.MarkSaveEnd? {
      SettleStands(s.calls[i].settled, s.record);
    } else {
      var mark := HeldMark(s.calls[i]);
      MarkStands(mark, s.record, s.replies);
      SettleStands(mark, s.record);
      SettleStands(mark, Marked(s.record, mark));
    }
    ProofsStandMove(s, t, i);
  }

  lemma OwnerStands(s: State, e: Event)
    requires ProofsStand(s) && OwnerStep(s, e).Some?
    ensures ProofsStand(OwnerStep(s, e).value)
  {
    var t := OwnerStep(s, e).value;
    hide ProofsStand, OperatorView;
    if e.OwnerCall? {
      NewCallStands(s, t, OwnerCalled);
    } else {
      ProofsStandMove(s, t, Mover(e).value);
    }
  }

  lemma WorldStands(s: State, e: Event)
    requires ProofsStand(s) && WorldStep(s, e).Some? && Later(s.record, WorldStep(s, e).value.record)
    ensures ProofsStand(WorldStep(s, e).value)
  {
    var t := WorldStep(s, e).value;
    hide Later, MayLeave, Running, MayFind;
    forall k | 0 <= k < |t.calls|
      ensures ProofStands(t.calls[k], t.record)
    {
      StillStands(s.calls[k], s.record, t.record);
    }
  }

  lemma StepStands(s: State, e: Event)
    requires ProofsStand(s) && Truthful(s) && Step(s, e).Some? && Later(s.record, Step(s, e).value.record)
    ensures ProofsStand(Step(s, e).value)
  {
    StepCases(s, e);
    hide *;
    if Step(s, e) == ReserveStep(s, e) {
      ReserveStands(s, e);
    } else if Step(s, e) == CommandStep(s, e) {
      CommandStands(s, e);
    } else if Step(s, e) == MarkStep(s, e) {
      MarkStepStands(s, e);
    } else if Step(s, e) == OwnerStep(s, e) {
      OwnerStands(s, e);
    } else {
      WorldStands(s, e);
    }
  }

  lemma {:induction false} FreshRunStands(store: Store, events: seq<Event>)
    requires Run(Start(store), events).Some? && FreshRun(Start(store), events)
    ensures ProofsStand(Run(Start(store), events).value)
    decreases |events|
  {
    hide ProofsStand, Step, Run, Locking, Counted, Truthful, Later, Stale;
    if events == [] {
      RunNothing(Start(store));
      NoProofsYet(store);
    } else {
      var init := events[..|events| - 1];
      RunLast(Start(store), events);
      FreshRunStands(store, init);
      RunKeepsCounts(store, init);
      RunTruthful(store, init);
      StepMovesForward(Run(Start(store), init).value, events[|events| - 1]);
      StepStands(Run(Start(store), init).value, events[|events| - 1]);
    }
  }

  lemma NoProofsYet(store: Store)
    ensures ProofsStand(Start(store))
  {}

  /** In every careful run of every store: every call that succeeds returns the same proof, the one that the one command
      reported, and no call of the same id is told that the prompt was rejected. As long as nothing is set back, the
      proof is what is recorded. */
  lemma SubmitsAgree(store: Store, events: seq<Event>, i: nat, j: nat, proof: string)
    requires Run(Start(store), events).Some? && CarefulRun(Start(store), events)
    requires var r := Run(Start(store), events);
      i < |r.value.calls| && j < |r.value.calls| && r.value.calls[i] == Done(Proof(proof))
    ensures var t := Run(Start(store), events).value;
      && t.replies == [Confirmed(proof)] && t.sends == 1
      && (t.calls[j].Done? && t.calls[j].outcome.Proof? ==> t.calls[j].outcome.proof == proof)
      && !(t.calls[j].Done? && t.calls[j].outcome.Rejected?)
      && (FreshRun(Start(store), events) ==> t.record == Some(Record(SUBMITTED, proof)))
  {
    hide *;
    var t := Run(Start(store), events).value;
    RunTruthful(store, events);
    RunKeepsCounts(store, events);
    AtMostOneSendWhenCareful(store, events);
    TruthfulAt(t, i);
    TruthfulAt(t, j);
    FewReplies(t);
    ProofMeans(t.replies, t.calls[i], t.calls[j], proof);
    if FreshRun(Start(store), events) {
      FreshRunStands(store, events);
      StandsAt(t, i);
      ProofIsRecorded(t.calls[i], t.record, proof);
    }
  }

  lemma ProofMeans(replies: seq<Reply>, a: Pc, b: Pc, proof: string)
    requires PcTrue(a, replies) && PcTrue(b, replies) && |replies| <= 1
    requires a == Done(Proof(proof))
    ensures replies == [Confirmed(proof)]
    ensures b.Done? && b.outcome.Proof? ==> b.outcome.proof == proof
    ensures !(b.Done? && b.outcome.Rejected?)
  {}

  lemma ProofIsRecorded(pc: Pc, record: Option<Record>, proof: string)
    requires pc == Done(Proof(proof)) && ProofStands(pc, record)
    ensures record == Some(Record(SUBMITTED, proof))
  {}

  lemma RejectionMeans(record: Option<Record>, replies: seq<Reply>, reconciliations: nat, aged: bool)
    requires RecordTrue(record, replies) && OperatorView(record, reconciliations, aged).canRetry
    ensures record.Some? && Refused(record.value.proof) in replies
    ensures |replies| <= 1 ==> replies == [Refused(record.value.proof)]
  {}

  /** In every run of every store retry is offered only for a rejection that the command reported; in a careful run it
      was the one command, so none was confirmed. */
  lemma RetryOnlyAfterRejection(store: Store, events: seq<Event>, aged: bool)
    requires Run(Start(store), events).Some?
    requires var r := Run(Start(store), events); OperatorView(r.value.record, r.value.reconciliations, aged).canRetry
    ensures var t := Run(Start(store), events).value;
      && t.record.Some? && Refused(t.record.value.proof) in t.replies
      && (CarefulRun(Start(store), events) ==> t.replies == [Refused(t.record.value.proof)] && t.sends == 1)
  {
    hide *;
    var t := Run(Start(store), events).value;
    RunTruthful(store, events);
    RunKeepsCounts(store, events);
    FewReplies(t);
    TruthfulParts(t);
    RejectionMeans(t.record, t.replies, t.reconciliations, aged);
    if CarefulRun(Start(store), events) {
      AtMostOneSendWhenCareful(store, events);
    }
  }

  // ------------------------------------------------------------ owner reconciliation

  /** Reconciliation changes neither the record nor what was sent, and never offers a retry. */
  lemma OwnerChangesNothing(s: State, e: Event, aged: bool)
    requires OwnerStep(s, e).Some?
    ensures var t := OwnerStep(s, e).value;
      && t.record == s.record && t.sends == s.sends && t.replies == s.replies && t.lock == s.lock && t.disk == s.disk
      && (OperatorView(t.record, t.reconciliations, aged).canRetry <==>
        OperatorView(s.record, s.reconciliations, aged).canRetry)
      && (s.record.Some? && s.record.value.status == INFLIGHT ==>
        !OperatorView(t.record, t.reconciliations, aged).canRetry)
  {}

  ghost const Reconciling: Pc -> bool := (pc: Pc) => pc == Done(Reconciled)

  lemma {:induction false} DeadReconciledNothing(calls: seq<Pc>)
    ensures Count(AllDead(calls), Reconciling) == Count(calls, Reconciling)
  {
    if calls != [] {
      var n := |calls| - 1;
      assert AllDead(calls)[..n] == AllDead(calls[..n]);
      DeadReconciledNothing(calls[..n]);
    }
  }

  ghost predicate CountsOwners(s: State) {
    s.reconciliations == Count(s.calls, Reconciling)
  }

  lemma OwnersMove(s: State, t: State, i: nat)
    requires CountsOwners(s) && i < |s.calls| && |t.calls| == |s.calls| && t.calls == s.calls[i := t.calls[i]]
    requires s.calls[i] != Done(Reconciled)
    requires t.reconciliations == s.reconciliations + if t.calls[i] == Done(Reconciled) then 1 else 0
    ensures CountsOwners(t)
  {
    CountMove(s.calls, i, t.calls[i], Reconciling);
    hide Count;
  }

  lemma OwnersAppend(s: State, t: State, pc: Pc)
    requires CountsOwners(s) && t == s.(calls := s.calls + [pc]) && pc != Done(Reconciled)
    ensures CountsOwners(t)
  {
    CountAppend(s.calls, pc, Reconciling);
    hide Count;
  }

  lemma ReserveCountsOwners(s: State, e: Event)
    requires CountsOwners(s) && ReserveStep(s, e).Some?
    ensures CountsOwners(ReserveStep(s, e).value) && ReserveStep(s, e).value.store == s.store
  {
    hide CountsOwners, MayLeave, Running;
    if e.Call? {
      OwnersAppend(s, ReserveStep(s, e).value, Reserving);
    } else {
      OwnersMove(s, ReserveStep(s, e).value, Mover(e).value);
    }
  }

  lemma CommandCountsOwners(s: State, e: Event)
    requires CountsOwners(s) && CommandStep(s, e).Some?
    ensures CountsOwners(CommandStep(s, e).value) && CommandStep(s, e).value.store == s.store
  {
    hide CountsOwners;
    OwnersMove(s, CommandStep(s, e).value, Mover(e).value);
  }

  lemma MarkCountsOwners(s: State, e: Event)
    requires CountsOwners(s) && MarkStep(s, e).Some?
    ensures CountsOwners(MarkStep(s, e).value) && MarkStep(s, e).value.store == s.store
  {
    hide CountsOwners, MayLeave, Running, Marked;
    OwnersMove(s, MarkStep(s, e).value, Mover(e).value);
  }

  lemma OwnerCountsOwners(s: State, e: Event)
    requires CountsOwners(s) && OwnerStep(s, e).Some?
    ensures CountsOwners(OwnerStep(s, e).value) && OwnerStep(s, e).value.store == s.store
  {
    hide CountsOwners, OperatorView;
    if e.OwnerCall? {
      OwnersAppend(s, OwnerStep(s, e).value, OwnerCalled);
    } else {
      OwnersMove(s, OwnerStep(s, e).value, Mover(e).value);
    }
  }

  lemma WorldCountsOwners(s: State, e: Event)
    requires CountsOwners(s) && WorldStep(s, e).Some? && (s.store == Sql || !e.Restart?)
    ensures CountsOwners(WorldStep(s, e).value) && WorldStep(s, e).value.store == s.store
  {
    hide Count, MayLeave, MayFind, Running;
    DeadReconciledNothing(s.calls);
  }

  lemma StepReconciles(s: State, e: Event)
    requires Step(s, e).Some? && (s.store == Sql || !e.Restart?) && CountsOwners(s)
    ensures CountsOwners(Step(s, e).value) && Step(s, e).value.store == s.store
  {
    StepCases(s, e);
    hide *;
    if Step(s, e) == ReserveStep(s, e) {
      ReserveCountsOwners(s, e);
    } else if Step(s, e) == CommandStep(s, e) {
      CommandCountsOwners(s, e);
    } else if Step(s, e) == MarkStep(s, e) {
      MarkCountsOwners(s, e);
    } else if Step(s, e) == OwnerStep(s, e) {
      OwnerCountsOwners(s, e);
    } else {
      WorldCountsOwners(s, e);
    }
  }

  /** With the SQL store, and with the others as long as the process lives, the reconciliations on record are those that
      succeeded. */
  lemma {:induction false} ReconciledByOwners(store: Store, events: seq<Event>)
    requires Run(Start(store), events).Some? && (store == Sql || NoRestart(events))
    ensures Run(Start(store), events).value.store == store && CountsOwners(Run(Start(store), events).value)
    decreases |events|
  {
    hide Step, Run, Count;
    if events == [] {
      RunNothing(Start(store));
      CountNone([], Reconciling);
    } else {
      RunLast(Start(store), events);
      ReconciledByOwners(store, events[..|events| - 1]);
      StepReconciles(Run(Start(store), events[..|events| - 1]).value, events[|events| - 1]);
    }
  }

  lemma {:induction false} CountSome(calls: seq<Pc>, p: Pc -> bool)
    ensures Count(calls, p) > 0 <==> exists i :: 0 <= i < |calls| && p(calls[i])
  {
    if calls != [] {
      var n := |calls| - 1;
      CountSome(calls[..n], p);
      if i :| 0 <= i < n && p(calls[i]) {
        assert p(calls[..n][i]);
      }
    }
  }

  /** What an operator is shown, by what has happened: the recorded status; retry exactly for a rejection; and while the
      command is in flight, that an owner has reconciled it, or else that it needs a review once it is old enough. */
  lemma ShownToOperators(store: Store, events: seq<Event>, aged: bool)
    requires Run(Start(store), events).Some? && (store == Sql || NoRestart(events))
    ensures var t := Run(Start(store), events).value; var view := OperatorView(t.record, t.reconciliations, aged);
      && (view.storage.None? <==> t.record.None?)
      && (t.record.Some? ==> view.storage == Some(t.record.value.status))
      && (view.canRetry <==> t.record.Some? && t.record.value.status == REJECTED_BEFORE_SUBMIT)
      && (view.reconciled <==> InFlight(t) && SomeReconciled(t))
      && (view.needsReview <==> InFlight(t) && !SomeReconciled(t) && aged)
  {
    ReconciledByOwners(store, events);
    var t := Run(Start(store), events).value;
    CountSome(t.calls, Reconciling);
    hide Run, Count, Start, OperatorView;
    ViewOf(t.record, t.reconciliations, aged);
  }

  lemma ViewOf(record: Option<Record>, reconciliations: nat, aged: bool)
    ensures var view := OperatorView(record, reconciliations, aged);
      var inFlight := record.Some? && record.value.status == INFLIGHT;
      && view.storage == (if record.Some? then Some(record.value.status) else None)
      && (view.canRetry <==> record.Some? && record.value.status == REJECTED_BEFORE_SUBMIT)
      && (view.reconciled <==> inFlight && reconciliations > 0)
      && (view.needsReview <==> inFlight && reconciliations == 0 && aged)
  {}

  ghost predicate InFlight(s: State) {
    s.record.Some? && s.record.value.status == INFLIGHT
  }

  ghost predicate SomeReconciled(s: State) {
    exists i :: 0 <= i < |s.calls| && s.calls[i] == Done(Reconciled)
  }

  /** An owner's call that is not disturbed: it is recorded exactly when the command is in flight, nobody has reconciled
      it, and it is old enough. Otherwise it ends with an error. The record stays as it is. */
  lemma OwnerIsHeard(s: State, aged: bool)
    ensures var n := |s.calls|; var look := Play(s, [OwnerCall, OwnerLook(n)]);
      && look.Some?
      && (!InFlight(s) ==> look.value == s.(calls := s.calls + [Done(Uncertain)]))
      && (InFlight(s) ==> var review := Step(look.value, OwnerReview(n, aged));
        && review.Some?
        && (s.reconciliations > 0 || !aged ==> review.value == s.(calls := s.calls + [Done(Uncertain)]))
        && (s.reconciliations == 0 && aged ==> var noted := Step(review.value, OwnerRecord(n));
          && noted.Some? && noted.value.calls == s.calls + [Done(Reconciled)] && noted.value.record == s.record
          && noted.value.reconciliations == 1 && noted.value.sends == s.sends && noted.value.disk == s.disk))
  {
    var n := |s.calls|;
    var called := s.(calls := s.calls + [OwnerCalled]);
    var looked := s.(calls := s.calls + [if InFlight(s) then OwnerChecked else Done(Uncertain)]);
    OwnerOnly(s, OwnerCall);
    OwnerOnly(called, OwnerLook(n));
    OwnerOnly(looked, OwnerReview(n, aged));
    AppendThenMove(s.calls, OwnerCalled, looked.calls[n]);
    hide Step, Play;
    PlayTwo(s, OwnerCall, called, OwnerLook(n), looked);
    if InFlight(s) {
      OwnerReviews(s, looked, aged);
    }
  }

  lemma OwnerOnly(s: State, e: Event)
    requires e.OwnerCall? || e.OwnerLook? || e.OwnerReview? || e.OwnerRecord?
    ensures Step(s, e) == OwnerStep(s, e)
  {
    hide OwnerStep;
  }

  lemma OwnerReviews(s: State, looked: State, aged: bool)
    requires InFlight(s) && looked == s.(calls := s.calls + [OwnerChecked])
    ensures var n := |s.calls|; var review := Step(looked, OwnerReview(n, aged));
      && review.Some?
      && (s.reconciliations > 0 || !aged ==> review.value == s.(calls := s.calls + [Done(Uncertain)]))
      && (s.reconciliations == 0 && aged ==> var noted := Step(review.value, OwnerRecord(n));
        && noted.Some? && noted.value.calls == s.calls + [Done(Reconciled)] && noted.value.record == s.record
        && noted.value.reconciliations == 1 && noted.value.sends == s.sends && noted.value.disk == s.disk)
  {
    var n := |s.calls|;
    var reviewed := s.(calls := s.calls + [OwnerReviewed]);
    OwnerOnly(looked, OwnerReview(n, aged));
    OwnerOnly(reviewed, OwnerRecord(n));
    AppendThenMove(s.calls, OwnerChecked, OwnerReviewed);
    AppendThenMove(s.calls, OwnerChecked, Done(Uncertain));
    AppendThenMove(s.calls, OwnerReviewed, Done(Reconciled));
    hide Step;
  }

  /** The step that records a mark: MarkWrite for SQL, MarkPut otherwise. */
  predicate WritesMark(e: Event) {
    (e.MarkWrite? && e.ok) || e.MarkPut?
  }

  /** What a mark does depends on nothing but the record and the call that makes it. */
  lemma SameMark(s: State, u: State, mark: Event)
    requires WritesMark(mark) && MarkStep(s, mark).Some? && u.record == s.record && u.store == s.store
    requires forall k :: 0 <= k < |s.calls| ==>
      k < |u.calls| && (u.calls[k] == s.calls[k] || s.calls[k] == OwnerReviewed)
    ensures MarkStep(u, mark).Some? && mark.i < |s.calls| && s.calls[mark.i] != OwnerReviewed
    ensures var t, v := MarkStep(s, mark).value, MarkStep(u, mark).value;
      && v.record == t.record && v.reconciliations == u.reconciliations && t.reconciliations == s.reconciliations
      && |t.calls| == |s.calls| && t.calls == s.calls[mark.i := t.calls[mark.i]]
      && v.calls == u.calls[mark.i := t.calls[mark.i]]
  {
    hide MayLeave, Running, Settle, Marked;
  }

  /** A recorded submission wins over a racing reconciliation: whichever is recorded first, the record and the view end
      up the same. */
  lemma SubmissionWins(s: State, mark: Event, i: nat, aged: bool)
    requires WritesMark(mark) && MarkStep(s, mark).Some? && At(s, i, OwnerReviewed)
    ensures var first := MarkStep(s, mark).value; var second := OwnerStep(s, OwnerRecord(i)).value;
      && OwnerStep(first, OwnerRecord(i)).Some? && OwnerStep(s, OwnerRecord(i)).Some? && MarkStep(second, mark).Some?
      && var t, u := OwnerStep(first, OwnerRecord(i)).value, MarkStep(second, mark).value;
      && t.record == u.record == first.record && t.calls == u.calls && t.reconciliations == u.reconciliations
      && (t.record.Some? && t.record.value.status == SUBMITTED ==>
        OperatorView(t.record, t.reconciliations, aged) == View(Some(SUBMITTED), false, false, false))
  {
    var first, second := MarkStep(s, mark).value, OwnerStep(s, OwnerRecord(i)).value;
    SameMark(s, second, mark);
    hide MarkStep;
    assert At(first, i, OwnerReviewed);
    assert s.calls[i := Done(Reconciled)][mark.i := first.calls[mark.i]] ==
      s.calls[mark.i := first.calls[mark.i]][i := Done(Reconciled)];
  }

  // ------------------------------------------------------------ when the JSON store is safe

  /** Nothing else is saved to the file, no save fails, and the process does not end during a save. */
  predicate Calm(s: State, e: Event) {
    match e
    case OtherSaveBegin => false
    case OwnerRecord(_) => false
    case SaveEnd(_, ok, _) => ok
    case MarkSaveEnd(_, ok, _) => ok
    case Restart(_, _) => forall i :: 0 <= i < |s.calls| ==> !IsSaving(s.calls[i])
    case _ => true
  }

  predicate CalmRun(s: State, events: seq<Event>)
    decreases |events|
  {
    events == [] ||
      var init := events[..|events| - 1];
      CalmRun(s, init) && Run(s, init).Some? && Calm(Run(s, init).value, events[|events| - 1])
  }

  /** Between saves the file holds the record; during a save the record is what is being written. */
  ghost predicate Saved(s: State) {
    && s.others == [] && s.faithful && s.store == Json
    && (forall i :: 0 <= i < |s.calls| ==> SaveTrue(s.calls[i], s.record))
    && ((forall i :: 0 <= i < |s.calls| ==> !IsSaving(s.calls[i])) ==> s.disk == s.record && s.window == [])
    && (s.window == [] || s.window == [s.record])
  }

  ghost predicate SaveTrue(pc: Pc, record: Option<Record>) {
    && (pc.SavingReservation? ==> record == Some(Record(INFLIGHT, "")))
    && (pc.SavingMark? ==> record == Some(pc.settled))
    && !pc.Inserted? && !pc.MarkChecked? && !pc.MarkWritten?
  }

  lemma SavedAt(s: State, i: nat)
    requires Saved(s) && i < |s.calls|
    ensures SaveTrue(s.calls[i], s.record)
  {}

  /** A step of one call that holds no lock: the record and the file stay. */
  lemma SavedMove(s: State, t: State, i: nat)
    requires Saved(s) && i < |s.calls| && |t.calls| == |s.calls| && t.calls == s.calls[i := t.calls[i]]
    requires t.others == [] && t.faithful && t.store == Json && t.record == s.record && t.disk == s.disk
    requires t.window == s.window
    requires !IsSaving(s.calls[i]) && !IsSaving(t.calls[i]) && SaveTrue(t.calls[i], t.record)
    ensures Saved(t)
  {
    if forall k :: 0 <= k < |t.calls| ==> !IsSaving(t.calls[k]) {
      forall k | 0 <= k < |s.calls|
        ensures !IsSaving(s.calls[k])
      {
        assert t.calls[k] == if k == i then t.calls[i] else s.calls[k];
      }
    }
  }

  /** A step of the call that holds the lock: no other call is saving. */
  lemma SavedLockedMove(s: State, t: State, i: nat)
    requires Saved(s) && Locking(s) && i < |s.calls| && |t.calls| == |s.calls| && t.calls == s.calls[i := t.calls[i]]
    requires s.lock == Some(i)
    requires t.others == [] && t.faithful && t.store == Json && SaveTrue(t.calls[i], t.record)
    requires if IsSaving(t.calls[i]) then t.window == [t.record] else t.disk == t.record && t.window == []
    ensures Saved(t)
  {
    OthersUnlocked(s, i);
    forall k | 0 <= k < |t.calls|
      ensures SaveTrue(t.calls[k], t.record) && (k != i ==> !IsSaving(t.calls[k]))
    {
      if k != i {
        assert t.calls[k] == s.calls[k];
        SavedAt(s, k);
      }
    }
    assert IsSaving(t.calls[i]) ==> exists k :: 0 <= k < |t.calls| && IsSaving(t.calls[k]);
  }

  /** The lock holder is not saving, so nobody is. */
  lemma NobodySaving(s: State, i: nat)
    requires Saved(s) && Locking(s) && i < |s.calls| && s.lock == Some(i) && !IsSaving(s.calls[i])
    ensures s.disk == s.record && s.window == []
  {
    OthersUnlocked(s, i);
    forall k | 0 <= k < |s.calls|
      ensures !IsSaving(s.calls[k])
    {
      assert k != i ==> !NeedsLock(s.calls[k]);
    }
  }

  lemma OthersUnlocked(s: State, i: nat)
    requires Locking(s) && s.lock == Some(i)
    ensures forall k :: 0 <= k < |s.calls| && k != i ==> !NeedsLock(s.calls[k])
  {}

  lemma ReserveSaved(s: State, e: Event)
    requires Saved(s) && Locking(s) && ReserveStep(s, e).Some? && Calm(s, e)
    ensures Saved(ReserveStep(s, e).value)
  {
    var t := ReserveStep(s, e).value;
    assert s.others == [] && s.faithful && s.store == Json;
    hide Saved, Locking, MayLeave, Decide;
    if e.Call? {
      NewCallSaved(s, t, Reserving);
    } else {
      var i := Mover(e).value;
      SavedAt(s, i);
      if NeedsLock(s.calls[i]) {
        LockingAt(s, i);
        if !IsSaving(s.calls[i]) {
          NobodySaving(s, i);
        }
        SavedLockedMove(s, t, i);
      } else {
        SavedMove(s, t, i);
      }
    }
  }

  lemma NewCallSaved(s: State, t: State, pc: Pc)
    requires Saved(s) && t == s.(calls := s.calls + [pc]) && (pc == Reserving || pc == OwnerCalled)
    ensures Saved(t)
  {
    if forall k :: 0 <= k < |t.calls| ==> !IsSaving(t.calls[k]) {
      forall k | 0 <= k < |s.calls|
        ensures !IsSaving(s.calls[k])
      {
        assert t.calls[k] == s.calls[k];
      }
    }
  }

  lemma CommandSaved(s: State, e: Event)
    requires Saved(s) && CommandStep(s, e).Some?
    ensures Saved(CommandStep(s, e).value)
  {
    var t := CommandStep(s, e).value;
    assert s.others == [] && s.faithful && s.store == Json;
    hide Saved;
    SavedMove(s, t, Mover(e).value);
  }

  lemma MarkSaved(s: State, e: Event)
    requires Saved(s) && Locking(s) && MarkStep(s, e).Some? && Calm(s, e)
    ensures Saved(MarkStep(s, e).value)
  {
    var t := MarkStep(s, e).value;
    var i := Mover(e).value;
    assert s.others == [] && s.faithful && s.store == Json;
    hide Saved, Locking, MayLeave, Settle;
    SavedAt(s, i);
    if NeedsLock(s.calls[i]) {
      LockingAt(s, i);
      if !IsSaving(s.calls[i]) {
        NobodySaving(s, i);
      }
      SavedLockedMove(s, t, i);
    } else {
      SavedMove(s, t, i);
    }
  }

  lemma OwnerSaved(s: State, e: Event)
    requires Saved(s) && OwnerStep(s, e).Some? && Calm(s, e)
    ensures Saved(OwnerStep(s, e).value)
  {
    var t := OwnerStep(s, e).value;
    assert s.others == [] && s.faithful && s.store == Json;
    hide Saved, OperatorView;
    if e.OwnerCall? {
      NewCallSaved(s, t, OwnerCalled);
    } else {
      SavedMove(s, t, Mover(e).value);
    }
  }

  lemma WorldSaved(s: State, e: Event)
    requires Saved(s) && WorldStep(s, e).Some? && Calm(s, e)
    ensures Saved(WorldStep(s, e).value)
  {}

  lemma {:induction false} CalmRunIsSaved(events: seq<Event>)
    requires CalmRun(Start(Json), events) && Run(Start(Json), events).Some?
    ensures Saved(Run(Start(Json), events).value)
    decreases |events|
  {
    hide Saved, Step, Run, Locking, Counted, Calm;
    if events == [] {
      RunNothing(Start(Json));
      StartSaved();
    } else {
      RunLast(Start(Json), events);
      CalmRunIsSaved(events[..|events| - 1]);
      RunKeepsCounts(Json, events[..|events| - 1]);
      StepSaved(Run(Start(Json), events[..|events| - 1]).value, events[|events| - 1]);
    }
  }

  lemma StartSaved()
    ensures Saved(Start(Json))
  {}

  lemma StepSaved(s: State, e: Event)
    requires Saved(s) && Locking(s) && Step(s, e).Some? && Calm(s, e)
    ensures Saved(Step(s, e).value)
  {
    StepCases(s, e);
    hide *;
    if Step(s, e) == ReserveStep(s, e) {
      ReserveSaved(s, e);
    } else if Step(s, e) == CommandStep(s, e) {
      CommandSaved(s, e);
    } else if Step(s, e) == MarkStep(s, e) {
      MarkSaved(s, e);
    } else if Step(s, e) == OwnerStep(s, e) {
      OwnerSaved(s, e);
    } else {
      WorldSaved(s, e);
    }
  }

  /** With the JSON store at most one send happens in every calm run, restarts included, and what was recorded is found
      again: such runs are careful and fresh. */
  lemma AtMostOneSendWithCalmJson(events: seq<Event>)
    requires CalmRun(Start(Json), events) && Run(Start(Json), events).Some?
    ensures Run(Start(Json), events).value.sends <= 1 && Run(Start(Json), events).value.faithful
    ensures CarefulRun(Start(Json), events) && FreshRun(Start(Json), events)
  {
    hide *;
    CalmRunIsSaved(events);
    SavedIsFaithful(Run(Start(Json), events).value);
    RememberingRuns(Json, events);
    AtMostOneSendWhenCareful(Json, events);
  }

  lemma SavedIsFaithful(s: State)
    requires Saved(s)
    ensures s.faithful
  {}
}
