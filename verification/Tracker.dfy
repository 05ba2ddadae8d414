/** src/visibleProgressTracker.js: progress of a turn, kept as persisted items. */
module Tracker {
  import opened Progress
  import opened Wrappers

  datatype Status = InProgress | Completed

  datatype ItemType = Reasoning | ProgressItem

  /** The persisted content of an item: its identity, text and lifecycle. */
  datatype Content = Content(logicalId: string, kind: string, text: string, state: string, active: bool, visible: bool,
      revision: int)

  datatype Stored = Stored(status: Status, content: Content)

  /** A visible item as it is reported. Empty strings and `None` stand for missing fields. */
  datatype Source = Source(id: string, key: string, kind: string, hint: string, text: string, state: string,
                           active: Option<bool>, visible: Option<bool>, revision: int)

  /** What the tracker remembers of a logical id. After a hand-over there is no content yet. */
  datatype Tracked = Tracked(itemId: nat, content: Option<Content>, status: Status, itemType: ItemType,
      publicLogicalId: string)

  datatype Fallback = Fallback(itemId: nat, content: Content, publicLogicalId: string)

  const SnapshotId := "snapshot-thinking"

  /** logicalId. */
  function LogicalId(item: Source, index: nat): string {
    Or(item.id, Or(item.key, Or(item.kind, "progress") + ":" + Or(item.hint, Decimal(index))))
  }

  /** The id under which a report is filed: its own, its key, or its kind with its hint or its place in the list. */
  lemma LogicalIdIs(item: Source, index: nat)
    ensures var id := LogicalId(item, index); var kind := if item.kind == "" then "progress" else item.kind;
      && (item.id != "" ==> id == item.id)
      && (item.id == "" && item.key != "" ==> id == item.key)
      && (item.id == item.key == "" && item.hint != "" ==> id == kind + [':'] + item.hint)
      && (item.id == item.key == item.hint == "" ==> id == kind + [':'] + Decimal(index))
  {
    assert ":" == [':'];
  }

  function TypeOf(kind: string): ItemType {
    if kind == "thinking" then Reasoning else ProgressItem
  }

  /** itemStatus. */
  function StatusOf(item: Source): Status {
    if item.state == "completed" || item.active == Some(false) then Completed else InProgress
  }

  /** The report says that the item has ended. */
  ghost predicate IsFinal(item: Source) {
    item.state == "completed" || item.active == Some(false)
  }

  function OrElse<T>(o: Option<T>, fallback: T): T {
    if o.Some? then o.value else fallback
  }

  /** normalizedContent. */
  function Normalized(item: Source, previous: Option<Content>, id: string): Content {
    var kind := Or(item.kind, Or(if previous.Some? then previous.value.kind else "", "progress"));
    var before := if previous.Some? then previous.value.text else "";
    Content(
      id, kind,
      if kind == "thinking" then Merge(before, item.text) else Or(item.text, before),
      Or(item.state,
          Or(if previous.Some? then previous.value.state else "", if item.active == Some(false) then "completed"
            else "active")),
      OrElse(item.active, if previous.Some? then previous.value.active else true),
      OrElse(item.visible, if previous.Some? then previous.value.visible else true),
      Max(if previous.Some? then previous.value.revision else 0, item.revision))
  }

  /** What a thinking update makes of the snapshot: text only grows, and an empty update hides it without erasing it. */
  function NextSnapshot(previous: Option<Content>, text: string): Content {
    if previous.None? then Content(SnapshotId, "thinking", text, "active", true, true, 1)
    else if text != "" then
      previous.value.(text := Merge(previous.value.text, text), revision := previous.value.revision
          + 1, visible := true)
    else previous.value.(visible := false)
  }

  /** What a thinking update shows. A first one begins the snapshot, a text is merged into it, and an empty one hides it
      without erasing it. */
  ghost predicate ShowsThinking(before: Option<Content>, text: string, after: Content) {
    match before
    case None => after == Content("snapshot-thinking", "thinking", text, "active", true, true, 1)
    case Some(b) =>
      && after.logicalId == b.logicalId && after.kind == b.kind && after.state == b.state && after.active == b.active
      && (text != "" ==> after.visible && after.text == Merge(b.text, text) && after.revision == b.revision + 1)
      && (text == "" ==> !after.visible && after.text == b.text && after.revision == b.revision)
  }

  lemma SnapshotShows(before: Option<Content>, text: string)
    ensures ShowsThinking(before, text, NextSnapshot(before, text))
  {
    hide Merge;
  }

  /** The stored content is what was reported where the report says something, else what was stored, else the default.
      Only the text of a `thinking` item is merged with what was stored. */
  ghost predicate Reflects(item: Source, previous: Option<Content>, c: Content) {
    && (item.kind != "" ==> c.kind == item.kind)
    && (item.kind == "" && previous.Some? && previous.value.kind != "" ==> c.kind == previous.value.kind)
    && (item.kind == "" && (previous.None? || previous.value.kind == "") ==> c.kind == "progress")
    && (item.state != "" ==> c.state == item.state)
    && (item.state == "" && previous.Some? && previous.value.state != "" ==> c.state == previous.value.state)
    && (item.state == "" && (previous.None? || previous.value.state == "") ==>
      c.state == if item.active == Some(false) then "completed" else "active")
    && (item.active.Some? ==> c.active == item.active.value)
    && (item.active.None? ==> c.active == (previous.None? || previous.value.active))
    && (item.visible.Some? ==> c.visible == item.visible.value)
    && (item.visible.None? ==> c.visible == (previous.None? || previous.value.visible))
    && (c.kind == "thinking" && previous.Some? ==> c.text == Merge(previous.value.text, item.text))
    && (item.text != "" && (c.kind != "thinking" || previous.None?) ==> c.text == item.text)
    && (item.text == "" ==> c.text == if previous.Some? then previous.value.text else "")
    && (previous.None? ==> c.revision == Max(0, item.revision))
    && (previous.Some? ==> c.revision == Max(previous.value.revision, item.revision))
  }

  /** The revision never falls, text that stays `thinking` never shrinks, and everything else is the report's where that
      says something. */
  lemma NormalizedAdvances(item: Source, previous: Option<Content>, id: string)
    ensures var c := Normalized(item, previous, id);
      && c.logicalId == id && c.revision >= item.revision && Reflects(item, previous, c)
      && (previous.Some? ==> c.revision >= previous.value.revision)
      && (c.kind == "thinking" ==> |c.text| >= |item.text| && (previous.Some? ==> |c.text| >= |previous.value.text|))
  {
    MergeNotShorter(if previous.Some? then previous.value.text else "", item.text);
  }

  /** A completed item stays completed. */
  ghost predicate StatusKept(a: map<nat, Stored>, b: map<nat, Stored>) {
    forall k :: k in a ==> k in b && (a[k].status == Completed ==> b[k].status == Completed)
  }

  ghost predicate TrackedKept(a: Tracked, b: Tracked) {
    && b.itemId == a.itemId && b.publicLogicalId == a.publicLogicalId
    && (a.status == Completed ==> b.status == Completed)
    && (a.content.Some? ==> b.content.Some? && b.content.value.revision >= a.content.value.revision)
  }

  /** Every logical id keeps its item, its revision never falls and a completed one stays completed. */
  ghost predicate ItemsKept(a: map<string, Tracked>, b: map<string, Tracked>) {
    forall id :: id in a ==> id in b && TrackedKept(a[id], b[id])
  }

  ghost predicate SnapshotKept(a: Fallback, b: Fallback) {
    b.itemId == a.itemId && b.content.revision >= a.content.revision && |b.content.text| >= |a.content.text|
  }

  /** The name under which an item is told to clients: one that takes over the snapshot item keeps that item's. */
  function PublicName(takenOver: Option<Fallback>, id: string): string {
    if takenOver.None? then id else Or(takenOver.value.publicLogicalId, takenOver.value.content.logicalId)
  }

  /** Told to clients under another name than its own. */
  ghost predicate Aliased(items: map<string, Tracked>, id: string) {
    id in items && items[id].publicLogicalId != id
  }

  /** The public name of the snapshot is that of the snapshot item or, after a hand-over, of one logical id only; all
      others go by their own. */
  ghost predicate OneHandOver(items: map<string, Tracked>, fallback: Option<Fallback>) {
    && (fallback.Some? ==> fallback.value.publicLogicalId == "snapshot-thinking")
    && (forall id :: Aliased(items, id) ==> fallback.None? && items[id].publicLogicalId == "snapshot-thinking")
    && (forall id, other :: Aliased(items, id) && Aliased(items, other) ==> id == other)
  }

  /** One item more or changed, as UpdateItem leaves it. */
  lemma StillOneHandOver(items: map<string, Tracked>, fallback: Option<Fallback>, id: string,
      items': map<string, Tracked>, fallback': Option<Fallback>)
    requires OneHandOver(items, fallback) && ItemsKept(items, items')
    requires forall other :: other != id ==> (other in items' <==> other in items)
    requires fallback' == fallback || fallback'.None?
    requires id !in items && id in items' ==>
      items'[id].publicLogicalId == PublicName(if fallback' == fallback then None else fallback, id)
    ensures OneHandOver(items', fallback')
  {
    assert forall other :: other != id ==> (Aliased(items', other) <==> Aliased(items, other));
    assert id in items ==> (Aliased(items', id) <==> Aliased(items, id));
  }

  /** The name of the snapshot item, whether it exists already or not. */
  function SnapshotName(fallback: Option<Fallback>): string {
    if fallback.Some? then fallback.value.publicLogicalId else SnapshotId
  }

  lemma StillNamed(items: map<string, Tracked>, items': map<string, Tracked>, fallback: Option<Fallback>,
      fallback': Option<Fallback>)
    requires items == items' || (ItemsKept(items, items') && items'.Keys == items.Keys)
    requires fallback'.Some? ==> fallback.Some? || items == map[]
    requires fallback'.Some? ==> fallback'.value.publicLogicalId == SnapshotName(fallback)
    ensures OneHandOver(items, fallback) ==> OneHandOver(items', fallback')
  {
    assert forall id :: Aliased(items', id) <==> Aliased(items, id);
  }

  ghost predicate Matches(t: Tracked, id: string, store: map<nat, Stored>) {
    && t.itemId in store && t.content.Some? && t.content.value.logicalId == id
    && store[t.itemId] == Stored(t.status, t.content.value)
  }

  /** Logical ids and the fallback map injectively to persisted items. */
  ghost predicate Injective(items: map<string, Tracked>, fallback: Option<Fallback>, store: map<nat, Stored>,
          nextId: nat) {
    && (forall id, other :: id in items && other in items && items[id].itemId == items[other].itemId ==> id == other)
    && (forall id :: id in items ==> items[id].itemId in store && items[id].content.Some?)
    && (fallback.Some? ==>
      fallback.value.itemId in store && forall id :: id in items ==> items[id].itemId != fallback.value.itemId)
    && (forall k :: k in store ==> k < nextId)
  }

  /** What the tracker knows of persisted items is up to date. */
  ghost predicate InStep(items: map<string, Tracked>, fallback: Option<Fallback>, store: map<nat, Stored>) {
    && (forall id :: id in items ==> Matches(items[id], id, store))
    && (fallback.Some? ==>
      fallback.value.itemId in store && store[fallback.value.itemId].content == fallback.value.content)
  }

  ghost predicate Known(items: map<string, Tracked>, fallback: Option<Fallback>, k: nat) {
    (fallback.Some? && fallback.value.itemId == k) || exists id :: id in items && items[id].itemId == k
  }

  /** The tracker knows every persisted item. */
  ghost predicate Covers(items: map<string, Tracked>, fallback: Option<Fallback>, store: map<nat, Stored>) {
    forall k :: k in store ==> Known(items, fallback, k)
  }

  /** A persisted item that the tracker does not know (any more). */
  ghost predicate Lost(items: map<string, Tracked>, fallback: Option<Fallback>, store: map<nat, Stored>, k: nat,
      s: Stored) {
    k in store && store[k] == s && !Known(items, fallback, k)
  }

  /** Every item that the tracker has lost had been completed. */
  ghost predicate LostWereCompleted(items: map<string, Tracked>, fallback: Option<Fallback>, store: map<nat, Stored>) {
    forall k, s :: Lost(items, fallback, store, k, s) ==> s.status == Completed
  }

  /** What a step does to the items that are lost: they stay as they are and stay lost, and only a failing step loses
      another. */
  ghost predicate LosesOnly(failed: bool, items: map<string, Tracked>, fallback: Option<Fallback>, store: map<nat,
      Stored>,
          items': map<string, Tracked>, fallback': Option<Fallback>, store': map<nat, Stored>)
  {
    && (forall k, s :: Lost(items, fallback, store, k, s) ==> Lost(items', fallback', store', k, s))
    && (!failed ==> forall k, s :: Lost(items', fallback', store', k, s) ==> Lost(items, fallback, store, k, s))
  }

  lemma LosesTwice(first: bool, second: bool, a: map<string, Tracked>, f: Option<Fallback>, x: map<nat, Stored>,
          b: map<string, Tracked>, g: Option<Fallback>, y: map<nat, Stored>,
          c: map<string, Tracked>, h: Option<Fallback>, z: map<nat, Stored>)
    requires LosesOnly(first, a, f, x, b, g, y) && LosesOnly(second, b, g, y, c, h, z)
    ensures LosesOnly(first || second, a, f, x, c, h, z)
  {
    hide Lost;
  }

  lemma LosesNothing(items: map<string, Tracked>, fallback: Option<Fallback>, store: map<nat, Stored>)
    ensures LosesOnly(false, items, fallback, store, items, fallback, store)
    ensures LosesOnly(true, items, fallback, store, items, fallback, store)
    ensures LosesOnly(true, items, fallback, store, items, None, store)
  {}

  /** A persisted item that nobody was told of. */
  lemma LosesTheNew(items: map<string, Tracked>, fallback: Option<Fallback>, store: map<nat, Stored>, n: nat, s: Stored)
    requires n !in store
    ensures LosesOnly(true, items, fallback, store, items, fallback, store[n := s])
  {}

  ghost predicate AllCompleted(store: map<nat, Stored>) {
    forall k :: k in store ==> store[k].status == Completed
  }

  /** Unless it is handed over the snapshot item stays as it is. */
  ghost predicate SameSnapshot(a: Option<Fallback>, b: Option<Fallback>, x: map<nat, Stored>, y: map<nat, Stored>) {
    b.Some? ==> b == a && b.value.itemId in x && b.value.itemId in y && y[b.value.itemId] == x[b.value.itemId]
  }

  /** The snapshot item has been completed, so the turn was finalized before. */
  ghost predicate SnapshotCompleted(fallback: Option<Fallback>, store: map<nat, Stored>) {
    fallback.Some? && fallback.value.itemId in store && store[fallback.value.itemId].status == Completed
  }

  lemma NothingChanges(items: map<string, Tracked>, fallback: Option<Fallback>, store: map<nat, Stored>)
    ensures StatusKept(store, store) && ItemsKept(items, items) && SameSnapshot(fallback, None, store, store)
    ensures (fallback.Some? ==> fallback.value.itemId in store) ==> SameSnapshot(fallback, fallback, store, store)
  {}

  lemma NewItem(items: map<string, Tracked>, fallback: Option<Fallback>, store: map<nat, Stored>, n: nat, id: string,
          t: Tracked)
    requires Injective(items, fallback, store, n) && InStep(items, fallback, store)
    requires id !in items && t.itemId == n && t.content.Some? && t.content.value.logicalId == id
    ensures var items', store' := items[id := t], store[n := Stored(t.status, t.content.value)];
      && Injective(items', fallback, store', n + 1) && InStep(items', fallback, store')
      && StatusKept(store, store') && ItemsKept(items, items') && SameSnapshot(fallback, fallback, store, store')
      && (Covers(items, fallback, store) ==> Covers(items', fallback, store'))
      && LosesOnly(false, items, fallback, store, items', fallback, store')
  {
    hide Lost, LosesOnly;
    var items', store' := items[id := t], store[n := Stored(t.status, t.content.value)];
    OneMoreKnown(items, fallback, fallback, store, id, t);
    forall other | other in items'
      ensures Matches(items'[other], other, store')
    {
      assert other != id ==> Matches(items[other], other, store);
    }
    if Covers(items, fallback, store) {
      hide Injective, InStep;
      forall k | k in store'
        ensures Known(items', fallback, k)
      {
        assert items'[id].itemId == n;
        if k != n {
          StillKnown(items, fallback, id, t, k);
        }
      }
    }
  }

  lemma StillKnown(items: map<string, Tracked>, fallback: Option<Fallback>, id: string, t: Tracked, k: nat)
    requires Known(items, fallback, k) && (id in items ==> t.itemId == items[id].itemId)
    ensures Known(items[id := t], fallback, k)
  {
    if !(fallback.Some? && fallback.value.itemId == k) {
      var other :| other in items && items[other].itemId == k;
      assert items[id := t][other].itemId == k;
    }
  }

  /** Tracking the item `t` under `id`: a new item, one that `id` had already, or the snapshot item. */
  lemma OneMoreKnown(items: map<string, Tracked>, fallback: Option<Fallback>, fallback': Option<Fallback>,
          store: map<nat, Stored>, id: string, t: Tracked)
    requires id in items ==> t.itemId == items[id].itemId
    requires fallback' == fallback || (fallback'.None? && fallback.Some? && t.itemId == fallback.value.itemId)
    requires t.itemId in store ==> Known(items, fallback, t.itemId)
    requires t.content.Some?
    ensures LosesOnly(false, items, fallback, store, items[id := t], fallback',
        store[t.itemId := Stored(t.status, t.content.value)])
  {
    var items', store' := items[id := t], store[t.itemId := Stored(t.status, t.content.value)];
    assert items'[id].itemId == t.itemId;
    forall k | k in store' && k != t.itemId
      ensures Known(items, fallback, k) <==> Known(items', fallback', k)
    {
      if Known(items, fallback, k) {
        StillKnown(items, fallback, id, t, k);
      }
      if Known(items', fallback', k) && !(fallback'.Some? && fallback'.value.itemId == k) {
        var other :| other in items' && items'[other].itemId == k;
        assert other in items && items[other].itemId == k;
      }
    }
  }

  /** An item that is tracked already, or takes over the snapshot item. */
  lemma ChangedItem(items: map<string, Tracked>, fallback: Option<Fallback>, store: map<nat, Stored>, nextId: nat,
          id: string, t: Tracked)
    requires Injective(items, fallback, store, nextId) && InStep(items, fallback, store) && t.content.Some?
    requires t.content.value.logicalId == id
    requires if id in items then t.itemId == items[id].itemId else fallback.Some? && t.itemId == fallback.value.itemId
    ensures var items', fallback', store' :=
      items[id := t], if id in items then fallback else None, store[t.itemId := Stored(t.status, t.content.value)];
      && Injective(items', fallback', store', nextId) && InStep(items', fallback', store')
      && t.itemId in store && (id in items ==> store[t.itemId].status == items[id].status)
      && SameSnapshot(fallback, fallback', store, store')
      && (StatusKept(store, store') <==> !(store[t.itemId].status == Completed && t.status == InProgress))
      && (id in items ==> (ItemsKept(items, items') <==> TrackedKept(items[id], t)))
      && (id !in items ==> ItemsKept(items, items'))
      && (Covers(items, fallback, store) ==> Covers(items', fallback', store'))
      && LosesOnly(false, items, fallback, store, items', fallback', store')
  {
    hide Lost, LosesOnly;
    OneMoreKnown(items, fallback, if id in items then fallback else None, store, id, t);
    var items', fallback', store' :=
      items[id := t], if id in items then fallback else None, store[t.itemId := Stored(t.status, t.content.value)];
    assert id in items ==> Matches(items[id], id, store);
    forall other | other in items'
      ensures Matches(items'[other], other, store')
    {
      assert other != id ==> Matches(items[other], other, store) && items[other].itemId != t.itemId;
    }
    if Covers(items, fallback, store) {
      hide Injective, InStep;
      forall k | k in store'
        ensures Known(items', fallback', k)
      {
        assert items'[id].itemId == t.itemId;
        if k != t.itemId {
          StillKnown(items, fallback, id, t, k);
        }
      }
    }
  }

  /** What is known of one tracked item and of the snapshot item. */
  lemma TrackedItem(items: map<string, Tracked>, fallback: Option<Fallback>, store: map<nat, Stored>, nextId: nat,
          id: string)
    requires Injective(items, fallback, store, nextId)
    ensures id in items ==> items[id].itemId in store && items[id].content.Some?
    ensures fallback.Some? ==> fallback.value.itemId in store
    ensures forall k :: k in store ==> k < nextId
  {}

  /** The snapshot item, as it is created; the tracker may not learn of it. */
  lemma SnapshotCreated(items: map<string, Tracked>, store: map<nat, Stored>, n: nat, s: Stored, name: string)
    requires Injective(items, None, store, n) && InStep(items, None, store)
    ensures var f, store' := Some(Fallback(n, s.content, name)), store[n := s];
      && Injective(items, f, store', n + 1) && InStep(items, f, store')
      && (Covers(items, None, store) ==> Covers(items, f, store'))
      && Injective(items, None, store', n + 1) && InStep(items, None, store') && StatusKept(store, store')
      && LosesOnly(false, items, None, store, items, f, store')
      && LosesOnly(true, items, None, store, items, None, store')
  {
    forall id | id in items
      ensures Matches(items[id], id, store[n := s])
    {
      assert Matches(items[id], id, store);
    }
    KnowsMore(items, None, Some(Fallback(n, s.content, name)), n);
    hide InStep, Injective, Known;
  }

  lemma KnowsMore(items: map<string, Tracked>, fallback: Option<Fallback>, fallback': Option<Fallback>, n: nat)
    requires fallback'.Some? && fallback'.value.itemId == n && (fallback.Some? ==> fallback.value.itemId == n)
    ensures forall k :: Known(items, fallback', k) <==> Known(items, fallback, k) || k == n
  {}

  /** The snapshot item, as it is written again. */
  lemma SnapshotWritten(items: map<string, Tracked>, f: Fallback, store: map<nat, Stored>, nextId: nat, s: Stored)
    requires Injective(items, Some(f), store, nextId) && InStep(items, Some(f), store)
    ensures var f', store' := Some(f.(content := s.content)), store[f.itemId := s];
      && Injective(items, f', store', nextId) && InStep(items, f', store')
      && (Covers(items, Some(f), store) ==> Covers(items, f', store'))
      && (StatusKept(store, store') <==> store[f.itemId].status == InProgress || s.status == Completed)
      && LosesOnly(false, items, Some(f), store, items, f', store')
  {
    forall id | id in items
      ensures Matches(items[id], id, store[f.itemId := s])
    {
      assert Matches(items[id], id, store) && items[id].itemId != f.itemId;
    }
    KnowsMore(items, Some(f), Some(f.(content := s.content)), f.itemId);
    assert Known(items, Some(f), f.itemId);
    hide InStep, Injective, Known;
  }

  /** A hand-over that the store refuses: the snapshot item is forgotten. */
  lemma ForgottenSnapshot(items: map<string, Tracked>, fallback: Option<Fallback>, store: map<nat, Stored>, nextId: nat)
    requires Injective(items, fallback, store, nextId) && InStep(items, fallback, store)
    ensures Injective(items, None, store, nextId) && InStep(items, None, store)
    ensures fallback.Some? ==> !Known(items, None, fallback.value.itemId)
  {}

  /** The text that is known of an id. */
  ghost function TextOf(items: map<string, Tracked>, id: string): string {
    if id in items && items[id].content.Some? then items[id].content.value.text else ""
  }

  ghost predicate Plain(items: map<string, Tracked>, id: string) {
    id in items && items[id].content.Some? ==> items[id].content.value.kind != "thinking"
  }

  /** None of the first `n` reports of this id is of kind `thinking`. */
  ghost predicate NeverThinking(incoming: seq<Source>, n: nat, id: string)
    requires n <= |incoming|
  {
    forall m :: 0 <= m < n && LogicalId(incoming[m], m) == id ==> incoming[m].kind != "thinking"
  }

  /** The last text that is not empty among the first `n` reports of this id, or the one before. */
  ghost function LastText(incoming: seq<Source>, n: nat, id: string, before: string): string
    requires n <= |incoming|
  {
    if n == 0 then before
    else if LogicalId(incoming[n - 1], n - 1) == id && incoming[n - 1].text != "" then incoming[n - 1].text
    else LastText(incoming, n - 1, id, before)
  }

  lemma {:induction false} LastTextIsLast(incoming: seq<Source>, n: nat, id: string, before: string, k: nat)
    requires k < n <= |incoming| && LogicalId(incoming[k], k) == id && incoming[k].text != ""
    requires forall m :: k < m < n && LogicalId(incoming[m], m) == id ==> incoming[m].text == ""
    ensures LastText(incoming, n, id, before) == incoming[k].text
  {
    if k < n - 1 {
      LastTextIsLast(incoming, n - 1, id, before, k);
    }
  }

  /** From `a` to `b` the first `n` reports came in: of an id that is not `thinking` the text is the last reported
      one. */
  ghost predicate TextsFollow(incoming: seq<Source>, n: nat, a: map<string, Tracked>, b: map<string, Tracked>)
    requires n <= |incoming|
  {
    forall id :: NeverThinking(incoming, n, id) && Plain(a, id) ==>
      Plain(b, id) && TextOf(b, id) == LastText(incoming, n, id, TextOf(a, id))
  }

  lemma NoTexts(incoming: seq<Source>, items: map<string, Tracked>)
    ensures TextsFollow(incoming, 0, items, items)
  {}

  lemma OneMoreText(incoming: seq<Source>, n: nat, a: map<string, Tracked>, b: map<string, Tracked>,
      c: map<string, Tracked>)
    requires n < |incoming| && TextsFollow(incoming, n, a, b)
    requires forall other :: other != LogicalId(incoming[n], n) ==>
      (other in c <==> other in b) && (other in c ==> c[other] == b[other])
    requires var id := LogicalId(incoming[n], n);
      && id in c && c[id].content.Some?
      && Reflects(incoming[n], if id in b then b[id].content else None, c[id].content.value)
    ensures TextsFollow(incoming, n + 1, a, c)
  {
    hide LogicalId, Merge;
    forall id | NeverThinking(incoming, n + 1, id) && Plain(a, id)
      ensures Plain(c, id) && TextOf(c, id) == LastText(incoming, n + 1, id, TextOf(a, id))
    {
      assert NeverThinking(incoming, n, id);
    }
  }

  /** `id` is one of the first `n` reported. */
  ghost predicate Reported(incoming: seq<Source>, n: nat, id: string)
    requires n <= |incoming|
  {
    exists m :: 0 <= m < n && LogicalId(incoming[m], m) == id
  }

  /** The `n`-th item is a reasoning item of an id that is seen for the first time. */
  ghost predicate Opens(known: set<string>, incoming: seq<Source>, n: nat)
    requires n < |incoming|
  {
    var id := LogicalId(incoming[n], n);
    incoming[n].kind == "thinking" && id !in known && !Reported(incoming, n, id)
  }

  /** The first `n` reported items hold one that takes over the snapshot item. */
  ghost predicate HandsOver(known: set<string>, incoming: seq<Source>, n: nat)
    requires n <= |incoming|
  {
    exists m :: 0 <= m < n && Opens(known, incoming, m)
  }

  lemma NobodyYet(items: map<string, Tracked>, incoming: seq<Source>)
    ensures !HandsOver(items.Keys, incoming, 0)
    ensures forall id :: id in items <==> id in items || Reported(incoming, 0, id)
  {}

  lemma ReportedLater(incoming: seq<Source>, n: nat)
    requires n <= |incoming|
    ensures forall id :: Reported(incoming, n, id) ==> Reported(incoming, |incoming|, id)
  {
    hide LogicalId;
    forall id | Reported(incoming, n, id)
      ensures Reported(incoming, |incoming|, id)
    {
      var m :| 0 <= m < n && LogicalId(incoming[m], m) == id;
      assert m < |incoming|;
    }
  }

  lemma AllAreReported(incoming: seq<Source>)
    ensures forall n :: 0 <= n < |incoming| ==> Reported(incoming, |incoming|, LogicalId(incoming[n], n))
  {
    hide LogicalId;
  }

  lemma OneMoreReported(known: set<string>, incoming: seq<Source>, n: nat)
    requires n < |incoming|
    ensures var id := LogicalId(incoming[n], n);
      && (forall other :: Reported(incoming, n + 1, other) <==> Reported(incoming, n, other) || other == id)
      && (HandsOver(known, incoming, n + 1) <==>
        HandsOver(known, incoming, n)
          || (incoming[n].kind == "thinking" && id !in known && !Reported(incoming, n, id)))
  {
    hide LogicalId;
    forall other
      ensures Reported(incoming, n + 1, other) <==> Reported(incoming, n, other) || other == LogicalId(incoming[n], n)
    {
      if Reported(incoming, n, other) {
        var m :| 0 <= m < n && LogicalId(incoming[m], m) == other;
        assert m < n + 1;
      }
    }
    assert HandsOver(known, incoming, n + 1) <==> HandsOver(known, incoming, n) || Opens(known, incoming, n);
  }

  /** A content at the end of the turn. */
  function Closed(content: Content): Content {
    content.(state := "completed", active := false, visible := false)
  }

  /** What finalize leaves of the snapshot item: completed, not forgotten. */
  function EndSnapshot(before: Option<Fallback>, nothingShown: bool, thinking: string, itemId: nat): Option<Fallback> {
    if before.Some? then
      Some(before.value.(content := Closed(before.value.content.(text := Or(thinking, before.value.content.text)))))
    else if nothingShown && thinking != "" then Some(Fallback(itemId, Closed(NextSnapshot(None, thinking)), SnapshotId))
    else None
  }

  /** What finalize leaves of the snapshot item: completed with the response's thinking or else its own text, or made of
      that thinking when nothing was shown. */
  ghost predicate SnapshotEnds(before: Option<Fallback>, nothingShown: bool, thinking: string,
      after: Option<Fallback>) {
    match before
    case Some(b) =>
      && after.Some? && after.value.itemId == b.itemId && after.value.publicLogicalId == b.publicLogicalId
      && EndsWith(b.content, if thinking == "" then b.content.text else thinking, after.value.content)
    case None =>
      if nothingShown && thinking != "" then
        && after.Some? && after.value.publicLogicalId == "snapshot-thinking"
        && after.value.content == Content("snapshot-thinking", "thinking", thinking, "completed", false, false, 1)
      else after.None?
  }

  ghost predicate EndsWith(before: Content, text: string, after: Content) {
    && after.text == text && after.state == "completed" && !after.active && !after.visible
    && after.logicalId == before.logicalId && after.kind == before.kind && after.revision == before.revision
  }

  lemma SnapshotEndsSo(before: Option<Fallback>, nothingShown: bool, thinking: string, itemId: nat)
    ensures SnapshotEnds(before, nothingShown, thinking, EndSnapshot(before, nothingShown, thinking, itemId))
  {}

  /** The item is completed and otherwise as it was. */
  ghost predicate IsClosed(before: Tracked, after: Tracked) {
    && before.content.Some? && after.content.Some? && after.status == Completed
    && after.content.value.state == "completed" && !after.content.value.active
    && after.content.value.text == before.content.value.text && after.content.value.kind == before.content.value.kind
    && after.content.value.revision == before.content.value.revision
    && after.content.value.visible == before.content.value.visible
    && after.content.value.logicalId == before.content.value.logicalId
    && after.itemId == before.itemId && after.itemType == before.itemType
    && after.publicLogicalId == before.publicLogicalId
  }

  ghost predicate IsOver(t: Tracked) {
    t.status == Completed && t.content.Some? && t.content.value.state == "completed" && !t.content.value.active
  }

  ghost predicate AllClosed(before: map<string, Tracked>, after: map<string, Tracked>) {
    after.Keys == before.Keys && forall id :: id in after ==> IsClosed(before[id], after[id])
  }

  /** Of these ids the items are still as they were, and all others are closed. */
  ghost predicate ClosedBut(pending: set<string>, before: map<string, Tracked>, after: map<string, Tracked>) {
    && after.Keys == before.Keys
    && forall id :: id in after ==> if id in pending then after[id] == before[id] else IsClosed(before[id], after[id])
  }

  lemma NoneClosedYet(items: map<string, Tracked>)
    ensures ClosedBut(items.Keys, items, items)
  {}

  lemma OneMoreClosed(pending: set<string>, a: map<string, Tracked>, b: map<string, Tracked>, c: map<string, Tracked>,
      id: string)
    requires ClosedBut(pending, a, b) && id in pending && id in b && c.Keys == b.Keys
    requires IsClosed(b[id], c[id]) && forall other :: other in c && other != id ==> c[other] == b[other]
    ensures ClosedBut(pending - {id}, a, c)
  {}

  lemma ClosedAll(a: map<string, Tracked>, b: map<string, Tracked>)
    requires ClosedBut({}, a, b)
    ensures AllClosed(a, b) && forall id :: id in b ==> b[id].status == Completed
  {}

  /** Closing changes no text. */
  lemma TextsStay(incoming: seq<Source>, a: map<string, Tracked>, b: map<string, Tracked>, c: map<string, Tracked>)
    requires TextsFollow(incoming, |incoming|, a, b) && AllClosed(b, c)
    ensures TextsFollow(incoming, |incoming|, a, c)
    ensures forall id :: id in c ==> IsOver(c[id])
  {
    hide LastText, NeverThinking;
    forall id | id in c
      ensures IsOver(c[id])
    {
      assert IsClosed(b[id], c[id]);
    }
    forall id
      ensures Plain(b, id) ==> Plain(c, id) && TextOf(c, id) == TextOf(b, id)
    {
      assert id in c ==> IsClosed(b[id], c[id]);
    }
    hide Plain, TextOf, AllClosed;
  }

  class ProgressTracker {
    var items: map<string, Tracked>
    var fallback: Option<Fallback>
    var structuredSeen: bool
    /** The persisted items of the turn, and the next id that `createId` gives out. */
    var store: map<nat, Stored>
    var nextId: nat
    /** Whether the store may fail. */
    const mayFail: bool

    /** With a store that does not fail the tracker knows every item in it. */
    ghost predicate Valid()
      reads this
    {
      Core() && (!mayFail && structuredSeen ==> items != map[])
    }

    lemma ValidIsCore()
      ensures Valid() <==> Core() && (!mayFail && structuredSeen ==> items != map[])
    {}

    ghost predicate Core()
      reads this
    {
      && Injective(items, fallback, store, nextId) && InStep(items, fallback, store)
      && (!mayFail ==> Covers(items, fallback, store))
    }

    lemma CoreIsInStep()
      ensures Core() ==> InStep(items, fallback, store) && (!mayFail ==> Covers(items, fallback, store))
    {}

    constructor (mayFail: bool)
      ensures Valid() && items == map[] && fallback.None? && !structuredSeen && store == map[]
      ensures this.mayFail == mayFail && Orderly() && Announced() && !SnapshotCompleted(fallback, store)
    {
      items, fallback, structuredSeen, store, nextId := map[], None, false, map[], 0;
      this.mayFail := mayFail;
    }

    /** `createItem`, then the event about it. When either fails the caller never learns of the item. */
    method Create(status: Status, content: Content) returns (itemId: Option<nat>)
      requires forall k :: k in store ==> k < nextId
      modifies this`store, this`nextId
      ensures store == old(store)
        || (old(nextId) !in old(store) && store == old(store)[old(nextId) := Stored(status, content)]
          && nextId == old(nextId) + 1)
      ensures store == old(store) ==> itemId.None? && nextId == old(nextId)
      ensures itemId.Some? ==> itemId.value == old(nextId)
      ensures !mayFail ==> itemId.Some?
    {
      itemId := None;
      if mayFail {
        if * {
          return;
        }
      }
      var id := nextId;
      store, nextId := store[id := Stored(status, content)], id + 1;
      if mayFail {
        if * {
          return;
        }
      }
      itemId := Some(id);
    }

    /** `updateItem`. */
    method Update(itemId: nat, status: Status, content: Content) returns (ok: bool)
      requires itemId in store
      modifies this`store
      ensures store == if ok then old(store)[itemId := Stored(status, content)] else old(store)
      ensures !mayFail ==> ok
    {
      if mayFail {
        if * {
          return false;
        }
      }
      store := store[itemId := Stored(status, content)];
      ok := true;
    }

    /** #updateThinking. It keeps completed items completed unless the snapshot item it writes to was already
        completed. */
    method UpdateThinking(nextText: string) returns (ok: bool)
      requires Valid()
      modifies this`fallback, this`store, this`nextId
      ensures Valid()
      ensures structuredSeen ==> ok && fallback == old(fallback) && store == old(store)
      ensures old(fallback).Some? ==> fallback.Some? && SnapshotKept(old(fallback).value, fallback.value)
      ensures ok && !structuredSeen && old(fallback).Some? ==> |fallback.value.content.text| >= |nextText|
      ensures old(fallback).None? && (nextText == "" || structuredSeen) ==> fallback.None?
      ensures ok && !structuredSeen && (old(fallback).Some? || nextText != "") ==> fallback.Some?
      ensures ok && !structuredSeen && (old(fallback).Some? || nextText != "") ==>
        ShowsThinking(if old(fallback).Some? then Some(old(fallback).value.content) else None, nextText,
            fallback.value.content)
      ensures ok && !structuredSeen && (old(fallback).Some? || nextText != "") ==>
        store == old(store)[fallback.value.itemId := Stored(InProgress, fallback.value.content)]
      ensures ok && !structuredSeen && old(fallback).Some? ==>
        (StatusKept(old(store), store) <==> old(store)[old(fallback).value.itemId].status == InProgress)
      ensures !ok || structuredSeen || old(fallback).None? ==> StatusKept(old(store), store)
      ensures !ok ==> fallback == old(fallback) && (fallback.Some? ==> store == old(store))
      ensures old(fallback).None? ==> forall k :: k in old(store) ==> k in store && store[k] == old(store)[k]
      ensures old(fallback).None? && fallback.Some? ==>
        fallback.value.itemId !in old(store) && fallback.value.publicLogicalId == "snapshot-thinking"
      ensures ok && old(fallback).Some? && fallback.Some? ==>
        fallback.value.publicLogicalId == old(fallback).value.publicLogicalId
      ensures LosesOnly(!ok, old(items), old(fallback), old(store), items, fallback, store)
      ensures !mayFail ==> ok
    {
      ok := true;
      if structuredSeen {
        return;
      }
      hide Merge, Injective, InStep, Covers, LosesOnly, StatusKept;
      SnapshotShows(if fallback.Some? then Some(fallback.value.content) else None, nextText);
      hide ShowsThinking;
      TrackedItem(items, fallback, store, nextId, "");
      NothingChanges(items, fallback, store);
      LosesNothing(items, fallback, store);
      if fallback.None? {
        if nextText == "" {
          return;
        }
        var content := NextSnapshot(None, nextText);
        var itemId := Create(InProgress, content);
        SnapshotCreated(items, old(store), old(nextId), Stored(InProgress, content), SnapshotId);
        if itemId.None? {
          return false;
        }
        fallback := Some(Fallback(itemId.value, content, SnapshotId));
      } else {
        var f := fallback.value;
        MergeNotShorter(f.content.text, nextText);
        var content := NextSnapshot(Some(f.content), nextText);
        SnapshotWritten(items, f, store, nextId, Stored(InProgress, content));
        ok := Update(f.itemId, InProgress, content);
        if ok {
          fallback := Some(f.(content := content));
        }
      }
    }

    /** The update of a persisted item, and of what is remembered of it if that succeeds. */
    method WriteItem(id: string, t: Tracked, ghost snapshot: Option<Fallback>) returns (ok: bool)
      requires Injective(items, snapshot, store, nextId) && InStep(items, snapshot, store)
      requires (!mayFail ==> Covers(items, snapshot, store))
      requires fallback == if id in items then snapshot else None
      requires t.content.Some? && t.content.value.logicalId == id
      requires if id in items then TrackedKept(items[id], t) else snapshot.Some? && t.itemId == snapshot.value.itemId
      modifies this`items, this`store
      ensures Core() && ItemsKept(old(items), items) && SameSnapshot(snapshot, fallback, old(store), store)
      ensures items == if ok then old(items)[id := t] else old(items)
      ensures t.itemId in old(store)
      ensures StatusKept(old(store), store) <==>
        !(ok && old(store)[t.itemId].status == Completed && t.status == InProgress)
      ensures id in old(items) ==> StatusKept(old(store), store)
      ensures LosesOnly(!ok, old(items), snapshot, old(store), items, fallback, store) && (!ok ==> store == old(store))
      ensures !mayFail ==> ok
    {
      LosesNothing(items, snapshot, store);
      ForgottenSnapshot(items, snapshot, store, nextId);
      TrackedItem(items, snapshot, store, nextId, id);
      NothingChanges(items, fallback, store);
      NothingChanges(items, snapshot, store);
      ChangedItem(items, snapshot, store, nextId, id, t);
      hide Injective, InStep, Covers, StatusKept, ItemsKept, SameSnapshot, LosesOnly;
      ok := Update(t.itemId, t.status, t.content.value);
      if ok {
        items := items[id := t];
      }
    }

    /** One turn of the loop of #updateItems. The first reasoning item takes over the snapshot item, if there is one. */
    method UpdateItem(id: string, item: Source) returns (ok: bool)
      requires Core()
      modifies this`items, this`fallback, this`store, this`nextId
      ensures Core()
      ensures ItemsKept(old(items), items)
      ensures StatusKept(old(store), store) <==>
        !(ok && id !in old(items) && item.kind == "thinking" && !IsFinal(item)
          && SnapshotCompleted(old(fallback), old(store)))
      ensures forall other :: other != id ==>
        (other in items <==> other in old(items)) && (other in items ==> items[other] == old(items)[other])
      ensures fallback == if id !in old(items) && item.kind == "thinking" then None else old(fallback)
      ensures LosesOnly(!ok, old(items), old(fallback), old(store), items, fallback, store)
      ensures !ok && old(fallback).Some? && fallback.None? ==>
        store == old(store) && items == old(items) && !Known(items, fallback, old(fallback).value.itemId)
      ensures SameSnapshot(old(fallback), fallback, old(store), store)
      ensures ok ==>
        && id in items && items[id].content.Some? && items[id].content.value.logicalId == id
        && Reflects(item, if id in old(items) then old(items)[id].content else None, items[id].content.value)
      ensures ok && old(fallback).Some? && fallback.None? ==> items[id].itemId == old(fallback).value.itemId
      ensures ok && id !in old(items) && fallback == old(fallback) ==> items[id].itemId !in old(store)
      ensures ok && id !in old(items) ==>
        items[id].publicLogicalId == PublicName(if fallback == old(fallback) then None else old(fallback), id)
      ensures !ok ==> items == old(items)
      ensures ok ==> (items[id].itemType == Reasoning <==> item.kind == "thinking")
      ensures ok ==> (items[id].status == Completed <==>
        IsFinal(item) || (id in old(items) && old(items)[id].status == Completed))
      ensures !mayFail ==> ok
    {
      ok := true;
      var itemType := TypeOf(item.kind);
      var tracked := if id in items then Some(items[id]) else None;
      hide Merge, Normalized, Reflects, Injective, InStep, Covers, StatusKept, ItemsKept, SameSnapshot, LosesOnly,
          Known;
      TrackedItem(items, fallback, store, nextId, id);
      NothingChanges(items, fallback, store);
      LosesNothing(items, fallback, store);
      ForgottenSnapshot(items, fallback, store, nextId);
      if tracked.None? && itemType == Reasoning && fallback.Some? {
        tracked :=
          Some(Tracked(fallback.value.itemId, None, InProgress, itemType, PublicName(fallback, id)));
        fallback := None;
      }
      var content := Normalized(item, if tracked.Some? then tracked.value.content else None, id);
      var status := StatusOf(item);
      NormalizedIs(item, if tracked.Some? then tracked.value.content else None, id);
      if tracked.None? {
        var created := Create(status, content);
        if created.None? {
          if store != old(store) {
            LosesTheNew(items, fallback, old(store), old(nextId), Stored(status, content));
          }
          return false;
        }
        ghost var t := Tracked(created.value, Some(content), status, itemType, id);
        NewItem(items, fallback, old(store), nextId - 1, id, t);
        items := items[id := Tracked(created.value, Some(content), status, itemType, id)];
      } else {
        var t := tracked.value;
        var next := if t.status == Completed then Completed else status;
        ok := WriteItem(id, t.(content := Some(content), status := next, itemType := itemType), old(fallback));
      }
    }

    /** #updateItems: every reported item in turn, until the store fails. */
    method UpdateItems(incoming: seq<Source>) returns (ok: bool)
      requires Valid()
      modifies this`items, this`fallback, this`structuredSeen, this`store, this`nextId
      ensures Valid() && ItemsKept(old(items), items)
      ensures !SnapshotCompleted(old(fallback), old(store)) ==>
        StatusKept(old(store), store) && !SnapshotCompleted(fallback, store)
      ensures fallback == old(fallback) || fallback.None?
      ensures OneHandOver(old(items), old(fallback)) ==> OneHandOver(items, fallback)
      ensures ok ==> forall n :: 0 <= n < |incoming| ==> LogicalId(incoming[n], n) in items
      ensures ok ==> TextsFollow(incoming, |incoming|, old(items), items)
      ensures ok ==> fallback == if HandsOver(old(items).Keys, incoming, |incoming|) then None else old(fallback)
      ensures ok ==> forall id :: id in items <==> id in old(items) || Reported(incoming, |incoming|, id)
      ensures forall id :: id in items ==> id in old(items) || Reported(incoming, |incoming|, id)
      ensures LosesOnly(!ok, old(items), old(fallback), old(store), items, fallback, store)
      ensures incoming == [] ==>
        && ok && items == old(items) && fallback == old(fallback) && store == old(store)
        && structuredSeen == old(structuredSeen)
      ensures incoming != [] ==> structuredSeen
      ensures !mayFail ==> ok
    {
      ok := true;
      NothingChanges(items, fallback, store);
      LosesNothing(items, fallback, store);
      NobodyYet(items, incoming);
      NoTexts(incoming, items);
      if incoming == [] {
        return;
      }
      structuredSeen := true;
      assert Core();
      ok := UpdateEach(incoming);
    }

    /** The loop of #updateItems. */
    method UpdateEach(incoming: seq<Source>) returns (ok: bool)
      requires Core() && structuredSeen && incoming != []
      modifies this`items, this`fallback, this`store, this`nextId
      ensures Valid() && ItemsKept(old(items), items)
      ensures !SnapshotCompleted(old(fallback), old(store)) ==>
        StatusKept(old(store), store) && !SnapshotCompleted(fallback, store)
      ensures fallback == old(fallback) || fallback.None?
      ensures OneHandOver(old(items), old(fallback)) ==> OneHandOver(items, fallback)
      ensures ok ==> forall n :: 0 <= n < |incoming| ==> LogicalId(incoming[n], n) in items
      ensures ok ==> TextsFollow(incoming, |incoming|, old(items), items)
      ensures ok ==> fallback == if HandsOver(old(items).Keys, incoming, |incoming|) then None else old(fallback)
      ensures ok ==> forall id :: id in items <==> id in old(items) || Reported(incoming, |incoming|, id)
      ensures forall id :: id in items ==> id in old(items) || Reported(incoming, |incoming|, id)
      ensures LosesOnly(!ok, old(items), old(fallback), old(store), items, fallback, store)
      ensures !mayFail ==> ok
    {
      ok := true;
      ghost var live := !SnapshotCompleted(fallback, store);
      hide *;
      NothingChanges(items, fallback, store);
      LosesNothing(items, fallback, store);
      NobodyYet(items, incoming);
      NoTexts(incoming, items);
      var n := 0;
      while n < |incoming|
        invariant 0 <= n <= |incoming| && structuredSeen && Core()
        invariant !mayFail && n > 0 ==> items != map[]
        invariant ItemsKept(old(items), items)
        invariant live ==> StatusKept(old(store), store) && !SnapshotCompleted(fallback, store)
        invariant OneHandOver(old(items), old(fallback)) ==> OneHandOver(items, fallback)
        invariant fallback == if HandsOver(old(items).Keys, incoming, n) then None else old(fallback)
        invariant forall other :: other in items <==> other in old(items) || Reported(incoming, n, other)
        invariant LosesOnly(false, old(items), old(fallback), old(store), items, fallback, store)
        invariant TextsFollow(incoming, n, old(items), items)
      {
        ghost var itemsBefore, storeBefore, fallbackBefore := items, store, fallback;
        ok := UpdateOne(incoming, n, old(items));
        KeptTwice(old(items), itemsBefore, items, old(store), storeBefore, store);
        LosesTwice(false, !ok, old(items), old(fallback), old(store), itemsBefore, fallbackBefore, storeBefore, items,
            fallback, store);
        OneMoreReported(old(items).Keys, incoming, n);
        if !ok {
          ValidIsCore();
          ReportedLater(incoming, n);
          return;
        }
        n := n + 1;
      }
      ValidIsCore();
      AllAreReported(incoming);
    }

    /** One turn of that loop, as the loop sees it. */
    method UpdateOne(incoming: seq<Source>, n: nat, ghost first: map<string, Tracked>) returns (ok: bool)
      requires Core() && n < |incoming| && TextsFollow(incoming, n, first, items)
      modifies this`items, this`fallback, this`store, this`nextId
      ensures Core() && ItemsKept(old(items), items)
      ensures !SnapshotCompleted(old(fallback), old(store)) ==>
        StatusKept(old(store), store) && !SnapshotCompleted(fallback, store)
      ensures OneHandOver(old(items), old(fallback)) ==> OneHandOver(items, fallback)
      ensures forall other :: other != LogicalId(incoming[n], n) ==> (other in items <==> other in old(items))
      ensures if ok then LogicalId(incoming[n], n) in items else items == old(items)
      ensures fallback ==
        if LogicalId(incoming[n], n) !in old(items) && incoming[n].kind == "thinking" then None else old(fallback)
      ensures ok ==> TextsFollow(incoming, n + 1, first, items)
      ensures LosesOnly(!ok, old(items), old(fallback), old(store), items, fallback, store)
      ensures !mayFail ==> ok
    {
      hide *;
      ghost var live := !SnapshotCompleted(fallback, store);
      var id := LogicalId(incoming[n], n);
      ok := UpdateItem(id, incoming[n]);
      if OneHandOver(old(items), old(fallback)) {
        StillOneHandOver(old(items), old(fallback), id, items, fallback);
      }
      if live {
        StillLive(old(fallback), fallback, old(store), store);
      }
      if ok {
        OneMoreText(incoming, n, first, old(items), items);
      }
    }

    /** The loop of finalize over the tracked items. */
    method CompleteItems() returns (ok: bool)
      requires Core()
      modifies this`items, this`store
      ensures Core() && CompletesOnly(!ok, old(items), fallback, old(store), items, store)
      ensures ok ==> AllClosed(old(items), items) && forall id :: id in items ==> items[id].status == Completed
      ensures !mayFail || old(items) == map[] ==> ok
      ensures old(items) == map[] ==> store == old(store)
    {
      ok := true;
      CompletesNothing(items, fallback, store) by {
        TrackedItem(items, fallback, store, nextId, "");
      }
      hide *;
      ghost var none := items == map[];
      NoneClosedYet(items);
      var pending := items.Keys;
      while pending != {}
        invariant pending <= items.Keys && Core()
        invariant CompletesOnly(false, old(items), fallback, old(store), items, store)
        invariant ClosedBut(pending, old(items), items)
        invariant none ==> pending == {} && store == old(store)
        decreases pending
      {
        var id :| id in pending;
        ok := CompleteNext(id, pending, old(items), old(store));
        if !ok {
          return;
        }
        pending := pending - {id};
      }
      ClosedAll(old(items), items);
    }

    /** One turn of the loop. */
    method CompleteNext(id: string, ghost pending: set<string>, ghost first: map<string, Tracked>,
        ghost stored: map<nat, Stored>)
      returns (ok: bool)
      requires Core() && id in pending && pending <= items.Keys
      requires CompletesOnly(false, first, fallback, stored, items, store)
      requires ClosedBut(pending, first, items)
      modifies this`items, this`store
      ensures Core() && pending <= items.Keys && CompletesOnly(!ok, first, fallback, stored, items, store)
      ensures ok ==> ClosedBut(pending - {id}, first, items)
      ensures !mayFail ==> ok
    {
      hide *;
      ok := CompleteItem(id);
      CompletesTwice(!ok, first, stored, fallback, old(items), old(store), items, store);
      if ok {
        OneMoreClosed(pending, first, old(items), items, id);
      }
    }

    method CompleteItem(id: string) returns (ok: bool)
      requires Core() && id in items
      modifies this`items, this`store
      ensures Core() && items.Keys == old(items).Keys
      ensures CompletesOnly(!ok, old(items), fallback, old(store), items, store)
      ensures forall other :: other in items && other != id ==> items[other] == old(items)[other]
      ensures old(items)[id].content.Some?
      ensures ok ==> IsClosed(old(items)[id], items[id])
      ensures !mayFail ==> ok
    {
      TrackedItem(items, fallback, store, nextId, id);
      ItemMatches(items, fallback, store, id);
      hide Injective, InStep, Covers, StatusKept, ItemsKept, SameSnapshot, LosesOnly;
      var t := items[id];
      ok :=
        WriteItem(id, t.(status := Completed, content := Some(t.content.value.(state := "completed", active := false))),
            fallback);
    }

    /** The end of finalize: the snapshot item, if it was never handed over, or the response's own thinking, if nothing
        was shown. */
    method CompleteSnapshot(thinking: string) returns (ended: Ended)
      requires Core() && (!mayFail && structuredSeen ==> items != map[])
      modifies this`fallback, this`store, this`nextId
      ensures Core() && StatusKept(old(store), store)
      ensures ended.Crashed? <==> old(fallback).None? && items == map[] && thinking != "" && structuredSeen
      ensures ended.Done? ==> SnapshotEnds(old(fallback), items == map[], thinking, fallback)
      ensures LosesOnly(!ended.Done?, old(items), old(fallback), old(store), items, fallback, store)
      ensures ended.Done? && fallback.Some? ==> SnapshotCompleted(fallback, store)
      ensures fallback.Some? ==> old(fallback).Some? || items == map[]
      ensures fallback.Some? ==> fallback.value.publicLogicalId == SnapshotName(old(fallback))
      ensures ended.Done? ==>
        forall k :: k in old(store) && !(old(fallback).Some? && old(fallback).value.itemId == k) ==>
          k in store && store[k] == old(store)[k]
      ensures !mayFail ==> ended.Done?
    {
      hide Merge, Injective, InStep, Covers, LosesOnly, StatusKept;
      TrackedItem(items, fallback, store, nextId, "");
      NothingChanges(items, fallback, store);
      LosesNothing(items, fallback, store);
      if fallback.Some? {
        SnapshotEndsSo(fallback, false, thinking, 0);
        var f := fallback.value;
        var content := Closed(f.content.(text := Or(thinking, f.content.text)));
        SnapshotWritten(items, f, store, nextId, Stored(Completed, content));
        var ok := Update(f.itemId, Completed, content);
        if !ok {
          return Failed;
        }
        fallback := Some(f.(content := content));
      } else if items == map[] && thinking != "" {
        var ok := UpdateThinking(thinking);
        if !ok {
          return Failed;
        }
        if fallback.None? {
          return Crashed;
        }
        var f := fallback.value;
        var content := Closed(f.content);
        ghost var shown := store;
        SnapshotWritten(items, f, store, nextId, Stored(Completed, content));
        KeptTwice(items, items, items, old(store), shown, shown[f.itemId := Stored(Completed, content)]);
        LosesTwice(false, false, items, None, old(store), items, Some(f), shown, items, Some(f.(content := content)),
            shown[f.itemId := Stored(Completed, content)]);
        LosesNothing(items, Some(f), shown);
        LosesTwice(false, true, items, None, old(store), items, Some(f), shown, items, Some(f), shown);
        ok := Update(f.itemId, Completed, content);
        if !ok {
          return Failed;
        }
        fallback := Some(f.(content := content));
      }
      ended := Done;
    }

    /** Names are in order, and without structured reports nothing but the snapshot is tracked. */
    ghost predicate Orderly()
      reads this
    {
      OneHandOver(items, fallback) && (items != map[] ==> structuredSeen)
    }

    /** Something that was announced is tracked. */
    ghost predicate Announced()
      reads this
    {
      structuredSeen ==> items != map[]
    }

    lemma OrderlyIs()
      ensures Orderly() ==> OneHandOver(items, fallback)
      ensures Announced() && structuredSeen ==> items != map[]
    {}

    /** One queued operation. */
    method Take(signal: Signal) returns (ok: bool)
      requires Valid()
      modifies this`items, this`fallback, this`structuredSeen, this`store, this`nextId
      ensures Valid() && ItemsKept(old(items), items)
      ensures !SnapshotCompleted(old(fallback), old(store)) ==>
        StatusKept(old(store), store) && !SnapshotCompleted(fallback, store)
      ensures old(fallback).Some? && fallback.Some? ==> SnapshotKept(old(fallback).value, fallback.value)
      ensures old(structuredSeen) || (old(fallback).Some? && fallback.None?) ==>
        structuredSeen && (fallback == old(fallback) || fallback.None?)
      ensures old(Orderly()) ==> Orderly()
      ensures ok && old(Announced()) ==> Announced()
      ensures forall id :: id in items ==> id in old(items) || Reporting(signal, id)
      ensures ok ==> forall id :: Reporting(signal, id) ==> id in items
      ensures ok ==> Takes(signal, old(items), items)
      ensures LosesOnly(!ok, old(items), old(fallback), old(store), items, fallback, store)
      ensures !mayFail ==> ok
    {
      hide Injective, InStep, Covers, LosesOnly, Reported, HandsOver, OneHandOver, TextsFollow;
      match signal
      case Thinking(text) =>
        ok := UpdateThinking(text);
        NothingChanges(items, fallback, store);
        if items == map[] || structuredSeen {
          StillNamed(items, items, old(fallback), fallback);
        }
      case Items(incoming) =>
        ok := UpdateItems(incoming);
        if ok {
          NothingShown(old(items), items, incoming);
        }
    }

    /** The queue of a turn: a failed operation does not keep the next one from running. Tracked items keep their ids
        and never fall in revision, the snapshot item is handed over to one logical id at most, exactly what was
        reported is tracked unless an operation failed, and only failures lose items. */
    method TakeAll(signals: seq<Signal>) returns (failed: bool)
      requires Valid()
      modifies this`items, this`fallback, this`structuredSeen, this`store, this`nextId
      ensures Valid() && ItemsKept(old(items), items)
      ensures !SnapshotCompleted(old(fallback), old(store)) ==>
        StatusKept(old(store), store) && !SnapshotCompleted(fallback, store)
      ensures old(fallback).Some? && fallback.Some? ==> SnapshotKept(old(fallback).value, fallback.value)
      ensures old(fallback).Some? && fallback.None? ==> structuredSeen
      ensures old(Orderly()) ==> Orderly()
      ensures !failed && old(Announced()) ==> Announced()
      ensures forall id :: id in items ==> id in old(items) || Mentioned(signals, |signals|, id)
      ensures !failed ==> forall id :: Mentioned(signals, |signals|, id) ==> id in items
      ensures !failed ==> TextsTold(signals, |signals|, old(items), items)
      ensures LosesOnly(failed, old(items), old(fallback), old(store), items, fallback, store)
      ensures !mayFail ==> !failed
    {
      failed := false;
      hide *;
      NothingChanges(items, fallback, store);
      LosesNothing(items, fallback, store);
      NobodyMentioned(signals);
      NothingTold(signals, items);
      SnapshotStays(fallback);
      ghost var live := !SnapshotCompleted(fallback, store);
      for n := 0 to |signals|
        invariant Valid() && ItemsKept(old(items), items)
        invariant live ==> StatusKept(old(store), store) && !SnapshotCompleted(fallback, store)
        invariant old(fallback).Some? && fallback.Some? ==> SnapshotKept(old(fallback).value, fallback.value)
        invariant old(fallback).Some? && fallback.None? ==> structuredSeen
        invariant old(Orderly()) ==> Orderly()
        invariant !failed && old(Announced()) ==> Announced()
        invariant forall id :: id in items ==> id in old(items) || Mentioned(signals, n, id)
        invariant !failed ==> forall id :: Mentioned(signals, n, id) ==> id in items
        invariant !failed ==> TextsTold(signals, n, old(items), items)
        invariant LosesOnly(failed, old(items), old(fallback), old(store), items, fallback, store)
        invariant !mayFail ==> !failed
      {
        ghost var items1, fallback1, store1, failed1 := items, fallback, store, failed;
        var ok := Take(signals[n]);
        failed := failed || !ok;
        KeptTwice(old(items), items1, items, old(store), store1, store);
        LosesTwice(failed1, !ok, old(items), old(fallback), old(store), items1, fallback1, store1, items, fallback,
            store);
        if old(fallback).Some? && fallback1.Some? && fallback.Some? {
          SnapshotKeptTwice(old(fallback).value, fallback1.value, fallback.value);
        }
        KeptIds(items1, items);
        OneMoreMentioned(signals, n);
        if !failed {
          OneMoreTold(signals, n, old(items), items1, items);
        }
      }
    }

    /** A whole turn. With a store that does not fail it ends with every persisted item completed; when operations
        failed, with every tracked one, and with all of them exactly if those lost before the final report had been
        completed. It crashes only after a failure. */
    method RunTurn(signals: seq<Signal>, reported: seq<Source>, thinking: string)
      returns (failed: bool, ended: Ended)
      requires Valid()
      modifies this`items, this`fallback, this`structuredSeen, this`store, this`nextId
      ensures Valid() && ItemsKept(old(items), items)
      ensures !SnapshotCompleted(old(fallback), old(store)) ==> StatusKept(old(store), store)
      ensures old(Orderly()) ==> OneHandOver(items, fallback)
      ensures !mayFail ==> !failed && ended.Done?
      ensures ended.Crashed? && old(Announced()) ==> failed
      ensures ended.Done? ==> forall id :: id in items ==> IsOver(items[id])
      ensures ended.Done? && fallback.Some? ==> SnapshotCompleted(fallback, store)
      ensures ended.Done? ==>
        forall id :: id in items && id !in old(items) ==> MentionedIn(signals, Merged(reported), id)
      ensures ended.Done? && !failed ==>
        forall id :: id in items <==> id in old(items) || MentionedIn(signals, Merged(reported), id)
      ensures LosesOnly(failed || !ended.Done?, old(items), old(fallback), old(store), items, fallback, store)
      ensures ended.Done? && AllCompleted(store) ==> LostWereCompleted(old(items), old(fallback), old(store))
      ensures ended.Done? && !failed && LostWereCompleted(old(items), old(fallback), old(store)) ==> AllCompleted(store)
      ensures !mayFail ==> AllCompleted(store)
    {
      hide *;
      failed := TakeAll(signals);
      ghost var items1, fallback1, store1 := items, fallback, store;
      OrderlyIs();
      ended := Finalize(reported, thinking);
      KeptTwice(old(items), items1, items, old(store), store1, store);
      LosesTwice(failed, !ended.Done?, old(items), old(fallback), old(store), items1, fallback1, store1, items,
          fallback, store);
      MentionedInEither(signals, Merged(reported));
      StillLost(failed, old(items), old(fallback), old(store), items1, fallback1, store1);
      KeptIds(old(items), items1);
    }

    /** finalize. With a store that does not fail it always ends, and then every item that was ever persisted is
        completed. */
    method Finalize(reported: seq<Source>, thinking: string) returns (ended: Ended)
      requires Valid()
      modifies this`items, this`fallback, this`structuredSeen, this`store, this`nextId
      ensures Valid() && ItemsKept(old(items), items)
      ensures !SnapshotCompleted(old(fallback), old(store)) ==> StatusKept(old(store), store)
      ensures ended.Done? ==>
        && (forall id :: id in items ==> IsOver(items[id]))
        && (fallback.Some? ==> SnapshotCompleted(fallback, store))
      ensures structuredSeen == (old(structuredSeen) || reported != [])
      ensures OneHandOver(old(items), old(fallback)) ==> OneHandOver(items, fallback)
      ensures ended.Done? ==> forall id :: id in items <==>
        id in old(items) || Reported(Merged(reported), |Merged(reported)|, id)
      ensures ended.Crashed? <==>
        reported == [] && old(items) == map[] && old(fallback).None? && old(structuredSeen) && thinking != ""
      ensures ended.Done? ==> SnapshotEnds(
            if HandsOver(old(items).Keys, Merged(reported), |Merged(reported)|) then None else old(fallback),
            reported == [] && old(items) == map[], thinking, fallback)
      ensures ended.Done? ==> TextsFollow(Merged(reported), |Merged(reported)|, old(items), items)
      ensures LosesOnly(!ended.Done?, old(items), old(fallback), old(store), items, fallback, store)
      ensures ended.Done? ==> (AllCompleted(store) <==> LostWereCompleted(old(items), old(fallback), old(store)))
      ensures !mayFail ==> ended.Done? && AllCompleted(store)
    {
      hide *;
      ValidIsCore();
      CoreIsInStep();
      var merged := LatestOf(reported);
      var ok := UpdateItems(merged);
      if !ok {
        return Failed;
      }
      ghost var items1, fallback1, store1 := items, fallback, store;
      NothingShown(old(items), items, merged);
      ValidIsCore();
      ok := CompleteItems();
      CompletesMeans(!ok, items1, fallback, store1, items, store);
      KeptTwice(old(items), items1, items, old(store), store1, store);
      LosesTwice(false, !ok, old(items), old(fallback), old(store), items1, fallback1, store1, items, fallback, store);
      SameName(items1, items, fallback);
      ValidIsCore();
      if !ok {
        return Failed;
      }
      ghost var items2, store2 := items, store;
      TextsStay(merged, old(items), items1, items);
      ended := CompleteSnapshot(thinking);
      StillNamed(items2, items, fallback1, fallback);
      KeptTwice(old(items), items2, items, old(store), store2, store);
      LosesTwice(false, !ended.Done?, old(items), old(fallback), old(store), items2, fallback1, store2, items, fallback,
          store);
      if ended.Done? {
        CoreIsInStep();
        EverythingCompleted(old(items), old(fallback), old(store), items, fallback, store);
        NothingLostYet(old(items), old(fallback), old(store));
      }
      ValidIsCore();
    }
  }

  /** What the tracker is told in the course of a turn. */
  datatype Signal = Thinking(text: string) | Items(incoming: seq<Source>)

  /** Some of the first `n` signals reports this id. */
  ghost predicate Mentioned(signals: seq<Signal>, n: nat, id: string)
    requires n <= |signals|
  {
    exists k :: 0 <= k < n && Reporting(signals[k], id)
  }

  /** The last text that is not empty in all reports of this id in the first `n` signals. */
  ghost function LastTextTold(signals: seq<Signal>, n: nat, id: string, before: string): string
    requires n <= |signals|
  {
    if n == 0 then before
    else
      var earlier := LastTextTold(signals, n - 1, id, before);
      match signals[n - 1]
      case Thinking(_) => earlier
      case Items(incoming) => LastText(incoming, |incoming|, id, earlier)
  }

  /** No text comes in for this id. */
  ghost predicate Silent(incoming: seq<Source>, from: nat, id: string) {
    forall m :: from <= m < |incoming| && LogicalId(incoming[m], m) == id ==> incoming[m].text == ""
  }

  lemma {:induction false} SilenceKeepsText(incoming: seq<Source>, n: nat, id: string, before: string)
    requires n <= |incoming| && Silent(incoming, 0, id)
    ensures LastText(incoming, n, id, before) == before
  {
    if n > 0 {
      SilenceKeepsText(incoming, n - 1, id, before);
    }
  }

  /** `LastTextTold` is the text of report `m` of signal `k` if that has one and no later report of the id has. */
  lemma {:induction false} LastTextToldIsLast(signals: seq<Signal>, n: nat, id: string, before: string, k: nat, m: nat)
    requires k < n <= |signals| && signals[k].Items? && m < |signals[k].incoming|
    requires LogicalId(signals[k].incoming[m], m) == id && signals[k].incoming[m].text != ""
    requires Silent(signals[k].incoming, m + 1, id)
    requires forall j :: k < j < n && signals[j].Items? ==> Silent(signals[j].incoming, 0, id)
    ensures LastTextTold(signals, n, id, before) == signals[k].incoming[m].text
  {
    hide LogicalId;
    if k < n - 1 {
      LastTextToldIsLast(signals, n - 1, id, before, k, m);
      if signals[n - 1].Items? {
        SilenceKeepsText(signals[n - 1].incoming, |signals[n - 1].incoming|, id,
            LastTextTold(signals, n - 1, id, before));
      }
    } else {
      LastTextIsLast(signals[k].incoming, |signals[k].incoming|, id, LastTextTold(signals, k, id, before), m);
    }
  }

  /** And it is the text from before when no report has one. */
  lemma {:induction false} NoTextTold(signals: seq<Signal>, n: nat, id: string, before: string)
    requires n <= |signals| && forall j :: 0 <= j < n && signals[j].Items? ==> Silent(signals[j].incoming, 0, id)
    ensures LastTextTold(signals, n, id, before) == before
  {
    if n > 0 {
      NoTextTold(signals, n - 1, id, before);
      if signals[n - 1].Items? {
        SilenceKeepsText(signals[n - 1].incoming, |signals[n - 1].incoming|, id, before);
      }
    }
  }

  ghost predicate NeverToldThinking(signals: seq<Signal>, n: nat, id: string)
    requires n <= |signals|
  {
    forall k :: 0 <= k < n && signals[k].Items? ==> NeverThinking(signals[k].incoming, |signals[k].incoming|, id)
  }

  /** Of an id that is never `thinking` the text is the last one told. */
  ghost predicate TextsTold(signals: seq<Signal>, n: nat, a: map<string, Tracked>, b: map<string, Tracked>)
    requires n <= |signals|
  {
    forall id :: NeverToldThinking(signals, n, id) && Plain(a, id) ==>
      Plain(b, id) && TextOf(b, id) == LastTextTold(signals, n, id, TextOf(a, id))
  }

  ghost predicate Takes(signal: Signal, a: map<string, Tracked>, b: map<string, Tracked>) {
    match signal
    case Thinking(_) => a == b
    case Items(incoming) => TextsFollow(incoming, |incoming|, a, b)
  }

  lemma NothingTold(signals: seq<Signal>, items: map<string, Tracked>)
    ensures TextsTold(signals, 0, items, items)
  {}

  lemma OneMoreTold(signals: seq<Signal>, n: nat, a: map<string, Tracked>, b: map<string, Tracked>,
      c: map<string, Tracked>)
    requires n < |signals| && TextsTold(signals, n, a, b) && Takes(signals[n], b, c)
    ensures TextsTold(signals, n + 1, a, c)
  {
    hide Plain, TextOf, NeverThinking, LastText;
    forall id | NeverToldThinking(signals, n + 1, id) && Plain(a, id)
      ensures Plain(c, id) && TextOf(c, id) == LastTextTold(signals, n + 1, id, TextOf(a, id))
    {
      assert NeverToldThinking(signals, n, id);
      assert signals[n].Items? ==> NeverThinking(signals[n].incoming, |signals[n].incoming|, id);
    }
  }

  ghost predicate Reporting(signal: Signal, id: string) {
    signal.Items? && Reported(signal.incoming, |signal.incoming|, id)
  }

  /** In the course of the turn or in its final report. */
  ghost predicate MentionedIn(signals: seq<Signal>, final: seq<Source>, id: string) {
    Mentioned(signals, |signals|, id) || Reported(final, |final|, id)
  }

  lemma MentionedInEither(signals: seq<Signal>, final: seq<Source>)
    ensures forall id :: MentionedIn(signals, final, id) <==>
      Mentioned(signals, |signals|, id) || Reported(final, |final|, id)
  {
    hide Mentioned, Reported;
  }

  lemma NobodyMentioned(signals: seq<Signal>)
    ensures forall id :: !Mentioned(signals, 0, id)
  {}

  lemma SnapshotStays(fallback: Option<Fallback>)
    ensures fallback.Some? ==> SnapshotKept(fallback.value, fallback.value)
  {}

  lemma SnapshotKeptTwice(a: Fallback, b: Fallback, c: Fallback)
    requires SnapshotKept(a, b) && SnapshotKept(b, c)
    ensures SnapshotKept(a, c)
  {}

  lemma KeptIds(a: map<string, Tracked>, b: map<string, Tracked>)
    requires ItemsKept(a, b)
    ensures forall id :: id in a ==> id in b
  {}

  /** What was lost is lost, and without a failure nothing else. */
  lemma StillLost(failed: bool, a: map<string, Tracked>, f: Option<Fallback>, x: map<nat, Stored>,
      b: map<string, Tracked>, g: Option<Fallback>, y: map<nat, Stored>)
    requires LosesOnly(failed, a, f, x, b, g, y)
    ensures LostWereCompleted(b, g, y) ==> LostWereCompleted(a, f, x)
    ensures !failed && LostWereCompleted(a, f, x) ==> LostWereCompleted(b, g, y)
  {
    hide Lost;
  }

  lemma OneMoreMentioned(signals: seq<Signal>, n: nat)
    requires n < |signals|
    ensures forall id :: Mentioned(signals, n + 1, id) <==> Mentioned(signals, n, id) || Reporting(signals[n], id)
  {
    hide Reporting;
    forall id
      ensures Mentioned(signals, n + 1, id) <==> Mentioned(signals, n, id) || Reporting(signals[n], id)
    {
      if Mentioned(signals, n, id) {
        var k :| 0 <= k < n && Reporting(signals[k], id);
        assert k < n + 1;
      }
    }
  }

  /** `Crashed` is a TypeError: there is no snapshot item to complete. */
  datatype Ended = Done | Failed | Crashed

  /** What completing items does: their ids stay, and the snapshot item stays as it is. */
  ghost predicate CompletesOnly(failed: bool, items: map<string, Tracked>, fallback: Option<Fallback>, store: map<nat,
      Stored>,
          items': map<string, Tracked>, store': map<nat, Stored>)
  {
    && items'.Keys == items.Keys && ItemsKept(items, items') && StatusKept(store, store')
    && SameSnapshot(fallback, fallback, store, store')
    && LosesOnly(failed, items, fallback, store, items', fallback, store')
  }

  lemma CompletesMeans(failed: bool, items: map<string, Tracked>, fallback: Option<Fallback>, store: map<nat, Stored>,
      items': map<string, Tracked>, store': map<nat, Stored>)
    requires CompletesOnly(failed, items, fallback, store, items', store')
    ensures items'.Keys == items.Keys && ItemsKept(items, items') && StatusKept(store, store')
    ensures LosesOnly(failed, items, fallback, store, items', fallback, store')
  {
    hide ItemsKept, StatusKept, LosesOnly;
  }

  lemma SameName(items: map<string, Tracked>, items': map<string, Tracked>, fallback: Option<Fallback>)
    requires ItemsKept(items, items') && items'.Keys == items.Keys
    ensures OneHandOver(items, fallback) ==> OneHandOver(items', fallback)
  {
    StillNamed(items, items', fallback, fallback);
  }

  lemma CompletesNothing(items: map<string, Tracked>, fallback: Option<Fallback>, store: map<nat, Stored>)
    requires fallback.Some? ==> fallback.value.itemId in store
    ensures CompletesOnly(false, items, fallback, store, items, store)
  {
    hide StatusKept, ItemsKept, SameSnapshot, LosesOnly;
    NothingChanges(items, fallback, store);
    LosesNothing(items, fallback, store);
  }

  lemma CompletesTwice(failed: bool, a: map<string, Tracked>, x: map<nat, Stored>, f: Option<Fallback>,
          b: map<string, Tracked>, y: map<nat, Stored>, c: map<string, Tracked>, z: map<nat, Stored>)
    requires CompletesOnly(false, a, f, x, b, y) && CompletesOnly(failed, b, f, y, c, z)
    ensures CompletesOnly(failed, a, f, x, c, z)
  {
    hide StatusKept, ItemsKept, LosesOnly;
    KeptTwice(a, b, c, x, y, z);
    LosesTwice(false, failed, a, f, x, b, f, y, c, f, z);
  }

  lemma ItemMatches(items: map<string, Tracked>, fallback: Option<Fallback>, store: map<nat, Stored>, id: string)
    requires InStep(items, fallback, store) && id in items
    ensures Matches(items[id], id, store)
  {}

  /** When everything known is completed, all is, but for what had been lost in progress. */
  lemma EverythingCompleted(before: map<string, Tracked>, snapshot: Option<Fallback>, old': map<nat, Stored>,
          items: map<string, Tracked>, fallback: Option<Fallback>, store: map<nat, Stored>)
    requires InStep(items, fallback, store) && LosesOnly(false, before, snapshot, old', items, fallback, store)
    requires forall id :: id in items ==> items[id].status == Completed
    requires fallback.Some? ==> SnapshotCompleted(fallback, store)
    ensures AllCompleted(store) <==> LostWereCompleted(before, snapshot, old')
  {
    forall k | k in store
      ensures Known(items, fallback, k) ==> store[k].status == Completed
      ensures Known(items, fallback, k) || Lost(items, fallback, store, k, store[k])
    {
      if Known(items, fallback, k) && !(fallback.Some? && fallback.value.itemId == k) {
        var id :| id in items && items[id].itemId == k;
        assert Matches(items[id], id, store);
      }
    }
  }

  lemma NothingLostYet(items: map<string, Tracked>, fallback: Option<Fallback>, store: map<nat, Stored>)
    ensures Covers(items, fallback, store) ==> LostWereCompleted(items, fallback, store)
  {}

  lemma NothingShown(before: map<string, Tracked>, items: map<string, Tracked>, incoming: seq<Source>)
    requires ItemsKept(before, items) && (incoming == [] ==> items == before)
    requires forall n :: 0 <= n < |incoming| ==> LogicalId(incoming[n], n) in items
    ensures items == map[] <==> incoming == [] && before == map[]
  {
    if incoming != [] {
      assert LogicalId(incoming[0], 0) in items;
    }
    if before != map[] {
      var id :| id in before;
      assert id in items;
    }
  }

  // ------------------------------------------------------------ the final report

  /** The latest report of each id, in first-seen order. */
  datatype Latest = Latest(order: seq<string>, last: map<string, Source>)

  /** A later report counts if its revision is not lower, or if it brings the first text. */
  predicate Displaces(item: Source, previous: Source) {
    item.revision >= previous.revision || (previous.text == "" && item.text != "")
  }

  function Later(state: Latest, item: Source): Latest {
    var id := LogicalId(item, 0);
    if id !in state.last then Latest(state.order + [id], state.last[id := item])
    else if Displaces(item, state.last[id]) then state.(last := state.last[id := item])
    else state
  }

  function LatestAll(items: seq<Source>): (state: Latest)
    ensures forall id :: id in state.order <==> id in state.last
  {
    if items == [] then Latest([], map[]) else Later(LatestAll(items[..|items| - 1]), items[|items| - 1])
  }

  function Merged(items: seq<Source>): (merged: seq<Source>)
    ensures |merged| == |LatestAll(items).order|
  {
    var state := LatestAll(items);
    seq(|state.order|, i requires 0 <= i < |state.order| => state.last[state.order[i]])
  }

  ghost predicate Reports(items: seq<Source>, n: int, id: string) {
    0 <= n < |items| && LogicalId(items[n], 0) == id
  }

  /** Up to the `p`-th report of `id`, one with a text of a lower revision came after one without. */
  ghost predicate TextWon(items: seq<Source>, id: string, p: int) {
    exists r, s ::
      r < s <= p && Reports(items, r, id) && Reports(items, s, id) && items[r].text == "" && items[s].text != ""
      && items[s].revision < items[r].revision
  }

  /** The `p`-th report of `id` stands: no later one displaces it, and no earlier one has a higher revision unless a
      text won over an empty one. */
  ghost predicate Stands(items: seq<Source>, id: string, p: int) {
    && Reports(items, p, id)
    && (forall q :: p < q && Reports(items, q, id) ==>
      items[q].revision < items[p].revision && (items[p].text == "" ==> items[q].text == ""))
    && (forall q :: q < p && Reports(items, q, id) ==> items[q].revision <= items[p].revision || TextWon(items, id, p))
  }

  /** `p` is where `id` is reported first, and `order` holds exactly what was reported before. */
  ghost predicate FirstAt(items: seq<Source>, order: seq<string>, i: nat, p: int)
    requires i < |order|
  {
    Reports(items, p, order[i]) && forall q :: 0 <= q < p && q < |items| ==> LogicalId(items[q], 0) in order[..i]
  }

  ghost predicate HasFirst(items: seq<Source>, order: seq<string>, i: nat) {
    i < |order| && exists p :: FirstAt(items, order, i, p)
  }

  ghost predicate FirstSeen(items: seq<Source>, order: seq<string>) {
    && (forall i, j :: 0 <= i < j < |order| ==> order[i] != order[j])
    && (forall i :: 0 <= i < |order| ==> HasFirst(items, order, i))
    && (forall q :: 0 <= q < |items| ==> LogicalId(items[q], 0) in order)
  }

  lemma ReportsOnce(items: seq<Source>, item: Source, n: int, id: string)
    ensures Reports(items + [item], n, id) <==> Reports(items, n, id) || (n == |items| && LogicalId(item, 0) == id)
    ensures Reports(items, n, id) ==> (items + [item])[n] == items[n]
  {}

  /** Reports of other ids do not matter. */
  lemma StillStands(items: seq<Source>, item: Source, id: string, p: int)
    requires Stands(items, id, p) && (LogicalId(item, 0) == id ==> !Displaces(item, items[p]))
    ensures Stands(items + [item], id, p)
  {
    hide LogicalId, Reports;
    forall n
      ensures Reports(items + [item], n, id) <==> Reports(items, n, id) || (n == |items| && LogicalId(item, 0) == id)
      ensures Reports(items, n, id) ==> 0 <= n < |items| && (items + [item])[n] == items[n]
    {
      ReportsOnce(items, item, n, id);
      Within(items, n, id);
    }
    if TextWon(items, id, p) {
      TextStillWon(items, item, id, p, p);
    }
  }

  lemma Within(items: seq<Source>, n: int, id: string)
    ensures Reports(items, n, id) ==> 0 <= n < |items|
  {}

  lemma TextStillWon(items: seq<Source>, item: Source, id: string, p: int, p': int)
    requires TextWon(items, id, p) && p <= p'
    ensures TextWon(items + [item], id, p')
  {
    var r, s :| r < s <= p && Reports(items, r, id) && Reports(items, s, id) && items[r].text == ""
      && items[s].text != ""
      && items[s].revision < items[r].revision;
    assert Reports(items + [item], r, id) && Reports(items + [item], s, id);
  }

  lemma NowStands(items: seq<Source>, item: Source, id: string, p: int)
    requires Stands(items, id, p) && LogicalId(item, 0) == id && Displaces(item, items[p])
    ensures Stands(items + [item], id, |items|)
  {
    var more := items + [item];
    hide LogicalId, Displaces, TextWon, Reports, Stands;
    forall n
      ensures Reports(more, n, id) ==> 0 <= n <= |items|
    {
      Within(more, n, id);
    }
    ReportsOnce(items, item, |items|, id);
    forall q | q < |items| && Reports(more, q, id)
      ensures more[q].revision <= item.revision || TextWon(more, id, |items|)
    {
      NowHigher(items, item, id, p, q);
    }
    StandsIf(more, id, |items|);
  }

  lemma StandsIf(items: seq<Source>, id: string, p: int)
    requires Reports(items, p, id) && forall n :: Reports(items, n, id) ==> 0 <= n <= p
    requires forall q :: q < p && Reports(items, q, id) ==>
      items[q].revision <= items[p].revision || TextWon(items, id, p)
    ensures Stands(items, id, p)
  {
    hide LogicalId, Displaces, TextWon, Reports;
  }

  lemma NowHigher(items: seq<Source>, item: Source, id: string, p: int, q: int)
    requires Stands(items, id, p) && LogicalId(item, 0) == id && Displaces(item, items[p])
    requires q < |items| && Reports(items + [item], q, id)
    ensures (items + [item])[q].revision <= item.revision || TextWon(items + [item], id, |items|)
  {
    hide LogicalId;
    var more := items + [item];
    assert Reports(items, q, id);
    if item.revision < items[p].revision {
      assert Reports(more, p, id) && Reports(more, |items|, id);
    } else if q < p && TextWon(items, id, p) {
      TextStillWon(items, item, id, p, |items|);
    }
  }

  /** In the list so far, the last report of each id is the one that stands. */
  lemma {:induction false} LatestStands(items: seq<Source>, id: string)
    requires id in LatestAll(items).last
    ensures exists p :: Stands(items, id, p) && 0 <= p < |items| && LatestAll(items).last[id] == items[p]
  {
    hide LogicalId, Displaces, Stands;
    var init, item := items[..|items| - 1], items[|items| - 1];
    var before := LatestAll(init);
    assert items == init + [item];
    if id in before.last {
      LatestStands(init, id);
      var p :| Stands(init, id, p) && 0 <= p < |init| && before.last[id] == init[p];
      if LogicalId(item, 0) == id && Displaces(item, before.last[id]) {
        NowStands(init, item, id, p);
      } else {
        StillStands(init, item, id, p);
        assert items[p] == init[p];
      }
    } else {
      OnlyReport(init, item, id);
    }
  }

  lemma NotReported(items: seq<Source>, id: string)
    requires id !in LatestAll(items).last
    ensures forall q :: !Reports(items, q, id)
  {
    hide LogicalId;
    OrderIsFirstSeen(items);
  }

  lemma OnlyReport(items: seq<Source>, item: Source, id: string)
    requires LogicalId(item, 0) == id && id !in LatestAll(items).last
    ensures Stands(items + [item], id, |items|)
  {
    hide LogicalId, LatestAll, Displaces, Reports, TextWon;
    NotReported(items, id);
    forall q
      ensures Reports(items + [item], q, id) <==> q == |items|
    {
      ReportsOnce(items, item, q, id);
    }
  }

  lemma {:induction false} OrderIsFirstSeen(items: seq<Source>)
    ensures FirstSeen(items, LatestAll(items).order)
  {
    hide LogicalId, Displaces;
    if items != [] {
      var init, item := items[..|items| - 1], items[|items| - 1];
      var before, after := LatestAll(init).order, LatestAll(items).order;
      OrderIsFirstSeen(init);
      assert items == init + [item];
      OrderGrows(init, item, before, after);
    }
  }

  lemma StillFirst(items: seq<Source>, item: Source, before: seq<string>, after: seq<string>, i: nat, p: int)
    requires i < |before| && i < |after| && before[..i] == after[..i] && before[i] == after[i]
    requires FirstAt(items, before, i, p)
    ensures FirstAt(items + [item], after, i, p)
  {
    hide LogicalId;
    forall q | 0 <= q < p
      ensures LogicalId((items + [item])[q], 0) in after[..i]
    {
      assert (items + [item])[q] == items[q];
    }
  }

  lemma OrderGrows(items: seq<Source>, item: Source, before: seq<string>, after: seq<string>)
    requires FirstSeen(items, before)
    requires after == if LogicalId(item, 0) in before then before else before + [LogicalId(item, 0)]
    ensures FirstSeen(items + [item], after)
  {
    hide LogicalId;
    forall q | 0 <= q < |items|
      ensures LogicalId((items + [item])[q], 0) in after
    {
      assert (items + [item])[q] == items[q];
    }
    forall i | 0 <= i < |after|
      ensures HasFirst(items + [item], after, i)
    {
      if i < |before| {
        assert after[i] == before[i] && before[..i] == after[..i];
        assert HasFirst(items, before, i);
        var p :| FirstAt(items, before, i, p);
        StillFirst(items, item, before, after, i, p);
      } else {
        assert after[..i] == before;
        assert FirstAt(items + [item], after, i, |items|);
      }
    }
  }

  lemma NothingReported()
    ensures LatestAll([]).order == []
  {}

  /** What the merged report is: every reported id once, in the order in which they were seen first, each with the
      report that stands. */
  lemma LatestReports(items: seq<Source>)
    ensures var order := LatestAll(items).order;
      && FirstSeen(items, order)
      && |Merged(items)| == |order| && (Merged(items) == [] <==> items == [])
      && forall i :: 0 <= i < |order| ==> exists p :: Stands(items, order[i], p) && Merged(items)[i] == items[p]
  {
    hide LogicalId, LatestAll, HasFirst, Displaces, TextWon;
    OrderIsFirstSeen(items);
    NothingReported();
    var order := LatestAll(items).order;
    if items != [] {
      assert LogicalId(items[0], 0) in order;
    }
    hide FirstSeen;
    forall i | 0 <= i < |order|
      ensures exists p :: Stands(items, order[i], p) && Merged(items)[i] == items[p]
    {
      hide Stands;
      LatestStands(items, order[i]);
    }
  }

  /** The merging of the response's progress items and reasoning history. Every item is numbered 0, so items without any
      identity of their own count as one. */
  method LatestOf(items: seq<Source>) returns (merged: seq<Source>)
    ensures merged == Merged(items) && (merged == [] <==> items == [])
    ensures forall i :: 0 <= i < |merged| ==>
      exists p :: Stands(items, LatestAll(items).order[i], p) && merged[i] == items[p]
  {
    var state := Latest([], map[]);
    hide LogicalId, Later, Stands;
    for n := 0 to |items|
      invariant state == LatestAll(items[..n])
    {
      assert items[..n + 1][..n] == items[..n];
      state := Later(state, items[n]);
    }
    assert items[..|items|] == items;
    LatestReports(items);
    merged := seq(|state.order|, i requires 0 <= i < |state.order| => state.last[state.order[i]]);
  }

  /** A snapshot, and a final report that names nothing. */
  method ShownAndFinalized(first: string) returns (tracker: ProgressTracker, completed: map<nat, Stored>)
    requires first != ""
    ensures fresh(tracker) && tracker.Valid() && !tracker.mayFail && !tracker.structuredSeen && tracker.items == map[]
    ensures AllCompleted(completed) && completed != map[] && tracker.store == completed
    ensures tracker.fallback.Some? && SnapshotCompleted(tracker.fallback, completed)
  {
    tracker := new ProgressTracker(false);
    var told := tracker.UpdateThinking(first);
    LatestReports([]);
    NobodyYet(tracker.items, Merged([]));
    assert tracker.items.Keys == {};
    hide Merge, HandsOver, StatusKept, LosesOnly, Injective, InStep, Covers;
    var ended := tracker.Finalize([], "");
    completed := tracker.store;
  }

  /** The run that reopens a completed item, in a store that does not fail: a thinking update after finalize. */
  method ReopenedByThinking(first: string, more: string) returns (tracker: ProgressTracker, completed: map<nat, Stored>)
    requires first != ""
    ensures AllCompleted(completed) && completed != map[] && !tracker.mayFail
    ensures !StatusKept(completed, tracker.store)
  {
    tracker, completed := ShownAndFinalized(first);
    var told := tracker.UpdateThinking(more);
  }

  /** And the one that reopens it by a structured report: it takes over the completed snapshot item. */
  method ReopenedByReport(first: string, item: Source) returns (tracker: ProgressTracker, completed: map<nat, Stored>)
    requires first != "" && item.kind == "thinking" && !IsFinal(item)
    ensures AllCompleted(completed) && completed != map[] && !tracker.mayFail
    ensures !StatusKept(completed, tracker.store)
  {
    tracker, completed := ShownAndFinalized(first);
    hide StatusKept, Merge, LogicalId;
    var told := tracker.UpdateItem(LogicalId(item, 0), item);
  }

  lemma KeptTwice(a: map<string, Tracked>, b: map<string, Tracked>, c: map<string, Tracked>, x: map<nat, Stored>,
          y: map<nat, Stored>, z: map<nat, Stored>)
    ensures ItemsKept(a, b) && ItemsKept(b, c) ==> ItemsKept(a, c)
    ensures StatusKept(x, y) && StatusKept(y, z) ==> StatusKept(x, z)
  {}

  lemma StillLive(a: Option<Fallback>, b: Option<Fallback>, x: map<nat, Stored>, y: map<nat, Stored>)
    requires SameSnapshot(a, b, x, y) && !SnapshotCompleted(a, x)
    ensures !SnapshotCompleted(b, y)
  {}

  lemma NormalizedIs(item: Source, previous: Option<Content>, id: string)
    ensures var c := Normalized(item, previous, id);
      && c.logicalId == id && (previous.Some? ==> c.revision >= previous.value.revision)
      && Reflects(item, previous, c)
  {
    NormalizedAdvances(item, previous, id);
    hide Merge, Normalized, Reflects;
  }
}
