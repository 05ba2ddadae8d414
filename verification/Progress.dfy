/** Monotone merging of progress: src/progressText.js and mergeProgressRecords of src/bridge/requestState.js. */
module Progress {
  import opened Wrappers

  // ------------------------------------------------------------ mergeMonotonicText

  /** `s.slice(-n)` for a positive n that is at most the length. */
  function Last(s: string, n: nat): string
    requires n <= |s|
  {
    s[|s| - n..]
  }

  /** The merge along the longest overlap of at least four characters that is not longer than `size`. */
  function Overlap(left: string, right: string, size: nat): string
    requires size <= |left| && size <= |right|
  {
    if size < 4 then if |right| >= |left| then right else left
    else if Last(left, size) == right[..size] then left + right[size..]
    else if Last(right, size) == left[..size] then right + left[size..]
    else Overlap(left, right, size - 1)
  }

  function Shorter(a: string, b: string): nat {
    if |a| <= |b| then |a| else |b|
  }

  function Merge(left: string, right: string): string {
    if left == "" then right
    else if right == "" || right <= left then left
    else if left <= right then right
    else Overlap(left, right, Shorter(left, right))
  }

  /** mergeMonotonicText. */
  method MergeMonotonicText(previous: string, next: string) returns (r: string)
    ensures r == Merge(previous, next)
  {
    if previous == "" {
      return next;
    }
    if next == "" || previous == next || next <= previous {
      return previous;
    }
    if previous <= next {
      return next;
    }
    var size: nat := Shorter(previous, next);
    while size >= 4
      invariant size <= |previous| && size <= |next|
      invariant Overlap(previous, next, Shorter(previous, next)) == Overlap(previous, next, size)
    {
      if Last(previous, size) == next[..size] {
        return previous + next[size..];
      }
      if Last(next, size) == previous[..size] {
        return next + previous[size..];
      }
      size := size - 1;
    }
    r := if |next| >= |previous| then next else previous;
  }

  /** The end of `a` and the beginning of `b` share `n` characters. */
  ghost predicate Laps(a: string, b: string, n: nat) {
    n <= |a| && n <= |b| && Last(a, n) == b[..n]
  }

  /** `n` is the length of the longest overlap, of at least four and at most `size` characters, in either direction. */
  ghost predicate LongestLap(a: string, b: string, n: nat, size: nat) {
    && 4 <= n <= size && (Laps(a, b, n) || Laps(b, a, n))
    && forall k: nat :: n < k <= size ==> !Laps(a, b, k) && !Laps(b, a, k)
  }

  /** The two texts joined along an overlap of `n` characters. */
  function JoinedAt(left: string, right: string, n: nat): string
    requires n <= |left| && n <= |right|
  {
    if Last(left, n) == right[..n] then left + right[n..] else right + left[n..]
  }

  /** Without an overlap the longer text stands, the later one among equally long ones. */
  ghost predicate JoinedAtLongest(left: string, right: string, size: nat, m: string)
    requires size <= |left| && size <= |right|
  {
    || (exists n: nat :: LongestLap(left, right, n, size) && m == JoinedAt(left, right, n))
    || ((forall n: nat :: 4 <= n <= size ==> !Laps(left, right, n) && !Laps(right, left, n)) &&
        m == if |right| >= |left| then right else left)
  }

  lemma {:induction false} OverlapIsLongest(left: string, right: string, size: nat)
    requires size <= |left| && size <= |right|
    ensures JoinedAtLongest(left, right, size, Overlap(left, right, size))
  {
    if size >= 4 {
      hide Last;
      if Laps(left, right, size) || Laps(right, left, size) {
        assert LongestLap(left, right, size, size);
      } else {
        OverlapIsLongest(left, right, size - 1);
        OneLonger(left, right, size, Overlap(left, right, size - 1));
      }
    }
  }

  lemma OneLonger(left: string, right: string, size: nat, m: string)
    requires 4 <= size <= |left| && size <= |right| && !Laps(left, right, size) && !Laps(right, left, size)
    requires JoinedAtLongest(left, right, size - 1, m)
    ensures JoinedAtLongest(left, right, size, m)
  {
    hide Laps, JoinedAt;
    if exists n: nat :: LongestLap(left, right, n, size - 1) && m == JoinedAt(left, right, n) {
      var n: nat :| LongestLap(left, right, n, size - 1) && m == JoinedAt(left, right, n);
      assert LongestLap(left, right, n, size);
    }
  }

  /** What the merge is: a text that begins with the other stands; otherwise the two are joined along their longest
      overlap. */
  lemma MergeJoinsAtLongest(left: string, right: string)
    ensures
      if right <= left then Merge(left, right) == left
      else if left <= right then Merge(left, right) == right
      else JoinedAtLongest(left, right, Shorter(left, right), Merge(left, right))
  {
    if !(right <= left) && !(left <= right) {
      OverlapIsLongest(left, right, Shorter(left, right));
    }
  }

  /** Joined along an overlap, the text begins with the one and ends with the other. */
  lemma Joined(a: string, b: string, size: nat)
    requires size <= |a| && size <= |b| && Last(a, size) == b[..size]
    ensures var m := a + b[size..]; a <= m && |b| <= |m| && Last(m, |b|) == b
  {
    var m := a + b[size..];
    assert Last(m, |b|) == Last(a, size) + b[size..];
  }

  /** How the two texts lie in their overlap: one begins and the other ends it, or they share nothing and the longer one
      stays. */
  lemma {:induction false} OverlapKinds(left: string, right: string, size: nat)
    requires size <= |left| && size <= |right|
    ensures var m := Overlap(left, right, size);
      || (left <= m && 4 <= |right| <= |m| && Last(m, |right|) == right)
      || (right <= m && 4 <= |left| <= |m| && Last(m, |left|) == left)
      || (m == right && |right| >= |left|)
      || (m == left && |left| >= |right|)
  {
    if size >= 4 {
      hide Last;
      if Last(left, size) == right[..size] {
        Joined(left, right, size);
      } else if Last(right, size) == left[..size] {
        Joined(right, left, size);
      } else {
        OverlapKinds(left, right, size - 1);
      }
    }
  }

  lemma MergeNotShorter(a: string, b: string)
    ensures |Merge(a, b)| >= |a| && |Merge(a, b)| >= |b|
  {
    if a != "" && b != "" && !(b <= a) && !(a <= b) {
      OverlapKinds(a, b, Shorter(a, b));
    }
  }

  /** A text that ends with the other absorbs it, on either side. */
  lemma AbsorbsSuffix(m: string, s: string)
    requires 4 <= |s| <= |m| && Last(m, |s|) == s
    ensures Merge(m, s) == m && Merge(s, m) == m
  {
    if !(s <= m) {
      assert s[..|s|] == s && m[|s|..] == m[|s|..];
      assert Shorter(m, s) == |s| && Shorter(s, m) == |s|;
      assert m + s[|s|..] == m;
      assert Last(s, |s|) == s;
      assert !(Last(s, |s|) == m[..|s|]);
    }
  }

  /** Merging once more with either contribution changes nothing. */
  lemma MergeAbsorbs(a: string, b: string)
    ensures Merge(Merge(a, b), b) == Merge(a, b)
    ensures Merge(a, Merge(a, b)) == Merge(a, b)
  {
    if a != "" && b != "" && !(b <= a) && !(a <= b) {
      var m := Merge(a, b);
      OverlapKinds(a, b, Shorter(a, b));
      hide Overlap;
      if 4 <= |b| <= |m| && Last(m, |b|) == b {
        AbsorbsSuffix(m, b);
      }
      if 4 <= |a| <= |m| && Last(m, |a|) == a {
        AbsorbsSuffix(m, a);
      }
    }
  }

  // ------------------------------------------------------------ mergeProgressRecords

  /** A progress item as it arrives; an empty string stands for a field that is missing. `extra` holds all other
      fields. */
  datatype Item = Item(id: string, key: string, kind: string, hint: string, text: string, revision: int,
                       testIds: Option<seq<string>>, extra: map<string, string>)

  function Or(a: string, b: string): string {
    if a != "" then a else b
  }

  function Decimal(n: nat): (s: string)
    ensures s != ""
  {
    var digit := ["0123456789"[n % 10]];
    if n < 10 then digit else Decimal(n / 10) + digit
  }

  /** progressRecordId. */
  function RecordId(item: Item, index: nat): (id: string)
    ensures id != "" && (item.id != "" ==> id == item.id)
  {
    Or(item.id, Or(item.key, Or(item.kind, "progress") + ":" + Or(item.hint, Decimal(index))))
  }

  function ReadDecimal(s: string): nat {
    if s == "" then 0
    else 10 * ReadDecimal(s[..|s| - 1]) + Max(0, s[|s| - 1] as int - '0' as int)
  }

  /** A decimal reads back, so different positions have different ones. */
  lemma {:induction false} DecimalReadsBack(n: nat)
    ensures ReadDecimal(Decimal(n)) == n
  {
    var s := Decimal(n);
    if n < 10 {
      assert s[..0] == "";
    } else {
      DecimalReadsBack(n / 10);
      assert s[..|s| - 1] == Decimal(n / 10);
    }
  }

  /** The id of an item: its own, its key, or its kind with its hint or the number of ids before it. */
  lemma RecordIdIs(item: Item, index: nat)
    ensures var id := RecordId(item, index); var kind := if item.kind == "" then "progress" else item.kind;
      && (item.id != "" ==> id == item.id)
      && (item.id == "" && item.key != "" ==> id == item.key)
      && (item.id == item.key == "" && item.hint != "" ==> id == kind + [':'] + item.hint)
      && (item.id == item.key == item.hint == "" ==> id == kind + [':'] + Decimal(index))
  {
    assert ":" == [':'];
  }

  function Max(a: int, b: int): int {
    if a >= b then a else b
  }

  /** The record of an id that is seen again. */
  function Combine(id: string, previous: Item, item: Item): Item {
    var preferNext := item.revision >= previous.revision || (previous.text == "" && item.text != "");
    var preferred, fallback := if preferNext then item else previous, if preferNext then previous else item;
    var kind := Or(preferred.kind, fallback.kind);
    Item(
      Or(preferred.id, Or(fallback.id, id)), Or(preferred.key, Or(fallback.key, id)), Or(preferred.kind, fallback.kind),
      Or(preferred.hint, fallback.hint),
      if kind == "thinking" then Merge(previous.text, item.text) else Or(preferred.text, fallback.text),
      Max(previous.revision, item.revision),
      if preferred.testIds.Some? then preferred.testIds
        else Some(if fallback.testIds.Some? then fallback.testIds.value else []),
      fallback.extra + preferred.extra)
  }

  function FirstRecord(id: string, item: Item): Item {
    item.(id := Or(item.id, id), key := Or(item.key, id))
  }

  /** The loop state: the ids in first-seen order, and the record of each. */
  datatype Records = Records(ordered: seq<string>, records: map<string, Item>)

  function Absorb(state: Records, item: Item): Records {
    var id := RecordId(item, |state.ordered|);
    if id in state.records then state.(records := state.records[id := Combine(id, state.records[id], item)])
    else Records(state.ordered + [id], state.records[id := FirstRecord(id, item)])
  }

  function AbsorbAll(items: seq<Item>): Records {
    if items == [] then Records([], map[])
    else Absorb(AbsorbAll(items[..|items| - 1]), items[|items| - 1])
  }

  function Flatten(collections: seq<seq<Item>>): seq<Item> {
    if collections == [] then [] else Flatten(collections[..|collections| - 1]) + collections[|collections| - 1]
  }

  /** `ordered.map((id) => records.get(id)).filter(Boolean)`. */
  function Listed(ordered: seq<string>, records: map<string, Item>): seq<Item> {
    if ordered == [] then []
    else
      var n := |ordered| - 1;
      Listed(ordered[..n], records) + if ordered[n] in records then [records[ordered[n]]] else []
  }

  /** mergeProgressRecords. */
  method MergeProgressRecords(collections: seq<seq<Item>>) returns (merged: seq<Item>)
    ensures var r := AbsorbAll(Flatten(collections)); merged == Listed(r.ordered, r.records)
  {
    var state := Records([], map[]);
    hide AbsorbAll, Absorb;
    NothingAbsorbed();
    for n := 0 to |collections|
      invariant state == AbsorbAll(Flatten(collections[..n]))
    {
      assert collections[..n + 1][..n] == collections[..n];
      state := MergeCollection(Flatten(collections[..n]), state, collections[n]);
    }
    assert collections[..|collections|] == collections;
    merged := Listed(state.ordered, state.records);
  }

  /** The inner loop. */
  method MergeCollection(ghost before: seq<Item>, start: Records, collection: seq<Item>) returns (state: Records)
    requires start == AbsorbAll(before)
    ensures state == AbsorbAll(before + collection)
  {
    var ordered, records := start.ordered, start.records;
    hide AbsorbAll, Absorb, Combine, FirstRecord, RecordId;
    assert before + collection[..0] == before;
    for k := 0 to |collection|
      invariant Records(ordered, records) == AbsorbAll(before + collection[..k])
    {
      var item := collection[k];
      var id := RecordId(item, |ordered|);
      AbsorbNext(before + collection[..k], item);
      assert before + collection[..k + 1] == before + collection[..k] + [item];
      if id in records {
        records := records[id := Combine(id, records[id], item)];
      } else {
        ordered := ordered + [id];
        records := records[id := FirstRecord(id, item)];
      }
    }
    assert collection[..|collection|] == collection;
    state := Records(ordered, records);
  }

  lemma AbsorbNext(items: seq<Item>, item: Item)
    ensures AbsorbAll(items + [item]) == Absorb(AbsorbAll(items), item)
    ensures Absorb(AbsorbAll(items), item) ==
      var state := AbsorbAll(items); var id := RecordId(item, |state.ordered|);
      if id in state.records then state.(records := state.records[id := Combine(id, state.records[id], item)])
      else Records(state.ordered + [id], state.records[id := FirstRecord(id, item)])
  {
    assert (items + [item])[..|items|] == items;
    hide Combine, FirstRecord, RecordId;
  }

  // ------------------------------------------------------------ what the merged records are

  /** The id under which contribution `k` is filed. */
  ghost function IdOf(items: seq<Item>, k: nat): string
    requires k < |items|
  {
    RecordId(items[k], |AbsorbAll(items[..k]).ordered|)
  }

  ghost predicate Distinct(ids: seq<string>) {
    forall i, j :: 0 <= i < j < |ids| ==> ids[i] != ids[j]
  }

  /** Ids are unique and in the order in which they were first seen, and every record carries its id. */
  ghost predicate Filed(items: seq<Item>, state: Records) {
    && Distinct(state.ordered)
    && (forall id :: id in state.records <==> id in state.ordered)
    && (forall id :: id in state.records ==> state.records[id].id == id)
    && (forall k :: 0 <= k < |items| ==> IdOf(items, k) in state.records)
  }

  /** The last contribution: what it does to the loop state. */
  lemma LastAbsorbed(items: seq<Item>)
    requires items != []
    ensures var n := |items| - 1; var state, after := AbsorbAll(items[..n]), AbsorbAll(items); var id := IdOf(items, n);
      && id == RecordId(items[n], |state.ordered|)
      && after.records ==
        state.records[id := if id in state.records then Combine(id, state.records[id], items[n])
          else FirstRecord(id, items[n])]
      && after.ordered == if id in state.records then state.ordered else state.ordered + [id]
  {
    hide RecordId, Combine, FirstRecord;
  }

  /** Ids of earlier contributions do not depend on later ones. */
  lemma EarlierIds(items: seq<Item>, n: nat)
    requires n <= |items|
    ensures forall k :: 0 <= k < n ==> IdOf(items, k) == IdOf(items[..n], k)
  {
    hide AbsorbAll, RecordId;
    forall k | 0 <= k < n
      ensures IdOf(items, k) == IdOf(items[..n], k)
    {
      assert items[..k] == items[..n][..k];
    }
  }

  lemma {:induction false} AllFiled(items: seq<Item>)
    ensures Filed(items, AbsorbAll(items))
  {
    hide AbsorbAll, IdOf, Combine, RecordId, FirstRecord;
    if items == [] {
      NothingAbsorbed();
    } else {
      var n := |items| - 1;
      AllFiled(items[..n]);
      LastAbsorbed(items);
      EarlierIds(items, n);
      CombineKeepsId(IdOf(items, n), AbsorbAll(items[..n]), items[n]);
      FiledStep(items, AbsorbAll(items[..n]), AbsorbAll(items));
    }
  }

  lemma NothingAbsorbed()
    ensures AbsorbAll([]) == Records([], map[])
  {}

  lemma FiledStep(items: seq<Item>, state: Records, after: Records)
    requires items != [] && Filed(items[..|items| - 1], state)
    requires forall k :: 0 <= k < |items| - 1 ==> IdOf(items, k) == IdOf(items[..|items| - 1], k)
    requires var id := IdOf(items, |items| - 1);
      && id in after.records && after.records == state.records[id := after.records[id]] && after.records[id].id == id
      && after.ordered == if id in state.records then state.ordered else state.ordered + [id]
    ensures Filed(items, after)
  {
    hide IdOf;
  }

  lemma CombineKeepsId(id: string, state: Records, item: Item)
    requires id == RecordId(item, |state.ordered|)
    ensures FirstRecord(id, item).id == id
    ensures id in state.records && state.records[id].id == id ==> Combine(id, state.records[id], item).id == id
  {
    hide Merge;
  }

  /** The merged records, one per id in first-seen order. */
  lemma {:induction false} ListedIds(ordered: seq<string>, records: map<string, Item>)
    requires forall i :: 0 <= i < |ordered| ==> ordered[i] in records && records[ordered[i]].id == ordered[i]
    ensures |Listed(ordered, records)| == |ordered|
    ensures forall i :: 0 <= i < |ordered| ==>
      Listed(ordered, records)[i] == records[ordered[i]] && Listed(ordered, records)[i].id == ordered[i]
  {
    if ordered != [] {
      ListedIds(ordered[..|ordered| - 1], records);
    }
  }

  /** The ids of the result are exactly those of the contributions, without repetition, each at the place where it was
      first seen. */
  lemma MergedIdsAreUnique(items: seq<Item>)
    ensures var r := AbsorbAll(items); var merged := Listed(r.ordered, r.records);
      && |merged| == |r.ordered| && Distinct(r.ordered)
      && (forall i :: 0 <= i < |merged| ==> merged[i].id == r.ordered[i])
      && (forall id :: id in r.ordered <==> exists k :: 0 <= k < |items| && IdOf(items, k) == id)
  {
    var r := AbsorbAll(items);
    AllFiled(items);
    ListedIds(r.ordered, r.records);
    forall id | id in r.ordered
      ensures exists k :: 0 <= k < |items| && IdOf(items, k) == id
    {
      OrderedIsContributed(items, id);
    }
  }

  lemma {:induction false} OrderedIsContributed(items: seq<Item>, id: string)
    requires id in AbsorbAll(items).ordered
    ensures exists k :: 0 <= k < |items| && IdOf(items, k) == id
  {
    var n := |items| - 1;
    if items != [] {
      hide RecordId, Combine, FirstRecord;
      var before := items[..n];
      if id in AbsorbAll(before).ordered {
        hide AbsorbAll;
        OrderedIsContributed(before, id);
        var k :| 0 <= k < |before| && IdOf(before, k) == id;
        assert items[..k] == before[..k];
        assert IdOf(items, k) == id;
      } else {
        assert IdOf(items, n) == id;
      }
    }
  }

  /** Later contributions only append to the order. */
  lemma {:induction false} FirstSeenOrder(items: seq<Item>, n: nat)
    requires n <= |items|
    ensures AbsorbAll(items[..n]).ordered <= AbsorbAll(items).ordered
    decreases |items|
  {
    hide *;
    if n == |items| {
      assert items[..n] == items;
    } else {
      LastAbsorbed(items);
      FirstSeenOrder(items[..|items| - 1], n);
      assert items[..|items| - 1][..n] == items[..n];
    }
  }

  /** What one contribution is owed by its record. */
  ghost predicate Honoured(items: seq<Item>, record: Item, id: string, k: nat)
    requires k < |items|
  {
    IdOf(items, k) == id ==>
      record.revision >= items[k].revision && (StaysThinking(items, id, k) ==> |record.text| >= |items[k].text|)
  }

  /** After `m` contributions the record of this id is `thinking`. */
  ghost predicate IsThinking(items: seq<Item>, m: nat, id: string)
    requires m <= |items|
  {
    id in AbsorbAll(items[..m]).records && AbsorbAll(items[..m]).records[id].kind == "thinking"
  }

  /** The record of this id is `thinking` from contribution `k` on, whatever kinds were contributed. */
  ghost predicate StaysThinking(items: seq<Item>, id: string, k: nat) {
    forall m :: k < m <= |items| ==> IsThinking(items, m, id)
  }

  ghost predicate HasRevision(items: seq<Item>, id: string, revision: int) {
    exists k :: 0 <= k < |items| && IdOf(items, k) == id && items[k].revision == revision
  }

  /** The revision of a record is the largest of its contributions, and while a record stays `thinking` it never has
      less text than any of them. */
  ghost predicate Fair(items: seq<Item>, state: Records) {
    forall id :: id in state.records ==>
      && HasRevision(items, id, state.records[id].revision)
      && forall k :: 0 <= k < |items| ==> Honoured(items, state.records[id], id, k)
  }

  lemma CombineIsFair(id: string, previous: Item, item: Item)
    ensures var c := Combine(id, previous, item);
      && c.revision >= previous.revision && c.revision >= item.revision
      && (c.revision == previous.revision || c.revision == item.revision)
      && (c.kind == "thinking" ==> |c.text| >= |previous.text| && |c.text| >= |item.text|)
  {
    MergeNotShorter(previous.text, item.text);
    hide Merge;
  }

  /** `c` says what `preferred` says, and what `fallback` says where that says nothing. */
  ghost predicate TakenFrom(preferred: Item, fallback: Item, c: Item) {
    && (preferred.kind != "" ==> c.kind == preferred.kind) && (preferred.kind == "" ==> c.kind == fallback.kind)
    && (preferred.key != "" ==> c.key == preferred.key)
    && (preferred.key == "" && fallback.key != "" ==> c.key == fallback.key)
    && (preferred.hint != "" ==> c.hint == preferred.hint) && (preferred.hint == "" ==> c.hint == fallback.hint)
    && (c.kind != "thinking" && preferred.text != "" ==> c.text == preferred.text)
    && (c.kind != "thinking" && preferred.text == "" ==> c.text == fallback.text)
    && (preferred.testIds.Some? ==> c.testIds == preferred.testIds)
    && (preferred.testIds.None? && fallback.testIds.Some? ==> c.testIds == fallback.testIds)
    && (preferred.testIds.None? && fallback.testIds.None? ==> c.testIds == Some([]))
    && (forall k :: k in preferred.extra ==> k in c.extra && c.extra[k] == preferred.extra[k])
    && (forall k :: k in fallback.extra && k !in preferred.extra ==> k in c.extra && c.extra[k] == fallback.extra[k])
    && (forall k :: k in c.extra ==> k in preferred.extra || k in fallback.extra)
  }

  /** A contribution is preferred if its revision is not lower, or if it brings the first text. Only `thinking` texts
      are merged, and they are merged in the order of the contributions. */
  lemma CombinePrefers(id: string, previous: Item, item: Item)
    ensures var c := Combine(id, previous, item);
      var later := item.revision >= previous.revision || (previous.text == "" && item.text != "");
      && TakenFrom(if later then item else previous, if later then previous else item, c)
      && (c.kind == "thinking" ==> c.text == Merge(previous.text, item.text))
  {
    hide Merge;
  }

  /** The last text that is not empty among the contributions to an id. */
  ghost function LastText(items: seq<Item>, id: string): string {
    if items == [] then ""
    else
      var n := |items| - 1;
      if IdOf(items, n) == id && items[n].text != "" then items[n].text else LastText(items[..n], id)
  }

  /** Nothing contributed to this id is of kind `thinking`, and revisions come in order. */
  ghost predicate PlainInOrder(items: seq<Item>, id: string) {
    forall k :: 0 <= k < |items| && IdOf(items, k) == id ==>
      items[k].kind != "thinking"
        && forall j :: 0 <= j < k && IdOf(items, j) == id ==> items[j].revision <= items[k].revision
  }

  /** A record that was never `thinking` and got its revisions in order has the last text contributed. */
  lemma {:induction false} PlainTextIsLatest(items: seq<Item>, id: string)
    requires PlainInOrder(items, id) && id in AbsorbAll(items).records
    ensures AbsorbAll(items).records[id].kind != "thinking" && AbsorbAll(items).records[id].text == LastText(items, id)
  {
    if items != [] {
      var n := |items| - 1;
      var init, state := items[..n], AbsorbAll(items[..n]);
      LastAbsorbed(items);
      EarlierIds(items, n);
      assert PlainInOrder(init, id) by {
        hide IdOf, AbsorbAll;
      }
      if id in state.records {
        PlainTextIsLatest(init, id);
        if IdOf(items, n) == id {
          MergedRecordsAreFair(init);
          FairAt(init, state, id);
          CombinePrefers(id, state.records[id], items[n]);
          RevisionInOrder(items, id, state.records[id].revision);
        }
      } else {
        AllFiled(init);
        NothingContributed(init, id);
        FirstIsFair(id, items[n]);
      }
      hide Combine, AbsorbAll, IdOf, PlainInOrder, Fair, HasRevision;
    }
  }

  lemma {:induction false} NothingContributed(items: seq<Item>, id: string)
    requires Filed(items, AbsorbAll(items)) && id !in AbsorbAll(items).records
    ensures LastText(items, id) == ""
  {
    if items != [] {
      var n := |items| - 1;
      FiledAt(items, AbsorbAll(items), n);
      LastAbsorbed(items);
      AllFiled(items[..n]);
      NothingContributed(items[..n], id);
      hide AbsorbAll, IdOf, Filed;
    }
  }

  lemma RevisionInOrder(items: seq<Item>, id: string, revision: int)
    requires items != [] && PlainInOrder(items, id) && IdOf(items, |items| - 1) == id
    requires HasRevision(items[..|items| - 1], id, revision)
    requires forall k :: 0 <= k < |items| - 1 ==> IdOf(items, k) == IdOf(items[..|items| - 1], k)
    ensures revision <= items[|items| - 1].revision
  {
    hide IdOf;
    var n := |items| - 1;
    var k :| 0 <= k < n && IdOf(items[..n], k) == id && items[..n][k].revision == revision;
    assert IdOf(items, k) == id;
  }

  lemma FirstIsFair(id: string, item: Item)
    ensures FirstRecord(id, item) == item.(id := FirstRecord(id, item).id, key := FirstRecord(id, item).key)
    ensures FirstRecord(id, item).id == (if item.id == "" then id else item.id)
    ensures FirstRecord(id, item).key == (if item.key == "" then id else item.key)
  {}

  lemma FairAt(items: seq<Item>, state: Records, id: string)
    requires Fair(items, state) && id in state.records
    ensures HasRevision(items, id, state.records[id].revision)
    ensures forall k :: 0 <= k < |items| ==> Honoured(items, state.records[id], id, k)
  {
    hide HasRevision, Honoured;
  }

  lemma FewerStates(items: seq<Item>, n: nat, id: string, k: nat)
    requires n <= |items| && StaysThinking(items, id, k)
    ensures StaysThinking(items[..n], id, k)
  {
    hide AbsorbAll;
    forall m | k < m <= n
      ensures IsThinking(items[..n], m, id)
    {
      assert IsThinking(items, m, id);
      assert items[..n][..m] == items[..m];
    }
  }

  lemma ThinkingNow(items: seq<Item>, id: string, k: nat)
    requires StaysThinking(items, id, k) && k < |items| && id in AbsorbAll(items).records
    ensures AbsorbAll(items).records[id].kind == "thinking"
  {
    hide AbsorbAll;
    assert IsThinking(items, |items|, id);
    assert items[..|items|] == items;
  }

  lemma MoreRevisions(items: seq<Item>, n: nat, id: string, revision: int)
    requires n <= |items| && HasRevision(items[..n], id, revision)
    requires forall k :: 0 <= k < n ==> IdOf(items, k) == IdOf(items[..n], k)
    ensures HasRevision(items, id, revision)
  {
    hide IdOf;
    var k :| 0 <= k < n && IdOf(items[..n], k) == id && items[..n][k].revision == revision;
    assert IdOf(items, k) == id && items[k].revision == revision;
  }

  /** What was owed to an earlier contribution is still given by a record that is at least as far. */
  lemma StillHonoured(items: seq<Item>, n: nat, before: Item, record: Item, id: string, k: nat)
    requires k < n <= |items| && Honoured(items[..n], before, id, k) && record.revision >= before.revision
    requires forall j :: 0 <= j < n ==> IdOf(items, j) == IdOf(items[..n], j)
    requires StaysThinking(items, id, k) ==> |record.text| >= |before.text|
    ensures Honoured(items, record, id, k)
  {
    hide IdOf, StaysThinking;
    if StaysThinking(items, id, k) {
      FewerStates(items, n, id, k);
    }
  }

  lemma HonouredLast(items: seq<Item>, record: Item, id: string, k: nat)
    requires k < |items| && record.revision >= items[k].revision
    requires StaysThinking(items, id, k) ==> |record.text| >= |items[k].text|
    ensures Honoured(items, record, id, k)
  {
    hide IdOf, StaysThinking;
  }

  lemma HonouredOther(items: seq<Item>, record: Item, id: string, k: nat)
    requires k < |items| && IdOf(items, k) != id
    ensures Honoured(items, record, id, k)
  {
    hide IdOf, StaysThinking;
  }

  lemma RevisionOf(items: seq<Item>, id: string, k: nat)
    requires k < |items| && IdOf(items, k) == id
    ensures HasRevision(items, id, items[k].revision)
  {
    hide IdOf;
  }

  /** A record that the last contribution did not touch. */
  lemma OtherRecordFair(items: seq<Item>, state: Records, id: string, record: Item)
    requires items != [] && Fair(items[..|items| - 1], state) && id in state.records && state.records[id] == record
    requires forall k :: 0 <= k < |items| - 1 ==> IdOf(items, k) == IdOf(items[..|items| - 1], k)
    requires IdOf(items, |items| - 1) != id
    ensures HasRevision(items, id, record.revision)
    ensures forall k :: 0 <= k < |items| ==> Honoured(items, record, id, k)
  {
    hide *;
    var n := |items| - 1;
    FairAt(items[..n], state, id);
    MoreRevisions(items, n, id, record.revision);
    forall k | 0 <= k < |items|
      ensures Honoured(items, record, id, k)
    {
      if k < n {
        StillHonoured(items, n, record, record, id, k);
      } else {
        HonouredOther(items, record, id, k);
      }
    }
  }

  /** The record that the last contribution went into, when it was there before, */
  lemma CombinedRecordFair(items: seq<Item>, state: Records, id: string, record: Item)
    requires items != [] && Fair(items[..|items| - 1], state) && id == IdOf(items, |items| - 1) && id in state.records
    requires forall k :: 0 <= k < |items| - 1 ==> IdOf(items, k) == IdOf(items[..|items| - 1], k)
    requires record == Combine(id, state.records[id], items[|items| - 1])
    requires id in AbsorbAll(items).records && AbsorbAll(items).records[id] == record
    ensures HasRevision(items, id, record.revision)
    ensures forall k :: 0 <= k < |items| ==> Honoured(items, record, id, k)
  {
    hide *;
    var n := |items| - 1;
    var before := state.records[id];
    FairAt(items[..n], state, id);
    CombineIsFair(id, before, items[n]);
    MoreRevisions(items, n, id, before.revision);
    RevisionOf(items, id, n);
    forall k | 0 <= k < |items|
      ensures Honoured(items, record, id, k)
    {
      if StaysThinking(items, id, k) {
        ThinkingNow(items, id, k);
      }
      if k < n {
        StillHonoured(items, n, before, record, id, k);
      } else {
        HonouredLast(items, record, id, k);
      }
    }
  }

  /** and when it is new. */
  lemma NewRecordFair(items: seq<Item>, state: Records, id: string, record: Item)
    requires items != [] && Filed(items[..|items| - 1], state) && id == IdOf(items, |items| - 1) && id !in state.records
    requires forall k :: 0 <= k < |items| - 1 ==> IdOf(items, k) == IdOf(items[..|items| - 1], k)
    requires record == FirstRecord(id, items[|items| - 1])
    ensures HasRevision(items, id, record.revision)
    ensures forall k :: 0 <= k < |items| ==> Honoured(items, record, id, k)
  {
    hide *;
    var n := |items| - 1;
    FirstIsFair(id, items[n]);
    RevisionOf(items, id, n);
    forall k | 0 <= k < |items|
      ensures Honoured(items, record, id, k)
    {
      if k < n {
        FiledAt(items[..n], state, k);
        HonouredOther(items, record, id, k);
      } else {
        HonouredLast(items, record, id, k);
      }
    }
  }

  lemma FiledAt(items: seq<Item>, state: Records, k: nat)
    requires Filed(items, state) && k < |items|
    ensures IdOf(items, k) in state.records
  {
    hide IdOf;
  }

  /** The revision is the maximum of all contributions to an id, and the text of a record that is `thinking` from some
      contribution on is never shorter than that contribution. */
  lemma {:induction false} MergedRecordsAreFair(items: seq<Item>)
    ensures Fair(items, AbsorbAll(items))
  {
    hide *;
    if items == [] {
      NothingAbsorbed();
      NothingIsFair();
    } else {
      var n := |items| - 1;
      MergedRecordsAreFair(items[..n]);
      AllFiled(items[..n]);
      LastAbsorbed(items);
      EarlierIds(items, n);
      FairStep(items, AbsorbAll(items[..n]), AbsorbAll(items));
    }
  }

  lemma NothingIsFair()
    ensures Fair([], Records([], map[]))
  {}

  lemma FairStep(items: seq<Item>, state: Records, after: Records)
    requires items != [] && Fair(items[..|items| - 1], state) && Filed(items[..|items| - 1], state)
    requires forall k :: 0 <= k < |items| - 1 ==> IdOf(items, k) == IdOf(items[..|items| - 1], k)
    requires var n := |items| - 1; var id := IdOf(items, n);
      after.records ==
        state.records[id := if id in state.records then Combine(id, state.records[id], items[n])
          else FirstRecord(id, items[n])]
    requires after == AbsorbAll(items)
    ensures Fair(items, after)
  {
    hide AbsorbAll;
    forall id | id in after.records
      ensures HasRevision(items, id, after.records[id].revision)
      ensures forall k :: 0 <= k < |items| ==> Honoured(items, after.records[id], id, k)
    {
      hide *;
      if id == IdOf(items, |items| - 1) {
        if id in state.records {
          CombinedRecordFair(items, state, id, after.records[id]);
        } else {
          NewRecordFair(items, state, id, after.records[id]);
        }
      } else {
        OtherRecordFair(items, state, id, after.records[id]);
      }
    }
  }
}
