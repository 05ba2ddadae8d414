/** The index of the file store (src/fileStore.js), and which artifacts its retention limits keep. */
module FileIndex {
  import opened Wrappers

  /** The two tables of the index. An id may be in both. */
  datatype Key = FileKey(id: string) | ArtifactKey(id: string)

  /** `info` stands for the fields that are only carried along: name, type, source, metadata and file identity. */
  datatype Record = Record(key: Key, path: string, size: nat, sha256: string, createdAt: int, info: string)

  type Index = map<Key, Record>

  // ------------------------------------------------------------ newest first

  function InsertByAge(records: seq<Record>, r: Record): seq<Record> {
    if records != [] && records[0].createdAt >= r.createdAt then [records[0]] + InsertByAge(records[1..], r)
      else [r] + records
  }

  ghost predicate Newest(records: seq<Record>) {
    forall i, j :: 0 <= i < j < |records| ==>
      records[i].createdAt >= records[j].createdAt && records[i].key != records[j].key
  }

  /** The records of these keys, newest first. */
  ghost predicate ListsKeys(index: Index, keys: set<Key>, records: seq<Record>) {
    && keys <= index.Keys && Newest(records)
    && (forall i :: 0 <= i < |records| ==> records[i].key in keys && index[records[i].key] == records[i])
    && (forall k :: k in keys ==> index[k].key == k && index[k] in records)
  }

  /** The prunable artifacts, newest first. */
  ghost predicate Lists(index: Index, keepIds: set<string>, records: seq<Record>) {
    ListsKeys(index, (set k | k in index && k.ArtifactKey? && k.id !in keepIds), records)
  }

  lemma {:induction false} InsertedByAge(records: seq<Record>, r: Record)
    requires Newest(records) && forall i :: 0 <= i < |records| ==> records[i].key != r.key
    ensures Newest(InsertByAge(records, r))
    ensures forall x :: x in InsertByAge(records, r) <==> x in records || x == r
  {
    if records != [] && records[0].createdAt >= r.createdAt {
      InsertedByAge(records[1..], r);
      assert records == [records[0]] + records[1..];
      forall x | x in InsertByAge(records[1..], r)
        ensures records[0].createdAt >= x.createdAt && records[0].key != x.key
      {
        if x != r {
          var i :| 0 <= i < |records[1..]| && records[1..][i] == x;
          assert records[i + 1] == x;
        }
      }
    } else if records != [] {
      forall i | 0 <= i < |records|
        ensures r.createdAt >= records[i].createdAt
      {
        assert i > 0 ==> records[0].createdAt >= records[i].createdAt;
      }
    }
  }

  lemma InsertLists(index: Index, keys: set<Key>, records: seq<Record>, k: Key)
    requires ListsKeys(index, keys, records) && k in index && k !in keys && index[k].key == k
    ensures ListsKeys(index, keys + {k}, InsertByAge(records, index[k]))
  {
    InsertedByAge(records, index[k]);
    hide InsertByAge, Newest;
    var more := InsertByAge(records, index[k]);
    forall i | 0 <= i < |more|
      ensures more[i].key in keys + {k} && index[more[i].key] == more[i]
    {
      assert more[i] in more;
      if more[i] != index[k] {
        var j :| 0 <= j < |records| && records[j] == more[i];
      }
    }
  }

  /** What the retention loop removes: walking from the newest, everything that would exceed a limit. */
  function Pruned(records: seq<Record>, keptCount: nat, keptBytes: nat, maxCount: Option<nat>,
          maxBytes: Option<nat>): seq<Record> {
    if records == [] then []
    else if Over(records[0], keptCount, keptBytes, maxCount, maxBytes) then
      [records[0]] + Pruned(records[1..], keptCount, keptBytes, maxCount, maxBytes)
    else Pruned(records[1..], keptCount + 1, keptBytes + records[0].size, maxCount, maxBytes)
  }

  predicate Over(r: Record, keptCount: nat, keptBytes: nat, maxCount: Option<nat>, maxBytes: Option<nat>) {
    (maxCount.Some? && keptCount >= maxCount.value) || (maxBytes.Some? && keptBytes + r.size > maxBytes.value)
  }

  /** What the loop keeps. */
  function Retained(records: seq<Record>, keptCount: nat, keptBytes: nat, maxCount: Option<nat>,
          maxBytes: Option<nat>): seq<Record> {
    if records == [] then []
    else if Over(records[0], keptCount, keptBytes, maxCount, maxBytes) then
      Retained(records[1..], keptCount, keptBytes, maxCount, maxBytes)
    else [records[0]] + Retained(records[1..], keptCount + 1, keptBytes + records[0].size, maxCount, maxBytes)
  }

  function TotalSize(records: seq<Record>): nat {
    if records == [] then 0 else records[0].size + TotalSize(records[1..])
  }

  /** The limits hold for what is kept, if they held at the start. */
  lemma {:induction false} RetentionLimits(records: seq<Record>, keptCount: nat, keptBytes: nat, maxCount: Option<nat>,
          maxBytes: Option<nat>)
    requires maxCount.Some? ==> keptCount <= maxCount.value
    requires maxBytes.Some? ==> keptBytes <= maxBytes.value
    ensures var kept := Retained(records, keptCount, keptBytes, maxCount, maxBytes);
      && (maxCount.Some? ==> keptCount + |kept| <= maxCount.value)
      && (maxBytes.Some? ==> keptBytes + TotalSize(kept) <= maxBytes.value)
    decreases |records|
  {
    if records != [] {
      if Over(records[0], keptCount, keptBytes, maxCount, maxBytes) {
        RetentionLimits(records[1..], keptCount, keptBytes, maxCount, maxBytes);
      } else {
        RetentionLimits(records[1..], keptCount + 1, keptBytes + records[0].size, maxCount, maxBytes);
        assert ([records[0]]
            + Retained(records[1..], keptCount + 1, keptBytes + records[0].size, maxCount, maxBytes))[1..]
            == Retained(records[1..], keptCount + 1, keptBytes + records[0].size, maxCount, maxBytes);
      }
    }
  }

  /** Greedy: an artifact goes exactly when it would break a limit on top of the newer ones that are kept. */
  lemma {:induction false} RetentionIsGreedy(records: seq<Record>, i: nat, keptCount: nat, keptBytes: nat,
          maxCount: Option<nat>, maxBytes: Option<nat>)
    requires Newest(records) && i < |records|
    ensures var newer := Retained(records[..i], keptCount, keptBytes, maxCount, maxBytes);
      records[i] in Pruned(records, keptCount, keptBytes, maxCount, maxBytes) <==>
      Over(records[i], keptCount + |newer|, keptBytes + TotalSize(newer), maxCount, maxBytes)
    decreases |records|
  {
    hide *;
    var first, rest := records[0], records[1..];
    NewestRest(records);
    if i == 0 {
      FirstPruned(records, first, keptCount, keptBytes, maxCount, maxBytes);
      NothingRetained(keptCount, keptBytes, maxCount, maxBytes);
      assert records[..0] == [];
    } else {
      assert rest[i - 1] == records[i] && records[..i] == [first] + rest[..i - 1];
      assert records[i] in rest;
      FirstPruned(records, records[i], keptCount, keptBytes, maxCount, maxBytes);
      FirstRetained(first, rest[..i - 1], keptCount, keptBytes, maxCount, maxBytes);
      if Over(first, keptCount, keptBytes, maxCount, maxBytes) {
        RetentionIsGreedy(rest, i - 1, keptCount, keptBytes, maxCount, maxBytes);
      } else {
        RetentionIsGreedy(rest, i - 1, keptCount + 1, keptBytes + first.size, maxCount, maxBytes);
      }
    }
  }

  lemma FirstPruned(records: seq<Record>, r: Record, keptCount: nat, keptBytes: nat, maxCount: Option<nat>,
          maxBytes: Option<nat>)
    requires records != [] && records[0] !in records[1..]
    ensures var over := Over(records[0], keptCount, keptBytes, maxCount, maxBytes);
      r in Pruned(records, keptCount, keptBytes, maxCount, maxBytes) <==>
        if r == records[0] then over
        else if over then r in Pruned(records[1..], keptCount, keptBytes, maxCount, maxBytes)
        else r in Pruned(records[1..], keptCount + 1, keptBytes + records[0].size, maxCount, maxBytes)
  {
    PrunedAreListed(records[1..], keptCount, keptBytes, maxCount, maxBytes);
    PrunedAreListed(records[1..], keptCount + 1, keptBytes + records[0].size, maxCount, maxBytes);
    hide Over;
  }

  lemma NothingRetained(keptCount: nat, keptBytes: nat, maxCount: Option<nat>, maxBytes: Option<nat>)
    ensures Retained([], keptCount, keptBytes, maxCount, maxBytes) == [] && TotalSize([]) == 0
  {}

  lemma FirstRetained(first: Record, rest: seq<Record>, keptCount: nat, keptBytes: nat, maxCount: Option<nat>,
          maxBytes: Option<nat>)
    ensures var over := Over(first, keptCount, keptBytes, maxCount, maxBytes);
      var kept := Retained([first] + rest, keptCount, keptBytes, maxCount, maxBytes);
      var later :=
        if over then Retained(rest, keptCount, keptBytes, maxCount, maxBytes)
          else Retained(rest, keptCount + 1, keptBytes + first.size, maxCount, maxBytes);
      && |kept| == |later| + (if over then 0 else 1)
      && TotalSize(kept) == TotalSize(later) + (if over then 0 else first.size)
  {
    hide Over;
    assert ([first] + rest)[1..] == rest;
    var later := Retained(rest, keptCount + 1, keptBytes + first.size, maxCount, maxBytes);
    assert ([first] + later)[1..] == later;
  }

  lemma NewestRest(records: seq<Record>)
    requires Newest(records) && records != []
    ensures Newest(records[1..]) && records[0] !in records[1..]
  {
    forall i | 0 <= i < |records[1..]|
      ensures records[1..][i] != records[0]
    {
      assert records[1..][i] == records[i + 1];
      assert records[0].key != records[i + 1].key;
    }
    forall i, j | 0 <= i < j < |records[1..]|
      ensures records[1..][i].createdAt >= records[1..][j].createdAt && records[1..][i].key != records[1..][j].key
    {
      assert records[1..][i] == records[i + 1] && records[1..][j] == records[j + 1];
    }
  }

  function KeysOf(records: seq<Record>): set<Key> {
    set r | r in records :: r.key
  }

  lemma {:induction false} PrunedAreListed(records: seq<Record>, keptCount: nat, keptBytes: nat, maxCount: Option<nat>,
          maxBytes: Option<nat>)
    ensures forall r :: r in Pruned(records, keptCount, keptBytes, maxCount, maxBytes) ==> r in records
    decreases |records|
  {
    if records != [] {
      hide Over;
      PrunedAreListed(records[1..], keptCount, keptBytes, maxCount, maxBytes);
      PrunedAreListed(records[1..], keptCount + 1, keptBytes + records[0].size, maxCount, maxBytes);
    }
  }

  lemma RemovedAreListed(index: Index, keepIds: set<string>, records: seq<Record>, removed: seq<Record>,
          maxCount: Option<nat>, maxBytes: Option<nat>)
    requires Lists(index, keepIds, records) && removed == Pruned(records, 0, 0, maxCount, maxBytes)
    ensures forall r :: r in removed ==> r.key in index && index[r.key] == r
  {
    PrunedAreListed(records, 0, 0, maxCount, maxBytes);
    hide Pruned;
  }

  // ------------------------------------------------------------ what is left

  /** Each listed artifact is either removed or kept. */
  lemma {:induction false} KeptOrPruned(records: seq<Record>, r: Record, keptCount: nat, keptBytes: nat,
          maxCount: Option<nat>, maxBytes: Option<nat>)
    requires Newest(records)
    ensures r in Retained(records, keptCount, keptBytes, maxCount, maxBytes) <==>
      r in records && r !in Pruned(records, keptCount, keptBytes, maxCount, maxBytes)
    decreases |records|
  {
    hide *;
    if records == [] {
      NothingListed(keptCount, keptBytes, maxCount, maxBytes);
    } else {
      NewestRest(records);
      assert records == [records[0]] + records[1..];
      FirstPruned(records, r, keptCount, keptBytes, maxCount, maxBytes);
      FirstKept(records, r, keptCount, keptBytes, maxCount, maxBytes);
      KeptOrPruned(records[1..], r, keptCount, keptBytes, maxCount, maxBytes);
      KeptOrPruned(records[1..], r, keptCount + 1, keptBytes + records[0].size, maxCount, maxBytes);
    }
  }

  lemma NothingListed(keptCount: nat, keptBytes: nat, maxCount: Option<nat>, maxBytes: Option<nat>)
    ensures Retained([], keptCount, keptBytes, maxCount, maxBytes) == [] ==
      Pruned([], keptCount, keptBytes, maxCount, maxBytes)
  {}

  lemma FirstKept(records: seq<Record>, r: Record, keptCount: nat, keptBytes: nat, maxCount: Option<nat>,
          maxBytes: Option<nat>)
    requires records != []
    ensures var over := Over(records[0], keptCount, keptBytes, maxCount, maxBytes);
      r in Retained(records, keptCount, keptBytes, maxCount, maxBytes) <==>
        if over then r in Retained(records[1..], keptCount, keptBytes, maxCount, maxBytes)
        else (r == records[0]
          || r in Retained(records[1..], keptCount + 1, keptBytes + records[0].size, maxCount, maxBytes))
  {
    hide Over;
  }

  /** The kept artifacts are newest first, too. */
  lemma {:induction false} KeptNewest(records: seq<Record>, keptCount: nat, keptBytes: nat, maxCount: Option<nat>,
          maxBytes: Option<nat>)
    requires Newest(records)
    ensures Newest(Retained(records, keptCount, keptBytes, maxCount, maxBytes))
    decreases |records|
  {
    if records != [] {
      hide Newest, Over;
      NewestRest(records);
      KeptNewest(records[1..], keptCount, keptBytes, maxCount, maxBytes);
      KeptNewest(records[1..], keptCount + 1, keptBytes + records[0].size, maxCount, maxBytes);
      var later := Retained(records[1..], keptCount + 1, keptBytes + records[0].size, maxCount, maxBytes);
      forall x | x in later
        ensures x in records[1..]
      {
        KeptOrPruned(records[1..], x, keptCount + 1, keptBytes + records[0].size, maxCount, maxBytes);
      }
      NewestWith(records, later);
    }
  }

  lemma NewestWith(records: seq<Record>, later: seq<Record>)
    requires records != [] && Newest(records) && Newest(later) && forall x :: x in later ==> x in records[1..]
    ensures Newest([records[0]] + later)
  {
    forall j | 0 <= j < |later|
      ensures records[0].createdAt >= later[j].createdAt && records[0].key != later[j].key
    {
      assert later[j] in records[1..];
      var i :| 0 <= i < |records[1..]| && records[1..][i] == later[j];
      assert records[i + 1] == later[j];
    }
  }

  /** Without what is removed the index lists what is kept. */
  lemma KeptAreListed(index: Index, keepIds: set<string>, records: seq<Record>, maxCount: Option<nat>,
          maxBytes: Option<nat>)
    requires Lists(index, keepIds, records)
    ensures Lists(index - KeysOf(Pruned(records, 0, 0, maxCount, maxBytes)), keepIds,
        Retained(records, 0, 0, maxCount, maxBytes))
  {
    var kept, removed := Retained(records, 0, 0, maxCount, maxBytes), Pruned(records, 0, 0, maxCount, maxBytes);
    KeptNewest(records, 0, 0, maxCount, maxBytes);
    forall r
      ensures r in kept <==> r in records && r !in removed
    {
      KeptOrPruned(records, r, 0, 0, maxCount, maxBytes);
    }
    PrunedAreListed(records, 0, 0, maxCount, maxBytes);
    hide Pruned, Retained;
    WhatIsLeft(index, keepIds, records, kept, removed);
  }

  lemma WhatIsLeft(index: Index, keepIds: set<string>, records: seq<Record>, kept: seq<Record>, removed: seq<Record>)
    requires Lists(index, keepIds, records) && Newest(kept)
    requires forall r :: r in kept <==> r in records && r !in removed
    requires forall r :: r in removed ==> r in records
    ensures Lists(index - KeysOf(removed), keepIds, kept)
  {
    var keys := set k | k in index && k.ArtifactKey? && k.id !in keepIds;
    var left := index - KeysOf(removed);
    forall r | r in records
      ensures r.key in keys && index[r.key] == r && (r.key in KeysOf(removed) <==> r in removed)
    {
      var i :| 0 <= i < |records| && records[i] == r;
      if r.key in KeysOf(removed) {
        var x :| x in removed && x.key == r.key;
        assert x in records;
        var j :| 0 <= j < |records| && records[j] == x;
      }
    }
    hide Newest, KeysOf;
    forall i | 0 <= i < |kept|
      ensures kept[i].key in left && left[kept[i].key] == kept[i] && kept[i].key in keys
    {
      assert kept[i] in kept;
    }
    forall k | k in left && k in keys
      ensures left[k] in kept
    {
      assert index[k].key == k && index[k] in records;
    }
  }

  /** Both limits hold for a list. */
  predicate MeetsLimits(records: seq<Record>, maxCount: Option<nat>, maxBytes: Option<nat>) {
    (maxCount.Some? ==> |records| <= maxCount.value) && (maxBytes.Some? ==> TotalSize(records) <= maxBytes.value)
  }

  /** Nothing is removed exactly when the limits hold already. */
  lemma {:induction false} RemovesNothing(records: seq<Record>, keptCount: nat, keptBytes: nat, maxCount: Option<nat>,
          maxBytes: Option<nat>)
    requires maxCount.Some? ==> keptCount <= maxCount.value
    requires maxBytes.Some? ==> keptBytes <= maxBytes.value
    ensures Pruned(records, keptCount, keptBytes, maxCount, maxBytes) == [] <==>
      (maxCount.Some? ==> keptCount + |records| <= maxCount.value)
        && (maxBytes.Some? ==> keptBytes + TotalSize(records) <= maxBytes.value)
    decreases |records|
  {
    if records != [] && !Over(records[0], keptCount, keptBytes, maxCount, maxBytes) {
      RemovesNothing(records[1..], keptCount + 1, keptBytes + records[0].size, maxCount, maxBytes);
    }
  }

  /** What the index lists after pruning meets the limits, so pruning again would remove nothing. */
  lemma PrunedOnce(index: Index, keepIds: set<string>, records: seq<Record>, maxCount: Option<nat>,
      maxBytes: Option<nat>)
    requires Lists(index, keepIds, records)
    ensures var kept := Retained(records, 0, 0, maxCount, maxBytes);
      && Lists(index - KeysOf(Pruned(records, 0, 0, maxCount, maxBytes)), keepIds, kept)
      && MeetsLimits(kept, maxCount, maxBytes) && Pruned(kept, 0, 0, maxCount, maxBytes) == []
  {
    KeptAreListed(index, keepIds, records, maxCount, maxBytes);
    RetentionLimits(records, 0, 0, maxCount, maxBytes);
    RemovesNothing(Retained(records, 0, 0, maxCount, maxBytes), 0, 0, maxCount, maxBytes);
    hide Pruned, Retained, Lists, TotalSize;
  }

  /** The retention loop. */
  method SelectPruned(sorted: seq<Record>, maxCount: Option<nat>, maxBytes: Option<nat>) returns (removed: seq<Record>)
    ensures removed == Pruned(sorted, 0, 0, maxCount, maxBytes)
  {
    var keptCount: nat, keptBytes: nat, n := 0, 0, 0;
    removed := [];
    assert sorted[0..] == sorted;
    while n < |sorted|
      invariant 0 <= n <= |sorted|
      invariant Pruned(sorted, 0, 0, maxCount, maxBytes) ==
        removed + Pruned(sorted[n..], keptCount, keptBytes, maxCount, maxBytes)
    {
      var record := sorted[n];
      var overCount := maxCount.Some? && keptCount >= maxCount.value;
      var overBytes := maxBytes.Some? && keptBytes + record.size > maxBytes.value;
      assert sorted[n..][0] == record && sorted[n..][1..] == sorted[n + 1..];
      if overCount || overBytes {
        removed := removed + [record];
      } else {
        keptCount := keptCount + 1;
        keptBytes := keptBytes + record.size;
      }
      n := n + 1;
    }
    assert sorted[n..] == [];
  }
}
