/** src/extensionDeployment.js: publishing a directory tree in place, with a staged copy, a backup and a rollback. */
module Deployment {
  import opened Bytes
  import opened Disk
  import opened Wrappers

  // ------------------------------------------------------------ relations between states

  /** The states agree on every path other than `t` that does not lie at or below `p`. */
  ghost predicate SameExcept(a: Nodes, b: Nodes, p: Path, t: Path) {
    forall q :: !(p <= q) && q != t ==> (q in a <==> q in b) && (q in a ==> a[q] == b[q])
  }

  ghost predicate NothingAt(nodes: Nodes, p: Path) {
    forall q :: p <= q ==> q !in nodes
  }

  ghost predicate NothingUnder(nodes: Nodes, p: Path) {
    forall q :: p < q ==> q !in nodes
  }

  ghost predicate FileAt(nodes: Nodes, p: Path) {
    p in nodes && nodes[p].RegularFile?
  }

  /** Every path that is a regular file in both the old and the new tree is there, old or new. */
  ghost predicate NoGap(was: Nodes, now: Nodes, source: Path, target: Path) {
    forall r: Path :: FileAt(was, source + r) && FileAt(was, target + r) ==>
      target + r in now && (now[target + r] == was[source + r] || now[target + r] == was[target + r])
  }

  /** What every state during a publish keeps. */
  ghost predicate Steady(was: Nodes, now: Nodes, source: Path, target: Path) {
    SameOutside(was, now, target) && NoGap(was, now, source, target)
  }

  /** Halfway through a publish: the entries in `done` equal the source, nothing is left of those
      in `gone`, and all other entries of the target are as they were. */
  ghost predicate Synced(was: Nodes, now: Nodes, source: Path, target: Path, done: set<string>, gone: set<string>) {
    && IsDirectory(now, target)
    && SameOutside(was, now, target)
    && (forall n :: n in done ==> SameTree(was, source + [n], now, target + [n]))
    && (forall n :: n in gone ==> NothingAt(now, target + [n]))
    && (forall n :: n !in done && n !in gone ==> SameTree(was, target + [n], now, target + [n]))
  }

  function TemporaryName(name: string, token: string): string {
    name + ".bridge-update-" + token
  }

  /** No name below `p` is one that the publish uses for its temporary files. */
  ghost predicate FreshToken(nodes: Nodes, p: Path, token: string) {
    forall q, n: string :: p <= q ==> q + [TemporaryName(n, token)] !in nodes
  }

  ghost predicate NoSpecial(nodes: Nodes, p: Path) {
    forall q :: p <= q && q in nodes ==> !nodes[q].Special?
  }

  ghost predicate Shallow(nodes: Nodes, p: Path, depth: nat) {
    forall q :: p <= q && q in nodes ==> |q| <= |p| + depth
  }

  ghost predicate Disjoint(p: Path, q: Path) {
    !(p <= q) && !(q <= p)
  }

  // ------------------------------------------------------------ lemmas about the relations

  lemma SameTreeByPath(a: Nodes, p: Path, b: Nodes, q: Path, r: Path)
    requires SameTree(a, p, b, q)
    ensures p + r in a <==> q + r in b
    ensures p + r in a ==> a[p + r] == b[q + r]
  {}

  lemma SameTreeReflexive(a: Nodes, b: Nodes, p: Path, q: Path)
    requires SameOutside(a, b, p) && Disjoint(p, q)
    ensures SameTree(a, q, b, q)
  {
    forall r: Path
      ensures (q + r in a <==> q + r in b) && (q + r in a ==> a[q + r] == b[q + r])
    {
      PrefixMeets(p, q, p, q + r);
    }
  }

  lemma SiblingsDisjoint(target: Path, m: string, n: string)
    requires m != n
    ensures Disjoint(target + [m], target + [n])
  {
    assert (target + [m])[|target|] == m && (target + [n])[|target|] == n;
  }

  lemma ChildDisjoint(source: Path, target: Path, m: string, n: string)
    requires Disjoint(source, target)
    ensures Disjoint(source + [m], target + [n])
    ensures Disjoint(source + [m], target)
    ensures Disjoint(source, target + [n])
  {
    var a, b := source + [m], target + [n];
    PrefixMeets(source, target, a, b);
    PrefixMeets(source, target, a, target);
    PrefixMeets(source, target, source, b);
  }

  lemma EqualPrefixes(p: Path, q: Path)
    requires forall i :: 0 <= i < |p| && i < |q| ==> p[i] == q[i]
    ensures p <= q || q <= p
  {}

  lemma PrefixMeets(p: Path, q: Path, a: Path, b: Path)
    requires Disjoint(p, q) && p <= a && q <= b
    ensures Disjoint(a, b)
  {
    if forall i :: 0 <= i < |p| && i < |q| ==> p[i] == q[i] {
      EqualPrefixes(p, q);
    }
    var i :| 0 <= i < |p| && i < |q| && p[i] != q[i];
    assert a[i] == p[i] && b[i] == q[i];
  }

  lemma SameTreeTransitive(a: Nodes, p: Path, b: Nodes, q: Path, c: Nodes, s: Path)
    requires SameTree(a, p, b, q) && SameTree(b, q, c, s)
    ensures SameTree(a, p, c, s)
  {
    forall r: Path
      ensures (p + r in a <==> s + r in c) && (p + r in a ==> a[p + r] == c[s + r])
    {
      SameTreeByPath(a, p, b, q, r);
      SameTreeByPath(b, q, c, s, r);
    }
  }

  // ------------------------------------------------------------ one entry of a publish

  /** Only the subtree of one entry changes, and it ends as the source's: the entry is done. */
  lemma EntryDone(was: Nodes, before: Nodes, now: Nodes, source: Path, target: Path, done: set<string>, name: string)
    requires Synced(was, before, source, target, done, {}) && name !in done && Disjoint(source, target)
    requires SameOutside(before, now, target + [name])
    requires SameTree(before, source + [name], now, target + [name])
    ensures Synced(was, now, source, target, done + {name}, {})
  {
    assert !(target + [name] <= target);
    OutsideChild(was, before, now, target, name);
    SourceUntouched(was, before, source, target, name);
    SameTreeTransitive(was, source + [name], before, source + [name], now, target + [name]);
    forall n | n != name
      ensures SameTree(before, target + [n], now, target + [n])
    {
      SiblingsDisjoint(target, name, n);
      SameTreeReflexive(before, now, target + [name], target + [n]);
    }
    forall n | n in done
      ensures SameTree(was, source + [n], now, target + [n])
    {
      SameTreeTransitive(was, source + [n], before, target + [n], now, target + [n]);
    }
    forall n | n !in done + {name}
      ensures SameTree(was, target + [n], now, target + [n])
    {
      SameTreeTransitive(was, target + [n], before, target + [n], now, target + [n]);
    }
  }

  lemma OutsideChild(was: Nodes, before: Nodes, now: Nodes, target: Path, name: string)
    requires SameOutside(was, before, target) && SameOutside(before, now, target + [name])
    ensures SameOutside(was, now, target)
  {
    forall q | !(target <= q)
      ensures (q in was <==> q in now) && (q in was ==> was[q] == now[q])
    {
      assert !(target + [name] <= q);
    }
  }

  lemma SourceUntouched(was: Nodes, before: Nodes, source: Path, target: Path, name: string)
    requires SameOutside(was, before, target) && Disjoint(source, target)
    ensures SameTree(was, source + [name], before, source + [name])
  {
    ChildDisjoint(source, target, name, name);
    SameTreeReflexive(was, before, target, source + [name]);
  }

  /** Only the subtree of one stale entry changes, and nothing is left of it. */
  lemma EntryGone(was: Nodes, before: Nodes, now: Nodes, source: Path, target: Path, done: set<string>,
          gone: set<string>, name: string)
    requires Synced(was, before, source, target, done, gone) && name !in done && name !in gone
    requires SameOutside(before, now, target + [name]) && NothingAt(now, target + [name])
    ensures Synced(was, now, source, target, done, gone + {name})
  {
    assert !(target + [name] <= target);
    OutsideChild(was, before, now, target, name);
    forall n | n != name
      ensures SameTree(before, target + [n], now, target + [n])
    {
      SiblingsDisjoint(target, name, n);
      SameTreeReflexive(before, now, target + [name], target + [n]);
    }
    forall n | n in done
      ensures SameTree(was, source + [n], now, target + [n])
    {
      SameTreeTransitive(was, source + [n], before, target + [n], now, target + [n]);
    }
    forall n | n in gone
      ensures NothingAt(now, target + [n])
    {
      SiblingsDisjoint(target, name, n);
      StillNothing(before, now, target + [name], target + [n]);
    }
    forall n | n !in done && n !in gone + {name}
      ensures SameTree(was, target + [n], now, target + [n])
    {
      SameTreeTransitive(was, target + [n], before, target + [n], now, target + [n]);
    }
  }

  lemma StillNothing(a: Nodes, b: Nodes, p: Path, q: Path)
    requires SameOutside(a, b, p) && Disjoint(p, q) && NothingAt(a, q)
    ensures NothingAt(b, q)
  {
    forall r | q <= r
      ensures r !in b
    {
      PrefixMeets(p, q, p, r);
    }
  }

  lemma EntryOf(p: Path, r: Path)
    requires r != []
    ensures p + r == (p + [r[0]]) + r[1..]
    ensures p + r != p
  {}

  lemma SyncedEntry(was: Nodes, now: Nodes, source: Path, target: Path, done: set<string>, gone: set<string>, n: string)
    requires Synced(was, now, source, target, done, gone)
    ensures n in done ==> SameTree(was, source + [n], now, target + [n])
    ensures n in gone ==> NothingAt(now, target + [n])
    ensures n !in done && n !in gone ==> SameTree(was, target + [n], now, target + [n])
    ensures IsDirectory(now, target) && SameOutside(was, now, target)
  {}

  /** When every source entry is done and everything else is gone, target and source are equal. */
  lemma AllSynced(was: Nodes, now: Nodes, source: Path, target: Path, done: set<string>, gone: set<string>)
    requires Synced(was, now, source, target, done, gone)
    requires IsTree(was) && IsTree(now) && IsDirectory(was, source)
    requires forall n :: n in done <==> source + [n] in was
    requires forall n :: target + [n] in now ==> n in done
    ensures SameTree(was, source, now, target)
  {
    forall r: Path
      ensures (source + r in was <==> target + r in now) && (source + r in was ==> was[source + r] == now[target + r])
    {
      hide Synced, SameTree, IsTree;
      if r == [] {
        assert source + r == source && target + r == target;
        SyncedEntry(was, now, source, target, done, gone, "");
      } else {
        var n, rest := r[0], r[1..];
        EntryOf(source, r);
        EntryOf(target, r);
        SyncedEntry(was, now, source, target, done, gone, n);
        if n in done {
          SameTreeByPath(was, source + [n], now, target + [n], rest);
        } else {
          AbsentBelow(was, source + [n], rest);
          AbsentBelow(now, target + [n], rest);
        }
      }
    }
  }

  lemma AbsentBelow(nodes: Nodes, p: Path, rest: Path)
    requires IsTree(nodes) && p !in nodes
    ensures p + rest !in nodes
  {
    if rest == [] {
      assert p + rest == p;
    } else {
      NothingBelow(nodes, p, p + rest);
    }
  }

  // ------------------------------------------------------------ every state on the way

  lemma OutsideAt(a: Nodes, b: Nodes, p: Path, q: Path)
    requires SameOutside(a, b, p) && !(p <= q)
    ensures (q in a <==> q in b) && (q in a ==> a[q] == b[q])
  {}

  lemma ExceptAt(a: Nodes, b: Nodes, p: Path, t: Path, q: Path)
    requires SameExcept(a, b, p, t) && !(p <= q) && q != t
    ensures (q in a <==> q in b) && (q in a ==> a[q] == b[q])
  {}

  /** The path `r` is not left without a version. */
  ghost predicate Served(was: Nodes, now: Nodes, source: Path, target: Path, r: Path) {
    FileAt(was, source + r) && FileAt(was, target + r) ==>
      target + r in now && (now[target + r] == was[source + r] || now[target + r] == was[target + r])
  }

  lemma ServedIsNoGap(was: Nodes, now: Nodes, source: Path, target: Path)
    requires forall r: Path :: Served(was, now, source, target, r)
    ensures NoGap(was, now, source, target)
  {
    forall r: Path
      ensures FileAt(was, source + r) && FileAt(was, target + r) ==>
        target + r in now && (now[target + r] == was[source + r] || now[target + r] == was[target + r])
    {
      assert Served(was, now, source, target, r);
    }
  }

  lemma NoGapServes(was: Nodes, now: Nodes, source: Path, target: Path, r: Path)
    requires NoGap(was, now, source, target)
    ensures Served(was, now, source, target, r)
  {}

  /** Served in one entry, seen from the whole tree. */
  lemma ServedInEntry(was: Nodes, before: Nodes, now: Nodes, source: Path, target: Path, done: set<string>, r: Path)
    requires r != [] && Served(before, now, source + [r[0]], target + [r[0]], r[1..])
    requires Synced(was, before, source, target, done, {}) && r[0] !in done && Disjoint(source, target)
    ensures Served(was, now, source, target, r)
  {
    hide Synced, SameTree, Disjoint;
    var n, rest := r[0], r[1..];
    EntryOf(source, r);
    EntryOf(target, r);
    SyncedEntry(was, before, source, target, done, {}, n);
    SourceUntouched(was, before, source, target, n);
    SameTreeByPath(was, source + [n], before, source + [n], rest);
    SameTreeByPath(was, target + [n], before, target + [n], rest);
  }

  /** Served because the entry was not being worked on. */
  lemma ServedElsewhere(was: Nodes, before: Nodes, now: Nodes, source: Path, target: Path, done: set<string>,
          gone: set<string>, r: Path)
    requires Synced(was, before, source, target, done, gone)
    requires r != [] && r[0] !in gone
    requires (target + r in before <==> target + r in now)
    requires (target + r in before ==> before[target + r] == now[target + r])
    ensures Served(was, now, source, target, r)
  {
    hide Synced, SameTree;
    var n, rest := r[0], r[1..];
    EntryOf(source, r);
    EntryOf(target, r);
    SyncedEntry(was, before, source, target, done, gone, n);
    if n in done {
      SameTreeByPath(was, source + [n], before, target + [n], rest);
    } else {
      SameTreeByPath(was, target + [n], before, target + [n], rest);
    }
  }

  lemma ServedAtRoot(was: Nodes, now: Nodes, source: Path, target: Path)
    requires IsDirectory(was, source)
    ensures Served(was, now, source, target, [])
  {
    assert source + [] == source;
  }

  lemma OtherEntry(target: Path, name: string, r: Path)
    requires r != [] && r[0] != name
    ensures !(target + [name] <= target + r)
  {
    assert (target + r)[|target|] == r[0] && (target + [name])[|target|] == name;
  }

  /** While one entry is worked on, a state that differs from the last one only in that entry and in the
      temporary file, and has no gap in that entry, has no gap at all. */
  lemma EntrySteady(was: Nodes, before: Nodes, now: Nodes, source: Path, target: Path, done: set<string>, name: string,
          token: string)
    requires Synced(was, before, source, target, done, {}) && name !in done && Disjoint(source, target)
    requires SameExcept(before, now, target + [name], target + [TemporaryName(name, token)])
    requires NoGap(before, now, source + [name], target + [name])
    requires FreshToken(was, source, token) && IsDirectory(was, source) && IsTree(was)
    ensures Steady(was, now, source, target)
  {
    var temp := target + [TemporaryName(name, token)];
    forall r: Path
      ensures Served(was, now, source, target, r)
    {
      hide Synced, SameExcept, NoGap, FreshToken, Served, Disjoint, IsTree;
      if r == [] {
        ServedAtRoot(was, now, source, target);
      } else if r[0] == name {
        NoGapServes(before, now, source + [name], target + [name], r[1..]);
        ServedInEntry(was, before, now, source, target, done, r);
      } else if target + r == temp {
        TemporaryIsNotServed(was, now, source, target, r, name, token);
      } else {
        OtherEntry(target, name, r);
        ExceptAt(before, now, target + [name], temp, target + r);
        ServedElsewhere(was, before, now, source, target, done, {}, r);
      }
    }
    ServedIsNoGap(was, now, source, target);
    forall q | !(target <= q)
      ensures (q in was <==> q in now) && (q in was ==> was[q] == now[q])
    {
      hide Synced, SameExcept, NoGap, Served;
      SyncedEntry(was, before, source, target, done, {}, name);
      OutsideAt(was, before, target, q);
      assert !(target + [name] <= q) && q != temp;
      ExceptAt(before, now, target + [name], temp, q);
    }
  }

  lemma TemporaryIsNotServed(was: Nodes, now: Nodes, source: Path, target: Path, r: Path, name: string, token: string)
    requires FreshToken(was, source, token)
    requires target + r == target + [TemporaryName(name, token)]
    ensures Served(was, now, source, target, r)
  {
    assert r == (target + r)[|target|..];
    assert r == [TemporaryName(name, token)];
    assert source <= source;
  }

  /** Removing a stale entry makes no gap. */
  lemma StaleSteady(was: Nodes, before: Nodes, now: Nodes, source: Path, target: Path, done: set<string>,
          gone: set<string>, name: string)
    requires Synced(was, before, source, target, done, gone) && name !in done
    requires SameOutside(before, now, target + [name])
    requires IsTree(was) && IsDirectory(was, source) && forall n :: n in done <==> source + [n] in was
    requires forall n :: n in gone ==> n !in done
    ensures Steady(was, now, source, target)
  {
    SyncedEntry(was, before, source, target, done, gone, name);
    forall r: Path
      ensures Served(was, now, source, target, r)
    {
      hide Synced, SameOutside, NoGap, Served, IsTree;
      if r == [] {
        ServedAtRoot(was, now, source, target);
      } else if r[0] in done {
        OtherEntry(target, name, r);
        OutsideAt(before, now, target + [name], target + r);
        ServedElsewhere(was, before, now, source, target, done, gone, r);
      } else {
        AbsentIsServed(was, now, source, target, r);
      }
    }
    ServedIsNoGap(was, now, source, target);
    hide Synced, NoGap, Served;
    OutsideChild(was, before, now, target, name);
  }

  lemma AbsentIsServed(was: Nodes, now: Nodes, source: Path, target: Path, r: Path)
    requires IsTree(was) && r != [] && source + [r[0]] !in was
    ensures Served(was, now, source, target, r)
  {
    EntryOf(source, r);
    AbsentBelow(was, source + [r[0]], r[1..]);
  }

  // ------------------------------------------------------------ publishTreeInPlace

  /** What one entry's work may leave behind at any moment. */
  ghost predicate EntryState(before: Nodes, now: Nodes, source: Path, target: Path, name: string, token: string) {
    && SameExcept(before, now, target + [name], target + [TemporaryName(name, token)])
    && NoGap(before, now, source + [name], target + [name])
  }

  lemma NoGapForFile(before: Nodes, now: Nodes, src: Path, dst: Path)
    requires IsTree(before) && FileAt(before, src)
    requires FileAt(before, dst) ==> dst in now && (now[dst] == before[src] || now[dst] == before[dst])
    ensures NoGap(before, now, src, dst)
  {
    forall r: Path
      ensures Served(before, now, src, dst, r)
    {
      if r == [] {
        assert src + r == src && dst + r == dst;
      } else {
        NothingBelow(before, src, src + r);
      }
    }
    ServedIsNoGap(before, now, src, dst);
  }

  lemma NoGapForDirectory(before: Nodes, now: Nodes, src: Path, dst: Path)
    requires IsTree(before) && IsDirectory(before, src) && !IsDirectory(before, dst)
    ensures NoGap(before, now, src, dst)
  {
    forall r: Path
      ensures Served(before, now, src, dst, r)
    {
      if r == [] {
        assert src + r == src && dst + r == dst;
      } else {
        NothingBelow(before, dst, dst + r);
      }
    }
    ServedIsNoGap(before, now, src, dst);
  }

  /** Between `a` and `b` at most the temporary file and the destination changed, and the destination only
      from its old version to that of `src`. */
  ghost predicate ReplaceState(a: Nodes, b: Nodes, src: Path, dst: Path, temp: Path) {
    && (forall q :: q != dst && q != temp ==> (q in a <==> q in b) && (q in a ==> a[q] == b[q]))
    && (dst in a ==> dst in b)
    && (dst in b ==> (src in a && b[dst] == a[src]) || (dst in a && b[dst] == a[dst]))
  }

  /** Copy next to the destination, then rename over it. */
  method ReplaceFile(fs: FileSystem, src: Path, dst: Path, temp: Path) returns (ok: bool)
    requires fs.Valid() && FileAt(fs.nodes, src) && src != temp && src != dst && dst != temp
    requires dst != [] && temp != [] && Parent(temp) == Parent(dst)
    requires IsDirectory(fs.nodes, Parent(dst)) && !IsDirectory(fs.nodes, dst) && temp !in fs.nodes
    modifies fs
    ensures fs.Valid() && old(fs.trace) <= fs.trace
    ensures ReplaceState(old(fs.nodes), fs.nodes, src, dst, temp)
    ensures ok ==> fs.nodes == old(fs.nodes)[dst := old(fs.nodes)[src]]
    ensures forall i :: |old(fs.trace)| <= i < |fs.trace| ==> ReplaceState(old(fs.nodes), fs.trace[i], src, dst, temp)
    ensures !fs.mayFault ==> ok
  {
    hide IsTree;
    ok := fs.WriteFile(temp, fs.nodes[src].bytes);
    if ok {
      ok := fs.RenameFile(temp, dst);
    }
  }

  lemma FileInPlace(was: Nodes, cleared: Nodes, now: Nodes, src: Path, dst: Path)
    requires IsTree(was) && IsTree(now) && FileAt(was, src) && SameOutside(was, cleared, dst)
    requires now == cleared[dst := was[src]]
    ensures SameTree(was, src, now, dst) && SameOutside(was, now, dst)
  {
    hide IsTree;
    forall r: Path
      ensures (src + r in was <==> dst + r in now) && (src + r in was ==> was[src + r] == now[dst + r])
    {
      if r == [] {
        assert src + r == src && dst + r == dst;
      } else {
        NothingBelow(was, src, src + r);
        NothingBelow(now, dst, dst + r);
      }
    }
  }

  lemma ReplacedIsEntryState(before: Nodes, cleared: Nodes, now: Nodes, source: Path, target: Path, name: string,
          token: string)
    requires var src, dst := source + [name], target + [name];
      && IsTree(before) && FileAt(before, src) && SameOutside(before, cleared, dst) && !(dst <= src)
      && (FileAt(before, dst) ==> cleared == before)
      && ReplaceState(cleared, now, src, dst, target + [TemporaryName(name, token)])
    ensures EntryState(before, now, source, target, name, token)
  {
    hide IsTree;
    NoGapForFile(before, now, source + [name], target + [name]);
  }

  lemma ShrunkIsEntryState(before: Nodes, now: Nodes, source: Path, target: Path, name: string, token: string)
    requires IsTree(before) && FileAt(before, source + [name]) && IsDirectory(before, target + [name])
    requires Shrinks(before, now, target + [name])
    ensures EntryState(before, now, source, target, name, token)
  {
    hide IsTree;
    NoGapForFile(before, now, source + [name], target + [name]);
  }

  lemma EntryPaths(source: Path, target: Path, name: string, token: string)
    requires Disjoint(source, target)
    ensures var src, dst, temp := source + [name], target + [name], target + [TemporaryName(name, token)];
      && dst != temp && src != temp && src != dst && Disjoint(src, dst) && !(dst <= temp)
      && Parent(dst) == target && Parent(temp) == target
  {
    assert |TemporaryName(name, token)| > |name|;
    ChildDisjoint(source, target, name, name);
    ChildDisjoint(source, target, name, TemporaryName(name, token));
    SiblingsDisjoint(target, name, TemporaryName(name, token));
  }

  /** A file entry: clear a directory that is in the way, copy next to the destination, rename over it. */
  method PublishFile(fs: FileSystem, source: Path, target: Path, name: string, token: string) returns (ok: bool)
    requires fs.Valid() && Disjoint(source, target) && IsDirectory(fs.nodes, target)
    requires FileAt(fs.nodes, source + [name]) && target + [TemporaryName(name, token)] !in fs.nodes
    modifies fs
    ensures fs.Valid() && old(fs.trace) <= fs.trace
    ensures EntryState(old(fs.nodes), fs.nodes, source, target, name, token)
    ensures ok ==> SameOutside(old(fs.nodes), fs.nodes, target + [name])
    ensures ok ==> SameTree(old(fs.nodes), source + [name], fs.nodes, target + [name])
    ensures forall i :: |old(fs.trace)| <= i < |fs.trace| ==>
      EntryState(old(fs.nodes), fs.trace[i], source, target, name, token)
    ensures !fs.mayFault ==> ok
  {
    var src, dst, temp := source + [name], target + [name], target + [TemporaryName(name, token)];
    ghost var before := fs.nodes;
    EntryPaths(source, target, name, token);
    hide IsTree, SameTree, EntryState, ReplaceState, Shrinks, SameOutside;
    ok := true;
    SameOutsideReflexive(before, dst);
    if fs.DirectoryAt(dst) {
      ok := fs.RemoveTree(dst);
      forall i | |old(fs.trace)| <= i < |fs.trace|
        ensures EntryState(before, fs.trace[i], source, target, name, token)
      {
        ShrunkIsEntryState(before, fs.trace[i], source, target, name, token);
      }
      ShrunkIsEntryState(before, fs.nodes, source, target, name, token);
      ShrinksOutside(before, fs.nodes, dst);
      OutsideAt(before, fs.nodes, dst, src);
      OutsideAt(before, fs.nodes, dst, temp);
      OutsideAt(before, fs.nodes, dst, target);
    }
    if ok {
      ghost var cleared, mark := fs.nodes, |fs.trace|;
      ok := ReplaceFile(fs, src, dst, temp);
      forall i | mark <= i < |fs.trace|
        ensures EntryState(before, fs.trace[i], source, target, name, token)
      {
        ReplacedIsEntryState(before, cleared, fs.trace[i], source, target, name, token);
      }
      ReplacedIsEntryState(before, cleared, fs.nodes, source, target, name, token);
      if ok {
        FileInPlace(before, cleared, fs.nodes, src, dst);
      }
    }
  }

  lemma SameOutsideReflexive(a: Nodes, p: Path)
    ensures SameOutside(a, a, p)
  {}

  lemma ShrinksOutside(a: Nodes, b: Nodes, p: Path)
    requires Shrinks(a, b, p)
    ensures SameOutside(a, b, p)
  {}

  // ------------------------------------------------------------ the whole tree

  lemma StartSynced(was: Nodes, now: Nodes, source: Path, target: Path)
    requires IsTree(was) && IsDirectory(now, target)
    requires now == was || (target !in was && now == was[target := Directory])
    ensures Synced(was, now, source, target, {}, {}) && Steady(was, now, source, target)
  {
    forall n: string, r: Path
      ensures (target + [n]) + r != target
    {}
    if target !in was {
      forall r: Path
        ensures target + r !in was
      {
        AbsentBelow(was, target, r);
      }
    }
  }

  /** What the first states of a publish are, when the target directory cannot be made. */
  lemma UnstartedSteady(was: Nodes, source: Path, target: Path)
    ensures Steady(was, was, source, target)
  {}

  lemma EntrySource(was: Nodes, before: Nodes, source: Path, target: Path, name: string)
    requires SameOutside(was, before, target) && Disjoint(source, target)
    ensures var src := source + [name];
      && SameTree(was, src, before, src)
      && (src in was <==> src in before) && (src in was ==> before[src] == was[src])
  {
    var src := source + [name];
    SourceUntouched(was, before, source, target, name);
    SameTreeByPath(was, src, before, src, []);
    assert src + [] == src;
  }

  lemma FreshInCopy(a: Nodes, p: Path, b: Nodes, q: Path, token: string)
    requires SameTree(a, p, b, q) && FreshToken(a, p, token)
    ensures FreshToken(b, q, token)
  {
    forall s, n: string | q <= s
      ensures s + [TemporaryName(n, token)] !in b
    {
      var r := s[|q|..];
      var t := [TemporaryName(n, token)];
      assert s + t == q + (r + t) && p + (r + t) == (p + r) + t;
      SameTreeByPath(a, p, b, q, r + t);
      assert p <= p + r;
    }
  }

  lemma FreshBelow(nodes: Nodes, p: Path, name: string, token: string)
    requires FreshToken(nodes, p, token)
    ensures FreshToken(nodes, p + [name], token)
  {
    forall q, n: string | p + [name] <= q
      ensures q + [TemporaryName(n, token)] !in nodes
    {
      assert p <= q;
    }
  }

  lemma ShallowInCopy(a: Nodes, p: Path, b: Nodes, q: Path, depth: nat)
    requires SameTree(a, p, b, q) && Shallow(a, p, depth)
    ensures Shallow(b, q, depth)
  {
    forall s | q <= s && s in b
      ensures |s| <= |q| + depth
    {
      var r := s[|q|..];
      assert s == q + r;
      SameTreeByPath(a, p, b, q, r);
      assert p <= p + r;
    }
  }

  lemma ShallowBelow(nodes: Nodes, p: Path, name: string, depth: nat)
    requires Shallow(nodes, p, depth) && p + [name] in nodes
    ensures depth > 0 && Shallow(nodes, p + [name], depth - 1)
  {
    assert p <= p + [name];
    forall q | p + [name] <= q && q in nodes
      ensures |q| <= |p + [name]| + (depth - 1)
    {
      assert p <= q;
    }
  }

  lemma SpecialInCopy(a: Nodes, p: Path, b: Nodes, q: Path)
    requires SameTree(a, p, b, q) && NoSpecial(a, p)
    ensures NoSpecial(b, q)
  {
    forall s | q <= s && s in b
      ensures !b[s].Special?
    {
      var r := s[|q|..];
      assert s == q + r;
      SameTreeByPath(a, p, b, q, r);
      assert p <= p + r;
    }
  }

  lemma SpecialBelow(nodes: Nodes, p: Path, name: string)
    requires NoSpecial(nodes, p)
    ensures NoSpecial(nodes, p + [name])
    ensures p + [name] in nodes ==> !nodes[p + [name]].Special?
  {
    assert p <= p + [name];
    forall q | p + [name] <= q && q in nodes
      ensures !nodes[q].Special?
    {
      assert p <= q;
    }
  }

  /** The next entry and its temporary name, before anything is done for it. */
  lemma EntryReady(was: Nodes, before: Nodes, source: Path, target: Path, done: set<string>, name: string,
          token: string, depth: nat)
    requires Synced(was, before, source, target, done, {}) && name !in done && Disjoint(source, target)
    requires source + [name] in was && forall n :: n in done ==> source + [n] in was
    requires FreshToken(was, source, token) && FreshToken(was, target, token) && Shallow(was, source, depth)
    ensures var src, dst := source + [name], target + [name];
      && src in before && before[src] == was[src]
      && FreshToken(before, src, token) && FreshToken(before, dst, token)
      && depth > 0 && Shallow(before, src, depth - 1)
      && target + [TemporaryName(name, token)] !in before
      && (NoSpecial(was, source) ==> NoSpecial(before, src) && !before[src].Special?)
  {
    var src, dst, t := source + [name], target + [name], TemporaryName(name, token);
    assert source <= source && target <= target;
    assert source + [t] !in was && target + [t] !in was;
    hide Synced, SameTree, SameOutside, FreshToken, Shallow, NoSpecial, Disjoint;
    SyncedEntry(was, before, source, target, done, {}, name);
    SyncedEntry(was, before, source, target, done, {}, t);
    EntrySource(was, before, source, target, name);
    FreshBelow(was, source, name, token);
    FreshBelow(was, target, name, token);
    FreshInCopy(was, src, before, src, token);
    FreshInCopy(was, dst, before, dst, token);
    ShallowBelow(was, source, name, depth);
    ShallowInCopy(was, src, before, src, depth - 1);
    SameTreeByPath(was, target + [t], before, target + [t], []);
    assert (target + [t]) + [] == target + [t];
    if NoSpecial(was, source) {
      SpecialBelow(was, source, name);
      SpecialInCopy(was, src, before, src);
    }
  }

  /** One source entry of publishTreeInPlace. */
  method PublishEntry(fs: FileSystem, source: Path, target: Path, name: string, token: string,
          ghost depth: nat) returns (ok: bool)
    requires fs.Valid() && Disjoint(source, target) && IsDirectory(fs.nodes, target)
    requires source + [name] in fs.nodes && target + [TemporaryName(name, token)] !in fs.nodes
    requires FreshToken(fs.nodes, source + [name], token) && FreshToken(fs.nodes, target + [name], token)
    requires Shallow(fs.nodes, source + [name], depth)
    modifies fs
    ensures fs.Valid() && old(fs.trace) <= fs.trace
    ensures EntryState(old(fs.nodes), fs.nodes, source, target, name, token)
    ensures ok ==> SameOutside(old(fs.nodes), fs.nodes, target + [name])
    ensures ok ==> SameTree(old(fs.nodes), source + [name], fs.nodes, target + [name])
    ensures forall i :: |old(fs.trace)| <= i < |fs.trace| ==>
      EntryState(old(fs.nodes), fs.trace[i], source, target, name, token)
    ensures !fs.mayFault && NoSpecial(old(fs.nodes), source + [name]) && !old(fs.nodes)[source + [name]].Special? ==> ok
    decreases depth, 3
  {
    hide IsTree, SameTree, EntryState, Shrinks, SameOutside, FreshToken, Shallow, NoSpecial, NoGap;
    EntryStateReflexive(fs.nodes, source, target, name, token);
    match fs.nodes[source + [name]]
    case Special =>
      ok := false;
    case RegularFile(_) =>
      ok := PublishFile(fs, source, target, name, token);
    case Directory =>
      ok := PublishDirectory(fs, source, target, name, token, depth);
  }

  /** A directory entry: remove whatever else is in the way, then publish into it. */
  method PublishDirectory(fs: FileSystem, source: Path, target: Path, name: string, token: string,
          ghost depth: nat) returns (ok: bool)
    requires fs.Valid() && Disjoint(source, target) && IsDirectory(fs.nodes, target)
    requires IsDirectory(fs.nodes, source + [name])
    requires FreshToken(fs.nodes, source + [name], token) && FreshToken(fs.nodes, target + [name], token)
    requires Shallow(fs.nodes, source + [name], depth)
    modifies fs
    ensures fs.Valid() && old(fs.trace) <= fs.trace
    ensures EntryState(old(fs.nodes), fs.nodes, source, target, name, token)
    ensures ok ==> SameOutside(old(fs.nodes), fs.nodes, target + [name])
    ensures ok ==> SameTree(old(fs.nodes), source + [name], fs.nodes, target + [name])
    ensures forall i :: |old(fs.trace)| <= i < |fs.trace| ==>
      EntryState(old(fs.nodes), fs.trace[i], source, target, name, token)
    ensures !fs.mayFault && NoSpecial(old(fs.nodes), source + [name]) ==> ok
    decreases depth, 2
  {
    var src, dst := source + [name], target + [name];
    ghost var before := fs.nodes;
    EntryPaths(source, target, name, token);
    hide IsTree, SameTree, EntryState, Shrinks, SameOutside, FreshToken, Shallow, NoSpecial, NoGap, SameExcept,
        Disjoint;
    EntryStateReflexive(before, source, target, name, token);
    ok := ClearForDirectory(fs, source, target, name, token);
    if ok {
      ghost var mid, mark := fs.nodes, |fs.trace|;
      UntouchedSource(before, mid, src, dst, token, depth);
      ok := PublishTreeInPlace(fs, src, dst, token, depth);
      forall i | mark <= i < |fs.trace|
        ensures EntryState(before, fs.trace[i], source, target, name, token)
      {
        NestedEntryState(before, mid, fs.trace[i], source, target, name, token);
      }
      NestedEntryState(before, mid, fs.nodes, source, target, name, token);
      SteadyOutside(mid, fs.nodes, src, dst);
      OutsideTwice(before, mid, fs.nodes, dst);
      if ok {
        SameTreeTransitive(before, src, mid, src, fs.nodes, dst);
      }
    }
  }

  lemma SteadyOutside(was: Nodes, now: Nodes, source: Path, target: Path)
    requires Steady(was, now, source, target)
    ensures SameOutside(was, now, target)
  {}

  method ClearForDirectory(fs: FileSystem, source: Path, target: Path, name: string, token: string) returns (ok: bool)
    requires fs.Valid() && Disjoint(source, target) && IsDirectory(fs.nodes, target)
    requires IsDirectory(fs.nodes, source + [name]) && FreshToken(fs.nodes, target + [name], token)
    modifies fs
    ensures fs.Valid() && old(fs.trace) <= fs.trace
    ensures SameOutside(old(fs.nodes), fs.nodes, target + [name])
    ensures EntryState(old(fs.nodes), fs.nodes, source, target, name, token)
    ensures FreshToken(fs.nodes, target + [name], token)
    ensures IsDirectory(fs.nodes, target)
    ensures IsDirectory(old(fs.nodes), target + [name]) || target + [name] !in old(fs.nodes) ==>
      fs.nodes == old(fs.nodes)
    ensures ok && target + [name] in fs.nodes ==> IsDirectory(fs.nodes, target + [name])
    ensures forall i :: |old(fs.trace)| <= i < |fs.trace| ==>
      EntryState(old(fs.nodes), fs.trace[i], source, target, name, token)
    ensures !fs.mayFault ==> ok
  {
    var dst := target + [name];
    ghost var before := fs.nodes;
    EntryPaths(source, target, name, token);
    hide IsTree, EntryState, Shrinks, SameOutside, FreshToken, NoGap, Disjoint;
    EntryStateReflexive(before, source, target, name, token);
    SameOutsideReflexive(before, dst);
    ok := true;
    if fs.Exists(dst) && !fs.DirectoryAt(dst) {
      ok := fs.RemoveTree(dst);
      forall i | |old(fs.trace)| <= i < |fs.trace|
        ensures EntryState(before, fs.trace[i], source, target, name, token)
      {
        ShrinksOutside(before, fs.trace[i], dst);
        DirectoryEntryState(before, fs.trace[i], source, target, name, token);
      }
      ShrinksOutside(before, fs.nodes, dst);
      DirectoryEntryState(before, fs.nodes, source, target, name, token);
      FreshAfterRemoval(before, fs.nodes, dst, token);
      OutsideAt(before, fs.nodes, dst, target);
      if ok {
        RemovedHere(fs.nodes, dst);
      }
    }
  }

  lemma RemovedHere(nodes: Nodes, p: Path)
    requires forall q :: p <= q ==> q !in nodes
    ensures p !in nodes
  {
    assert p <= p;
  }

  lemma EntryStateReflexive(nodes: Nodes, source: Path, target: Path, name: string, token: string)
    ensures EntryState(nodes, nodes, source, target, name, token)
  {}

  lemma OutsideTwice(a: Nodes, b: Nodes, c: Nodes, p: Path)
    requires SameOutside(a, b, p) && SameOutside(b, c, p)
    ensures SameOutside(a, c, p)
  {}

  lemma DirectoryEntryState(before: Nodes, now: Nodes, source: Path, target: Path, name: string, token: string)
    requires IsTree(before) && IsDirectory(before, source + [name]) && !IsDirectory(before, target + [name])
    requires SameOutside(before, now, target + [name])
    ensures EntryState(before, now, source, target, name, token)
  {
    hide IsTree;
    NoGapForDirectory(before, now, source + [name], target + [name]);
  }

  lemma NestedEntryState(before: Nodes, mid: Nodes, now: Nodes, source: Path, target: Path, name: string, token: string)
    requires IsTree(before) && IsDirectory(before, source + [name]) && SameOutside(before, mid, target + [name])
    requires IsDirectory(before, target + [name]) || target + [name] !in before ==> mid == before
    requires Steady(mid, now, source + [name], target + [name])
    ensures EntryState(before, now, source, target, name, token)
  {
    hide IsTree, NoGap;
    OutsideTwice(before, mid, now, target + [name]);
    if !IsDirectory(before, target + [name]) {
      DirectoryEntryState(before, now, source, target, name, token);
    }
  }

  lemma FreshAfterRemoval(a: Nodes, b: Nodes, p: Path, token: string)
    requires Shrinks(a, b, p) && FreshToken(a, p, token)
    ensures FreshToken(b, p, token)
  {}

  lemma UntouchedSource(before: Nodes, mid: Nodes, src: Path, dst: Path, token: string, depth: nat)
    requires SameOutside(before, mid, dst) && Disjoint(src, dst) && src in before
    requires FreshToken(before, src, token) && Shallow(before, src, depth)
    ensures SameTree(before, src, mid, src) && src in mid && mid[src] == before[src]
    ensures FreshToken(mid, src, token) && Shallow(mid, src, depth)
    ensures NoSpecial(before, src) ==> NoSpecial(mid, src)
  {
    hide FreshToken, Shallow, NoSpecial;
    SameTreeReflexive(before, mid, dst, src);
    SameTreeByPath(before, src, mid, src, []);
    assert src + [] == src;
    FreshInCopy(before, src, mid, src, token);
    ShallowInCopy(before, src, mid, src, depth);
    if NoSpecial(before, src) {
      SpecialInCopy(before, src, mid, src);
    }
  }

  /** publishTreeInPlace: makes the target equal to the source whatever the target was. In every state on the way,
      and when it fails, each file that is in both trees is there in its old or its new version. */
  method PublishTreeInPlace(fs: FileSystem, source: Path, target: Path, token: string,
          ghost depth: nat) returns (ok: bool)
    requires fs.Valid() && Disjoint(source, target) && target != []
    requires IsDirectory(fs.nodes, source) && IsDirectory(fs.nodes, Parent(target))
    requires FreshToken(fs.nodes, source, token) && FreshToken(fs.nodes, target, token)
    requires Shallow(fs.nodes, source, depth)
    modifies fs
    ensures fs.Valid() && old(fs.trace) <= fs.trace
    ensures ok ==> SameTree(old(fs.nodes), source, fs.nodes, target)
    ensures Steady(old(fs.nodes), fs.nodes, source, target)
    ensures forall i :: |old(fs.trace)| <= i < |fs.trace| ==> Steady(old(fs.nodes), fs.trace[i], source, target)
    ensures target in old(fs.nodes) && !old(fs.nodes)[target].Directory? ==> !ok && fs.nodes == old(fs.nodes)
    ensures !fs.mayFault && NoSpecial(old(fs.nodes), source) ==>
      (target in old(fs.nodes) ==> old(fs.nodes)[target].Directory?) ==> ok
    decreases depth, 1
  {
    ghost var was := fs.nodes;
    hide IsTree, SameTree, EntryState, Steady, Synced, SameOutside, FreshToken, Shallow, NoSpecial;
    ok := fs.MakeDirectory(target);
    UnstartedSteady(was, source, target);
    if target in fs.nodes && fs.nodes[target].Directory? {
      StartSynced(was, fs.nodes, source, target);
    }
    if !ok {
      return;
    }
    SyncedEntry(was, fs.nodes, source, target, {}, {}, "");
    NamesUntouched(was, fs.nodes, source, target);
    ghost var mark := |fs.trace|;
    var sourceNames := fs.Names(source);
    ok := PublishEntries(fs, source, target, sourceNames, token, depth, was);
    if ok {
      ok := RemoveStale(fs, source, target, sourceNames, was);
    }
  }

  /** The first loop of publishTreeInPlace. */
  method PublishEntries(fs: FileSystem, source: Path, target: Path, sourceNames: set<string>, token: string,
          ghost depth: nat, ghost was: Nodes)
    returns (ok: bool)
    requires fs.Valid() && Disjoint(source, target) && IsTree(was) && IsDirectory(was, source)
    requires forall n :: n in sourceNames <==> source + [n] in was
    requires FreshToken(was, source, token) && FreshToken(was, target, token) && Shallow(was, source, depth)
    requires Synced(was, fs.nodes, source, target, {}, {}) && Steady(was, fs.nodes, source, target)
    modifies fs
    ensures fs.Valid() && old(fs.trace) <= fs.trace
    ensures ok ==> Synced(was, fs.nodes, source, target, sourceNames, {})
    ensures Steady(was, fs.nodes, source, target)
    ensures forall i :: |old(fs.trace)| <= i < |fs.trace| ==> Steady(was, fs.trace[i], source, target)
    ensures !fs.mayFault && NoSpecial(was, source) ==> ok
    decreases depth, 0
  {
    hide IsTree, SameTree, EntryState, Steady, Synced, SameOutside, FreshToken, Shallow, NoSpecial, Disjoint;
    var pending := sourceNames;
    ghost var done: set<string> := {};
    while pending != {}
      invariant fs.Valid() && old(fs.trace) <= fs.trace
      invariant done !! pending && done + pending == sourceNames
      invariant Synced(was, fs.nodes, source, target, done, {})
      invariant Steady(was, fs.nodes, source, target)
      invariant forall i :: |old(fs.trace)| <= i < |fs.trace| ==> Steady(was, fs.trace[i], source, target)
      decreases pending
    {
      var name :| name in pending;
      ghost var before, mark := fs.nodes, |fs.trace|;
      SyncedEntry(was, before, source, target, done, {}, name);
      EntryReady(was, before, source, target, done, name, token, depth);
      ok := PublishEntry(fs, source, target, name, token, depth - 1);
      forall i | mark <= i < |fs.trace|
        ensures Steady(was, fs.trace[i], source, target)
      {
        EntryStateSteady(was, before, fs.trace[i], source, target, done, name, token);
      }
      EntryStateSteady(was, before, fs.nodes, source, target, done, name, token);
      if !ok {
        return;
      }
      EntryDone(was, before, fs.nodes, source, target, done, name);
      pending, done := pending - {name}, done + {name};
    }
    ok := true;
  }

  lemma NamesUntouched(was: Nodes, now: Nodes, source: Path, target: Path)
    requires SameOutside(was, now, target) && Disjoint(source, target)
    ensures forall n: string :: source + [n] in was <==> source + [n] in now
  {
    forall n: string
      ensures source + [n] in was <==> source + [n] in now
    {
      EntrySource(was, now, source, target, n);
    }
  }

  lemma EntryStateSteady(was: Nodes, before: Nodes, now: Nodes, source: Path, target: Path, done: set<string>,
          name: string, token: string)
    requires Synced(was, before, source, target, done, {}) && name !in done && Disjoint(source, target)
    requires EntryState(before, now, source, target, name, token)
    requires FreshToken(was, source, token) && IsDirectory(was, source) && IsTree(was)
    ensures Steady(was, now, source, target)
  {
    hide IsTree, Synced, FreshToken, Steady, NoGap, SameExcept, Disjoint;
    EntrySteady(was, before, now, source, target, done, name, token);
  }

  /** The second loop of publishTreeInPlace. */
  method RemoveStale(fs: FileSystem, source: Path, target: Path, sourceNames: set<string>,
          ghost was: Nodes) returns (ok: bool)
    requires fs.Valid() && Disjoint(source, target) && IsTree(was) && IsDirectory(was, source)
    requires forall n :: n in sourceNames <==> source + [n] in was
    requires Synced(was, fs.nodes, source, target, sourceNames, {}) && Steady(was, fs.nodes, source, target)
    modifies fs
    ensures fs.Valid() && old(fs.trace) <= fs.trace
    ensures ok ==> SameTree(was, source, fs.nodes, target)
    ensures Steady(was, fs.nodes, source, target)
    ensures forall i :: |old(fs.trace)| <= i < |fs.trace| ==> Steady(was, fs.trace[i], source, target)
    ensures !fs.mayFault ==> ok
  {
    hide IsTree, SameTree, Steady, Synced, SameOutside;
    var existing := fs.Names(target);
    ghost var gone: set<string> := {};
    while existing != {}
      invariant fs.Valid() && old(fs.trace) <= fs.trace
      invariant Synced(was, fs.nodes, source, target, sourceNames, gone)
      invariant gone !! sourceNames && gone !! existing
      invariant forall n: string :: target + [n] in fs.nodes ==> n in existing || n in sourceNames
      invariant Steady(was, fs.nodes, source, target)
      invariant forall i :: |old(fs.trace)| <= i < |fs.trace| ==> Steady(was, fs.trace[i], source, target)
      decreases existing
    {
      var name :| name in existing;
      existing := existing - {name};
      if name !in sourceNames {
        ghost var before, mark := fs.nodes, |fs.trace|;
        ok := fs.RemoveTree(target + [name]);
        forall i | mark <= i < |fs.trace|
          ensures Steady(was, fs.trace[i], source, target)
        {
          ShrinksOutside(before, fs.trace[i], target + [name]);
          StaleSteady(was, before, fs.trace[i], source, target, sourceNames, gone, name);
        }
        ShrinksOutside(before, fs.nodes, target + [name]);
        StaleSteady(was, before, fs.nodes, source, target, sourceNames, gone, name);
        if !ok {
          return;
        }
        EntryGone(was, before, fs.nodes, source, target, sourceNames, gone, name);
        OtherNamesStay(before, fs.nodes, target, name);
        gone := gone + {name};
      }
    }
    AllSynced(was, fs.nodes, source, target, sourceNames, gone);
    ok := true;
  }

  lemma OtherNamesStay(a: Nodes, b: Nodes, target: Path, name: string)
    requires SameOutside(a, b, target + [name]) && NothingAt(b, target + [name])
    ensures forall n: string :: target + [n] in b <==> target + [n] in a && n != name
  {
    forall n: string
      ensures target + [n] in b <==> target + [n] in a && n != name
    {
      if n != name {
        SiblingsDisjoint(target, name, n);
      } else {
        assert target + [name] <= target + [name];
      }
    }
  }

  // ------------------------------------------------------------ copyTree and clearDirectoryContents

  lemma NothingForEntry(was: Nodes, before: Nodes, source: Path, target: Path, done: set<string>, name: string)
    requires Synced(was, before, source, target, done, {}) && name !in done && NothingUnder(was, target)
    ensures NothingAt(before, target + [name])
  {
    hide Synced, SameTree;
    SyncedEntry(was, before, source, target, done, {}, name);
    forall q | target + [name] <= q
      ensures q !in before
    {
      var r := q[|target| + 1..];
      assert q == (target + [name]) + r;
      SameTreeByPath(was, target + [name], before, target + [name], r);
    }
  }

  /** Nothing in the two trees prevents a copy. */
  ghost predicate Copyable(nodes: Nodes, source: Path, target: Path) {
    && source in nodes && NoSpecial(nodes, source) && NothingUnder(nodes, target)
    && (target in nodes ==> IsDirectory(nodes, target) && IsDirectory(nodes, source))
  }

  /** copyTree: with nothing below the target beforehand, a completed copy equals the source. */
  method CopyTree(fs: FileSystem, source: Path, target: Path, ghost depth: nat) returns (ok: bool)
    requires fs.Valid() && Disjoint(source, target) && target != [] && IsDirectory(fs.nodes, Parent(target))
    requires Shallow(fs.nodes, source, depth)
    modifies fs
    ensures fs.Valid() && old(fs.trace) <= fs.trace
    ensures SameOutside(old(fs.nodes), fs.nodes, target)
    ensures ok && NothingUnder(old(fs.nodes), target) ==> SameTree(old(fs.nodes), source, fs.nodes, target)
    ensures forall i :: |old(fs.trace)| <= i < |fs.trace| ==> SameOutside(old(fs.nodes), fs.trace[i], target)
    ensures !fs.mayFault && IsDirectory(old(fs.nodes), source) && Copyable(old(fs.nodes), source, target) ==> ok
    decreases depth, 1
  {
    ghost var was := fs.nodes;
    hide IsTree, SameTree, Steady, Synced, SameOutside, Shallow, NoSpecial, NothingUnder;
    SameOutsideReflexive(was, target);
    if source !in fs.nodes || !fs.nodes[source].Directory? {
      return false;
    }
    ok := fs.MakeDirectory(target);
    MadeOutside(was, fs.nodes, target);
    if !ok {
      return;
    }
    StartSynced(was, fs.nodes, source, target);
    NamesUntouched(was, fs.nodes, source, target);
    var names := fs.Names(source);
    ok := CopyEntries(fs, source, target, names, depth, was);
    if ok && NothingUnder(was, target) {
      CopiedAll(was, fs.nodes, source, target, names);
    }
  }

  method CopyEntries(fs: FileSystem, source: Path, target: Path, names: set<string>, ghost depth: nat,
          ghost was: Nodes) returns (ok: bool)
    requires fs.Valid() && Disjoint(source, target) && Shallow(was, source, depth)
    requires forall n :: n in names ==> source + [n] in was
    requires IsDirectory(fs.nodes, target) && SameOutside(was, fs.nodes, target)
    requires Synced(was, fs.nodes, source, target, {}, {})
    modifies fs
    ensures fs.Valid() && old(fs.trace) <= fs.trace
    ensures SameOutside(was, fs.nodes, target)
    ensures ok && NothingUnder(was, target) ==> Synced(was, fs.nodes, source, target, names, {})
    ensures forall i :: |old(fs.trace)| <= i < |fs.trace| ==> SameOutside(was, fs.trace[i], target)
    ensures !fs.mayFault && NoSpecial(was, source) && NothingUnder(was, target) ==> ok
    decreases depth, 0
  {
    hide IsTree, SameTree, Steady, Synced, SameOutside, Shallow, NoSpecial, NothingUnder, NothingAt, Disjoint, Copyable;
    var pending := names;
    ghost var done: set<string> := {};
    while pending != {}
      invariant fs.Valid() && old(fs.trace) <= fs.trace
      invariant done !! pending && done + pending == names
      invariant SameOutside(was, fs.nodes, target) && IsDirectory(fs.nodes, target)
      invariant NothingUnder(was, target) ==> Synced(was, fs.nodes, source, target, done, {})
      invariant forall i :: |old(fs.trace)| <= i < |fs.trace| ==> SameOutside(was, fs.trace[i], target)
      decreases pending
    {
      var name :| name in pending;
      ghost var before, mark := fs.nodes, |fs.trace|;
      CopyReady(was, before, source, target, name, depth);
      if NothingUnder(was, target) {
        NothingForEntry(was, before, source, target, done, name);
        if NoSpecial(was, source) {
          EntryCopyable(before, source + [name], target + [name]);
        }
      }
      ok := CopyEntry(fs, source, target, name, depth - 1);
      forall i | mark <= i < |fs.trace|
        ensures SameOutside(was, fs.trace[i], target)
      {
        OutsideChild(was, before, fs.trace[i], target, name);
      }
      OutsideChild(was, before, fs.nodes, target, name);
      ChildKeepsParent(before, fs.nodes, target, name);
      if !ok {
        return;
      }
      if NothingUnder(was, target) {
        EntryDone(was, before, fs.nodes, source, target, done, name);
      }
      pending, done := pending - {name}, done + {name};
    }
    ok := true;
  }

  lemma EntryCopyable(nodes: Nodes, src: Path, dst: Path)
    requires src in nodes && NoSpecial(nodes, src) && NothingAt(nodes, dst)
    ensures Copyable(nodes, src, dst)
  {
    assert dst <= dst;
  }

  lemma MadeOutside(was: Nodes, now: Nodes, target: Path)
    requires now == was || now == was[target := Directory]
    ensures SameOutside(was, now, target)
  {}

  lemma ChildKeepsParent(a: Nodes, b: Nodes, target: Path, name: string)
    requires SameOutside(a, b, target + [name]) && IsDirectory(a, target)
    ensures IsDirectory(b, target)
  {
    assert !(target + [name] <= target);
  }

  lemma CopiedAll(was: Nodes, now: Nodes, source: Path, target: Path, names: set<string>)
    requires Synced(was, now, source, target, names, {}) && NothingUnder(was, target)
    requires IsTree(was) && IsTree(now) && IsDirectory(was, source)
    requires forall n :: n in names <==> source + [n] in was
    ensures SameTree(was, source, now, target)
  {
    forall n: string | n !in names
      ensures target + [n] !in now
    {
      hide Synced, NothingUnder;
      NothingForEntry(was, now, source, target, names, n);
      assert target + [n] <= target + [n];
    }
    hide Synced, SameTree, IsTree;
    AllSynced(was, now, source, target, names, {});
  }

  lemma CopyReady(was: Nodes, before: Nodes, source: Path, target: Path, name: string, depth: nat)
    requires SameOutside(was, before, target) && Disjoint(source, target)
    requires source + [name] in was && Shallow(was, source, depth)
    ensures source + [name] in before && before[source + [name]] == was[source + [name]]
    ensures depth > 0 && Shallow(before, source + [name], depth - 1)
    ensures NoSpecial(was, source) ==> NoSpecial(before, source + [name]) && !before[source + [name]].Special?
  {
    hide SameTree, SameOutside, Shallow, NoSpecial;
    EntrySource(was, before, source, target, name);
    ShallowBelow(was, source, name, depth);
    ShallowInCopy(was, source + [name], before, source + [name], depth - 1);
    if NoSpecial(was, source) {
      SpecialBelow(was, source, name);
      SpecialInCopy(was, source + [name], before, source + [name]);
    }
  }

  method CopyEntry(fs: FileSystem, source: Path, target: Path, name: string, ghost depth: nat) returns (ok: bool)
    requires fs.Valid() && Disjoint(source, target) && IsDirectory(fs.nodes, target)
    requires source + [name] in fs.nodes && Shallow(fs.nodes, source + [name], depth)
    modifies fs
    ensures fs.Valid() && old(fs.trace) <= fs.trace
    ensures SameOutside(old(fs.nodes), fs.nodes, target + [name])
    ensures ok && NothingAt(old(fs.nodes), target + [name]) ==>
      SameTree(old(fs.nodes), source + [name], fs.nodes, target + [name])
    ensures forall i :: |old(fs.trace)| <= i < |fs.trace| ==> SameOutside(old(fs.nodes), fs.trace[i], target + [name])
    ensures !fs.mayFault && Copyable(old(fs.nodes), source + [name], target + [name]) ==> ok
    decreases depth, 2
  {
    var src, dst := source + [name], target + [name];
    ghost var before := fs.nodes;
    EntryPaths(source, target, name, "");
    assert dst <= dst && src <= src;
    assert NothingAt(before, dst) ==> dst !in before && NothingUnder(before, dst);
    assert Copyable(before, src, dst) ==> !before[src].Special?;
    hide IsTree, SameTree, SameOutside, Shallow, NoSpecial, NothingUnder, NothingAt;
    SameOutsideReflexive(before, dst);
    match fs.nodes[src]
    case Special =>
      ok := false;
    case Directory =>
      ok := CopyTree(fs, src, dst, depth);
    case RegularFile(bytes) =>
      ok := fs.WriteFile(dst, bytes);
      WrittenOutside(before, fs.nodes, dst);
      if ok {
        FileInPlace(before, before, fs.nodes, src, dst);
      }
  }

  lemma WrittenOutside(a: Nodes, b: Nodes, p: Path)
    requires forall q :: q != p ==> (q in b <==> q in a) && (q in b ==> b[q] == a[q])
    ensures SameOutside(a, b, p)
  {
    assert p <= p;
  }

  /** One turn of the loop of clearDirectoryContents. */
  method RemoveChild(fs: FileSystem, target: Path, name: string, ghost existing: set<string>, ghost was: Nodes)
    returns (ok: bool)
    requires fs.Valid() && SameOutside(was, fs.nodes, target) && IsDirectory(fs.nodes, target)
    requires forall n: string :: target + [n] in fs.nodes ==> n in existing
    modifies fs
    ensures fs.Valid() && old(fs.trace) <= fs.trace
    ensures SameOutside(was, fs.nodes, target) && IsDirectory(fs.nodes, target)
    ensures fs.nodes[target] == old(fs.nodes)[target]
    ensures ok ==> forall n: string :: target + [n] in fs.nodes ==> n in existing - {name}
    ensures forall i :: |old(fs.trace)| <= i < |fs.trace| ==> SameOutside(was, fs.trace[i], target)
    ensures !fs.mayFault ==> ok
  {
    ghost var before, mark := fs.nodes, |fs.trace|;
    hide IsTree, SameOutside, Shrinks;
    ok := fs.RemoveTree(target + [name]);
    forall i | mark <= i < |fs.trace|
      ensures SameOutside(was, fs.trace[i], target)
    {
      ShrinksOutside(before, fs.trace[i], target + [name]);
      OutsideChild(was, before, fs.trace[i], target, name);
    }
    ShrinksOutside(before, fs.nodes, target + [name]);
    OutsideChild(was, before, fs.nodes, target, name);
    ChildKeepsParent(before, fs.nodes, target, name);
    if ok {
      OtherNamesStay(before, fs.nodes, target, name);
    }
  }

  /** clearDirectoryContents: nothing is left below a target that is a directory. */
  method ClearDirectoryContents(fs: FileSystem, target: Path) returns (ok: bool)
    requires fs.Valid()
    modifies fs
    ensures fs.Valid() && old(fs.trace) <= fs.trace
    ensures SameOutside(old(fs.nodes), fs.nodes, target)
    ensures target in fs.nodes <==> target in old(fs.nodes)
    ensures target in fs.nodes ==> fs.nodes[target] == old(fs.nodes)[target]
    ensures ok ==> NothingUnder(fs.nodes, target)
    ensures forall i :: |old(fs.trace)| <= i < |fs.trace| ==> SameOutside(old(fs.nodes), fs.trace[i], target)
    ensures !fs.mayFault ==> ok
  {
    ghost var was := fs.nodes;
    hide IsTree, SameOutside, Shrinks;
    SameOutsideReflexive(was, target);
    if target !in fs.nodes || !fs.nodes[target].Directory? {
      NothingUnderNonDirectory(fs.nodes, target);
      return true;
    }
    var existing := fs.Names(target);
    while existing != {}
      invariant fs.Valid() && old(fs.trace) <= fs.trace
      invariant SameOutside(was, fs.nodes, target) && IsDirectory(fs.nodes, target)
      invariant forall n: string :: target + [n] in fs.nodes ==> n in existing
      invariant forall i :: |old(fs.trace)| <= i < |fs.trace| ==> SameOutside(was, fs.trace[i], target)
      decreases existing
    {
      var name :| name in existing;
      ok := RemoveChild(fs, target, name, existing, was);
      if !ok {
        return;
      }
      existing := existing - {name};
    }
    NothingUnderEmpty(fs.nodes, target);
    ok := true;
  }

  lemma NothingUnderNonDirectory(nodes: Nodes, p: Path)
    requires IsTree(nodes) && !IsDirectory(nodes, p)
    ensures NothingUnder(nodes, p)
  {
    hide IsTree;
    forall q | p < q
      ensures q !in nodes
    {
      NothingBelow(nodes, p, q);
    }
  }

  lemma NothingUnderEmpty(nodes: Nodes, p: Path)
    requires IsTree(nodes) && forall n: string :: p + [n] !in nodes
    ensures NothingUnder(nodes, p)
  {
    hide IsTree;
    forall q | p < q
      ensures q !in nodes
    {
      var r := q[|p|..];
      assert q == p + r;
      EntryOf(p, r);
      AbsentBelow(nodes, p + [r[0]], r[1..]);
    }
  }
}
