/** A file system as the source's fs calls see it: a tree of directories, regular files and other nodes. */
module Disk {
  import opened Bytes

  type Path = seq<string>

  /** `Special` stands for everything that is neither a directory nor a regular file, such as a symbolic link. */
  datatype Node = Directory | RegularFile(bytes: Buffer) | Special

  type Nodes = map<Path, Node>

  function Parent(p: Path): Path
    requires p != []
  {
    p[..|p| - 1]
  }

  ghost predicate IsDirectory(nodes: Nodes, p: Path) {
    p in nodes && nodes[p].Directory?
  }

  /** The root is a directory, and every other node lies in one. */
  ghost predicate IsTree(nodes: Nodes) {
    && IsDirectory(nodes, [])
    && forall p :: p in nodes && p != [] ==> IsDirectory(nodes, Parent(p))
  }

  lemma {:induction false} AncestorsAreDirectories(nodes: Nodes, p: Path, n: nat)
    requires IsTree(nodes) && p in nodes && n < |p|
    ensures IsDirectory(nodes, p[..n])
    decreases |p|
  {
    if n < |p| - 1 {
      AncestorsAreDirectories(nodes, Parent(p), n);
      assert Parent(p)[..n] == p[..n];
    }
  }

  /** Nothing lies below a node that is missing or not a directory. */
  lemma NothingBelow(nodes: Nodes, p: Path, q: Path)
    requires IsTree(nodes) && !IsDirectory(nodes, p) && p < q
    ensures q !in nodes
  {
    assert q[..|p|] == p;
    if q in nodes {
      AncestorsAreDirectories(nodes, q, |p|);
    }
  }

  /** The two states agree on every path that does not lie at or below `p`. */
  ghost predicate SameOutside(a: Nodes, b: Nodes, p: Path) {
    forall q :: !(p <= q) ==> (q in a <==> q in b) && (q in a ==> a[q] == b[q])
  }

  /** The subtree at `p` in `a` equals the subtree at `q` in `b`. */
  ghost predicate SameTree(a: Nodes, p: Path, b: Nodes, q: Path) {
    forall r: Path :: (p + r in a <==> q + r in b) && (p + r in a ==> a[p + r] == b[q + r])
  }

  /** `b` is `a` with some missing directories on the way to `p` created. */
  ghost predicate Grows(a: Nodes, b: Nodes, p: Path) {
    && (forall q :: q in a ==> q in b && b[q] == a[q])
    && (forall q :: q in b && q !in a ==> q <= p && b[q].Directory?)
  }

  /** `b` is `a` with some nodes at or below `p` removed. */
  ghost predicate Shrinks(a: Nodes, b: Nodes, p: Path) {
    && SameOutside(a, b, p)
    && (forall q :: q in b ==> q in a && b[q] == a[q])
  }

  lemma GrowsNot(a: Nodes, p: Path)
    ensures Grows(a, a, p) && Shrinks(a, a, p)
  {}

  lemma GrowsMore(a: Nodes, b: Nodes, c: Nodes, p: Path, n: nat)
    requires Grows(a, b, p) && n <= |p|
    requires c == b || (p[..n] !in b && c == b[p[..n] := Directory])
    requires forall q :: q in b && q !in a ==> |q| < n
    ensures Grows(a, c, p)
    ensures forall q :: q in c && q !in a ==> |q| < n + 1
  {}

  lemma ShrinksMore(a: Nodes, b: Nodes, p: Path, q: Path)
    requires Shrinks(a, b, p) && p <= q
    ensures Shrinks(a, b - {q}, p)
  {}

  lemma LeafRemoved(nodes: Nodes, leaf: Path)
    requires IsTree(nodes) && leaf != []
    requires forall q :: q in nodes && leaf <= q ==> |q| <= |leaf|
    ensures IsTree(nodes - {leaf})
  {
    forall q | q in nodes && q != []
      ensures Parent(q) != leaf
    {
      assert Parent(q) == leaf ==> leaf <= q;
    }
  }

  /** A regular file that moves to a place in a directory. */
  lemma RenamedIsTree(nodes: Nodes, from: Path, to: Path)
    requires IsTree(nodes) && from in nodes && nodes[from].RegularFile? && from != to && to != []
    requires IsDirectory(nodes, Parent(to)) && !IsDirectory(nodes, to)
    ensures IsTree((nodes - {from})[to := nodes[from]])
  {
    var after := (nodes - {from})[to := nodes[from]];
    forall q | q in after && q != []
      ensures IsDirectory(after, Parent(q))
    {
      assert q != to ==> IsDirectory(nodes, Parent(q));
    }
  }

  class FileSystem {
    var nodes: Nodes
    /** Every state the disk has been in since the system was created, the present one last. */
    ghost var trace: seq<Nodes>
    /** Whether an operation may fail although nothing in the tree prevents it. */
    const mayFault: bool

    ghost predicate Valid()
      reads this
    {
      IsTree(nodes) && trace != [] && trace[|trace| - 1] == nodes
    }

    constructor (initial: Nodes, mayFault: bool)
      requires IsTree(initial)
      ensures Valid() && nodes == initial && this.mayFault == mayFault
    {
      nodes := initial;
      trace := [initial];
      this.mayFault := mayFault;
    }

    /** `fs.lstat(p)`, with `None` for ENOENT. */
    predicate Exists(p: Path)
      reads this
    {
      p in nodes
    }

    predicate DirectoryAt(p: Path)
      reads this
    {
      p in nodes && nodes[p].Directory?
    }

    /** `fs.readdir(p)`. */
    function Names(p: Path): (names: set<string>)
      reads this
      ensures forall name :: name in names <==> p + [name] in nodes
    {
      var children := set q | q in nodes && |q| == |p| + 1 && p < q;
      var names := set q | q in children :: q[|p|];
      assert forall name :: p + [name] in nodes ==> p + [name] in children && (p + [name])[|p|] == name;
      assert forall q :: q in children ==> p + [q[|p|]] == q;
      names
    }

    /** One directory of `fs.mkdir(p, { recursive: true })`. */
    method MakeDirectory(p: Path) returns (ok: bool)
      requires Valid() && (p != [] ==> IsDirectory(nodes, Parent(p)))
      modifies this
      ensures Valid() && old(trace) <= trace
      ensures ok ==> IsDirectory(nodes, p)
      ensures nodes == old(nodes) || (p !in old(nodes) && nodes == old(nodes)[p := Directory])
      ensures forall i :: |old(trace)| <= i < |trace| ==> trace[i] == nodes
      ensures !mayFault && (p in old(nodes) ==> old(nodes)[p].Directory?) ==> ok
    {
      if mayFault {
        if * {
          return false;
        }
      }
      if p !in nodes {
        nodes := nodes[p := Directory];
        trace := trace + [nodes];
      }
      ok := nodes[p].Directory?;
    }

    /** `fs.mkdir(p, { recursive: true })`. */
    method MakeDirectories(p: Path) returns (ok: bool)
      requires Valid()
      modifies this
      ensures Valid() && old(trace) <= trace
      ensures Grows(old(nodes), nodes, p)
      ensures ok ==> forall n :: 0 <= n <= |p| ==> IsDirectory(nodes, p[..n])
      ensures forall i :: |old(trace)| <= i < |trace| ==> Grows(old(nodes), trace[i], p)
      ensures !mayFault && (forall n :: 0 <= n <= |p| && p[..n] in old(nodes) ==> IsDirectory(old(nodes), p[..n])) ==>
        ok
    {
      ok := true;
      var n := 0;
      hide Grows, IsTree;
      GrowsNot(nodes, p);
      while n <= |p|
        invariant 0 <= n <= |p| + 1
        invariant Valid() && old(trace) <= trace
        invariant Grows(old(nodes), nodes, p)
        invariant forall q :: q in nodes && q !in old(nodes) ==> |q| < n
        invariant forall m :: 0 <= m < n ==> IsDirectory(nodes, p[..m])
        invariant forall i :: |old(trace)| <= i < |trace| ==> Grows(old(nodes), trace[i], p)
      {
        assert n > 0 ==> Parent(p[..n]) == p[..n - 1];
        ghost var before := nodes;
        ok := MakeDirectory(p[..n]);
        GrowsMore(old(nodes), before, nodes, p, n);
        if !ok {
          return;
        }
        n := n + 1;
      }
    }

    /** `fs.writeFile` or `fs.copyFile` onto `p`. A failed write may leave a partial file. */
    method WriteFile(p: Path, bytes: Buffer) returns (ok: bool)
      requires Valid() && p != []
      modifies this
      ensures Valid() && old(trace) <= trace
      ensures ok ==> nodes == old(nodes)[p := RegularFile(bytes)]
      ensures ok ==> IsDirectory(old(nodes), Parent(p)) && !IsDirectory(old(nodes), p)
      ensures forall q :: q != p ==> (q in nodes <==> q in old(nodes)) && (q in nodes ==> nodes[q] == old(nodes)[q])
      ensures nodes == old(nodes) || (p in nodes && nodes[p].RegularFile?)
      ensures forall i :: |old(trace)| <= i < |trace| ==> trace[i] == nodes
      ensures !mayFault && IsDirectory(old(nodes), Parent(p)) && (p in old(nodes) ==> old(nodes)[p].RegularFile?) ==> ok
    {
      if Parent(p) !in nodes || !nodes[Parent(p)].Directory? || (p in nodes && !nodes[p].RegularFile?) {
        return false;
      }
      var written := bytes;
      ok := true;
      if mayFault {
        if * {
          return false;
        } else if * {
          written, ok := *, false;
        }
      }
      nodes := nodes[p := RegularFile(written)];
      trace := trace + [nodes];
    }

    /** `fs.rename(from, to)` of a regular file: atomic. */
    method RenameFile(from: Path, to: Path) returns (ok: bool)
      requires Valid() && from != to && to != []
      modifies this
      ensures Valid() && old(trace) <= trace
      ensures ok ==> from in old(nodes) && nodes == (old(nodes) - {from})[to := old(nodes)[from]]
      ensures !ok ==> nodes == old(nodes)
      ensures forall i :: |old(trace)| <= i < |trace| ==> trace[i] == nodes
      ensures !mayFault && from in old(nodes) && old(nodes)[from].RegularFile? ==>
        IsDirectory(old(nodes), Parent(to)) && !IsDirectory(old(nodes), to) ==> ok
    {
      if from !in nodes || !nodes[from].RegularFile? || Parent(to) !in nodes || !nodes[Parent(to)].Directory?
        || (to in nodes && nodes[to].Directory?) {
        return false;
      }
      if mayFault {
        if * {
          return false;
        }
      }
      RenamedIsTree(nodes, from, to);
      hide IsTree;
      nodes := (nodes - {from})[to := nodes[from]];
      trace := trace + [nodes];
      ok := true;
    }

    /** `fs.rm(p, { recursive: true, force: true })`: removes one node at a time, deepest first. */
    method RemoveTree(p: Path) returns (ok: bool)
      requires Valid() && p != []
      modifies this
      ensures Valid() && old(trace) <= trace
      ensures ok ==> forall q :: p <= q ==> q !in nodes
      ensures Shrinks(old(nodes), nodes, p)
      ensures forall i :: |old(trace)| <= i < |trace| ==> Shrinks(old(nodes), trace[i], p)
      ensures !mayFault ==> ok
    {
      var doomed := set q | q in nodes && p <= q;
      hide Shrinks, IsTree;
      GrowsNot(nodes, p);
      while doomed != {}
        invariant Valid() && old(trace) <= trace
        invariant doomed == set q | q in nodes && p <= q
        invariant Shrinks(old(nodes), nodes, p)
        invariant forall i :: |old(trace)| <= i < |trace| ==> Shrinks(old(nodes), trace[i], p)
        decreases doomed
      {
        if mayFault {
          if * {
            return false;
          }
        }
        var leaf := Deepest(doomed);
        LeafRemoved(nodes, leaf);
        ShrinksMore(old(nodes), nodes, p, leaf);
        nodes := nodes - {leaf};
        trace := trace + [nodes];
        doomed := doomed - {leaf};
      }
      assert forall q :: q in nodes && p <= q ==> q in doomed;
      ok := true;
    }
  }

  method Deepest(paths: set<Path>) returns (deepest: Path)
    requires paths != {}
    ensures deepest in paths && forall q :: q in paths ==> |q| <= |deepest|
  {
    deepest :| deepest in paths;
    var rest := paths - {deepest};
    while rest != {}
      invariant rest <= paths && deepest in paths
      invariant forall q :: q in paths && q !in rest ==> |q| <= |deepest|
      decreases rest
    {
      var q :| q in rest;
      if |q| > |deepest| {
        deepest := q;
      }
      rest := rest - {q};
    }
  }
}
