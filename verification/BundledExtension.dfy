/** src/extensionDeployment.js: deployBundledExtension, which publishes through a staged copy and rolls back on
    failure. */
module BundledExtension {
  import opened Bytes
  import opened Deployment
  import opened Disk
  import opened Wrappers

  /** How a deployment ends. `NotStarted` and `RolledBack` are the two ways it throws; `complete` says whether every
      step of the rollback succeeded, which the source does not report. */
  datatype Outcome = SourceIsTarget | Unchanged | Deployed | NotStarted | RolledBack(complete: bool)

  /** The contents a tree fingerprint depends on: its regular files by relative path. */
  type Image = map<Path, Buffer>

  function StagePath(target: Path, token: string): Path
    requires target != []
  {
    Parent(target) + ["." + target[|target| - 1] + ".stage-" + token]
  }

  function BackupPath(target: Path, token: string): Path
    requires target != []
  {
    Parent(target) + ["." + target[|target| - 1] + ".backup-" + token]
  }

  ghost predicate Apart(source: Path, target: Path, stage: Path, backup: Path) {
    && Disjoint(source, target) && Disjoint(source, stage) && Disjoint(source, backup)
    && Disjoint(target, stage) && Disjoint(target, backup) && Disjoint(stage, backup)
  }

  /** Neither working copy is where the source is or above it. */
  lemma WorkingCopiesApart(source: Path, target: Path, token: string)
    requires target != [] && Disjoint(source, target)
    requires !(StagePath(target, token) <= source) && !(BackupPath(target, token) <= source)
    ensures Apart(source, target, StagePath(target, token), BackupPath(target, token))
  {
    var parent, base := Parent(target), target[|target| - 1];
    var stage, backup := "." + base + ".stage-" + token, "." + base + ".backup-" + token;
    assert target == parent + [base];
    assert |stage| > |base| && |backup| > |stage|;
    SiblingsDisjoint(parent, base, stage);
    SiblingsDisjoint(parent, base, backup);
    SiblingsDisjoint(parent, stage, backup);
    NotAboveSibling(source, parent, base, stage);
    NotAboveSibling(source, parent, base, backup);
  }

  lemma NotAboveSibling(source: Path, parent: Path, base: string, sibling: string)
    requires Disjoint(source, parent + [base]) && !(parent + [sibling] <= source)
    ensures Disjoint(source, parent + [sibling])
  {
    if source <= parent + [sibling] {
      AboveSibling(source, parent, sibling, base);
    }
  }

  lemma AboveSibling(p: Path, parent: Path, m: string, n: string)
    requires p <= parent + [m] && !(parent + [m] <= p)
    ensures p <= parent + [n]
  {
    assert |p| <= |parent|;
    assert p == (parent + [m])[..|p|] == (parent + [n])[..|p|];
  }

  // ------------------------------------------------------------ fingerprints

  function ImageOf(nodes: Nodes, root: Path): (image: Image)
    ensures forall r :: r in image <==> FileAt(nodes, root + r)
    ensures forall r :: r in image ==> root + r in nodes && nodes[root + r] == RegularFile(image[r])
  {
    var files := set q | q in nodes && root <= q && nodes[q].RegularFile?;
    var paths := set q | q in files :: q[|root|..];
    assert forall r :: root + r in files ==> (root + r)[|root|..] == r;
    assert forall q :: q in files ==> root + q[|root|..] == q;
    map r | r in paths :: nodes[root + r].bytes
  }

  /** Equal trees have equal images, so equal fingerprints. */
  lemma SameImage(a: Nodes, p: Path, b: Nodes, q: Path)
    requires SameTree(a, p, b, q)
    ensures ImageOf(a, p) == ImageOf(b, q)
  {
    hide SameTree;
    forall r
      ensures FileAt(a, p + r) <==> FileAt(b, q + r)
      ensures FileAt(a, p + r) ==> a[p + r] == b[q + r]
    {
      SameTreeByPath(a, p, b, q, r);
    }
    var x, y := ImageOf(a, p), ImageOf(b, q);
    assert forall r :: r in x <==> r in y;
    assert forall r :: r in x ==> x[r] == y[r];
  }

  lemma NoFilesNoImage(nodes: Nodes, p: Path)
    requires forall q :: q in nodes ==> nodes[q].Directory?
    ensures ImageOf(nodes, p) == map[]
  {
    var image := ImageOf(nodes, p);
    assert forall r :: r !in image;
  }

  /** A directory without any file at or below it, which leaves no mark in the image. */
  ghost predicate Hollow(nodes: Nodes, root: Path, r: Path) {
    IsDirectory(nodes, root + r) && forall s :: !FileAt(nodes, root + (r + s))
  }

  ghost predicate SameHollows(a: Nodes, p: Path, b: Nodes, q: Path) {
    forall r :: Hollow(a, p, r) <==> Hollow(b, q, r)
  }

  /** Every directory below the root has a file somewhere in it. */
  ghost predicate NoHollows(nodes: Nodes, root: Path) {
    forall r :: r != [] ==> !Hollow(nodes, root, r)
  }

  /** What equal images say: trees without special nodes are equal exactly when their images are and their hollow
      directories are the same. */
  lemma SameTreeExactly(a: Nodes, p: Path, b: Nodes, q: Path)
    requires IsTree(a) && IsTree(b) && NoSpecial(a, p) && NoSpecial(b, q)
    ensures SameTree(a, p, b, q) <==> ImageOf(a, p) == ImageOf(b, q) && SameHollows(a, p, b, q)
  {
    hide *;
    if SameTree(a, p, b, q) {
      SameImage(a, p, b, q);
      SameTreeHollows(a, p, b, q);
    } else if ImageOf(a, p) == ImageOf(b, q) && SameHollows(a, p, b, q) {
      forall r
        ensures (p + r in a <==> q + r in b) && (p + r in a ==> a[p + r] == b[q + r])
      {
        NodeFromImage(a, p, b, q, r);
        SameHollowsBack(a, p, b, q);
        NodeFromImage(b, q, a, p, r);
      }
      SameTreeFromPaths(a, p, b, q);
    }
  }

  lemma SameTreeFromPaths(a: Nodes, p: Path, b: Nodes, q: Path)
    requires forall r :: (p + r in a <==> q + r in b) && (p + r in a ==> a[p + r] == b[q + r])
    ensures SameTree(a, p, b, q)
  {}

  lemma SameHollowsBack(a: Nodes, p: Path, b: Nodes, q: Path)
    requires SameHollows(a, p, b, q)
    ensures SameHollows(b, q, a, p)
  {}

  lemma SameTreeHollows(a: Nodes, p: Path, b: Nodes, q: Path)
    requires SameTree(a, p, b, q)
    ensures SameHollows(a, p, b, q)
  {
    hide SameTree;
    forall r
      ensures (p + r in a <==> q + r in b) && (p + r in a ==> a[p + r] == b[q + r])
    {
      SameTreeByPath(a, p, b, q, r);
    }
  }

  /** A node of one tree is in the other: a file by the image, a directory for the files in it or as a hollow one. */
  lemma NodeFromImage(a: Nodes, p: Path, b: Nodes, q: Path, r: Path)
    requires IsTree(b) && NoSpecial(a, p) && ImageOf(a, p) == ImageOf(b, q) && SameHollows(a, p, b, q)
    ensures p + r in a ==> q + r in b && b[q + r] == a[p + r]
  {
    hide IsTree;
    if p + r in a && a[p + r].Directory? {
      if Hollow(a, p, r) {
        assert Hollow(b, q, r);
      } else {
        var s :| FileAt(a, p + (r + s));
        assert s == [] ==> r + s == r;
        assert r + s in ImageOf(a, p);
        assert FileAt(b, q + (r + s));
        assert (q + (r + s))[..|q + r|] == q + r;
        AncestorsAreDirectories(b, q + (r + s), |q + r|);
      }
    } else if p + r in a {
      assert p <= p + r;
      assert r in ImageOf(a, p);
      assert FileAt(b, q + r);
    }
  }

  /** So without hollow directories the image decides. */
  lemma ImageDecides(a: Nodes, p: Path, b: Nodes, q: Path)
    requires IsTree(a) && IsTree(b) && NoSpecial(a, p) && NoSpecial(b, q)
    requires IsDirectory(a, p) && IsDirectory(b, q) && NoHollows(a, p) && NoHollows(b, q)
    ensures ImageOf(a, p) == ImageOf(b, q) <==> SameTree(a, p, b, q)
  {
    SameTreeExactly(a, p, b, q);
    hide IsTree, SameTree, NoSpecial;
    if ImageOf(a, p) == ImageOf(b, q) {
      HollowRoot(a, p);
      HollowRoot(b, q);
      forall r
        ensures Hollow(a, p, r) <==> Hollow(b, q, r)
      {
        hide Hollow;
      }
    }
  }

  lemma HollowRoot(nodes: Nodes, p: Path)
    requires IsDirectory(nodes, p)
    ensures Hollow(nodes, p, []) <==> ImageOf(nodes, p) == map[]
  {
    var image := ImageOf(nodes, p);
    assert p + [] == p;
    forall s: Path
      ensures FileAt(nodes, p + ([] + s)) <==> s in image
    {
      assert [] + s == s;
    }
    if image != map[] {
      assert exists s :: s in image;
    }
  }

  /** A digest that tells different images apart. */
  ghost predicate TellsApart(hash: Image -> string) {
    forall x, y :: hash(x) == hash(y) ==> x == y
  }

  /** What a deployment knows when the fingerprints are equal. */
  lemma UnchangedExactly(nodes: Nodes, source: Path, target: Path, hash: Image -> string)
    requires IsTree(nodes) && hash(ImageOf(nodes, source)) == hash(ImageOf(nodes, target))
    ensures TellsApart(hash) && NoSpecial(nodes, source) && NoSpecial(nodes, target) ==>
      (SameTree(nodes, source, nodes, target) <==> SameHollows(nodes, source, nodes, target))
  {
    if TellsApart(hash) && NoSpecial(nodes, source) && NoSpecial(nodes, target) {
      SameTreeExactly(nodes, source, nodes, target);
    }
  }

  /** A directory without files is what the image forgets. */
  lemma ImageForgetsEmptyDirectories()
    ensures exists a: Nodes, b: Nodes, p: Path ::
      IsTree(a) && IsTree(b) && ImageOf(a, p) == ImageOf(b, p) && !SameTree(a, p, b, p)
  {
    var a: Nodes := map[[] := Directory];
    var b: Nodes := a[["empty"] := Directory];
    OneEmptyDirectory(a, b);
    hide *;
    NoFilesNoImage(a, []);
    NoFilesNoImage(b, []);
    SameTreeFails(a, b, ["empty"]);
    assert IsTree(a) && IsTree(b) && ImageOf(a, []) == ImageOf(b, []) && !SameTree(a, [], b, []);
  }

  lemma OneEmptyDirectory(a: Nodes, b: Nodes)
    requires a == map[[] := Directory] && b == a[["empty"] := Directory]
    ensures IsTree(a) && IsTree(b) && ["empty"] !in a && ["empty"] in b
    ensures forall q :: q in b ==> b[q].Directory?
  {
    assert Parent(["empty"]) == [];
  }

  lemma SameTreeFails(a: Nodes, b: Nodes, r: Path)
    requires r !in a && r in b
    ensures !SameTree(a, [], b, [])
  {
    assert [] + r == r;
  }

  /** treeFingerprint. A special node is a symbolic link, on which it throws, or of another kind, which it skips. */
  method TreeFingerprint(fs: FileSystem, root: Path, hash: Image -> string) returns (fingerprint: Option<string>)
    requires fs.Valid()
    ensures fingerprint.Some? ==> IsDirectory(fs.nodes, root) && fingerprint.value == hash(ImageOf(fs.nodes, root))
    ensures !fs.mayFault && IsDirectory(fs.nodes, root) && NoSpecial(fs.nodes, root) ==> fingerprint.Some?
  {
    if !fs.DirectoryAt(root) {
      return None;
    }
    if fs.mayFault || exists q :: q in fs.nodes && root <= q && fs.nodes[q].Special? {
      if * {
        return None;
      }
    }
    fingerprint := Some(hash(ImageOf(fs.nodes, root)));
  }

  // ------------------------------------------------------------ states beside the target

  /** The states agree on everything outside the two trees `p` and `q`. */
  ghost predicate SameBeside(a: Nodes, b: Nodes, p: Path, q: Path) {
    forall r :: !(p <= r) && !(q <= r) ==> (r in a <==> r in b) && (r in a ==> a[r] == b[r])
  }

  lemma BesideLeft(a: Nodes, b: Nodes, c: Nodes, p: Path, q: Path)
    requires SameBeside(a, b, p, q) && SameOutside(b, c, p)
    ensures SameBeside(a, c, p, q)
  {}

  lemma BesideRight(a: Nodes, b: Nodes, c: Nodes, p: Path, q: Path)
    requires SameBeside(a, b, p, q) && SameOutside(b, c, q)
    ensures SameBeside(a, c, p, q)
  {}

  lemma BesideReflexive(a: Nodes, p: Path, q: Path)
    ensures SameBeside(a, a, p, q)
  {}

  lemma BesideKeeps(a: Nodes, b: Nodes, p: Path, q: Path, s: Path)
    requires SameBeside(a, b, p, q) && Disjoint(p, s) && Disjoint(q, s)
    ensures SameTree(a, s, b, s)
  {
    forall r: Path
      ensures (s + r in a <==> s + r in b) && (s + r in a ==> a[s + r] == b[s + r])
    {
      PrefixMeets(p, s, p, s + r);
      PrefixMeets(q, s, q, s + r);
    }
  }

  lemma Depth(nodes: Nodes) returns (depth: nat)
    ensures forall p :: Shallow(nodes, p, depth)
  {
    depth := Longest(nodes.Keys);
  }

  lemma Longest(paths: set<Path>) returns (depth: nat)
    ensures forall q :: q in paths ==> |q| <= depth
  {
    if paths == {} {
      depth := 0;
    } else {
      var p :| p in paths;
      var rest := Longest(paths - {p});
      depth := if |p| > rest then |p| else rest;
    }
  }

  lemma ParentIsAbove(p: Path, q: Path)
    requires q != [] && Disjoint(p, q)
    ensures !(p <= Parent(q))
  {
    assert Parent(q) <= q;
    assert p <= Parent(q) ==> p <= q;
  }

  /** Everything that a prepared deployment has on disk. */
  ghost predicate Prepared(was: Nodes, now: Nodes, source: Path, target: Path, stage: Path, backup: Path,
          installed: bool) {
    && SameTree(was, source, now, stage)
    && (installed ==> SameTree(was, target, now, backup))
  }

  ghost predicate Deployable(nodes: Nodes, source: Path, target: Path) {
    && IsDirectory(nodes, source) && NoSpecial(nodes, source)
    && (IsDirectory(nodes, target) ==> NoSpecial(nodes, target))
  }

  lemma CopyableBeside(was: Nodes, now: Nodes, source: Path, copy: Path, p: Path, q: Path)
    requires SameBeside(was, now, p, q) && Disjoint(p, source) && Disjoint(q, source)
    requires IsDirectory(was, source) && NoSpecial(was, source) && NothingAt(now, copy)
    ensures Copyable(now, source, copy) && IsDirectory(now, source)
  {
    assert copy <= copy;
    assert !(p <= source) && !(q <= source);
    BesideKeeps(was, now, p, q, source);
    hide NoSpecial, SameTree, SameBeside;
    SpecialInCopy(was, source, now, source);
    NothingBelowIt(now, copy);
  }

  lemma NothingAtMeans(nodes: Nodes, p: Path)
    requires forall q :: p <= q ==> q !in nodes
    ensures NothingAt(nodes, p) && NothingUnder(nodes, p)
  {}

  lemma ShrinksKeepNothing(a: Nodes, b: Nodes, p: Path, q: Path)
    requires Shrinks(a, b, p) && NothingAt(a, q)
    ensures NothingAt(b, q)
  {}

  lemma BesideStep(a: Nodes, b: Nodes, c: Nodes, p: Path, q: Path, copy: Path)
    requires SameBeside(a, b, p, q) && SameOutside(b, c, copy) && (copy == p || copy == q)
    ensures SameBeside(a, c, p, q)
  {
    hide *;
    if copy == p {
      BesideLeft(a, b, c, p, q);
    } else {
      BesideRight(a, b, c, p, q);
    }
  }

  lemma DirectoryBeside(a: Nodes, b: Nodes, p: Path, q: Path, r: Path)
    requires SameBeside(a, b, p, q) && !(p <= r) && !(q <= r)
    ensures IsDirectory(a, r) <==> IsDirectory(b, r)
  {}

  /** Removes one working copy, or what an earlier run left of it. */
  method ClearCopy(fs: FileSystem, copy: Path, stage: Path, backup: Path, ghost was: Nodes) returns (ok: bool)
    requires fs.Valid() && copy != [] && (copy == stage || copy == backup)
    requires SameBeside(was, fs.nodes, stage, backup)
    modifies fs
    ensures fs.Valid() && old(fs.trace) <= fs.trace
    ensures SameBeside(was, fs.nodes, stage, backup)
    ensures ok ==> NothingAt(fs.nodes, copy)
    ensures NothingAt(old(fs.nodes), stage) ==> NothingAt(fs.nodes, stage)
    ensures forall i :: |old(fs.trace)| <= i < |fs.trace| ==> SameBeside(was, fs.trace[i], stage, backup)
    ensures !fs.mayFault ==> ok
  {
    ghost var before := fs.nodes;
    hide IsTree, Shrinks, SameBeside, SameOutside, NothingAt;
    ok := fs.RemoveTree(copy);
    forall i | |old(fs.trace)| <= i < |fs.trace|
      ensures SameBeside(was, fs.trace[i], stage, backup)
    {
      ShrinksOutside(before, fs.trace[i], copy);
      BesideStep(was, before, fs.trace[i], stage, backup, copy);
    }
    ShrinksOutside(before, fs.nodes, copy);
    BesideStep(was, before, fs.nodes, stage, backup, copy);
    if ok {
      NothingAtMeans(fs.nodes, copy);
    }
    if NothingAt(before, stage) {
      ShrinksKeepNothing(before, fs.nodes, copy, stage);
    }
  }

  /** One working copy is made where nothing is. */
  method CopyAside(fs: FileSystem, source: Path, copy: Path, stage: Path, backup: Path,
          ghost was: Nodes) returns (ok: bool)
    requires fs.Valid() && copy != [] && (copy == stage || copy == backup)
    requires Disjoint(source, stage) && Disjoint(source, backup) && IsDirectory(fs.nodes, Parent(copy))
    requires SameBeside(was, fs.nodes, stage, backup) && NothingAt(fs.nodes, copy)
    modifies fs
    ensures fs.Valid() && old(fs.trace) <= fs.trace
    ensures SameBeside(was, fs.nodes, stage, backup) && SameOutside(old(fs.nodes), fs.nodes, copy)
    ensures ok ==> SameTree(was, source, fs.nodes, copy)
    ensures forall i :: |old(fs.trace)| <= i < |fs.trace| ==> SameBeside(was, fs.trace[i], stage, backup)
    ensures !fs.mayFault && IsDirectory(was, source) && NoSpecial(was, source) ==> ok
  {
    ghost var before := fs.nodes;
    hide IsTree, SameBeside, SameOutside, SameTree, NothingAt, NothingUnder, Shallow, NoSpecial, Copyable;
    ghost var depth := Depth(before);
    BesideKeeps(was, before, stage, backup, source);
    NothingBelowIt(before, copy);
    if IsDirectory(was, source) && NoSpecial(was, source) {
      CopyableBeside(was, before, source, copy, stage, backup);
    }
    ok := CopyTree(fs, source, copy, depth);
    forall i | |old(fs.trace)| <= i < |fs.trace|
      ensures SameBeside(was, fs.trace[i], stage, backup)
    {
      BesideStep(was, before, fs.trace[i], stage, backup, copy);
    }
    BesideStep(was, before, fs.nodes, stage, backup, copy);
    if ok {
      SameTreeTransitive(was, source, before, source, fs.nodes, copy);
    }
  }

  lemma NothingBelowIt(nodes: Nodes, p: Path)
    requires NothingAt(nodes, p)
    ensures NothingUnder(nodes, p)
  {
    forall r | p < r
      ensures r !in nodes
    {
      assert p <= r;
    }
  }

  lemma ParentBeside(was: Nodes, now: Nodes, stage: Path, backup: Path)
    requires SameBeside(was, now, stage, backup) && stage != [] && backup != [] && Parent(stage) == Parent(backup)
    ensures IsDirectory(was, Parent(stage)) <==> IsDirectory(now, Parent(stage))
  {
    DirectoryBeside(was, now, stage, backup, Parent(stage));
  }

  method StageSource(fs: FileSystem, source: Path, stage: Path, backup: Path, fingerprint: string,
          hash: Image -> string, ghost was: Nodes)
    returns (ok: bool)
    requires fs.Valid() && stage != [] && backup != [] && Parent(backup) == Parent(stage)
    requires Disjoint(source, stage) && Disjoint(source, backup) && Disjoint(stage, backup)
    requires IsDirectory(was, Parent(stage))
    requires SameBeside(was, fs.nodes, stage, backup) && NothingAt(fs.nodes, stage) && NothingAt(fs.nodes, backup)
    modifies fs
    ensures fs.Valid() && old(fs.trace) <= fs.trace
    ensures SameBeside(was, fs.nodes, stage, backup)
    ensures ok ==> SameTree(was, source, fs.nodes, stage) && NothingAt(fs.nodes, backup)
    ensures ok ==> fingerprint == hash(ImageOf(fs.nodes, stage))
    ensures forall i :: |old(fs.trace)| <= i < |fs.trace| ==> SameBeside(was, fs.trace[i], stage, backup)
    ensures !fs.mayFault && IsDirectory(was, source) && NoSpecial(was, source) ==>
      fingerprint == hash(ImageOf(was, source)) ==> ok
  {
    ghost var before := fs.nodes;
    hide IsTree, SameBeside, SameOutside, SameTree, NothingAt, Disjoint, NoSpecial;
    ParentBeside(was, before, stage, backup);
    ok := CopyAside(fs, source, stage, stage, backup, was);
    if ok {
      SameImage(was, source, fs.nodes, stage);
      StillNothing(before, fs.nodes, stage, backup);
      CopyIsDirectory(was, source, fs.nodes, stage);
      var staged := TreeFingerprint(fs, stage, hash);
      ok := staged == Some(fingerprint);
      if staged.Some? && !ok {
        var _ := ClearCopy(fs, stage, stage, backup, was);
      }
    }
  }

  lemma CopyIsDirectory(a: Nodes, p: Path, b: Nodes, q: Path)
    requires SameTree(a, p, b, q)
    ensures IsDirectory(a, p) <==> IsDirectory(b, q)
    ensures p in a <==> q in b
    ensures NoSpecial(a, p) ==> NoSpecial(b, q)
  {
    hide SameTree, NoSpecial;
    SameTreeByPath(a, p, b, q, []);
    assert p + [] == p && q + [] == q;
    if NoSpecial(a, p) {
      SpecialInCopy(a, p, b, q);
    }
  }

  lemma SameTreeOutside(a: Nodes, p: Path, b: Nodes, c: Nodes, q: Path, changed: Path)
    requires SameTree(a, p, b, q) && SameOutside(b, c, changed) && Disjoint(changed, q)
    ensures SameTree(a, p, c, q)
  {
    hide SameTree, SameOutside;
    SameTreeReflexive(b, c, changed, q);
    SameTreeTransitive(a, p, b, q, c, q);
  }

  method BackUp(fs: FileSystem, source: Path, target: Path, stage: Path, backup: Path,
          ghost was: Nodes) returns (ok: bool)
    requires fs.Valid() && Apart(source, target, stage, backup) && stage != [] && backup != []
    requires Parent(backup) == Parent(stage)
    requires IsDirectory(was, Parent(stage))
    requires SameBeside(was, fs.nodes, stage, backup) && NothingAt(fs.nodes, backup)
    requires SameTree(was, source, fs.nodes, stage)
    modifies fs
    ensures fs.Valid() && old(fs.trace) <= fs.trace
    ensures SameBeside(was, fs.nodes, stage, backup)
    ensures ok ==> Prepared(was, fs.nodes, source, target, stage, backup, true)
    ensures forall i :: |old(fs.trace)| <= i < |fs.trace| ==> SameBeside(was, fs.trace[i], stage, backup)
    ensures !fs.mayFault && IsDirectory(was, target) && NoSpecial(was, target) ==> ok
  {
    ghost var before := fs.nodes;
    hide IsTree, SameBeside, SameOutside, SameTree, NothingAt, Disjoint, NoSpecial;
    ParentBeside(was, before, stage, backup);
    ok := CopyAside(fs, target, backup, stage, backup, was);
    DisjointSymmetric(stage, backup);
    SameTreeOutside(was, source, before, fs.nodes, stage, backup);
  }

  lemma DisjointSymmetric(p: Path, q: Path)
    requires Disjoint(p, q)
    ensures Disjoint(q, p)
  {}

  lemma PreparedFresh(was: Nodes, now: Nodes, source: Path, target: Path, stage: Path, backup: Path)
    requires SameTree(was, source, now, stage)
    ensures Prepared(was, now, source, target, stage, backup, false)
  {}

  lemma BesideApart(source: Path, target: Path, stage: Path, backup: Path)
    requires Apart(source, target, stage, backup)
    ensures Disjoint(source, stage) && Disjoint(source, backup) && Disjoint(stage, backup) && Disjoint(target, stage)
    ensures Disjoint(target, backup) && Disjoint(source, target)
  {}

  lemma DeployableParts(nodes: Nodes, source: Path, target: Path)
    requires Deployable(nodes, source, target)
    ensures IsDirectory(nodes, source) && NoSpecial(nodes, source)
    ensures IsDirectory(nodes, target) ==> NoSpecial(nodes, target)
  {}

  /** The two leftovers are removed, and the source is copied aside and checked. */
  method ClearAndStage(fs: FileSystem, source: Path, stage: Path, backup: Path, fingerprint: string,
      hash: Image -> string)
    returns (ok: bool)
    requires fs.Valid() && stage != [] && backup != [] && Parent(backup) == Parent(stage)
    requires Disjoint(source, stage) && Disjoint(source, backup) && Disjoint(stage, backup)
    requires IsDirectory(fs.nodes, Parent(stage))
    modifies fs
    ensures fs.Valid() && old(fs.trace) <= fs.trace
    ensures SameBeside(old(fs.nodes), fs.nodes, stage, backup)
    ensures ok ==> SameTree(old(fs.nodes), source, fs.nodes, stage) && NothingAt(fs.nodes, backup)
    ensures ok ==> fingerprint == hash(ImageOf(fs.nodes, stage))
    ensures forall i :: |old(fs.trace)| <= i < |fs.trace| ==> SameBeside(old(fs.nodes), fs.trace[i], stage, backup)
    ensures !fs.mayFault && IsDirectory(old(fs.nodes), source) && NoSpecial(old(fs.nodes), source) ==>
      fingerprint == hash(ImageOf(old(fs.nodes), source)) ==> ok
  {
    ghost var was := fs.nodes;
    hide *;
    BesideReflexive(was, stage, backup);
    ok := ClearCopy(fs, stage, stage, backup, was);
    if ok {
      ok := ClearCopy(fs, backup, stage, backup, was);
    }
    if ok {
      ok := StageSource(fs, source, stage, backup, fingerprint, hash, was);
    }
  }

  /** The two leftovers are removed, the source is copied aside and checked, and the installed tree is backed up. */
  method Prepare(fs: FileSystem, source: Path, target: Path, stage: Path, backup: Path, installed: bool,
          fingerprint: string,
                 hash: Image -> string) returns (ok: bool)
    requires fs.Valid() && Apart(source, target, stage, backup) && stage != [] && backup != []
    requires IsDirectory(fs.nodes, Parent(stage)) && Parent(backup) == Parent(stage)
    modifies fs
    ensures fs.Valid() && old(fs.trace) <= fs.trace
    ensures SameBeside(old(fs.nodes), fs.nodes, stage, backup)
    ensures ok ==> Prepared(old(fs.nodes), fs.nodes, source, target, stage, backup, installed)
    ensures forall i :: |old(fs.trace)| <= i < |fs.trace| ==> SameBeside(old(fs.nodes), fs.trace[i], stage, backup)
    ensures !fs.mayFault && Deployable(old(fs.nodes), source, target) ==>
      (installed ==> IsDirectory(old(fs.nodes), target)) && fingerprint == hash(ImageOf(old(fs.nodes), source)) ==> ok
  {
    ghost var was := fs.nodes;
    hide *;
    BesideApart(source, target, stage, backup);
    BesideReflexive(was, stage, backup);
    if Deployable(was, source, target) {
      DeployableParts(was, source, target);
    }
    ok := ClearAndStage(fs, source, stage, backup, fingerprint, hash);
    if ok && installed {
      ok := BackUp(fs, source, target, stage, backup, was);
    } else if ok {
      PreparedFresh(was, fs.nodes, source, target, stage, backup);
    }
  }

  // ------------------------------------------------------------ publishing and rolling back

  /** The `catch` branch: the target is emptied and refilled from the backup, or removed when there was no directory
      before. */
  method RollBack(fs: FileSystem, target: Path, backup: Path, installed: bool,
          ghost was: Nodes) returns (complete: bool)
    requires fs.Valid() && Disjoint(target, backup) && target != [] && IsDirectory(was, Parent(target))
    requires SameOutside(was, fs.nodes, target)
    modifies fs
    ensures fs.Valid() && old(fs.trace) <= fs.trace
    ensures SameOutside(was, fs.nodes, target)
    ensures complete && installed ==> SameTree(was, backup, fs.nodes, target)
    ensures complete && !installed ==> NothingAt(fs.nodes, target)
    ensures forall i :: |old(fs.trace)| <= i < |fs.trace| ==> SameOutside(was, fs.trace[i], target)
    ensures !fs.mayFault ==>
      (installed ==> IsDirectory(was, backup) && NoSpecial(was, backup) && IsDirectory(old(fs.nodes), target)) ==>
        complete
  {
    ghost var broken := fs.nodes;
    hide IsTree, SameOutside, SameTree, NothingAt, NothingUnder, NoSpecial, Shallow, Shrinks, Copyable, Disjoint;
    var cleared := ClearDirectoryContents(fs, target);
    ghost var empty, mark := fs.nodes, |fs.trace|;
    OutsideTwice(was, broken, empty, target);
    ParentOutside(was, empty, target);
    var restored;
    if installed {
      ghost var depth := Depth(empty);
      BackupKept(was, empty, target, backup);
      if cleared && IsDirectory(empty, target) && IsDirectory(empty, backup) && NoSpecial(empty, backup) {
        EmptyIsCopyable(empty, backup, target);
      }
      DisjointSymmetric(target, backup);
      restored := CopyTree(fs, backup, target, depth);
      if cleared && restored {
        SameTreeTransitive(was, backup, empty, backup, fs.nodes, target);
      }
    } else {
      restored := fs.RemoveTree(target);
      if restored {
        NothingAtMeans(fs.nodes, target);
      }
      forall i | mark <= i < |fs.trace|
        ensures SameOutside(empty, fs.trace[i], target)
      {
        ShrinksOutside(empty, fs.trace[i], target);
      }
      ShrinksOutside(empty, fs.nodes, target);
    }
    OutsideTwice(was, empty, fs.nodes, target);
    forall i | |old(fs.trace)| <= i < |fs.trace|
      ensures SameOutside(was, fs.trace[i], target)
    {
      if i < mark {
        OutsideTwice(was, broken, fs.trace[i], target);
      } else {
        OutsideTwice(was, empty, fs.trace[i], target);
      }
    }
    complete := cleared && restored;
  }

  lemma ParentOutside(a: Nodes, b: Nodes, p: Path)
    requires SameOutside(a, b, p) && p != []
    ensures IsDirectory(a, Parent(p)) <==> IsDirectory(b, Parent(p))
  {
    assert !(p <= Parent(p));
  }

  lemma BackupKept(was: Nodes, now: Nodes, target: Path, backup: Path)
    requires SameOutside(was, now, target) && Disjoint(target, backup)
    ensures SameTree(was, backup, now, backup)
    ensures IsDirectory(was, backup) <==> IsDirectory(now, backup)
    ensures NoSpecial(was, backup) ==> NoSpecial(now, backup)
  {
    hide SameTree, NoSpecial;
    SameTreeReflexive(was, now, target, backup);
    CopyIsDirectory(was, backup, now, backup);
  }

  lemma EmptyIsCopyable(nodes: Nodes, source: Path, target: Path)
    requires NothingUnder(nodes, target) && IsDirectory(nodes, target) && IsDirectory(nodes, source)
    requires NoSpecial(nodes, source)
    ensures Copyable(nodes, source, target)
  {}

  lemma SteadyParts(was: Nodes, now: Nodes, source: Path, target: Path)
    requires Steady(was, now, source, target)
    ensures SameOutside(was, now, target) && NoGap(was, now, source, target)
  {}

  /** The `try` and `catch` branches. */
  method Publish(fs: FileSystem, stage: Path, target: Path, backup: Path, installed: bool, token: string,
          fingerprint: string,
                 hash: Image -> string) returns (outcome: Outcome)
    requires fs.Valid() && Disjoint(target, stage) && Disjoint(target, backup) && target != []
    requires IsDirectory(fs.nodes, Parent(target))
    requires IsDirectory(fs.nodes, stage) && FreshToken(fs.nodes, stage, token) && FreshToken(fs.nodes, target, token)
    requires installed <==> IsDirectory(fs.nodes, target)
    modifies fs
    ensures fs.Valid() && old(fs.trace) <= fs.trace && (outcome.Deployed? || outcome.RolledBack?)
    ensures SameOutside(old(fs.nodes), fs.nodes, target)
    ensures outcome.Deployed? ==> SameTree(old(fs.nodes), stage, fs.nodes, target)
    ensures outcome.Deployed? ==> fingerprint == hash(ImageOf(fs.nodes, target))
    ensures outcome == RolledBack(true) && installed ==> SameTree(old(fs.nodes), backup, fs.nodes, target)
    ensures outcome == RolledBack(true) && !installed ==> NothingAt(fs.nodes, target)
    ensures forall i :: |old(fs.trace)| <= i < |fs.trace| ==> SameOutside(old(fs.nodes), fs.trace[i], target)
    ensures outcome.Deployed? ==>
      forall i :: |old(fs.trace)| <= i < |fs.trace| ==> NoGap(old(fs.nodes), fs.trace[i], stage, target)
    ensures target in old(fs.nodes) && !installed ==> outcome.RolledBack?
    ensures !fs.mayFault && NoSpecial(old(fs.nodes), stage) && (target in old(fs.nodes) ==> installed) ==>
      fingerprint == hash(ImageOf(old(fs.nodes), stage)) ==> outcome.Deployed?
    ensures !fs.mayFault && !installed && outcome.RolledBack? ==> outcome.complete
  {
    ghost var was := fs.nodes;
    hide IsTree, SameOutside, SameTree, NothingAt, NothingUnder, NoSpecial, Shallow, Steady, NoGap, FreshToken;
    ghost var depth := Depth(was);
    StageDirectory(was, stage, target);
    var ok := PublishTreeInPlace(fs, stage, target, token, depth);
    ghost var mark := |fs.trace|;
    forall i | |old(fs.trace)| <= i < |fs.trace|
      ensures SameOutside(was, fs.trace[i], target) && NoGap(was, fs.trace[i], stage, target)
    {
      SteadyParts(was, fs.trace[i], stage, target);
    }
    SteadyParts(was, fs.nodes, stage, target);
    if ok {
      SameImage(was, stage, fs.nodes, target);
      CopyIsDirectory(was, stage, fs.nodes, target);
      var published := TreeFingerprint(fs, target, hash);
      ok := published == Some(fingerprint);
    }
    if ok {
      outcome := Deployed;
    } else {
      var complete := RollBack(fs, target, backup, installed, was);
      outcome := RolledBack(complete);
    }
  }

  lemma StageDirectory(nodes: Nodes, stage: Path, target: Path)
    requires Disjoint(target, stage)
    ensures Disjoint(stage, target)
  {}

  /** The `finally` branch, whose errors are swallowed. */
  method CleanUp(fs: FileSystem, stage: Path, backup: Path)
    requires fs.Valid() && stage != [] && backup != []
    modifies fs
    ensures fs.Valid() && old(fs.trace) <= fs.trace
    ensures SameBeside(old(fs.nodes), fs.nodes, stage, backup)
    ensures forall i :: |old(fs.trace)| <= i < |fs.trace| ==> SameBeside(old(fs.nodes), fs.trace[i], stage, backup)
    ensures !fs.mayFault ==> NothingAt(fs.nodes, stage) && NothingAt(fs.nodes, backup)
  {
    ghost var was := fs.nodes;
    hide *;
    BesideReflexive(was, stage, backup);
    var _ := ClearCopy(fs, stage, stage, backup, was);
    var _ := ClearCopy(fs, backup, stage, backup, was);
  }

  // ------------------------------------------------------------ the whole deployment

  /** What lies outside the target and the working copies is kept; only directories above the target may be new. */
  ghost predicate Confined(was: Nodes, now: Nodes, target: Path, stage: Path, backup: Path) {
    forall q :: !(target <= q) && !(stage <= q) && !(backup <= q) ==>
      (q in was ==> q in now && now[q] == was[q]) && (q in now && q !in was ==> q <= target && now[q].Directory?)
  }

  lemma ConfinedAfterGrowth(was: Nodes, now: Nodes, target: Path, stage: Path, backup: Path)
    requires target != [] && Grows(was, now, Parent(target))
    ensures Confined(was, now, target, stage, backup)
  {
    assert Parent(target) <= target;
  }

  lemma ConfinedBeside(was: Nodes, mid: Nodes, now: Nodes, target: Path, stage: Path, backup: Path)
    requires Confined(was, mid, target, stage, backup) && SameBeside(mid, now, stage, backup)
    ensures Confined(was, now, target, stage, backup)
  {}

  lemma ConfinedOutside(was: Nodes, mid: Nodes, now: Nodes, target: Path, stage: Path, backup: Path)
    requires Confined(was, mid, target, stage, backup) && SameOutside(mid, now, target)
    ensures Confined(was, now, target, stage, backup)
  {}

  lemma GrowthKeeps(was: Nodes, now: Nodes, p: Path, q: Path)
    requires Grows(was, now, p) && !(q <= p)
    ensures SameTree(was, q, now, q)
  {
    forall r: Path
      ensures (q + r in was <==> q + r in now) && (q + r in was ==> was[q + r] == now[q + r])
    {
      assert q + r <= p ==> q <= p;
    }
  }

  lemma NoGapUntouched(was: Nodes, now: Nodes, source: Path, target: Path)
    requires SameTree(was, target, now, target)
    ensures NoGap(was, now, source, target)
  {}

  lemma NoGapDeployed(was: Nodes, now: Nodes, source: Path, target: Path)
    requires SameTree(was, source, now, target)
    ensures NoGap(was, now, source, target)
  {}

  /** A gap seen from the staged copy is a gap seen from the source. */
  lemma NoGapThroughStage(was: Nodes, mid: Nodes, now: Nodes, source: Path, stage: Path, target: Path)
    requires SameTree(was, source, mid, stage) && SameTree(was, target, mid, target) && NoGap(mid, now, stage, target)
    ensures NoGap(was, now, source, target)
  {
    forall r: Path
      ensures Served(was, now, source, target, r)
    {
      hide SameTree, NoGap;
      SameTreeByPath(was, source, mid, stage, r);
      SameTreeByPath(was, target, mid, target, r);
      NoGapServes(mid, now, stage, target, r);
    }
    ServedIsNoGap(was, now, source, target);
  }

  /** Nothing in the way of the directories above the target. */
  ghost predicate Reachable(nodes: Nodes, p: Path) {
    forall n :: 0 <= n <= |p| && p[..n] in nodes ==> IsDirectory(nodes, p[..n])
  }

  /** A state of a deployment that has not begun to publish. */
  ghost predicate Untouched(was: Nodes, now: Nodes, target: Path, stage: Path, backup: Path) {
    Confined(was, now, target, stage, backup) && SameTree(was, target, now, target)
  }

  lemma UntouchedByGrowth(was: Nodes, now: Nodes, target: Path, stage: Path, backup: Path)
    requires target != [] && Grows(was, now, Parent(target))
    ensures Untouched(was, now, target, stage, backup)
  {
    hide Grows, Confined, SameTree;
    ConfinedAfterGrowth(was, now, target, stage, backup);
    GrowthKeeps(was, now, Parent(target), target);
  }

  lemma UntouchedBeside(was: Nodes, mid: Nodes, now: Nodes, source: Path, target: Path, stage: Path, backup: Path)
    requires Untouched(was, mid, target, stage, backup) && SameBeside(mid, now, stage, backup)
    requires Apart(source, target, stage, backup)
    ensures Untouched(was, now, target, stage, backup)
  {
    hide SameBeside, Confined, SameTree, Disjoint;
    ConfinedBeside(was, mid, now, target, stage, backup);
    DisjointSymmetric(target, stage);
    DisjointSymmetric(target, backup);
    BesideKeeps(mid, now, stage, backup, target);
    SameTreeTransitive(was, target, mid, target, now, target);
  }

  lemma UntouchedAtFirst(was: Nodes, target: Path, stage: Path, backup: Path)
    ensures Untouched(was, was, target, stage, backup)
  {}

  lemma DeployableAfterGrowth(was: Nodes, now: Nodes, source: Path, target: Path)
    requires target != [] && Disjoint(source, target) && Grows(was, now, Parent(target))
    ensures SameTree(was, source, now, source) && SameTree(was, target, now, target)
    ensures IsDirectory(was, target) <==> IsDirectory(now, target)
    ensures target in was <==> target in now
    ensures Deployable(was, source, target) ==> Deployable(now, source, target)
    ensures ImageOf(was, source) == ImageOf(now, source)
  {
    hide SameTree, Grows, NoSpecial;
    ParentIsAbove(source, target);
    GrowthKeeps(was, now, Parent(target), source);
    GrowthKeeps(was, now, Parent(target), target);
    CopyIsDirectory(was, source, now, source);
    CopyIsDirectory(was, target, now, target);
    SameImage(was, source, now, source);
  }

  lemma PreparedFrom(was: Nodes, mid: Nodes, now: Nodes, source: Path, target: Path, stage: Path, backup: Path,
          installed: bool)
    requires SameTree(was, source, mid, source) && SameTree(was, target, mid, target)
    requires Prepared(mid, now, source, target, stage, backup, installed)
    ensures Prepared(was, now, source, target, stage, backup, installed)
  {
    hide SameTree;
    SameTreeTransitive(was, source, mid, source, now, stage);
    if installed {
      SameTreeTransitive(was, target, mid, target, now, backup);
    }
  }

  lemma StageParent(target: Path, token: string)
    requires target != []
    ensures Parent(StagePath(target, token)) == Parent(target) && Parent(BackupPath(target, token)) == Parent(target)
  {}

  /** Everything before the publish: the parent directories and the working copies. */
  method StartUp(fs: FileSystem, source: Path, target: Path, stage: Path, backup: Path, installed: bool,
          fingerprint: string,
                 hash: Image -> string) returns (ok: bool)
    requires fs.Valid() && Apart(source, target, stage, backup) && target != [] && stage != [] && backup != []
    requires Parent(stage) == Parent(target) && Parent(backup) == Parent(target)
    requires installed <==> IsDirectory(fs.nodes, target)
    modifies fs
    ensures fs.Valid() && old(fs.trace) <= fs.trace
    ensures Untouched(old(fs.nodes), fs.nodes, target, stage, backup)
    ensures ok ==>
      && Prepared(old(fs.nodes), fs.nodes, source, target, stage, backup, installed)
      && IsDirectory(fs.nodes, Parent(target))
    ensures forall i :: |old(fs.trace)| <= i < |fs.trace| ==>
      Untouched(old(fs.nodes), fs.trace[i], target, stage, backup)
    ensures !fs.mayFault && Deployable(old(fs.nodes), source, target) && Reachable(old(fs.nodes), Parent(target)) ==>
      fingerprint == hash(ImageOf(old(fs.nodes), source)) ==> ok
  {
    ghost var was := fs.nodes;
    hide IsTree, Apart, Prepared, Untouched, Grows, Deployable, SameTree, SameBeside, Disjoint;
    ok := fs.MakeDirectories(Parent(target));
    ghost var made, mark := fs.nodes, |fs.trace|;
    forall i | |old(fs.trace)| <= i < mark
      ensures Untouched(was, fs.trace[i], target, stage, backup)
    {
      UntouchedByGrowth(was, fs.trace[i], target, stage, backup);
    }
    UntouchedByGrowth(was, made, target, stage, backup);
    if ok {
      WholeParent(fs.nodes, Parent(target));
      BesideApart(source, target, stage, backup);
      DeployableAfterGrowth(was, made, source, target);
      ok := Prepare(fs, source, target, stage, backup, installed, fingerprint, hash);
      forall i | mark <= i < |fs.trace|
        ensures Untouched(was, fs.trace[i], target, stage, backup)
      {
        UntouchedBeside(was, made, fs.trace[i], source, target, stage, backup);
      }
      UntouchedBeside(was, made, fs.nodes, source, target, stage, backup);
      ParentBeside(made, fs.nodes, stage, backup);
      if ok {
        PreparedFrom(was, made, fs.nodes, source, target, stage, backup, installed);
      }
    }
  }

  lemma WholeParent(nodes: Nodes, p: Path)
    requires forall n :: 0 <= n <= |p| ==> IsDirectory(nodes, p[..n])
    ensures IsDirectory(nodes, p)
  {
    assert p[..|p|] == p;
  }

  lemma UntouchedParts(was: Nodes, now: Nodes, target: Path, stage: Path, backup: Path)
    requires Untouched(was, now, target, stage, backup)
    ensures Confined(was, now, target, stage, backup) && SameTree(was, target, now, target)
  {}

  lemma PreparedParts(was: Nodes, now: Nodes, source: Path, target: Path, stage: Path, backup: Path, installed: bool)
    requires Prepared(was, now, source, target, stage, backup, installed)
    ensures SameTree(was, source, now, stage)
    ensures installed ==> SameTree(was, target, now, backup)
  {}

  lemma NothingIsSame(was: Nodes, now: Nodes, p: Path)
    requires IsTree(was) && NothingAt(now, p)
    ensures SameTree(was, p, now, p) <==> p !in was
  {
    hide IsTree;
    if p !in was {
      forall r: Path
        ensures p + r !in was
      {
        AbsentBelow(was, p, r);
      }
      forall r: Path
        ensures p + r !in now
      {
        assert p <= p + r;
      }
    } else {
      assert p + [] == p && p <= p;
      assert p !in now;
      assert p + [] in was && p + [] !in now;
    }
  }

  /** The publish and the cleaning up, from a prepared state. */
  method Finish(fs: FileSystem, source: Path, target: Path, stage: Path, backup: Path, installed: bool, token: string,
                fingerprint: string, hash: Image -> string, ghost was: Nodes) returns (outcome: Outcome)
    requires fs.Valid() && Apart(source, target, stage, backup) && target != [] && stage != [] && backup != []
    requires Untouched(was, fs.nodes, target, stage, backup)
    requires Prepared(was, fs.nodes, source, target, stage, backup, installed)
    requires IsTree(was) && IsDirectory(was, source) && IsDirectory(fs.nodes, Parent(target))
    requires (installed <==> IsDirectory(was, target))
    requires FreshToken(was, source, token) && FreshToken(was, target, token)
    modifies fs
    ensures fs.Valid() && old(fs.trace) <= fs.trace && (outcome.Deployed? || outcome.RolledBack?)
    ensures outcome.Deployed? ==> SameTree(was, source, fs.nodes, target)
    ensures outcome == RolledBack(true) ==> (SameTree(was, target, fs.nodes, target) <==> target !in was || installed)
    ensures outcome == RolledBack(true) && !installed ==> NothingAt(fs.nodes, target)
    ensures Confined(was, fs.nodes, target, stage, backup)
    ensures forall i :: |old(fs.trace)| <= i < |fs.trace| ==> Confined(was, fs.trace[i], target, stage, backup)
    ensures outcome.Deployed? ==>
      forall i :: |old(fs.trace)| <= i < |fs.trace| ==> NoGap(was, fs.trace[i], source, target)
    ensures target in was && !installed ==> outcome.RolledBack?
    ensures !fs.mayFault ==> NothingAt(fs.nodes, stage) && NothingAt(fs.nodes, backup)
    ensures !fs.mayFault && NoSpecial(was, source) && (target in was ==> installed) ==>
      fingerprint == hash(ImageOf(was, source)) ==> outcome.Deployed?
    ensures !fs.mayFault && !installed && outcome.RolledBack? ==> outcome.complete
  {
    ghost var ready := fs.nodes;
    hide *;
    BesideApart(source, target, stage, backup);
    UntouchedParts(was, ready, target, stage, backup);
    PreparedParts(was, ready, source, target, stage, backup, installed);
    CopyIsDirectory(was, source, ready, stage);
    CopyIsDirectory(was, target, ready, target);
    SameImage(was, source, ready, stage);
    FreshInCopy(was, source, ready, stage, token);
    FreshInCopy(was, target, ready, target, token);
    outcome := Publish(fs, stage, target, backup, installed, token, fingerprint, hash);
    ghost var published, mark := fs.nodes, |fs.trace|;
    ConfinedOutside(was, ready, published, target, stage, backup);
    forall i | |old(fs.trace)| <= i < mark
      ensures Confined(was, fs.trace[i], target, stage, backup)
      ensures outcome.Deployed? ==> NoGap(was, fs.trace[i], source, target)
    {
      ConfinedOutside(was, ready, fs.trace[i], target, stage, backup);
      if outcome.Deployed? {
        NoGapThroughStage(was, ready, fs.trace[i], source, stage, target);
      }
    }
    CleanUp(fs, stage, backup);
    forall i | mark <= i < |fs.trace|
      ensures Confined(was, fs.trace[i], target, stage, backup)
      ensures outcome.Deployed? ==> NoGap(was, fs.trace[i], source, target)
    {
      ConfinedBeside(was, published, fs.trace[i], target, stage, backup);
      if outcome.Deployed? {
        PublishedStays(was, ready, published, fs.trace[i], source, target, stage, backup);
      }
    }
    ConfinedBeside(was, published, fs.nodes, target, stage, backup);
    TargetStays(was, ready, published, fs.nodes, source, target, stage, backup, installed, outcome);
  }

  lemma TargetStays(was: Nodes, ready: Nodes, published: Nodes, now: Nodes, source: Path, target: Path, stage: Path,
          backup: Path, installed: bool, outcome: Outcome)
    requires IsTree(was) && SameBeside(published, now, stage, backup) && Apart(source, target, stage, backup)
    requires installed <==> IsDirectory(was, target)
    requires outcome.Deployed? ==> SameTree(was, source, ready, stage) && SameTree(ready, stage, published, target)
    requires outcome == RolledBack(true) && installed ==> SameTree(was, target, ready, backup)
    requires outcome == RolledBack(true) && installed ==> SameTree(ready, backup, published, target)
    requires outcome == RolledBack(true) && !installed ==> NothingAt(published, target)
    ensures outcome.Deployed? ==> SameTree(was, source, now, target)
    ensures outcome == RolledBack(true) ==> (SameTree(was, target, now, target) <==> target !in was || installed)
    ensures outcome == RolledBack(true) && !installed ==> NothingAt(now, target)
  {
    hide *;
    match outcome
    case Deployed =>
      PublishedStays(was, ready, published, now, source, target, stage, backup);
    case RolledBack(complete) =>
      if complete {
        RestoredStays(was, ready, published, now, source, target, stage, backup, installed);
      }
    case _ =>
  }

  lemma TargetBeside(a: Nodes, b: Nodes, source: Path, target: Path, stage: Path, backup: Path)
    requires SameBeside(a, b, stage, backup) && Apart(source, target, stage, backup)
    ensures SameTree(a, target, b, target)
    ensures NothingAt(a, target) ==> NothingAt(b, target)
  {
    hide *;
    BesideApart(source, target, stage, backup);
    DisjointSymmetric(target, stage);
    DisjointSymmetric(target, backup);
    BesideKeeps(a, b, stage, backup, target);
    if NothingAt(a, target) {
      NothingInCopy(a, b, target);
    }
  }

  lemma NothingInCopy(a: Nodes, b: Nodes, p: Path)
    requires SameTree(a, p, b, p) && NothingAt(a, p)
    ensures NothingAt(b, p)
  {
    forall q | p <= q
      ensures q !in b
    {
      assert q == p + q[|p|..];
      SameTreeByPath(a, p, b, p, q[|p|..]);
    }
  }

  lemma PublishedStays(was: Nodes, ready: Nodes, published: Nodes, now: Nodes, source: Path, target: Path, stage: Path,
          backup: Path)
    requires SameTree(was, source, ready, stage) && SameTree(ready, stage, published, target)
    requires SameBeside(published, now, stage, backup) && Apart(source, target, stage, backup)
    ensures SameTree(was, source, now, target) && NoGap(was, now, source, target)
  {
    hide *;
    TargetBeside(published, now, source, target, stage, backup);
    SameTreeTransitive(was, source, ready, stage, published, target);
    SameTreeTransitive(was, source, published, target, now, target);
    NoGapDeployed(was, now, source, target);
  }

  lemma RestoredStays(was: Nodes, ready: Nodes, published: Nodes, now: Nodes, source: Path, target: Path, stage: Path,
          backup: Path, installed: bool)
    requires IsTree(was) && SameBeside(published, now, stage, backup) && Apart(source, target, stage, backup)
    requires installed <==> IsDirectory(was, target)
    requires installed ==> SameTree(was, target, ready, backup) && SameTree(ready, backup, published, target)
    requires !installed ==> NothingAt(published, target)
    ensures SameTree(was, target, now, target) <==> target !in was || installed
    ensures !installed ==> NothingAt(now, target)
  {
    hide *;
    TargetBeside(published, now, source, target, stage, backup);
    if installed {
      SameTreeTransitive(was, target, ready, backup, published, target);
      SameTreeTransitive(was, target, published, target, now, target);
    } else {
      NothingIsSame(was, now, target);
    }
  }

  /** The source lies neither in the target nor above it, nor in a working copy. */
  ghost predicate SourceApart(source: Path, target: Path, token: string)
    requires target != []
  {
    Disjoint(source, target) && !(StagePath(target, token) <= source) && !(BackupPath(target, token) <= source)
  }

  /** What holds of every outcome: which tree the target holds, and what else may have changed. */
  ghost predicate Concluded(was: Nodes, now: Nodes, outcome: Outcome, source: Path, target: Path) {
    match outcome
    case SourceIsTarget => now == was && source == target
    case Unchanged => now == was
    case Deployed => SameTree(was, source, now, target)
    case NotStarted => SameTree(was, target, now, target)
    case RolledBack(complete) =>
      complete ==> (SameTree(was, target, now, target) <==> target !in was || IsDirectory(was, target))
  }

  /** deployBundledExtension. */
  method DeployBundledExtension(fs: FileSystem, source: Path, target: Path, token: string,
          hash: Image -> string) returns (outcome: Outcome)
    requires fs.Valid() && target != [] && (source == target || SourceApart(source, target, token))
    requires FreshToken(fs.nodes, source, token) && FreshToken(fs.nodes, target, token)
    modifies fs
    ensures fs.Valid() && old(fs.trace) <= fs.trace
    ensures Concluded(old(fs.nodes), fs.nodes, outcome, source, target)
    ensures outcome.Unchanged? ==> hash(ImageOf(fs.nodes, source)) == hash(ImageOf(fs.nodes, target))
    ensures outcome.Unchanged? && TellsApart(hash) && NoSpecial(fs.nodes, source) && NoSpecial(fs.nodes, target) ==>
      (SameTree(fs.nodes, source, fs.nodes, target) <==> SameHollows(fs.nodes, source, fs.nodes, target))
    ensures (outcome.Deployed? || outcome.RolledBack?) && IsDirectory(old(fs.nodes), target) ==>
      hash(ImageOf(old(fs.nodes), source)) != hash(ImageOf(old(fs.nodes), target))
    ensures forall i :: |old(fs.trace)| <= i < |fs.trace| ==>
      Confined(old(fs.nodes), fs.trace[i], target, StagePath(target, token), BackupPath(target, token))
    ensures outcome.Deployed? ==>
      forall i :: |old(fs.trace)| <= i < |fs.trace| ==> NoGap(old(fs.nodes), fs.trace[i], source, target)
    ensures outcome.RolledBack? && outcome.complete && !IsDirectory(old(fs.nodes), target) ==>
      NothingAt(fs.nodes, target)
    ensures !fs.mayFault && (outcome.Deployed? || outcome.RolledBack?) ==>
      NothingAt(fs.nodes, StagePath(target, token)) && NothingAt(fs.nodes, BackupPath(target, token))
    ensures !fs.mayFault && source != target && Deployable(old(fs.nodes), source, target) ==>
      Reachable(old(fs.nodes), Parent(target)) ==>
      if target in old(fs.nodes) && !IsDirectory(old(fs.nodes), target) then outcome == RolledBack(true)
      else outcome.Deployed? || outcome.Unchanged?
  {
    ghost var was := fs.nodes;
    hide IsTree, NoSpecial, SameTree, SameHollows, TellsApart, NothingAt, Confined, NoGap, FreshToken, Reachable,
        Untouched, Disjoint, Apart, Prepared;
    UntouchedAtFirst(was, target, StagePath(target, token), BackupPath(target, token));
    var fingerprint := TreeFingerprint(fs, source, hash);
    if fingerprint.None? {
      UntouchedParts(was, was, target, StagePath(target, token), BackupPath(target, token));
      return NotStarted;
    }
    if source == target {
      return SourceIsTarget;
    }
    var installed := fs.DirectoryAt(target);
    if installed {
      var current := TreeFingerprint(fs, target, hash);
      if current.None? {
        UntouchedParts(was, was, target, StagePath(target, token), BackupPath(target, token));
        return NotStarted;
      }
      if current == fingerprint {
        UnchangedExactly(fs.nodes, source, target, hash);
        return Unchanged;
      }
    }
    outcome := Replace(fs, source, target, installed, token, fingerprint.value, hash);
  }

  /** deployBundledExtension from its first change to the disk on. */
  method Replace(fs: FileSystem, source: Path, target: Path, installed: bool, token: string, fingerprint: string,
          hash: Image -> string)
    returns (outcome: Outcome)
    requires fs.Valid() && target != [] && SourceApart(source, target, token) && IsDirectory(fs.nodes, source)
    requires FreshToken(fs.nodes, source, token) && FreshToken(fs.nodes, target, token)
    requires installed <==> IsDirectory(fs.nodes, target)
    modifies fs
    ensures fs.Valid() && old(fs.trace) <= fs.trace && (outcome.NotStarted? || outcome.Deployed? || outcome.RolledBack?)
    ensures Concluded(old(fs.nodes), fs.nodes, outcome, source, target)
    ensures forall i :: |old(fs.trace)| <= i < |fs.trace| ==>
      Confined(old(fs.nodes), fs.trace[i], target, StagePath(target, token), BackupPath(target, token))
    ensures outcome.Deployed? ==>
      forall i :: |old(fs.trace)| <= i < |fs.trace| ==> NoGap(old(fs.nodes), fs.trace[i], source, target)
    ensures outcome.RolledBack? && outcome.complete && !installed ==> NothingAt(fs.nodes, target)
    ensures !fs.mayFault && (outcome.Deployed? || outcome.RolledBack?) ==>
      NothingAt(fs.nodes, StagePath(target, token)) && NothingAt(fs.nodes, BackupPath(target, token))
    ensures !fs.mayFault && Deployable(old(fs.nodes), source, target) && Reachable(old(fs.nodes), Parent(target)) ==>
      fingerprint == hash(ImageOf(old(fs.nodes), source)) ==>
      if target in old(fs.nodes) && !installed then outcome == RolledBack(true) else outcome.Deployed?
  {
    ghost var was := fs.nodes;
    var stage, backup := StagePath(target, token), BackupPath(target, token);
    WorkingCopiesApart(source, target, token);
    StageParent(target, token);
    assert stage != [] && backup != [];
    hide IsTree, NoSpecial, SameTree, NothingAt, Confined, NoGap, FreshToken, Reachable, Untouched, Disjoint, Apart,
        Prepared, StagePath, BackupPath;
    var ok := StartUp(fs, source, target, stage, backup, installed, fingerprint, hash);
    ghost var ready, mark := fs.nodes, |fs.trace|;
    forall i | |old(fs.trace)| <= i < mark
      ensures Confined(was, fs.trace[i], target, stage, backup) && NoGap(was, fs.trace[i], source, target)
    {
      UntouchedParts(was, fs.trace[i], target, stage, backup);
      NoGapUntouched(was, fs.trace[i], source, target);
    }
    UntouchedParts(was, ready, target, stage, backup);
    if !ok {
      return NotStarted;
    }
    outcome := Finish(fs, source, target, stage, backup, installed, token, fingerprint, hash, was);
  }
}
