/** extractZipFile of src/zipUtils.js on a file system. */
module ZipExtraction {
  import opened Bytes
  import opened Crc32
  import opened Disk
  import opened Paths
  import opened Wrappers
  import opened ZipExtract
  import opened ZipFormat
  import opened ZipReader
  import opened ZipRoundTrip
  import opened ZipWriter

  datatype WrittenFile = WrittenFile(path: string, source: string, conflict: bool)

  datatype SkippedFile = SkippedFile(source: string, path: string, reason: SkipReason)

  datatype Extraction = Extraction(stripPrefix: string, written: seq<WrittenFile>, skipped: seq<SkippedFile>)

  datatype ExtractError =
    | Unreadable(error: ReadError)
    | UnsafeTarget
    | TargetExists(path: string)
    | TargetIsDirectory(path: string)
    | DiskError

  /** What becomes of one entry of the archive. */
  datatype Fate = IsDirectoryEntry | Written(conflict: bool) | Skipped(reason: SkipReason)

  function Destination(root: Path, rel: string): (p: Path)
    ensures root < p
  {
    root + Split(rel)
  }

  lemma DestinationIsInjective(root: Path, a: string, b: string)
    requires Destination(root, a) == Destination(root, b)
    ensures a == b
  {
    assert Split(a) == Destination(root, a)[|root|..];
    assert Split(b) == Destination(root, b)[|root|..];
    JoinSplit(a);
    JoinSplit(b);
  }

  // ------------------------------------------------------------ what an extraction may change

  ghost predicate Above(q: Path, targets: set<Path>) {
    exists t :: t in targets && q < t
  }

  /** From `a` to `b` only the targets changed, and only directories leading to them are new. */
  ghost predicate Inside(a: Nodes, b: Nodes, targets: set<Path>) {
    && (forall q :: q in a && q !in targets ==> q in b && b[q] == a[q])
    && (forall q :: q in b && q !in a && q !in targets ==> b[q].Directory? && Above(q, targets))
  }

  lemma InsideReflexive(a: Nodes, targets: set<Path>)
    ensures Inside(a, a, targets)
  {}

  lemma InsideMore(a: Nodes, b: Nodes, c: Nodes, targets: set<Path>, t: Path)
    requires Inside(a, b, targets) && Inside(b, c, {t})
    ensures Inside(a, c, targets + {t})
  {
    forall q | q in c && q !in a && q !in targets + {t}
      ensures c[q].Directory? && Above(q, targets + {t})
    {
      if q in b {
        assert Above(q, targets);
      } else {
        assert Above(q, {t});
      }
    }
  }

  lemma InsideLarger(a: Nodes, b: Nodes, targets: set<Path>, larger: set<Path>)
    requires Inside(a, b, targets) && targets <= larger
    ensures Inside(a, b, larger)
  {
    forall q | q in b && q !in a && q !in larger
      ensures b[q].Directory? && Above(q, larger)
    {
      assert Above(q, targets);
    }
  }

  lemma InsideAt(a: Nodes, b: Nodes, targets: set<Path>, q: Path)
    requires Inside(a, b, targets) && q !in targets
    ensures q in a ==> q in b && b[q] == a[q]
    ensures q in b && q !in a ==> b[q].Directory? && Above(q, targets)
  {}

  /** When every target lies below the root, so does every change. */
  lemma InsideTheRoot(a: Nodes, b: Nodes, targets: set<Path>, root: Path)
    requires Inside(a, b, targets) && forall t :: t in targets ==> root < t
    ensures forall q :: !(root <= q) && q in a ==> q in b && b[q] == a[q]
    ensures forall q :: !(root <= q) && q in b && q !in a ==> b[q].Directory? && q < root
  {
    forall q | !(root <= q) && q in b && q !in a
      ensures b[q].Directory? && q < root
    {
      var t :| t in targets && q < t;
      assert root <= t;
      ComparablePrefixes(root, q, t);
    }
  }

  lemma ComparablePrefixes(p: Path, q: Path, t: Path)
    requires p <= t && q <= t
    ensures p <= q || q <= p
  {
    if |p| <= |q| {
      assert p == t[..|p|] == q[..|p|];
    } else {
      assert q == t[..|q|] == p[..|q|];
    }
  }

  // ------------------------------------------------------------ one entry

  /** Every existing node on the way to `p` is a directory, and nothing is at `p`. */
  ghost predicate Vacant(nodes: Nodes, p: Path) {
    && p !in nodes
    && forall n :: 0 <= n < |p| && p[..n] in nodes ==> IsDirectory(nodes, p[..n])
  }

  /** What `path.resolve` makes of the parts of a relative path. */
  function Resolve(at: Path, parts: seq<string>): Path
    decreases |parts|
  {
    if parts == [] then at
    else if parts[0] == "" || parts[0] == "." then Resolve(at, parts[1..])
    else if parts[0] == ".." then Resolve(if at == [] then [] else Parent(at), parts[1..])
    else Resolve(at + [parts[0]], parts[1..])
  }

  /** An absolute path leaves the root behind. */
  function Absolute(root: Path, rel: string): Path {
    var s := Slashes(rel);
    Resolve(if s != "" && s[0] == '/' then [] else root, Split(s))
  }

  lemma {:induction false} ResolvesPlain(at: Path, parts: seq<string>)
    requires forall i :: 0 <= i < |parts| ==> parts[i] != "" && parts[i] != "." && parts[i] != ".."
    ensures Resolve(at, parts) == at + parts
    decreases |parts|
  {
    if parts != [] {
      ResolvesPlain(at + [parts[0]], parts[1..]);
      assert at + [parts[0]] + parts[1..] == at + parts;
    }
  }

  /** Empty parts and `.` do not matter, and `..` takes back the part before it. */
  lemma {:induction false} ResolvesWithout(at: Path, parts: seq<string>)
    ensures Resolve(at, parts) == Resolve(at, Filter(Plain, parts))
    decreases |parts|
  {
    if parts != [] {
      var first, rest := parts[0], parts[1..];
      var next := if first == ".." then (if at == [] then [] else Parent(at)) else at + [first];
      ResolvesWithout(if Plain(first) then next else at, rest);
      assert Plain(first) ==> ([first] + Filter(Plain, rest))[1..] == Filter(Plain, rest);
    }
  }

  lemma ResolvesBack(at: Path, part: string, rest: seq<string>)
    requires Inner(part)
    ensures Resolve(at, [part, ".."] + rest) == Resolve(at, rest)
  {
    assert ([part, ".."] + rest)[1..] == [".."] + rest && ([".."] + rest)[1..] == rest;
    assert Parent(at + [part]) == at;
  }

  /** The target of an entry resolves to its place below the root, so `isInside` always accepts it. */
  lemma TargetResolves(file: ZipFile, prefix: string, options: Options, root: Path)
    requires Target(file, prefix, options).Some?
    ensures var rel := Target(file, prefix, options).value;
      Absolute(root, rel) == Destination(root, rel) && root < Absolute(root, rel)
  {
    var rel := Target(file, prefix, options).value;
    UnskippedParts(file.path, prefix, options);
    TargetIsJoin(file.path, prefix);
    CleanFilters(TargetParts(file.path, prefix));
    TargetStaysBelow(file, prefix, options);
    hide TargetParts, Split, ShouldSkip, NormalizeApplyPath, Slashes, CleanParts;
    ResolvesPlain(root, Split(rel));
  }

  /** No component below the root is a link, and those above `p` are directories, as far as they exist. */
  ghost predicate Clear(nodes: Nodes, root: Path, p: Path) {
    forall m :: |root| < m <= |p| && p[..m] in nodes ==>
      !nodes[p[..m]].Special? && (m < |p| ==> nodes[p[..m]].Directory?)
  }

  lemma VacantIsClear(nodes: Nodes, root: Path, p: Path)
    requires Vacant(nodes, p)
    ensures Clear(nodes, root, p)
  {
    assert p[..|p|] == p;
    forall m | |root| < m <= |p| && p[..m] in nodes
      ensures !nodes[p[..m]].Special? && (m < |p| ==> nodes[p[..m]].Directory?)
    {
      assert m < |p| ==> IsDirectory(nodes, p[..m]);
    }
  }

  /** resolveSafeDescendant of src/pathSafety.js: refuses paths outside the root, and links and non-directory parents
      below it. */
  method ResolveSafe(fs: FileSystem, root: Path, rel: string) returns (absolute: Option<Path>)
    requires fs.Valid()
    ensures absolute.Some? ==>
      absolute.value == Absolute(root, rel) && root <= absolute.value && Clear(fs.nodes, root, absolute.value)
    ensures !fs.mayFault ==>
      (absolute.Some? <==> root <= Absolute(root, rel) && Clear(fs.nodes, root, Absolute(root, rel)))
  {
    if fs.mayFault {
      if * {
        return None;
      }
    }
    hide Absolute;
    var p := Absolute(root, rel);
    if !(root <= p) {
      return None;
    }
    var n := |root| + 1;
    while n <= |p|
      invariant |root| < n <= |p| + 1
      invariant forall m :: |root| < m < n ==>
        p[..m] in fs.nodes && !fs.nodes[p[..m]].Special? && (m < |p| ==> fs.nodes[p[..m]].Directory?)
    {
      if p[..n] !in fs.nodes {
        NothingPast(fs.nodes, p, n);
        return Some(p);
      }
      if fs.nodes[p[..n]].Special? || (n < |p| && !fs.nodes[p[..n]].Directory?) {
        return None;
      }
      n := n + 1;
    }
    absolute := Some(p);
  }

  /** Below a missing component there is nothing. */
  lemma NothingPast(nodes: Nodes, p: Path, n: nat)
    requires IsTree(nodes) && n <= |p| && p[..n] !in nodes
    ensures forall m :: n <= m <= |p| ==> p[..m] !in nodes
  {
    forall m | n <= m <= |p|
      ensures p[..m] !in nodes
    {
      assert p[..m][..n] == p[..n];
      if m > n && p[..m] in nodes {
        AncestorsAreDirectories(nodes, p[..m], n);
      }
    }
  }

  ghost predicate MayOverwrite(options: Options, rel: string) {
    && !options.dryRun && options.conflictPolicy == Overwrite
    && (NormalizeSelectedPaths(options.selectedConflictPaths).Some? ==>
      rel in NormalizeSelectedPaths(options.selectedConflictPaths).value)
  }

  lemma GrowsInside(a: Nodes, b: Nodes, p: Path)
    requires p != [] && Grows(a, b, Parent(p))
    ensures Inside(a, b, {p})
  {
    forall q | q in b && q !in a && q !in {p}
      ensures b[q].Directory? && Above(q, {p})
    {
      assert q <= Parent(p) && Parent(p) < p && p in {p};
    }
  }

  lemma WriteInside(a: Nodes, b: Nodes, c: Nodes, p: Path)
    requires Inside(a, b, {p})
    requires forall q :: q != p ==> (q in c <==> q in b) && (q in c ==> c[q] == b[q])
    ensures Inside(a, c, {p})
  {
    forall q | q in c && q !in a && q !in {p}
      ensures c[q].Directory? && Above(q, {p})
    {
      assert q in b;
    }
  }

  lemma VacantParents(nodes: Nodes, p: Path)
    requires p != [] && Vacant(nodes, p)
    ensures forall n :: 0 <= n <= |Parent(p)| && Parent(p)[..n] in nodes ==> IsDirectory(nodes, Parent(p)[..n])
  {
    forall n | 0 <= n <= |Parent(p)| && Parent(p)[..n] in nodes
      ensures IsDirectory(nodes, Parent(p)[..n])
    {
      assert Parent(p)[..n] == p[..n];
    }
  }

  lemma StillVacant(a: Nodes, b: Nodes, p: Path)
    requires p != [] && Vacant(a, p) && Grows(a, b, Parent(p))
    ensures Vacant(b, p)
  {
    forall n | 0 <= n < |p| && p[..n] in b
      ensures IsDirectory(b, p[..n])
    {
      assert p[..n] in a ==> IsDirectory(a, p[..n]);
    }
  }

  lemma ParentMade(nodes: Nodes, p: Path)
    requires p != [] && forall n :: 0 <= n <= |Parent(p)| ==> IsDirectory(nodes, Parent(p)[..n])
    ensures IsDirectory(nodes, Parent(p))
  {
    assert Parent(p)[..|Parent(p)|] == Parent(p);
  }

  /** The parents are made, the path is checked again, and the file is written. */
  method WriteEntry(fs: FileSystem, root: Path, rel: string, p: Path, data: Buffer) returns (ok: bool)
    requires fs.Valid() && root < p == Absolute(root, rel)
    modifies fs
    ensures fs.Valid() && old(fs.trace) <= fs.trace
    ensures Inside(old(fs.nodes), fs.nodes, {p})
    ensures forall i :: |old(fs.trace)| <= i < |fs.trace| ==> Inside(old(fs.nodes), fs.trace[i], {p})
    ensures ok ==> p in fs.nodes && fs.nodes[p] == RegularFile(data)
    ensures !fs.mayFault ==> (ok <==> Vacant(old(fs.nodes), p) || Replaceable(old(fs.nodes), root, p))
  {
    ghost var was := fs.nodes;
    hide IsTree, Inside, Grows, Vacant, Absolute, Clear, Replaceable;
    if Vacant(was, p) {
      VacantParents(was, p);
    }
    if Replaceable(was, root, p) {
      ReplaceableParents(was, root, p);
    }
    ok := fs.MakeDirectories(Parent(p));
    ghost var made, mark := fs.nodes, |fs.trace|;
    forall i | |old(fs.trace)| <= i < mark
      ensures Inside(was, fs.trace[i], {p})
    {
      GrowsInside(was, fs.trace[i], p);
    }
    GrowsInside(was, made, p);
    if ok {
      if Vacant(was, p) {
        StillVacant(was, made, p);
        ParentMade(made, p);
        NotThere(made, p);
        VacantIsClear(made, root, p);
      }
      if Replaceable(was, root, p) {
        StillReplaceable(was, made, root, p);
        ParentMade(made, p);
      }
      if !Vacant(was, p) && !Replaceable(was, root, p) {
        NeverReplaceable(was, made, root, p);
      }
      var again := ResolveSafe(fs, root, rel);
      ok := again.Some?;
    }
    if ok {
      ok := fs.WriteFile(p, data);
      WriteInside(was, made, fs.nodes, p);
    }
  }

  /** A regular file with nothing but directories on the way to it. */
  ghost predicate Replaceable(nodes: Nodes, root: Path, p: Path) {
    p in nodes && nodes[p].RegularFile? && Clear(nodes, root, p)
  }

  lemma ReplaceableParents(nodes: Nodes, root: Path, p: Path)
    requires IsTree(nodes) && p != [] && Replaceable(nodes, root, p)
    ensures forall n :: 0 <= n <= |Parent(p)| && Parent(p)[..n] in nodes ==> IsDirectory(nodes, Parent(p)[..n])
    ensures p in nodes && nodes[p].RegularFile?
  {
    forall n | 0 <= n <= |Parent(p)|
      ensures IsDirectory(nodes, Parent(p)[..n])
    {
      assert Parent(p)[..n] == p[..n];
      AncestorsAreDirectories(nodes, p, n);
    }
  }

  lemma StillReplaceable(a: Nodes, b: Nodes, root: Path, p: Path)
    requires p != [] && Replaceable(a, root, p) && Grows(a, b, Parent(p))
    requires forall n :: 0 <= n <= |Parent(p)| ==> IsDirectory(b, Parent(p)[..n])
    ensures p in b && b[p].RegularFile? && Clear(b, root, p)
  {
    forall m | |root| < m <= |p| && p[..m] in b
      ensures !b[p[..m]].Special? && (m < |p| ==> b[p[..m]].Directory?)
    {
      if m < |p| {
        assert p[..m] == Parent(p)[..m];
      } else {
        assert p[..m] == p;
      }
    }
  }

  /** What is not free and no regular file before the parents are made is neither afterwards. */
  lemma NeverReplaceable(a: Nodes, b: Nodes, root: Path, p: Path)
    requires root < p && !Vacant(a, p) && !Replaceable(a, root, p) && Grows(a, b, Parent(p))
    requires forall n :: 0 <= n <= |Parent(p)| ==> IsDirectory(b, Parent(p)[..n])
    ensures Clear(b, root, p) ==> IsDirectory(b, p)
  {
    assert forall n :: 0 <= n < |p| ==> p[..n] == Parent(p)[..n];
    assert p in a;
    assert p[..|p|] == p;
  }

  lemma NotThere(nodes: Nodes, p: Path)
    requires Vacant(nodes, p)
    ensures p !in nodes
  {}

  /** How an entry ends on a disk without faults: which error comes first, which conflict keeps it back, and that it is
      written otherwise. */
  ghost predicate EntryEnds(was: Nodes, root: Path, rel: string, options: Options, data: Result<Buffer, ReadError>,
          r: Result<Fate, ExtractError>) {
    var p := Destination(root, rel);
    var there := p in was;
    var chosen := NormalizeSelectedPaths(options.selectedConflictPaths);
    && (!Clear(was, root, p) ==> r == Failure(UnsafeTarget))
    && (Clear(was, root, p) && options.dryRun ==> r == IfRead(data, Success(Written(there))))
    && (Clear(was, root, p) && !options.dryRun && there && options.conflictPolicy == Error ==>
      r == Failure(TargetExists(rel)))
    && (Clear(was, root, p) && !options.dryRun && there && options.conflictPolicy == Skip ==>
      r == Success(Skipped(ConflictSkipped)))
    && (Clear(was, root, p) && !options.dryRun && there && options.conflictPolicy == Overwrite
         && chosen.Some? && rel !in chosen.value ==>
      r == Success(Skipped(ConflictSkipped)))
    && (Clear(was, root, p) && there && MayOverwrite(options, rel) && was[p].Directory? ==>
      r == Failure(TargetIsDirectory(rel)))
    && (Clear(was, root, p) && there && MayOverwrite(options, rel) && was[p].RegularFile? ==>
      r == IfRead(data, Success(Written(true))))
    && (Clear(was, root, p) && !there && !options.dryRun ==>
      r == IfRead(data, if Vacant(was, p) then Success(Written(false)) else Failure(DiskError)))
  }

  /** An entry that does not read is an error of its own. */
  ghost function IfRead(data: Result<Buffer, ReadError>, r: Result<Fate, ExtractError>): Result<Fate, ExtractError> {
    match data
    case Failure(e) => Failure(Unreadable(e))
    case Success(_) => r
  }

  /** One regular, unskipped entry of the extraction loop. */
  method ExtractEntry(fs: FileSystem, platform: Platform, buffer: Buffer, root: Path, file: ZipFile, rel: string,
          options: Options)
    returns (r: Result<Fate, ExtractError>)
    requires fs.Valid() && Absolute(root, rel) == Destination(root, rel)
    modifies fs
    ensures fs.Valid() && old(fs.trace) <= fs.trace
    ensures Inside(old(fs.nodes), fs.nodes, {Destination(root, rel)})
    ensures forall i :: |old(fs.trace)| <= i < |fs.trace| ==>
      Inside(old(fs.nodes), fs.trace[i], {Destination(root, rel)})
    ensures r.Success? ==> Clear(old(fs.nodes), root, Destination(root, rel))
    ensures options.dryRun || (Destination(root, rel) in old(fs.nodes) && !MayOverwrite(options, rel)) ==>
      fs.nodes == old(fs.nodes) && fs.trace == old(fs.trace)
    ensures r.Success? ==>
      r.value.Written?
        || (r.value == Skipped(ConflictSkipped) && Destination(root, rel) in old(fs.nodes)
          && !MayOverwrite(options, rel))
    ensures r.Success? && r.value.Written? ==>
      EntryData(platform, buffer, file).Success? && (r.value.conflict <==> Destination(root, rel) in old(fs.nodes))
    ensures r.Success? && r.value.Written? && !options.dryRun ==>
      Destination(root, rel) in fs.nodes
        && fs.nodes[Destination(root, rel)] == RegularFile(EntryData(platform, buffer, file).value)
    ensures !fs.mayFault ==> EntryEnds(old(fs.nodes), root, rel, options, EntryData(platform, buffer, file), r)
    ensures !fs.mayFault && Vacant(old(fs.nodes), Destination(root, rel)) ==>
      EntryData(platform, buffer, file).Success? ==> r == Success(Written(false))
  {
    var p := Destination(root, rel);
    ghost var was := fs.nodes;
    hide IsTree, Inside, EntryData, NormalizeApplyPath, Destination, Absolute, Clear;
    InsideReflexive(fs.nodes, {p});
    if Vacant(fs.nodes, p) {
      NotThere(fs.nodes, p);
      VacantIsClear(fs.nodes, root, p);
    }
    hide Vacant;
    var safe := ResolveSafe(fs, root, rel);
    if safe.None? {
      return Failure(UnsafeTarget);
    }
    var conflict := fs.Exists(p);
    var data;
    if options.dryRun {
      data := EntryData(platform, buffer, file);
      if data.Failure? {
        return Failure(Unreadable(data.error));
      }
    }
    if !options.dryRun && conflict {
      if options.conflictPolicy == Error {
        return Failure(TargetExists(rel));
      }
      var selected := NormalizeSelectedPaths(options.selectedConflictPaths);
      if options.conflictPolicy == Skip || (selected.Some? && rel !in selected.value) {
        return Success(Skipped(ConflictSkipped));
      }
      if fs.DirectoryAt(p) {
        return Failure(TargetIsDirectory(rel));
      }
    }
    if !options.dryRun {
      data := EntryData(platform, buffer, file);
      if data.Failure? {
        return Failure(Unreadable(data.error));
      }
      var ok := WriteEntry(fs, root, rel, p, data.value);
      if !ok {
        return Failure(DiskError);
      }
    }
    r := Success(Written(conflict));
  }

  // ------------------------------------------------------------ the whole archive

  /** The fate is the one the extraction map assigns, and a conflict only keeps an entry back that has a target. */
  ghost predicate FateFits(file: ZipFile, fate: Fate, prefix: string, options: Options) {
    match fate
    case IsDirectoryEntry => file.directory
    case Written(_) => Target(file, prefix, options).Some?
    case Skipped(reason) =>
      if reason == ConflictSkipped then Target(file, prefix, options).Some?
      else !file.directory && ShouldSkip(NormalizeApplyPath(file.path, prefix), options) == Some(reason)
  }

  function WrittenOf(files: seq<ZipFile>, fates: seq<Fate>, prefix: string): seq<WrittenFile>
    requires |files| == |fates|
  {
    if files == [] then []
    else
      var n := |files| - 1;
      WrittenOf(files[..n], fates[..n], prefix)
      + if fates[n].Written? then
        [WrittenFile(NormalizeApplyPath(files[n].path, prefix), files[n].path, fates[n].conflict)] else []
  }

  function SkippedOf(files: seq<ZipFile>, fates: seq<Fate>, prefix: string): seq<SkippedFile>
    requires |files| == |fates|
  {
    if files == [] then []
    else
      var n := |files| - 1;
      SkippedOf(files[..n], fates[..n], prefix)
      + if fates[n].Skipped? then
        [SkippedFile(files[n].path, NormalizeApplyPath(files[n].path, prefix), fates[n].reason)] else []
  }

  lemma OneMore(files: seq<ZipFile>, fates: seq<Fate>, n: nat, fate: Fate, prefix: string)
    requires n < |files| && |fates| == n
    ensures files[..n + 1][..n] == files[..n] && (fates + [fate])[..n] == fates && files[..n + 1] != []
    ensures WrittenOf(files[..n + 1], fates + [fate], prefix) == WrittenOf(files[..n], fates, prefix)
      + if fate.Written? then [WrittenFile(NormalizeApplyPath(files[n].path, prefix), files[n].path, fate.conflict)]
        else []
    ensures SkippedOf(files[..n + 1], fates + [fate], prefix) == SkippedOf(files[..n], fates, prefix)
      + if fate.Skipped? then [SkippedFile(files[n].path, NormalizeApplyPath(files[n].path, prefix), fate.reason)]
        else []
  {
    hide NormalizeApplyPath;
    assert files[..n + 1][..n] == files[..n] && (fates + [fate])[..n] == fates;
  }

  /** The paths of the entries with a target; of those alone that may replace what is there, when `replacing`. */
  ghost function Destinations(files: seq<ZipFile>, prefix: string, options: Options, root: Path,
          replacing: bool): set<Path> {
    set i | 0 <= i < |files| && Target(files[i], prefix, options).Some?
      && (replacing ==> MayOverwrite(options, Target(files[i], prefix, options).value)) ::
      Destination(root, Target(files[i], prefix, options).value)
  }

  lemma MoreDestinations(files: seq<ZipFile>, n: nat, prefix: string, options: Options, root: Path, replacing: bool)
    requires n < |files|
    ensures Destinations(files[..n], prefix, options, root, replacing) <= Destinations(files[..n + 1], prefix, options,
        root, replacing)
    ensures Target(files[n], prefix, options).Some? ==>
      (replacing ==> MayOverwrite(options, Target(files[n], prefix, options).value)) ==>
      Destination(root, Target(files[n], prefix, options).value) in Destinations(files[..n + 1], prefix, options, root,
          replacing)
  {
    hide Target, Destination, MayOverwrite;
    forall p | p in Destinations(files[..n], prefix, options, root, replacing)
      ensures p in Destinations(files[..n + 1], prefix, options, root, replacing)
    {
      var i :| 0 <= i < n && Target(files[..n][i], prefix, options).Some?
        && (replacing ==> MayOverwrite(options, Target(files[..n][i], prefix, options).value))
        && p == Destination(root, Target(files[..n][i], prefix, options).value);
      assert files[..n + 1][i] == files[..n][i];
    }
    assert files[..n + 1][n] == files[n];
  }

  /** Everything of `a` that is not among the paths is in `b` as it was. */
  ghost predicate Preserved(a: Nodes, b: Nodes, replaced: set<Path>) {
    forall q :: q in a && q !in replaced ==> q in b && b[q] == a[q]
  }

  /** What every state of an extraction keeps. */
  ghost predicate Orderly(a: Nodes, b: Nodes, files: seq<ZipFile>, prefix: string, options: Options, root: Path) {
    && Inside(a, b, Destinations(files, prefix, options, root, false))
    && Preserved(a, b, Destinations(files, prefix, options, root, true))
    && (options.dryRun ==> a == b)
  }

  lemma OrderlyAtFirst(a: Nodes, files: seq<ZipFile>, prefix: string, options: Options, root: Path)
    ensures Orderly(a, a, files, prefix, options, root)
  {
    hide Destinations;
    InsideReflexive(a, Destinations(files, prefix, options, root, false));
  }

  lemma PreservedLarger(a: Nodes, b: Nodes, replaced: set<Path>, larger: set<Path>)
    requires Preserved(a, b, replaced) && replaced <= larger
    ensures Preserved(a, b, larger)
  {}

  lemma PreservedMore(a: Nodes, b: Nodes, c: Nodes, replaced: set<Path>, p: Path)
    requires Preserved(a, b, replaced) && Inside(b, c, {p})
    requires p in b ==> p in replaced || c == b
    ensures Preserved(a, c, replaced)
  {}

  /** An entry that writes nothing, or a directory entry. */
  lemma OrderlySkip(a: Nodes, b: Nodes, files: seq<ZipFile>, n: nat, prefix: string, options: Options, root: Path)
    requires n < |files| && Orderly(a, b, files[..n], prefix, options, root)
    ensures Orderly(a, b, files[..n + 1], prefix, options, root)
  {
    hide Destinations, Inside, Preserved;
    MoreDestinations(files, n, prefix, options, root, false);
    MoreDestinations(files, n, prefix, options, root, true);
    InsideLarger(a, b, Destinations(files[..n], prefix, options, root, false),
        Destinations(files[..n + 1], prefix, options, root, false));
    PreservedLarger(a, b, Destinations(files[..n], prefix, options, root, true),
        Destinations(files[..n + 1], prefix, options, root, true));
  }

  lemma OrderlyIs(a: Nodes, b: Nodes, files: seq<ZipFile>, prefix: string, options: Options, root: Path)
    ensures Orderly(a, b, files, prefix, options, root) <==>
      && Inside(a, b, Destinations(files, prefix, options, root, false))
      && Preserved(a, b, Destinations(files, prefix, options, root, true))
      && (options.dryRun ==> a == b)
  {}

  lemma OrderlyStep(a: Nodes, b: Nodes, c: Nodes, files: seq<ZipFile>, n: nat, prefix: string, options: Options,
          root: Path)
    requires n < |files| && Orderly(a, b, files[..n], prefix, options, root) && Target(files[n], prefix, options).Some?
    requires var rel := Target(files[n], prefix, options).value;
      && Inside(b, c, {Destination(root, rel)})
      && (options.dryRun || (Destination(root, rel) in b && !MayOverwrite(options, rel)) ==> c == b)
    ensures Orderly(a, c, files[..n + 1], prefix, options, root)
  {
    hide *;
    var p := Destination(root, Target(files[n], prefix, options).value);
    OrderlySkip(a, b, files, n, prefix, options, root);
    OrderlyIs(a, b, files[..n + 1], prefix, options, root);
    OrderlyIs(a, c, files[..n + 1], prefix, options, root);
    MoreDestinations(files, n, prefix, options, root, false);
    MoreDestinations(files, n, prefix, options, root, true);
    var all, replaced :=
      Destinations(files[..n + 1], prefix, options, root, false),
          Destinations(files[..n + 1], prefix, options, root, true);
    InsideMore(a, b, c, all, p);
    assert all + {p} == all;
    PreservedMore(a, b, c, replaced, p);
  }

  /** The entry's bytes are on disk under its target. */
  ghost predicate Landed(nodes: Nodes, platform: Platform, buffer: Buffer, root: Path, file: ZipFile, prefix: string,
          options: Options) {
    && Target(file, prefix, options).Some?
    && EntryData(platform, buffer, file).Success?
    && (!options.dryRun ==>
      var p := Destination(root, Target(file, prefix, options).value);
      p in nodes && nodes[p] == RegularFile(EntryData(platform, buffer, file).value))
  }

  lemma DifferentDestinations(files: seq<ZipFile>, i: nat, j: nat, prefix: string, options: Options, root: Path)
    requires Accepted(files) && SoundPrefix(files, prefix) && i < |files| && j < |files| && i != j
    requires Target(files[i], prefix, options).Some? && Target(files[j], prefix, options).Some?
    ensures Destination(root, Target(files[i], prefix, options).value) != Destination(root,
        Target(files[j], prefix, options).value)
  {
    AcceptedDiffer(files, i, j);
    hide Destination, Target, SoundPrefix, Accepted;
    var x, y := Target(files[i], prefix, options).value, Target(files[j], prefix, options).value;
    if Destination(root, x) == Destination(root, y) {
      DestinationIsInjective(root, x, y);
      EqualTargets(files, i, j, prefix, options);
    }
  }

  lemma AcceptedDiffer(files: seq<ZipFile>, i: nat, j: nat)
    requires Accepted(files) && i < |files| && j < |files| && i != j
    ensures CanonicalZipPath(files[i].path) != CanonicalZipPath(files[j].path)
  {
    hide CanonicalZipPath, IsUnsafeZipPath;
  }

  lemma StillLanded(a: Nodes, b: Nodes, platform: Platform, buffer: Buffer, root: Path, files: seq<ZipFile>, i: nat,
          j: nat, prefix: string, options: Options)
    requires Accepted(files) && SoundPrefix(files, prefix) && i < |files| && j < |files| && i != j
    requires Landed(a, platform, buffer, root, files[i], prefix, options) && Target(files[j], prefix, options).Some?
    requires Inside(a, b, {Destination(root, Target(files[j], prefix, options).value)})
    ensures Landed(b, platform, buffer, root, files[i], prefix, options)
  {
    hide Destination, Target, SoundPrefix, Accepted, Inside, EntryData;
    DifferentDestinations(files, i, j, prefix, options, root);
    InsideAt(a, b, {Destination(root, Target(files[j], prefix, options).value)},
        Destination(root, Target(files[i], prefix, options).value));
  }

  /** The entry reads, and its target is free or a file that may be replaced. */
  ghost predicate Ready(nodes: Nodes, platform: Platform, buffer: Buffer, root: Path, file: ZipFile, prefix: string,
          options: Options) {
    Target(file, prefix, options).Some? ==>
      && Open(nodes, root, Target(file, prefix, options).value, options)
      && EntryData(platform, buffer, file).Success?
  }

  ghost predicate Open(nodes: Nodes, root: Path, rel: string, options: Options) {
    || Vacant(nodes, Destination(root, rel))
    || (Replaceable(nodes, root, Destination(root, rel)) && (options.dryRun || MayOverwrite(options, rel)))
  }

  /** Nothing stands in the way of the extraction: all targets are free or may be replaced, none lies below another, and
      all entries read. */
  ghost predicate Extractable(nodes: Nodes, platform: Platform, buffer: Buffer, root: Path, files: seq<ZipFile>,
          prefix: string, options: Options) {
    && (forall i :: 0 <= i < |files| ==> Ready(nodes, platform, buffer, root, files[i], prefix, options))
    && (forall i, j :: 0 <= i < |files| && 0 <= j < |files| ==> NotBelow(files[i], files[j], root, prefix, options))
  }

  ghost predicate NotBelow(a: ZipFile, b: ZipFile, root: Path, prefix: string, options: Options) {
    Target(a, prefix, options).Some? && Target(b, prefix, options).Some? ==>
      !(Destination(root, Target(a, prefix, options).value) < Destination(root, Target(b, prefix, options).value))
  }

  lemma VacantBeside(a: Nodes, b: Nodes, p: Path, q: Path)
    requires Vacant(a, p) && Inside(a, b, {q}) && p != q && !(p < q) && !(q < p)
    ensures Vacant(b, p)
  {
    assert Above(p, {q}) ==> p < q;
    forall n | 0 <= n < |p| && p[..n] in b
      ensures IsDirectory(b, p[..n])
    {
      assert p[..n] < p;
      assert p[..n] in a ==> IsDirectory(a, p[..n]);
    }
  }

  lemma ReplaceableBeside(a: Nodes, b: Nodes, root: Path, p: Path, q: Path)
    requires Replaceable(a, root, p) && Inside(a, b, {q}) && p != q && !(p < q) && !(q < p)
    ensures Replaceable(b, root, p)
  {
    forall m | |root| < m <= |p| && p[..m] in b
      ensures !b[p[..m]].Special? && (m < |p| ==> b[p[..m]].Directory?)
    {
      assert p[..|p|] == p;
      assert m < |p| ==> p[..m] < p;
    }
  }

  lemma OpenBeside(a: Nodes, b: Nodes, root: Path, rel: string, q: Path, options: Options)
    requires Open(a, root, rel, options) && Inside(a, b, {q})
    requires var p := Destination(root, rel); p != q && !(p < q) && !(q < p)
    ensures Open(b, root, rel, options)
    ensures Destination(root, rel) in b <==> Destination(root, rel) in a
  {
    var p := Destination(root, rel);
    hide Destination, Inside, Clear, MayOverwrite;
    if Vacant(a, p) {
      VacantBeside(a, b, p, q);
    } else {
      ReplaceableBeside(a, b, root, p, q);
    }
  }

  /** There is something at the entry's target in both states or in neither. */
  ghost predicate SameThere(a: Nodes, b: Nodes, root: Path, file: ZipFile, prefix: string, options: Options) {
    Target(file, prefix, options).Some? ==>
      var p := Destination(root, Target(file, prefix, options).value);
      p in a <==> p in b
  }

  lemma StillReady(a: Nodes, b: Nodes, platform: Platform, buffer: Buffer, root: Path, files: seq<ZipFile>, i: nat,
          j: nat, prefix: string, options: Options)
    requires Accepted(files) && SoundPrefix(files, prefix) && i < |files| && j < |files| && i != j
    requires Ready(a, platform, buffer, root, files[i], prefix, options) && Target(files[j], prefix, options).Some?
    requires Inside(a, b, {Destination(root, Target(files[j], prefix, options).value)})
    requires NotBelow(files[i], files[j], root, prefix, options) && NotBelow(files[j], files[i], root, prefix, options)
    ensures Ready(b, platform, buffer, root, files[i], prefix, options)
    ensures SameThere(a, b, root, files[i], prefix, options)
  {
    hide Destination, Target, SoundPrefix, Accepted, Inside, Open, EntryData;
    if Target(files[i], prefix, options).Some? {
      DifferentDestinations(files, i, j, prefix, options, root);
      OpenBeside(a, b, root, Target(files[i], prefix, options).value,
          Destination(root, Target(files[j], prefix, options).value), options);
    }
  }

  /** An entry has met its fate: written means that its bytes are on disk, and a conflict kept it back only where the
      options do not allow to replace what is there. */
  ghost predicate Settled(nodes: Nodes, platform: Platform, buffer: Buffer, root: Path, file: ZipFile, fate: Fate,
          prefix: string, options: Options) {
    && FateFits(file, fate, prefix, options)
    && (fate.Written? ==> Landed(nodes, platform, buffer, root, file, prefix, options))
    && (fate == Skipped(ConflictSkipped) ==> !MayOverwrite(options, Target(file, prefix, options).value))
  }

  lemma StillSettled(a: Nodes, b: Nodes, platform: Platform, buffer: Buffer, root: Path, files: seq<ZipFile>,
          fates: seq<Fate>, j: nat, prefix: string, options: Options)
    requires Accepted(files) && SoundPrefix(files, prefix) && j < |files| && |fates| == j
    requires forall i :: 0 <= i < j ==> Settled(a, platform, buffer, root, files[i], fates[i], prefix, options)
    requires Target(files[j], prefix, options).Some?
    requires Inside(a, b, {Destination(root, Target(files[j], prefix, options).value)})
    ensures forall i :: 0 <= i < j ==> Settled(b, platform, buffer, root, files[i], fates[i], prefix, options)
  {
    forall i | 0 <= i < j
      ensures Settled(b, platform, buffer, root, files[i], fates[i], prefix, options)
    {
      hide Destination, Target, SoundPrefix, Accepted, Inside, Landed, FateFits, MayOverwrite;
      assert Settled(a, platform, buffer, root, files[i], fates[i], prefix, options);
      if fates[i].Written? {
        StillLanded(a, b, platform, buffer, root, files, i, j, prefix, options);
      }
    }
  }

  lemma AllStillReady(a: Nodes, b: Nodes, platform: Platform, buffer: Buffer, root: Path, files: seq<ZipFile>, j: nat,
          prefix: string, options: Options)
    requires Accepted(files) && SoundPrefix(files, prefix) && j < |files|
    requires forall i :: j <= i < |files| ==> Ready(a, platform, buffer, root, files[i], prefix, options)
    requires forall i, k :: 0 <= i < |files| && 0 <= k < |files| ==> NotBelow(files[i], files[k], root, prefix, options)
    requires Target(files[j], prefix, options).Some?
    requires Inside(a, b, {Destination(root, Target(files[j], prefix, options).value)})
    ensures forall i :: j < i < |files| ==>
      Ready(b, platform, buffer, root, files[i], prefix, options) && SameThere(a, b, root, files[i], prefix, options)
  {
    forall i | j < i < |files|
      ensures Ready(b, platform, buffer, root, files[i], prefix, options)
      ensures SameThere(a, b, root, files[i], prefix, options)
    {
      hide Destination, Target, SoundPrefix, Accepted, Inside, Ready, NotBelow, SameThere;
      StillReady(a, b, platform, buffer, root, files, i, j, prefix, options);
    }
  }

  lemma ReadyMeans(nodes: Nodes, platform: Platform, buffer: Buffer, root: Path, file: ZipFile, prefix: string,
          options: Options)
    requires Ready(nodes, platform, buffer, root, file, prefix, options) && Target(file, prefix, options).Some?
    ensures Open(nodes, root, Target(file, prefix, options).value, options)
    ensures EntryData(platform, buffer, file).Success?
  {}

  lemma WrittenIfOpen(nodes: Nodes, root: Path, rel: string, options: Options, data: Result<Buffer, ReadError>,
          r: Result<Fate, ExtractError>)
    requires Open(nodes, root, rel, options) && data.Success? && EntryEnds(nodes, root, rel, options, data, r)
    ensures r == Success(Written(Destination(root, rel) in nodes))
  {
    var p := Destination(root, rel);
    hide Clear, Destination, NormalizeSelectedPaths;
    if Vacant(nodes, p) {
      VacantIsClear(nodes, root, p);
      NotThere(nodes, p);
    }
    hide Vacant;
  }

  /** The fate of an entry without a target, and of one with a target. */
  lemma EasyFate(nodes: Nodes, platform: Platform, buffer: Buffer, root: Path, file: ZipFile, prefix: string,
          options: Options)
    ensures var rel := NormalizeApplyPath(file.path, prefix); var reason := ShouldSkip(rel, options);
      && (file.directory ==> Settled(nodes, platform, buffer, root, file, IsDirectoryEntry, prefix, options))
      && (!file.directory && reason.Some? ==>
        Settled(nodes, platform, buffer, root, file, Skipped(reason.value), prefix, options))
      && (Target(file, prefix, options) == if file.directory || reason.Some? then None else Some(rel))
  {
    NeverConflict(NormalizeApplyPath(file.path, prefix), options);
    hide ShouldSkip, NormalizeApplyPath;
  }

  lemma NeverConflict(rel: string, options: Options)
    ensures ShouldSkip(rel, options) != Some(ConflictSkipped)
  {
    hide NormalizeApplyPath, Filter, Split, IsExcluded, IsArchiveMetadata;
  }

  lemma TargetFate(nodes: Nodes, platform: Platform, buffer: Buffer, root: Path, file: ZipFile, fate: Fate,
          prefix: string, options: Options)
    requires Target(file, prefix, options).Some? && (fate.Written? || fate == Skipped(ConflictSkipped))
    requires fate == Skipped(ConflictSkipped) ==> !MayOverwrite(options, Target(file, prefix, options).value)
    requires fate.Written? ==> Landed(nodes, platform, buffer, root, file, prefix, options)
    ensures Settled(nodes, platform, buffer, root, file, fate, prefix, options)
  {
    hide Target, Landed, MayOverwrite;
  }

  lemma LandedNow(nodes: Nodes, platform: Platform, buffer: Buffer, root: Path, file: ZipFile, prefix: string,
          options: Options)
    requires Target(file, prefix, options).Some? && EntryData(platform, buffer, file).Success?
    requires !options.dryRun ==> var p := Destination(root, Target(file, prefix, options).value);
      p in nodes && nodes[p] == RegularFile(EntryData(platform, buffer, file).value)
    ensures Landed(nodes, platform, buffer, root, file, prefix, options)
  {}

  /** All entries from `n` on are ready, with the same places taken as at the beginning, and none lies below another. */
  ghost predicate Smooth(was: Nodes, nodes: Nodes, platform: Platform, buffer: Buffer, root: Path, files: seq<ZipFile>,
      n: nat,
          prefix: string, options: Options) {
    && (forall i :: n <= i < |files| ==>
         Ready(nodes, platform, buffer, root, files[i], prefix, options)
           && SameThere(was, nodes, root, files[i], prefix, options))
    && (forall i, j :: 0 <= i < |files| && 0 <= j < |files| ==> NotBelow(files[i], files[j], root, prefix, options))
  }

  lemma SameThereTwice(a: Nodes, b: Nodes, c: Nodes, root: Path, file: ZipFile, prefix: string, options: Options)
    requires SameThere(a, b, root, file, prefix, options) && SameThere(b, c, root, file, prefix, options)
    ensures SameThere(a, c, root, file, prefix, options)
  {
    hide Target, Destination;
  }

  lemma SmoothStep(was: Nodes, a: Nodes, b: Nodes, platform: Platform, buffer: Buffer, root: Path, files: seq<ZipFile>,
      n: nat,
          prefix: string, options: Options)
    requires Accepted(files) && SoundPrefix(files, prefix) && n < |files|
    requires Smooth(was, a, platform, buffer, root, files, n, prefix, options)
    requires a == b
      || (Target(files[n], prefix, options).Some?
        && Inside(a, b, {Destination(root, Target(files[n], prefix, options).value)}))
    ensures Smooth(was, b, platform, buffer, root, files, n + 1, prefix, options)
    ensures Ready(a, platform, buffer, root, files[n], prefix, options)
  {
    hide Accepted, SoundPrefix, Target, Inside, Destination, Ready, NotBelow, SameThere;
    if a != b {
      AllStillReady(a, b, platform, buffer, root, files, n, prefix, options);
      forall i | n < i < |files|
        ensures SameThere(was, b, root, files[i], prefix, options)
      {
        SameThereTwice(was, a, b, root, files[i], prefix, options);
      }
    }
  }

  ghost predicate AllSettled(nodes: Nodes, platform: Platform, buffer: Buffer, root: Path, files: seq<ZipFile>,
          fates: seq<Fate>, prefix: string, options: Options) {
    |fates| <= |files| && forall i :: 0 <= i < |fates| ==>
      Settled(nodes, platform, buffer, root, files[i], fates[i], prefix, options)
  }

  lemma SettledStep(a: Nodes, b: Nodes, platform: Platform, buffer: Buffer, root: Path, files: seq<ZipFile>,
          fates: seq<Fate>, fate: Fate, prefix: string, options: Options)
    requires Accepted(files) && SoundPrefix(files, prefix) && |fates| < |files|
    requires AllSettled(a, platform, buffer, root, files, fates, prefix, options)
    requires a == b
      || (Target(files[|fates|], prefix, options).Some?
        && Inside(a, b, {Destination(root, Target(files[|fates|], prefix, options).value)}))
    requires Settled(b, platform, buffer, root, files[|fates|], fate, prefix, options)
    ensures AllSettled(b, platform, buffer, root, files, fates + [fate], prefix, options)
  {
    hide Accepted, SoundPrefix, Target, Inside, Destination, Settled;
    if a != b {
      StillSettled(a, b, platform, buffer, root, files, fates, |fates|, prefix, options);
    }
  }

  /** Every state of the disk since `start` is orderly with respect to `was`. */
  ghost predicate OrderlyRun(fs: FileSystem, was: Nodes, start: nat, files: seq<ZipFile>, prefix: string,
          options: Options, root: Path)
    reads fs
  {
    && start <= |fs.trace| && Orderly(was, fs.nodes, files, prefix, options, root)
    && forall i :: start <= i < |fs.trace| ==> Orderly(was, fs.trace[i], files, prefix, options, root)
  }

  lemma OrderlyRunSkip(fs: FileSystem, was: Nodes, start: nat, files: seq<ZipFile>, n: nat, prefix: string,
          options: Options, root: Path)
    requires n < |files| && OrderlyRun(fs, was, start, files[..n], prefix, options, root)
    ensures OrderlyRun(fs, was, start, files[..n + 1], prefix, options, root)
  {
    hide Orderly;
    OrderlySkip(was, fs.nodes, files, n, prefix, options, root);
    forall i | start <= i < |fs.trace|
      ensures Orderly(was, fs.trace[i], files[..n + 1], prefix, options, root)
    {
      OrderlySkip(was, fs.trace[i], files, n, prefix, options, root);
    }
  }

  lemma OrderlyRunToTheEnd(fs: FileSystem, was: Nodes, start: nat, files: seq<ZipFile>, n: nat, prefix: string,
          options: Options, root: Path)
    requires n <= |files| && OrderlyRun(fs, was, start, files[..n], prefix, options, root)
    ensures OrderlyRun(fs, was, start, files, prefix, options, root)
    decreases |files| - n
  {
    hide OrderlyRun;
    if n == |files| {
      assert files[..n] == files;
    } else {
      OrderlyRunSkip(fs, was, start, files, n, prefix, options, root);
      OrderlyRunToTheEnd(fs, was, start, files, n + 1, prefix, options, root);
    }
  }

  /** One entry has been worked on since `before`, the last state but those from `mark` on. */
  lemma OrderlyRunStep(fs: FileSystem, was: Nodes, start: nat, before: Nodes, mark: nat, files: seq<ZipFile>, n: nat,
          prefix: string, options: Options, root: Path, p: Path)
    requires n < |files| && start <= mark <= |fs.trace| && Orderly(was, before, files[..n], prefix, options, root)
    requires forall i :: start <= i < mark ==> Orderly(was, fs.trace[i], files[..n], prefix, options, root)
    requires Target(files[n], prefix, options).Some? && p == Destination(root, Target(files[n], prefix, options).value)
    requires Inside(before, fs.nodes, {p}) && forall i :: mark <= i < |fs.trace| ==> Inside(before, fs.trace[i], {p})
    requires options.dryRun || (p in before && !MayOverwrite(options, Target(files[n], prefix, options).value)) ==>
      fs.nodes == before && mark == |fs.trace|
    ensures OrderlyRun(fs, was, start, files[..n + 1], prefix, options, root)
  {
    hide Orderly, Inside, Target, Destination, MayOverwrite;
    OrderlyStep(was, before, fs.nodes, files, n, prefix, options, root);
    forall i | start <= i < |fs.trace|
      ensures Orderly(was, fs.trace[i], files[..n + 1], prefix, options, root)
    {
      if i < mark {
        OrderlySkip(was, fs.trace[i], files, n, prefix, options, root);
      } else {
        OrderlyStep(was, before, fs.trace[i], files, n, prefix, options, root);
      }
    }
  }

  lemma OrderlyRunMeans(fs: FileSystem, was: Nodes, start: nat, files: seq<ZipFile>, prefix: string, options: Options,
          root: Path)
    requires OrderlyRun(fs, was, start, files, prefix, options, root)
    ensures start <= |fs.trace| && Orderly(was, fs.nodes, files, prefix, options, root)
    ensures forall i :: start <= i < |fs.trace| ==> Orderly(was, fs.trace[i], files, prefix, options, root)
  {}

  /** One turn of the loop of extractZipFile. */
  method ExtractNext(fs: FileSystem, platform: Platform, buffer: Buffer, root: Path, files: seq<ZipFile>, n: nat,
          prefix: string, options: Options,
                     ghost was: Nodes, ghost start: nat) returns (r: Result<Fate, ExtractError>)
    requires fs.Valid() && n < |files| && OrderlyRun(fs, was, start, files[..n], prefix, options, root)
    modifies fs
    ensures fs.Valid() && old(fs.trace) <= fs.trace
    ensures OrderlyRun(fs, was, start, files[..n + 1], prefix, options, root)
    ensures fs.nodes == old(fs.nodes)
      || (Target(files[n], prefix, options).Some?
        && Inside(old(fs.nodes), fs.nodes, {Destination(root, Target(files[n], prefix, options).value)}))
    ensures r.Success? ==> Settled(fs.nodes, platform, buffer, root, files[n], r.value, prefix, options)
    ensures !fs.mayFault && Ready(old(fs.nodes), platform, buffer, root, files[n], prefix, options) ==>
      r.Success? && WrittenNow(old(fs.nodes), root, files[n], r.value, prefix, options)
  {
    ghost var before := fs.nodes;
    hide *;
    var file := files[n];
    var rel := NormalizeApplyPath(file.path, prefix);
    var reason := ShouldSkip(rel, options);
    EasyFate(before, platform, buffer, root, file, prefix, options);
    if file.directory || reason.Some? {
      if file.directory {
        WrittenNowIs(before, root, file, IsDirectoryEntry, prefix, options);
      } else {
        WrittenNowIs(before, root, file, Skipped(reason.value), prefix, options);
      }
      OrderlyRunSkip(fs, was, start, files, n, prefix, options, root);
      return Success(if file.directory then IsDirectoryEntry else Skipped(reason.value));
    }
    r := ExtractTargeted(fs, platform, buffer, root, files, n, rel, prefix, options, was, start);
    if r.Success? {
      WrittenNowIs(before, root, file, r.value, prefix, options);
    }
  }

  /** The same for an entry that has a target. */
  method ExtractTargeted(fs: FileSystem, platform: Platform, buffer: Buffer, root: Path, files: seq<ZipFile>, n: nat,
          rel: string, prefix: string,
                         options: Options, ghost was: Nodes, ghost start: nat) returns (r: Result<Fate, ExtractError>)
    requires fs.Valid() && n < |files| && OrderlyRun(fs, was, start, files[..n], prefix, options, root)
    requires Target(files[n], prefix, options) == Some(rel)
    modifies fs
    ensures fs.Valid() && old(fs.trace) <= fs.trace
    ensures OrderlyRun(fs, was, start, files[..n + 1], prefix, options, root)
    ensures Inside(old(fs.nodes), fs.nodes, {Destination(root, rel)})
    ensures r.Success? ==> Settled(fs.nodes, platform, buffer, root, files[n], r.value, prefix, options)
    ensures !fs.mayFault && Ready(old(fs.nodes), platform, buffer, root, files[n], prefix, options) ==>
      r == Success(Written(Destination(root, rel) in old(fs.nodes)))
  {
    ghost var before, mark := fs.nodes, |fs.trace|;
    hide *;
    OrderlyRunMeans(fs, was, start, files[..n], prefix, options, root);
    TargetResolves(files[n], prefix, options, root);
    if Ready(before, platform, buffer, root, files[n], prefix, options) {
      ReadyMeans(before, platform, buffer, root, files[n], prefix, options);
    }
    r := ExtractEntry(fs, platform, buffer, root, files[n], rel, options);
    if !fs.mayFault && Ready(before, platform, buffer, root, files[n], prefix, options) {
      WrittenIfOpen(before, root, rel, options, EntryData(platform, buffer, files[n]), r);
    }
    OrderlyRunStep(fs, was, start, before, mark, files, n, prefix, options, root, Destination(root, rel));
    if r.Success? {
      if r.value.Written? {
        LandedNow(fs.nodes, platform, buffer, root, files[n], prefix, options);
      }
      TargetFate(fs.nodes, platform, buffer, root, files[n], r.value, prefix, options);
    }
  }

  /** The report lists the written and the skipped entries in the order of the archive. */
  ghost predicate Reported(report: Extraction, files: seq<ZipFile>, fates: seq<Fate>, prefix: string) {
    |files| == |fates| && report == Extraction(prefix, WrittenOf(files, fates, prefix), SkippedOf(files, fates, prefix))
  }

  /** `written.push(...)` or `skipped.push(...)`. */
  function Push(report: Extraction, file: ZipFile, fate: Fate): Extraction {
    var rel := NormalizeApplyPath(file.path, report.stripPrefix);
    match fate
    case IsDirectoryEntry => report
    case Written(conflict) => report.(written := report.written + [WrittenFile(rel, file.path, conflict)])
    case Skipped(reason) => report.(skipped := report.skipped + [SkippedFile(file.path, rel, reason)])
  }

  lemma ReportedMore(report: Extraction, files: seq<ZipFile>, fates: seq<Fate>, n: nat, fate: Fate, prefix: string)
    requires n < |files| && Reported(report, files[..n], fates, prefix)
    ensures Reported(Push(report, files[n], fate), files[..n + 1], fates + [fate], prefix)
  {
    hide NormalizeApplyPath, WrittenOf, SkippedOf;
    OneMore(files, fates, n, fate, prefix);
  }

  lemma NothingReported(prefix: string)
    ensures Reported(Extraction(prefix, [], []), [], [], prefix)
  {}

  /** Written, and reported as a conflict exactly when something was in its place. */
  ghost predicate WrittenNow(was: Nodes, root: Path, file: ZipFile, fate: Fate, prefix: string, options: Options) {
    Target(file, prefix, options).Some? ==>
      fate == Written(Destination(root, Target(file, prefix, options).value) in was)
  }

  lemma WrittenNowIs(was: Nodes, root: Path, file: ZipFile, fate: Fate, prefix: string, options: Options)
    ensures WrittenNow(was, root, file, fate, prefix, options) <==>
      (Target(file, prefix, options).Some? ==>
        fate == Written(Destination(root, Target(file, prefix, options).value) in was))
  {}

  /** Every entry that has a target was written, as a conflict exactly if something was in its place at the
      beginning. */
  ghost predicate AllWritten(was: Nodes, root: Path, files: seq<ZipFile>, fates: seq<Fate>, prefix: string,
          options: Options) {
    |fates| <= |files| && forall i :: 0 <= i < |fates| ==> WrittenNow(was, root, files[i], fates[i], prefix, options)
  }

  lemma AllWrittenMore(was: Nodes, now: Nodes, root: Path, files: seq<ZipFile>, fates: seq<Fate>, fate: Fate,
          prefix: string, options: Options)
    requires |fates| < |files| && AllWritten(was, root, files, fates, prefix, options)
    requires WrittenNow(now, root, files[|fates|], fate, prefix, options)
    requires SameThere(was, now, root, files[|fates|], prefix, options)
    ensures AllWritten(was, root, files, fates + [fate], prefix, options)
  {
    hide Target, Destination;
  }

  lemma AtFirst(fs: FileSystem, platform: Platform, buffer: Buffer, root: Path, files: seq<ZipFile>, prefix: string,
          options: Options)
    ensures OrderlyRun(fs, fs.nodes, |fs.trace|, files[..0], prefix, options, root)
    ensures AllSettled(fs.nodes, platform, buffer, root, files, [], prefix, options)
    ensures AllWritten(fs.nodes, root, files, [], prefix, options)
    ensures Extractable(fs.nodes, platform, buffer, root, files, prefix, options) ==>
      Smooth(fs.nodes, fs.nodes, platform, buffer, root, files, 0, prefix, options)
    ensures Reported(Extraction(prefix, [], []), files[..0], [], prefix)
  {
    hide Orderly, Settled, Target, Ready, NotBelow, Destination;
    OrderlyAtFirst(fs.nodes, files[..0], prefix, options, root);
    assert files[..0] == [];
    NothingReported(prefix);
  }

  /** The loop of extractZipFile. */
  method ExtractEntries(fs: FileSystem, platform: Platform, buffer: Buffer, root: Path, files: seq<ZipFile>,
          prefix: string, options: Options)
    returns (r: Result<Extraction, ExtractError>, ghost fates: seq<Fate>)
    requires fs.Valid() && Accepted(files) && SoundPrefix(files, prefix)
    modifies fs
    ensures fs.Valid() && old(fs.trace) <= fs.trace
    ensures OrderlyRun(fs, old(fs.nodes), |old(fs.trace)|, files, prefix, options, root)
    ensures r.Success? ==> Reported(r.value, files, fates, prefix)
    ensures r.Success? ==> AllSettled(fs.nodes, platform, buffer, root, files, fates, prefix, options)
    ensures !fs.mayFault && Extractable(old(fs.nodes), platform, buffer, root, files, prefix, options) ==>
      r.Success? && AllWritten(old(fs.nodes), root, files, fates, prefix, options)
  {
    ghost var was, start := fs.nodes, |fs.trace|;
    ghost var smooth := !fs.mayFault && Extractable(was, platform, buffer, root, files, prefix, options);
    hide *;
    AtFirst(fs, platform, buffer, root, files, prefix, options);
    var report, n := Extraction(prefix, [], []), 0;
    fates := [];
    UnderwayAtFirst(fs, platform, buffer, root, files, prefix, options, smooth);
    while n < |files|
      invariant 0 <= n <= |files| && fs.Valid() && old(fs.trace) <= fs.trace
      invariant Underway(fs, platform, buffer, root, files, n, prefix, options, was, start, report, fates, smooth)
    {
      var outcome;
      outcome, report, fates :=
        ExtractTurn(fs, platform, buffer, root, files, n, prefix, options, was, start, report, fates, smooth);
      if outcome.Failure? {
        return Failure(outcome.error), fates;
      }
      n := n + 1;
    }
    UnderwayAtLast(fs, platform, buffer, root, files, n, prefix, options, was, start, report, fates, smooth);
    r := Success(report);
  }

  /** Where the loop stands after `n` entries. */
  ghost predicate Underway(fs: FileSystem, platform: Platform, buffer: Buffer, root: Path, files: seq<ZipFile>, n: nat,
          prefix: string, options: Options, was: Nodes, start: nat, report: Extraction, fates: seq<Fate>, smooth: bool)
    reads fs
  {
    && n <= |files| && |fates| == n
    && OrderlyRun(fs, was, start, files[..n], prefix, options, root)
    && Reported(report, files[..n], fates, prefix)
    && Worked(was, fs.nodes, platform, buffer, root, files, fates, prefix, options, smooth)
  }

  lemma UnderwayAtFirst(fs: FileSystem, platform: Platform, buffer: Buffer, root: Path, files: seq<ZipFile>,
      prefix: string,
          options: Options, smooth: bool)
    requires smooth ==> Extractable(fs.nodes, platform, buffer, root, files, prefix, options)
    ensures Underway(fs, platform, buffer, root, files, 0, prefix, options, fs.nodes, |fs.trace|,
        Extraction(prefix, [], []), [], smooth)
  {
    hide OrderlyRun, Reported, Worked, Extractable;
    AtFirst(fs, platform, buffer, root, files, prefix, options);
    WorkedAtFirst(fs, platform, buffer, root, files, prefix, options, smooth);
  }

  lemma UnderwayAtLast(fs: FileSystem, platform: Platform, buffer: Buffer, root: Path, files: seq<ZipFile>, n: nat,
          prefix: string, options: Options, was: Nodes, start: nat, report: Extraction, fates: seq<Fate>, smooth: bool)
    requires n == |files|
    requires Underway(fs, platform, buffer, root, files, n, prefix, options, was, start, report, fates, smooth)
    ensures OrderlyRun(fs, was, start, files, prefix, options, root) && Reported(report, files, fates, prefix)
    ensures AllSettled(fs.nodes, platform, buffer, root, files, fates, prefix, options)
    ensures smooth ==> AllWritten(was, root, files, fates, prefix, options)
  {
    hide OrderlyRun, Reported, Worked, AllSettled, AllWritten;
    assert files[..n] == files;
    WorkedMeans(was, fs.nodes, platform, buffer, root, files, fates, prefix, options, smooth);
  }

  lemma UnderwayMeans(fs: FileSystem, platform: Platform, buffer: Buffer, root: Path, files: seq<ZipFile>, n: nat,
          prefix: string, options: Options, was: Nodes, start: nat, report: Extraction, fates: seq<Fate>, smooth: bool)
    ensures Underway(fs, platform, buffer, root, files, n, prefix, options, was, start, report, fates, smooth) <==>
      && n <= |files| && |fates| == n
      && OrderlyRun(fs, was, start, files[..n], prefix, options, root)
      && Reported(report, files[..n], fates, prefix)
      && Worked(was, fs.nodes, platform, buffer, root, files, fates, prefix, options, smooth)
  {
    hide OrderlyRun, Reported, Worked;
  }

  /** The entries so far are settled; in a smooth run they are written and the rest is ready. */
  ghost predicate Worked(was: Nodes, nodes: Nodes, platform: Platform, buffer: Buffer, root: Path, files: seq<ZipFile>,
          fates: seq<Fate>, prefix: string, options: Options, smooth: bool) {
    && AllSettled(nodes, platform, buffer, root, files, fates, prefix, options)
    && (smooth ==>
      && Smooth(was, nodes, platform, buffer, root, files, |fates|, prefix, options)
      && AllWritten(was, root, files, fates, prefix, options))
  }

  lemma WorkedAtFirst(fs: FileSystem, platform: Platform, buffer: Buffer, root: Path, files: seq<ZipFile>,
      prefix: string,
          options: Options, smooth: bool)
    requires smooth ==> Extractable(fs.nodes, platform, buffer, root, files, prefix, options)
    ensures Worked(fs.nodes, fs.nodes, platform, buffer, root, files, [], prefix, options, smooth)
  {
    hide AllSettled, Smooth, AllWritten, OrderlyRun, Reported;
    AtFirst(fs, platform, buffer, root, files, prefix, options);
  }

  lemma WorkedMeans(was: Nodes, nodes: Nodes, platform: Platform, buffer: Buffer, root: Path, files: seq<ZipFile>,
          fates: seq<Fate>, prefix: string, options: Options, smooth: bool)
    requires Worked(was, nodes, platform, buffer, root, files, fates, prefix, options, smooth)
    ensures AllSettled(nodes, platform, buffer, root, files, fates, prefix, options)
    ensures smooth ==> AllWritten(was, root, files, fates, prefix, options)
    ensures smooth && |fates| < |files| ==>
      Ready(nodes, platform, buffer, root, files[|fates|], prefix, options)
        && SameThere(was, nodes, root, files[|fates|], prefix, options)
  {
    hide AllSettled, AllWritten, Ready, NotBelow, SameThere;
  }

  lemma WorkedMore(was: Nodes, before: Nodes, after: Nodes, platform: Platform, buffer: Buffer, root: Path,
      files: seq<ZipFile>,
          fates: seq<Fate>, fate: Fate, prefix: string, options: Options, smooth: bool)
    requires Accepted(files) && SoundPrefix(files, prefix) && |fates| < |files|
    requires Worked(was, before, platform, buffer, root, files, fates, prefix, options, smooth)
    requires before == after
      || (Target(files[|fates|], prefix, options).Some?
        && Inside(before, after, {Destination(root, Target(files[|fates|], prefix, options).value)}))
    requires Settled(after, platform, buffer, root, files[|fates|], fate, prefix, options)
    requires smooth ==> WrittenNow(before, root, files[|fates|], fate, prefix, options)
    ensures Worked(was, after, platform, buffer, root, files, fates + [fate], prefix, options, smooth)
  {
    hide Accepted, SoundPrefix, Target, Inside, Destination, Settled, AllSettled, Smooth, AllWritten, WrittenNow,
        SameThere;
    SettledStep(before, after, platform, buffer, root, files, fates, fate, prefix, options);
    if smooth {
      WorkedMeans(was, before, platform, buffer, root, files, fates, prefix, options, smooth);
      SmoothStep(was, before, after, platform, buffer, root, files, |fates|, prefix, options);
      AllWrittenMore(was, before, root, files, fates, fate, prefix, options);
    }
  }

  /** The body of the loop: one entry is worked on and reported. */
  method ExtractTurn(fs: FileSystem, platform: Platform, buffer: Buffer, root: Path, files: seq<ZipFile>, n: nat,
          prefix: string, options: Options, ghost was: Nodes, ghost start: nat, report: Extraction,
              ghost done: seq<Fate>,
          ghost smooth: bool)
    returns (outcome: Result<Fate, ExtractError>, next: Extraction, ghost fates: seq<Fate>)
    requires fs.Valid() && n < |files| && Accepted(files) && SoundPrefix(files, prefix) && (smooth ==> !fs.mayFault)
    requires Underway(fs, platform, buffer, root, files, n, prefix, options, was, start, report, done, smooth)
    modifies fs
    ensures fs.Valid() && old(fs.trace) <= fs.trace
    ensures outcome.Failure? ==> !smooth && OrderlyRun(fs, was, start, files, prefix, options, root)
    ensures outcome.Success? ==>
      Underway(fs, platform, buffer, root, files, n + 1, prefix, options, was, start, next, fates, smooth)
  {
    ghost var before := fs.nodes;
    hide *;
    UnderwayMeans(fs, platform, buffer, root, files, n, prefix, options, was, start, report, done, smooth);
    WorkedMeans(was, before, platform, buffer, root, files, done, prefix, options, smooth);
    outcome := ExtractNext(fs, platform, buffer, root, files, n, prefix, options, was, start);
    next, fates := report, done;
    if outcome.Failure? {
      OrderlyRunToTheEnd(fs, was, start, files, n + 1, prefix, options, root);
    } else {
      WorkedMore(was, before, fs.nodes, platform, buffer, root, files, done, outcome.value, prefix, options, smooth);
      ReportedMore(report, files, done, n, outcome.value, prefix);
      next, fates := Push(report, files[n], outcome.value), done + [outcome.value];
      UnderwayMeans(fs, platform, buffer, root, files, n + 1, prefix, options, was, start, next, fates, smooth);
    }
  }

  /** What became of an entry, by the components of its target. */
  ghost predicate FateByParts(file: ZipFile, fate: Fate, prefix: string, options: Options) {
    && (fate.IsDirectoryEntry? <==> file.directory)
    && (fate.Written? || fate == Skipped(ConflictSkipped) <==>
      !file.directory && Ordinary(TargetParts(file.path, prefix), options))
  }

  ghost predicate FatesByParts(files: seq<ZipFile>, fates: seq<Fate>, prefix: string, options: Options) {
    |fates| <= |files| && forall i :: 0 <= i < |fates| ==> FateByParts(files[i], fates[i], prefix, options)
  }

  /** Every entry with an ordinary target is written. */
  ghost predicate OrdinaryWritten(files: seq<ZipFile>, fates: seq<Fate>, prefix: string, options: Options) {
    |fates| <= |files| && forall i :: 0 <= i < |fates| && IsOrdinary(files[i], prefix, options) ==>
      fates[i].Written?
  }

  ghost predicate IsOrdinary(file: ZipFile, prefix: string, options: Options) {
    !file.directory && Ordinary(TargetParts(file.path, prefix), options)
  }

  lemma FateIsByParts(file: ZipFile, fate: Fate, prefix: string, options: Options)
    requires FateFits(file, fate, prefix, options)
    ensures FateByParts(file, fate, prefix, options)
  {
    TargetExactly(file, prefix, options);
    SkipReasons(file.path, prefix, options);
    hide ShouldSkip, NormalizeApplyPath, TargetParts, Ordinary;
  }

  lemma SettledByParts(was: Nodes, nodes: Nodes, platform: Platform, buffer: Buffer, root: Path, files: seq<ZipFile>,
          fates: seq<Fate>, prefix: string, options: Options)
    requires AllSettled(nodes, platform, buffer, root, files, fates, prefix, options)
    ensures FatesByParts(files, fates, prefix, options)
    ensures AllWritten(was, root, files, fates, prefix, options) ==> OrdinaryWritten(files, fates, prefix, options)
  {
    forall i | 0 <= i < |fates|
      ensures FateByParts(files[i], fates[i], prefix, options)
      ensures IsOrdinary(files[i], prefix, options) ==> Target(files[i], prefix, options).Some?
    {
      assert Settled(nodes, platform, buffer, root, files[i], fates[i], prefix, options);
      FateIsByParts(files[i], fates[i], prefix, options);
      TargetExactly(files[i], prefix, options);
      hide *;
      IsOrdinaryMeans(files[i], prefix, options);
    }
    hide Settled, FateByParts, IsOrdinary, Target, Destination;
  }

  lemma IsOrdinaryMeans(file: ZipFile, prefix: string, options: Options)
    ensures IsOrdinary(file, prefix, options) <==>
      !file.directory && Ordinary(TargetParts(file.path, prefix), options)
  {}

  /** extractZipFile. An archive the reader rejects changes nothing. Otherwise, whatever happens, only targets below the
      root change, an existing file is replaced only where the options allow it, and on success every written entry is
      on disk with its own bytes. */
  method ExtractZipFile(fs: FileSystem, platform: Platform, buffer: Buffer, root: Path, options: Options,
          limits: Limits)
    returns (r: Result<Extraction, ExtractError>, ghost fates: seq<Fate>)
    requires fs.Valid()
    modifies fs
    ensures fs.Valid() && old(fs.trace) <= fs.trace
    ensures ParseZip(platform, buffer, limits).Failure? ==>
      r == Failure(Unreadable(ParseZip(platform, buffer, limits).error)) && fs.nodes == old(fs.nodes)
        && fs.trace == old(fs.trace)
    ensures ParseZip(platform, buffer, limits).Success? ==>
      var files := ParseZip(platform, buffer, limits).value.files; var prefix := StripPrefix(files, options);
      && OrderlyRun(fs, old(fs.nodes), |old(fs.trace)|, files, prefix, options, root)
      && (r.Success? ==> Reported(r.value, files, fates, prefix))
      && (r.Success? ==> AllSettled(fs.nodes, platform, buffer, root, files, fates, prefix, options))
      && (r.Success? ==> FatesByParts(files, fates, prefix, options))
      && (!fs.mayFault && Extractable(old(fs.nodes), platform, buffer, root, files, prefix, options) ==>
        r.Success? && AllWritten(old(fs.nodes), root, files, fates, prefix, options)
          && OrdinaryWritten(files, fates, prefix, options))
  {
    hide *;
    fates := [];
    var parsed := ParseZipBuffer(platform, buffer, limits);
    if parsed.Failure? {
      return Failure(Unreadable(parsed.error)), fates;
    }
    ParsedIsAccepted(platform, buffer, limits);
    StripPrefixIsSound(parsed.value.files, options);
    r, fates :=
      ExtractEntries(fs, platform, buffer, root, parsed.value.files, StripPrefix(parsed.value.files, options), options);
    if r.Success? {
      SettledByParts(old(fs.nodes), fs.nodes, platform, buffer, root, parsed.value.files, fates,
          StripPrefix(parsed.value.files, options), options);
    }
  }

  // ------------------------------------------------------------ writing, then extracting

  /** End to end: whatever writeZip packed, extractZipFile puts on disk under the entry's own name, with the bytes it
      was given. */
  lemma PackedThenExtracted(platform: Platform, compress: bool, entries: seq<SourceEntry>, limits: Limits,
          nodes: Nodes, root: Path, options: Options, fates: seq<Fate>, i: nat)
    requires Distinct(KeptNames(entries)) && FitsFormat(platform, compress, entries) && LosslessDeflate(platform)
    requires var buffer := Archive(MembersOf(platform, compress, Kept(entries)));
      var parsed := ParseZip(platform, buffer, limits);
      && parsed.Success? && i < |Kept(entries)| && i < |fates| && fates[i].Written? && !options.dryRun
      && AllSettled(nodes, platform, buffer, root, parsed.value.files, fates, StripPrefix(parsed.value.files, options),
          options)
    ensures
      var prefix :=
        StripPrefix(ParseZip(platform, Archive(MembersOf(platform, compress, Kept(entries))), limits).value.files,
            options);
      var p := Destination(root, NormalizeApplyPath(NormalizeZipPath(Kept(entries)[i].name), prefix));
      p in nodes && nodes[p] == RegularFile(Kept(entries)[i].data)
  {
    hide *;
    var ms := MembersOf(platform, compress, Kept(entries));
    var files := ParseZip(platform, Archive(ms), limits).value.files;
    RoundTrip(platform, compress, entries, limits);
    RoundTripData(platform, compress, entries, limits, i);
    MemberName(platform, compress, Kept(entries)[i]);
    SettledMeans(nodes, platform, Archive(ms), root, files, fates, StripPrefix(files, options), options, i);
  }

  lemma SettledMeans(nodes: Nodes, platform: Platform, buffer: Buffer, root: Path, files: seq<ZipFile>,
          fates: seq<Fate>, prefix: string, options: Options, i: nat)
    requires AllSettled(nodes, platform, buffer, root, files, fates, prefix, options) && i < |fates|
    requires fates[i].Written? && !options.dryRun
    ensures EntryData(platform, buffer, files[i]).Success?
    ensures var p := Destination(root, NormalizeApplyPath(files[i].path, prefix));
      p in nodes && nodes[p] == RegularFile(EntryData(platform, buffer, files[i]).value)
  {
    hide EntryData, Destination, NormalizeApplyPath, ShouldSkip, FateFits;
    assert Settled(nodes, platform, buffer, root, files[i], fates[i], prefix, options);
  }

  /** The entry is on disk under its own name, with its own bytes. */
  ghost predicate Unpacked(nodes: Nodes, root: Path, prefix: string, entry: SourceEntry) {
    var p := Destination(root, NormalizeApplyPath(NormalizeZipPath(entry.name), prefix));
    p in nodes && nodes[p] == RegularFile(entry.data)
  }

  /** What the run of the two says of entry `i`. */
  ghost predicate Arrives(nodes: Nodes, platform: Platform, compress: bool, entries: seq<SourceEntry>, limits: Limits,
          root: Path, options: Options, fates: seq<Fate>, i: nat) {
    var parsed := ParseZip(platform, Archive(MembersOf(platform, compress, Kept(entries))), limits);
    parsed.Success? && i < |fates| && i < |Kept(entries)| && fates[i].Written? && !options.dryRun ==>
      Unpacked(nodes, root, StripPrefix(parsed.value.files, options), Kept(entries)[i])
  }

  lemma ArrivesIfSettled(nodes: Nodes, platform: Platform, compress: bool, entries: seq<SourceEntry>, limits: Limits,
          root: Path, options: Options, fates: seq<Fate>, i: nat)
    requires Distinct(KeptNames(entries)) && FitsFormat(platform, compress, entries) && LosslessDeflate(platform)
    requires var buffer := Archive(MembersOf(platform, compress, Kept(entries)));
      var parsed := ParseZip(platform, buffer, limits);
      parsed.Success? ==>
        AllSettled(nodes, platform, buffer, root, parsed.value.files, fates, StripPrefix(parsed.value.files, options),
            options)
    ensures Arrives(nodes, platform, compress, entries, limits, root, options, fates, i)
  {
    hide ParseZip, Archive, MembersOf, Kept, KeptNames, FitsFormat, LosslessDeflate, AllSettled, StripPrefix,
        NormalizeApplyPath, NormalizeZipPath, Destination;
    var parsed := ParseZip(platform, Archive(MembersOf(platform, compress, Kept(entries))), limits);
    if parsed.Success? && i < |fates| && i < |Kept(entries)| && fates[i].Written? && !options.dryRun {
      PackedThenExtracted(platform, compress, entries, limits, nodes, root, options, fates, i);
    }
  }

  /** writeZip, then extractZipFile of what it wrote. When nothing stands in the way all kept entries are on disk. */
  method PackAndExtract(fs: FileSystem, platform: Platform, compress: bool, table: array<nat>,
      entries: seq<SourceEntry>,
          limits: Limits, root: Path, options: Options)
    returns (written: bool, r: Result<Extraction, ExtractError>, ghost fates: seq<Fate>)
    requires fs.Valid() && IsTable(table[..]) && FitsFormat(platform, compress, entries) && LosslessDeflate(platform)
    modifies fs
    ensures written <==> Distinct(KeptNames(entries))
    ensures !written ==> fs.nodes == old(fs.nodes)
    ensures written && r.Success? ==> |fates| == |Kept(entries)|
    ensures written && r.Success? ==>
      forall i :: 0 <= i < |fates| ==> Arrives(fs.nodes, platform, compress, entries, limits, root, options, fates, i)
    ensures written ==>
      var buffer := Archive(MembersOf(platform, compress, Kept(entries)));
        var parsed := ParseZip(platform, buffer, limits);
      !fs.mayFault && parsed.Success?
        && Extractable(old(fs.nodes), platform, buffer, root, parsed.value.files,
            StripPrefix(parsed.value.files, options), options) ==>
        && r.Success?
        && AllWritten(old(fs.nodes), root, parsed.value.files, fates, StripPrefix(parsed.value.files, options), options)
        && AllUnpacked(fs.nodes, root, StripPrefix(parsed.value.files, options), entries, options)
  {
    hide *;
    fates := [];
    var zip := WriteZip(platform, compress, table, entries);
    if zip.Failure? {
      return false, Failure(DiskError), fates;
    }
    written := true;
    r, fates := ExtractZipFile(fs, platform, zip.value.bytes, root, options, limits);
    if r.Success? {
      RoundTrip(platform, compress, entries, limits);
      ReportedAll(platform, compress, entries, limits, options, r.value, fates);
      forall i | 0 <= i < |fates|
        ensures Arrives(fs.nodes, platform, compress, entries, limits, root, options, fates, i)
      {
        ArrivesIfSettled(fs.nodes, platform, compress, entries, limits, root, options, fates, i);
      }
      UnpackedIfWritten(fs.nodes, platform, compress, entries, limits, root, options, fates);
    }
  }

  /** Every kept entry whose target is ordinary is on disk, unless nothing is written at all. */
  ghost predicate AllUnpacked(nodes: Nodes, root: Path, prefix: string, entries: seq<SourceEntry>, options: Options) {
    !options.dryRun ==> forall i :: 0 <= i < |Kept(entries)| ==>
      Ordinary(TargetParts(NormalizeZipPath(Kept(entries)[i].name), prefix), options) ==>
        Unpacked(nodes, root, prefix, Kept(entries)[i])
  }

  lemma UnpackedIfWritten(nodes: Nodes, platform: Platform, compress: bool, entries: seq<SourceEntry>, limits: Limits,
          root: Path, options: Options, fates: seq<Fate>)
    requires Distinct(KeptNames(entries)) && FitsFormat(platform, compress, entries) && |fates| == |Kept(entries)|
    requires forall i :: 0 <= i < |fates| ==>
      Arrives(nodes, platform, compress, entries, limits, root, options, fates, i)
    ensures var parsed := ParseZip(platform, Archive(MembersOf(platform, compress, Kept(entries))), limits);
      parsed.Success?
        && OrdinaryWritten(parsed.value.files, fates, StripPrefix(parsed.value.files, options), options) ==>
        AllUnpacked(nodes, root, StripPrefix(parsed.value.files, options), entries, options)
  {
    var ms := MembersOf(platform, compress, Kept(entries));
    var parsed := ParseZip(platform, Archive(ms), limits);
    RoundTrip(platform, compress, entries, limits);
    if parsed.Success?
      && OrdinaryWritten(parsed.value.files, fates, StripPrefix(parsed.value.files, options), options) {
      var files, prefix := parsed.value.files, StripPrefix(parsed.value.files, options);
      forall i | 0 <= i < |Kept(entries)| && !options.dryRun
        && Ordinary(TargetParts(NormalizeZipPath(Kept(entries)[i].name), prefix), options)
        ensures Unpacked(nodes, root, prefix, Kept(entries)[i])
      {
        hide ParseZip, Archive, Kept, MembersOf, MemberOf, KeptNames, FitsFormat, StripPrefix, Ordinary, TargetParts,
            NormalizeZipPath, Unpacked, Distinct;
        MemberName(platform, compress, Kept(entries)[i]);
        assert Arrives(nodes, platform, compress, entries, limits, root, options, fates, i);
        assert IsOrdinary(files[i], prefix, options);
      }
    }
  }

  lemma ReportedAll(platform: Platform, compress: bool, entries: seq<SourceEntry>, limits: Limits, options: Options,
          report: Extraction, fates: seq<Fate>)
    requires Distinct(KeptNames(entries)) && FitsFormat(platform, compress, entries)
    requires var parsed := ParseZip(platform, Archive(MembersOf(platform, compress, Kept(entries))), limits);
      parsed.Success? && Reported(report, parsed.value.files, fates, StripPrefix(parsed.value.files, options))
    ensures |fates| == |Kept(entries)|
  {
    hide ParseZip, Archive, Kept, KeptNames, FitsFormat, StripPrefix, WrittenOf, SkippedOf;
    RoundTrip(platform, compress, entries, limits);
  }
}
