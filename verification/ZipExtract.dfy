/** The extraction map of src/zipUtils.js: which entries of an archive are written, and where. */
module ZipExtract {
  import opened Paths
  import opened Wrappers
  import opened ZipReader

  datatype SkipReason =
    | EmptyPath
    | GitInternals
    | BridgeMetadata
    | ZipflowMetadata
    | ArchiveMetadata
    | NodeModules
    | SkipTopLevel(name: string)
    | ExcludedControlFile
    | ConflictSkipped

  datatype ConflictPolicy = Overwrite | Error | Skip

  datatype Options = Options(
    stripCommonRoot: bool,
    dryRun: bool,
    conflictPolicy: ConflictPolicy,
    selectedConflictPaths: Option<seq<string>>,
    skipTopLevel: seq<string>,
    excludedWritePaths: Option<seq<string>>,
    excludedWritePrefixes: seq<string>)

  // ------------------------------------------------------------ the map as the source computes it

  /** isMetadataOnlyTopLevel. */
  predicate IsMetadataOnlyTopLevel(name: string) {
    var parts := Filter(NonEmpty, Split(Slashes(name)));
    parts != [] && IsMetadataTop(parts[0])
  }

  predicate IsMetadataTop(top: string) {
    top == ".bridge" || top == ".zipflow" || top == ".git" || top == "node_modules"
  }

  /** The slashed names of the regular entries outside the metadata directories. */
  function ApplyRegular(files: seq<ZipFile>): (names: seq<string>)
    ensures forall i :: 0 <= i < |files| && IsApplyRegular(files[i]) ==> Slashes(files[i].path) in names
    ensures forall name :: name in names ==>
      exists i :: 0 <= i < |files| && IsApplyRegular(files[i]) && name == Slashes(files[i].path)
  {
    if files == [] then []
    else if IsApplyRegular(files[0]) then [Slashes(files[0].path)] + ApplyRegular(files[1..])
    else ApplyRegular(files[1..])
  }

  predicate IsApplyRegular(file: ZipFile) {
    !file.directory && Slashes(file.path) != "" && !IsMetadataOnlyTopLevel(Slashes(file.path))
  }

  /** commonTopLevelPrefix. */
  function CommonTopLevelPrefix(files: seq<ZipFile>): string {
    var names := ApplyRegular(files);
    if names == [] then ""
    else if forall name :: name in names ==> "project/" <= name && |Split(name)| >= 2 then "project/"
    else
      var firstParts := Split(names[0]);
      var top := firstParts[0];
      if |firstParts| < 2 || top == "" || top[0] == '.' then ""
      else if forall name :: name in names ==> Split(name)[0] == top && '/' in name then top + "/"
      else ""
  }

  function StripPrefix(files: seq<ZipFile>, options: Options): string {
    if options.stripCommonRoot then CommonTopLevelPrefix(files) else ""
  }

  /** normalizeSelectedPaths. */
  function NormalizeSelectedPaths(value: Option<seq<string>>): Option<set<string>> {
    match value
    case None => None
    case Some(paths) => Some(set path | path in paths && NormalizeApplyPath(path, "") != "" ::
      NormalizeApplyPath(path, ""))
  }

  /** shouldSkipApplyPath. */
  function ShouldSkip(rel: string, options: Options): Option<SkipReason> {
    var normalized := NormalizeApplyPath(rel, "");
    var parts := Filter(NonEmpty, Split(normalized));
    if parts == [] then Some(EmptyPath)
    else if parts[0] == ".git" then Some(GitInternals)
    else if parts[0] == ".bridge" then Some(BridgeMetadata)
    else if parts[0] == ".zipflow" then Some(ZipflowMetadata)
    else if IsArchiveMetadata(parts) then Some(ArchiveMetadata)
    else if "node_modules" in parts then Some(NodeModules)
    else if parts[0] in options.skipTopLevel then Some(SkipTopLevel(parts[0]))
    else if IsExcluded(normalized, options) then Some(ExcludedControlFile)
    else None
  }

  predicate IsExcluded(normalized: string, options: Options) {
    var excluded := NormalizeSelectedPaths(options.excludedWritePaths);
    || (excluded.Some? && normalized in excluded.value)
    || exists i ::
      && 0 <= i < |options.excludedWritePrefixes|
      && IsBelowPrefix(normalized, NormalizeApplyPath(options.excludedWritePrefixes[i], ""))
  }

  predicate IsBelowPrefix(normalized: string, prefix: string) {
    prefix != "" && (normalized == prefix || prefix + "/" <= normalized)
  }

  /** Where an entry is written, unless it is a directory or skipped. */
  function Target(file: ZipFile, prefix: string, options: Options): Option<string> {
    var rel := NormalizeApplyPath(file.path, prefix);
    if file.directory || ShouldSkip(rel, options).Some? then None else Some(rel)
  }

  // ------------------------------------------------------------ target paths by components

  function TargetParts(name: string, prefix: string): (parts: seq<string>)
    ensures forall i :: 0 <= i < |parts| ==> Inner(parts[i]) && '/' !in parts[i]
  {
    var bare := StripLeading(Slashes(name));
    Filter(Inner, Split(if prefix != "" && prefix <= bare then bare[|prefix|..] else bare))
  }

  lemma TargetIsJoin(name: string, prefix: string)
    ensures NormalizeApplyPath(name, prefix) == Join(TargetParts(name, prefix))
  {}

  lemma TargetPartsClean(name: string, prefix: string)
    ensures forall i :: 0 <= i < |TargetParts(name, prefix)| ==> '\\' !in TargetParts(name, prefix)[i]
  {
    var s := Slashes(name);
    StripLeadingSuffix(s, '\\');
    var bare := StripLeading(s);
    var rest := if prefix != "" && prefix <= bare then bare[|prefix|..] else bare;
    SplitHasNoOther(rest, '\\');
    FilterSubset(Inner, Split(rest), (part: string) => '\\' !in part);
  }

  ghost predicate CleanParts(parts: seq<string>) {
    forall i :: 0 <= i < |parts| ==> Inner(parts[i]) && '/' !in parts[i] && '\\' !in parts[i]
  }

  lemma CleanPart(parts: seq<string>, i: nat)
    requires CleanParts(parts) && i < |parts|
    ensures parts[i] != "" && parts[i] != "." && parts[i] != ".." && Inner(parts[i]) && NonEmpty(parts[i])
    ensures '/' !in parts[i] && '\\' !in parts[i]
  {}

  lemma CleanFilters(parts: seq<string>)
    requires CleanParts(parts) && parts != []
    ensures Split(Join(parts)) == parts
    ensures Filter(Inner, parts) == parts && Filter(NonEmpty, parts) == parts
    ensures Slashes(Join(parts)) == Join(parts) && Join(parts) != "" && Join(parts)[0] != '/'
  {
    hide CleanParts, Inner, NonEmpty, Split, Join, Filter, Slashes;
    forall i | 0 <= i < |parts|
      ensures Inner(parts[i]) && NonEmpty(parts[i]) && '/' !in parts[i] && '\\' !in parts[i]
    {
      CleanPart(parts, i);
    }
    CleanPart(parts, 0);
    SplitJoin(parts);
    FilterAll(Inner, parts);
    FilterAll(NonEmpty, parts);
    JoinHasNoOther(parts, '\\');
    SlashesIdempotent(Join(parts));
    FirstChar(parts);
  }

  /** Normalising a joined path again changes nothing. */
  lemma NormalizedAgain(parts: seq<string>)
    requires CleanParts(parts)
    ensures NormalizeApplyPath(Join(parts), "") == Join(parts)
    ensures Filter(NonEmpty, Split(Join(parts))) == parts
  {
    if parts != [] {
      CleanFilters(parts);
      hide CleanParts;
    } else {
      assert Split("") == [""];
    }
  }

  lemma TargetClean(name: string, prefix: string)
    ensures CleanParts(TargetParts(name, prefix))
  {
    TargetPartsClean(name, prefix);
  }

  lemma NotSkipped(rel: string, options: Options)
    requires ShouldSkip(rel, options).None?
    ensures var parts := Filter(NonEmpty, Split(NormalizeApplyPath(rel, ""))); parts != [] && !IsMetadataTop(parts[0])
  {
    hide NormalizeApplyPath, Filter, Split, IsExcluded, IsArchiveMetadata;
  }

  /** What an unskipped target looks like. */
  lemma UnskippedParts(name: string, prefix: string, options: Options)
    requires ShouldSkip(NormalizeApplyPath(name, prefix), options).None?
    ensures var parts := TargetParts(name, prefix);
      && CleanParts(parts) && parts != [] && !IsMetadataTop(parts[0])
      && Split(NormalizeApplyPath(name, prefix)) == parts && NormalizeApplyPath(name, prefix) != ""
  {
    hide *;
    var parts := TargetParts(name, prefix);
    NotSkipped(NormalizeApplyPath(name, prefix), options);
    TargetIsJoin(name, prefix);
    TargetClean(name, prefix);
    NormalizedAgain(parts);
    CleanFilters(parts);
  }

  // ------------------------------------------------------------ the common root

  /** A prefix worth stripping: one whole component that every entry outside the metadata directories starts with. */
  ghost predicate SoundPrefix(files: seq<ZipFile>, prefix: string) {
    prefix != "" ==>
      && |prefix| >= 2 && prefix[|prefix| - 1] == '/'
      && var top := prefix[..|prefix| - 1];
      && '/' !in top && Inner(top) && !IsMetadataTop(top)
      && forall i :: 0 <= i < |files| && IsApplyRegular(files[i]) ==> prefix <= Slashes(files[i].path)
  }

  lemma {:induction false} FirstPart(name: string)
    ensures Split(name)[0] <= name
    ensures '/' in name ==> Split(name)[0] + "/" <= name
  {
    if name != "" {
      FirstPart(name[1..]);
      assert name == [name[0]] + name[1..];
      if name[0] != '/' {
        var part := Split(name[1..])[0];
        assert Split(name)[0] == [name[0]] + part;
        assert '/' in name ==> '/' in name[1..];
        assert [name[0]] + (part + "/") == Split(name)[0] + "/";
      } else {
        assert Split(name)[0] == "";
      }
    }
  }

  lemma FirstNonEmpty(name: string)
    requires Split(name)[0] != ""
    ensures Filter(NonEmpty, Split(name)) != [] && Filter(NonEmpty, Split(name))[0] == Split(name)[0]
  {}

  lemma CommonPrefixIsSound(files: seq<ZipFile>)
    ensures SoundPrefix(files, CommonTopLevelPrefix(files))
  {
    var names, prefix := ApplyRegular(files), CommonTopLevelPrefix(files);
    if prefix != "" {
      if prefix == "project/" && forall name :: name in names ==> "project/" <= name && |Split(name)| >= 2 {
        ProjectIsSound(files, names);
      } else {
        TopIsSound(files, names, Split(names[0])[0]);
      }
    }
  }

  lemma ProjectIsSound(files: seq<ZipFile>, names: seq<string>)
    requires names == ApplyRegular(files) && forall name :: name in names ==> "project/" <= name
    ensures SoundPrefix(files, "project/")
  {
    hide Slashes, Split, Filter, IsApplyRegular, ApplyRegular;
    assert "project/"[..7] == "project";
    assert "project"[0] == 'p';
    forall i | 0 <= i < |files| && IsApplyRegular(files[i])
      ensures "project/" <= Slashes(files[i].path)
    {
      assert Slashes(files[i].path) in names;
    }
  }

  lemma TopIsSound(files: seq<ZipFile>, names: seq<string>, top: string)
    requires names == ApplyRegular(files) && names != [] && top == Split(names[0])[0]
    requires top != "" && top[0] != '.' && forall name :: name in names ==> Split(name)[0] == top && '/' in name
    ensures SoundPrefix(files, top + "/")
  {
    assert '/' !in top;
    FirstNonEmpty(names[0]);
    assert names[0] in names;
    ApplyRegularSlashed(files, names[0]);
    assert (top + "/")[..|top|] == top;
    assert Inner(top);
    forall i | 0 <= i < |files| && IsApplyRegular(files[i])
      ensures top + "/" <= Slashes(files[i].path)
    {
      hide Slashes, Split, Filter, IsApplyRegular, ApplyRegular;
      assert Slashes(files[i].path) in names;
      FirstPart(Slashes(files[i].path));
    }
  }

  lemma ApplyRegularSlashed(files: seq<ZipFile>, name: string)
    requires name in ApplyRegular(files)
    ensures Slashes(name) == name && !IsMetadataOnlyTopLevel(name)
  {
    hide Slashes, IsMetadataOnlyTopLevel;
    var i :| 0 <= i < |files| && IsApplyRegular(files[i]) && name == Slashes(files[i].path);
    assert '\\' !in name;
    SlashesIdempotent(name);
  }

  // ------------------------------------------------------------ the map is injective and contained

  /** How the components of an entry relate to those of its target. */
  lemma TargetComponents(name: string, prefix: string)
    requires !IsUnsafeZipPath(name)
    requires prefix != "" ==>
      |prefix| >= 2 && prefix[|prefix| - 1] == '/' && '/' !in prefix[..|prefix| - 1] && Inner(prefix[..|prefix| - 1])
    ensures if prefix != ""
      && prefix <= Slashes(name) then Components(name) == [prefix[..|prefix| - 1]] + TargetParts(name, prefix)
      else Components(name) == TargetParts(name, prefix)
  {
    var s := Slashes(name);
    SafeStart(name, prefix);
    if prefix != "" && prefix <= s {
      hide *;
      PrefixSplit(s, prefix);
      SingleInner(prefix[..|prefix| - 1]);
      FilterConcat(Inner, [prefix[..|prefix| - 1]], Split(s[|prefix|..]));
    }
  }

  lemma PrefixSplit(s: string, prefix: string)
    requires prefix != "" && prefix <= s && prefix[|prefix| - 1] == '/' && '/' !in prefix[..|prefix| - 1]
    ensures Split(s) == [prefix[..|prefix| - 1]] + Split(s[|prefix|..])
  {
    var top, rest := prefix[..|prefix| - 1], s[|prefix|..];
    hide Split;
    assert s == top + "/" + rest;
    SplitConcat(top, rest);
  }

  lemma SingleInner(part: string)
    requires Inner(part)
    ensures Filter(Inner, [part]) == [part]
  {}

  /** A safe name's target parts, straight from its slashed form. */
  lemma SafeStart(name: string, prefix: string)
    requires !IsUnsafeZipPath(name)
    ensures Filter(Inner, Split(Slashes(name))) == Components(name)
    ensures TargetParts(name, prefix) ==
      Filter(Inner, Split(if prefix != "" && prefix <= Slashes(name) then Slashes(name)[|prefix|..] else Slashes(name)))
  {
    SafeParts(name);
    hide IsUnsafeZipPath, Split, Filter, Slashes, StripLeading, Components;
  }

  lemma MetadataTop(name: string)
    requires !IsUnsafeZipPath(name) && IsMetadataOnlyTopLevel(Slashes(name))
    ensures Components(name) != [] && IsMetadataTop(Components(name)[0])
    ensures Components(name)[0] == Split(Slashes(name))[0]
  {
    var s := Slashes(name);
    assert '\\' !in s;
    SlashesIdempotent(s);
    SafeParts(name);
    assert Filter(Inner, Split(s)) == Components(name);
    hide IsUnsafeZipPath, Components, Slashes;
    FirstPart(s);
    assert Split(s)[0] != "" by {
      if Split(s)[0] == "" {
        SplitStart(s);
      }
    }
    FirstNonEmpty(s);
    assert Inner(Split(s)[0]);
  }

  lemma SplitStart(s: string)
    requires s != "" && s[0] != '/'
    ensures Split(s)[0] != ""
  {}

  lemma UnskippedStartsWithPrefix(files: seq<ZipFile>, i: nat, prefix: string, options: Options)
    requires i < |files| && Accepted(files) && SoundPrefix(files, prefix) && Target(files[i], prefix, options).Some?
    ensures prefix != "" ==> prefix <= Slashes(files[i].path)
  {
    var name := files[i].path;
    if prefix != "" && !(prefix <= Slashes(name)) {
      UnskippedParts(name, prefix, options);
      TargetComponents(name, prefix);
      assert Slashes(name) != "";
      assert !IsApplyRegular(files[i]);
      MetadataTop(name);
    }
  }

  lemma EqualTargets(files: seq<ZipFile>, i: nat, j: nat, prefix: string, options: Options)
    requires i < |files| && j < |files| && Accepted(files) && SoundPrefix(files, prefix)
    requires Target(files[i], prefix, options).Some?
    requires Target(files[j], prefix, options) == Target(files[i], prefix, options)
    ensures CanonicalZipPath(files[i].path) == CanonicalZipPath(files[j].path)
  {
    UnskippedStartsWithPrefix(files, i, prefix, options);
    UnskippedStartsWithPrefix(files, j, prefix, options);
    hide CanonicalZipPath, Components, TargetParts, IsUnsafeZipPath, NormalizeApplyPath, ShouldSkip, Slashes, Split,
        Join, CleanParts, IsApplyRegular;
    var a, b := files[i].path, files[j].path;
    UnskippedParts(a, prefix, options);
    UnskippedParts(b, prefix, options);
    TargetComponents(a, prefix);
    TargetComponents(b, prefix);
    assert Components(a) == Components(b);
    CanonicalIsComponents(a);
    CanonicalIsComponents(b);
  }

  lemma StripPrefixIsSound(files: seq<ZipFile>, options: Options)
    ensures SoundPrefix(files, StripPrefix(files, options))
  {
    CommonPrefixIsSound(files);
  }

  /** A relative path that stays below the directory it is resolved against. */
  ghost predicate StaysBelow(rel: string) {
    rel != "" && forall i :: 0 <= i < |Split(rel)| ==>
      Split(rel)[i] != "" && Split(rel)[i] != "." && Split(rel)[i] != ".."
  }

  /** For every archive the reader accepts, with or without a common root to strip: no two entries are written to the
      same path, and every path stays below the root. */
  lemma ExtractionIsInjectiveAndContained(files: seq<ZipFile>, options: Options)
    requires Accepted(files)
    ensures var prefix := StripPrefix(files, options);
      && (forall i :: 0 <= i < |files| && Target(files[i], prefix, options).Some? ==>
        StaysBelow(Target(files[i], prefix, options).value))
      && (forall i, j :: 0 <= i < j < |files| && Target(files[i], prefix, options).Some? ==>
        Target(files[i], prefix, options) != Target(files[j], prefix, options))
  {
    var prefix := StripPrefix(files, options);
    StripPrefixIsSound(files, options);
    forall i | 0 <= i < |files| && Target(files[i], prefix, options).Some?
      ensures StaysBelow(Target(files[i], prefix, options).value)
    {
      TargetStaysBelow(files[i], prefix, options);
    }
    forall i, j | 0 <= i < j < |files| && Target(files[i], prefix, options).Some?
      ensures Target(files[i], prefix, options) != Target(files[j], prefix, options)
    {
      hide Target, SoundPrefix, StripPrefix, CanonicalZipPath;
      if Target(files[i], prefix, options) == Target(files[j], prefix, options) {
        EqualTargets(files, i, j, prefix, options);
      }
    }
  }

  lemma TargetStaysBelow(file: ZipFile, prefix: string, options: Options)
    requires Target(file, prefix, options).Some?
    ensures StaysBelow(Target(file, prefix, options).value)
  {
    hide TargetParts, Split, ShouldSkip, NormalizeApplyPath;
    UnskippedParts(file.path, prefix, options);
  }

  // ------------------------------------------------------------ which entries are written, by components

  /** Written unless something else stands there: no control directory, nothing that archivers or package managers
      leave, and nothing the options exclude. */
  ghost predicate Ordinary(parts: seq<string>, options: Options) {
    && parts != [] && !IsControl(parts[0]) && !HasLeftovers(parts) && "node_modules" !in parts
    && parts[0] !in options.skipTopLevel && !Excluded(parts, options)
  }

  ghost predicate IsControl(top: string) {
    top in {".git", ".bridge", ".zipflow"}
  }

  ghost predicate HasLeftovers(parts: seq<string>) {
    exists part :: part in parts && (part == "__MACOSX" || part == ".DS_Store" || (|part| >= 2 && part[..2] == "._"))
  }

  /** The components are those of an excluded path, or begin with those of an excluded prefix. */
  ghost predicate Excluded(parts: seq<string>, options: Options) {
    || (options.excludedWritePaths.Some?
      && exists path :: path in options.excludedWritePaths.value && TargetParts(path, "") == parts)
    || exists path :: path in options.excludedWritePrefixes && IsAbove(TargetParts(path, ""), parts)
  }

  ghost predicate IsAbove(directory: seq<string>, parts: seq<string>) {
    directory != [] && directory <= parts
  }

  lemma JoinFirst(parts: seq<string>)
    requires |parts| > 1
    ensures Join(parts) == parts[0] + "/" + Join(parts[1..])
  {}

  lemma {:induction false} SplitJoined(parts: seq<string>, rest: string)
    requires parts != [] && forall i :: 0 <= i < |parts| ==> '/' !in parts[i]
    ensures Split(Join(parts) + "/" + rest) == parts + Split(rest)
  {
    if |parts| == 1 {
      SplitConcat(parts[0], rest);
    } else {
      JoinFirst(parts);
      SplitJoined(parts[1..], rest);
      hide *;
      var tail := Join(parts[1..]) + "/" + rest;
      assert Join(parts) + "/" + rest == parts[0] + "/" + tail;
      SplitConcat(parts[0], tail);
      assert [parts[0]] + parts[1..] == parts;
    }
  }

  lemma {:induction false} JoinConcat(a: seq<string>, b: seq<string>)
    requires a != [] && b != []
    ensures Join(a + b) == Join(a) + "/" + Join(b)
  {
    if |a| > 1 {
      JoinConcat(a[1..], b);
      assert (a + b)[1..] == a[1..] + b;
      assert Join(a + b) == a[0] + "/" + Join(a[1..] + b);
    } else {
      assert (a + b)[1..] == b;
    }
  }

  /** A joined path lies below another one exactly when it begins with the same components. */
  lemma BelowByParts(parts: seq<string>, prefix: seq<string>)
    requires CleanParts(parts) && parts != [] && CleanParts(prefix) && prefix != []
    ensures IsBelowPrefix(Join(parts), Join(prefix)) <==> prefix <= parts
    ensures Join(parts) == Join(prefix) <==> parts == prefix
  {
    CleanFilters(parts);
    CleanFilters(prefix);
    CleanSplits(prefix);
    hide *;
    BelowIs(Join(parts), Join(prefix));
    if prefix < parts {
      BelowWhenLonger(parts, prefix);
    }
    if Join(prefix) + "/" <= Join(parts) {
      LongerWhenBelow(parts, prefix);
    }
  }

  lemma BelowWhenLonger(parts: seq<string>, prefix: seq<string>)
    requires prefix != [] && prefix < parts
    ensures Join(prefix) + "/" <= Join(parts)
  {
    var rest := parts[|prefix|..];
    hide *;
    assert parts == prefix + rest;
    JoinConcat(prefix, rest);
  }

  lemma LongerWhenBelow(parts: seq<string>, prefix: seq<string>)
    requires prefix != [] && forall i :: 0 <= i < |prefix| ==> '/' !in prefix[i]
    requires Split(Join(parts)) == parts && Join(prefix) + "/" <= Join(parts)
    ensures prefix <= parts
  {
    hide *;
    var rest := Join(parts)[|Join(prefix) + "/"|..];
    assert Join(parts) == Join(prefix) + "/" + rest;
    SplitJoined(prefix, rest);
  }

  lemma BelowIs(path: string, directory: string)
    ensures IsBelowPrefix(path, directory) <==> directory != "" && (path == directory || directory + "/" <= path)
  {}

  lemma CleanSplits(parts: seq<string>)
    requires CleanParts(parts)
    ensures forall i :: 0 <= i < |parts| ==> '/' !in parts[i]
  {}

  lemma ExcludedByParts(parts: seq<string>, options: Options)
    requires CleanParts(parts) && parts != []
    ensures IsExcluded(Join(parts), options) <==> Excluded(parts, options)
  {
    CleanFilters(parts);
    forall path
      ensures NormalizeApplyPath(path, "") == Join(TargetParts(path, ""))
      ensures NormalizeApplyPath(path, "") == Join(parts) <==> TargetParts(path, "") == parts
      ensures IsBelowPrefix(Join(parts), NormalizeApplyPath(path, "")) <==>
        IsAbove(TargetParts(path, ""), parts)
    {
      TargetIsJoin(path, "");
      TargetClean(path, "");
      if TargetParts(path, "") != [] {
        CleanFilters(TargetParts(path, ""));
        BelowByParts(parts, TargetParts(path, ""));
      }
      hide NormalizeApplyPath, TargetParts, CleanParts;
    }
    hide NormalizeApplyPath, TargetParts, CleanParts, IsBelowPrefix, Join;
    assert forall i :: 0 <= i < |options.excludedWritePrefixes| ==>
      options.excludedWritePrefixes[i] in options.excludedWritePrefixes;
  }

  lemma LeftoversByParts(parts: seq<string>)
    ensures IsArchiveMetadata(parts) <==> HasLeftovers(parts)
  {
    if HasLeftovers(parts) {
      var part :| part in parts && (part == "__MACOSX" || part == ".DS_Store" || (|part| >= 2 && part[..2] == "._"));
      var i :| 0 <= i < |parts| && parts[i] == part;
      assert part == "__MACOSX" || parts[i] == ".DS_Store" || "._" <= parts[i];
    }
    if IsArchiveMetadata(parts) && "__MACOSX" !in parts {
      var i :| 0 <= i < |parts| && (parts[i] == ".DS_Store" || "._" <= parts[i]);
      assert parts[i] in parts;
    }
  }

  /** Why an entry is skipped: the first reason that applies. */
  lemma SkipReasons(name: string, prefix: string, options: Options)
    ensures var parts := TargetParts(name, prefix);
      var reason := ShouldSkip(NormalizeApplyPath(name, prefix), options);
      && (reason.None? <==> Ordinary(parts, options))
      && (reason == Some(EmptyPath) <==> parts == [])
      && (reason == Some(GitInternals) <==> parts != [] && parts[0] == ".git")
      && (reason == Some(BridgeMetadata) <==> parts != [] && parts[0] == ".bridge")
      && (reason == Some(ZipflowMetadata) <==> parts != [] && parts[0] == ".zipflow")
      && (reason == Some(ArchiveMetadata) <==> parts != [] && !IsControl(parts[0]) && HasLeftovers(parts))
      && (reason == Some(NodeModules) <==>
        parts != [] && !IsControl(parts[0]) && !HasLeftovers(parts) && "node_modules" in parts)
      && (parts != [] && reason == Some(SkipTopLevel(parts[0])) <==>
        parts != [] && !IsControl(parts[0]) && !HasLeftovers(parts) && "node_modules" !in parts
          && parts[0] in options.skipTopLevel)
      && (reason == Some(ExcludedControlFile) <==>
        parts != [] && !IsControl(parts[0]) && !HasLeftovers(parts) && "node_modules" !in parts
          && parts[0] !in options.skipTopLevel && Excluded(parts, options))
      && reason != Some(ConflictSkipped)
  {
    var parts := TargetParts(name, prefix);
    hide *;
    TargetIsJoin(name, prefix);
    TargetClean(name, prefix);
    NormalizedAgain(parts);
    LeftoversByParts(parts);
    if parts != [] {
      ExcludedByParts(parts, options);
    }
    FirstReason(Join(parts), options);
    OrdinaryIs(parts, options);
    ControlIs();
  }

  lemma OrdinaryIs(parts: seq<string>, options: Options)
    ensures Ordinary(parts, options) <==>
      && parts != [] && !IsControl(parts[0]) && !HasLeftovers(parts) && "node_modules" !in parts
      && parts[0] !in options.skipTopLevel && !Excluded(parts, options)
  {}

  lemma ControlIs()
    ensures forall top :: IsControl(top) <==> top == ".git" || top == ".bridge" || top == ".zipflow"
  {}

  lemma FirstReason(rel: string, options: Options)
    ensures var normalized := NormalizeApplyPath(rel, ""); var parts := Filter(NonEmpty, Split(normalized));
      var reason := ShouldSkip(rel, options);
      && (reason == Some(EmptyPath) <==> parts == [])
      && (reason == Some(GitInternals) <==> parts != [] && parts[0] == ".git")
      && (reason == Some(BridgeMetadata) <==> parts != [] && parts[0] == ".bridge")
      && (reason == Some(ZipflowMetadata) <==> parts != [] && parts[0] == ".zipflow")
      && (reason == Some(ArchiveMetadata) <==> parts != [] && !IsControl(parts[0]) && IsArchiveMetadata(parts))
      && (reason == Some(NodeModules) <==>
        parts != [] && !IsControl(parts[0]) && !IsArchiveMetadata(parts) && "node_modules" in parts)
      && (parts != [] && reason == Some(SkipTopLevel(parts[0])) <==>
        parts != [] && !IsControl(parts[0]) && !IsArchiveMetadata(parts) && "node_modules" !in parts
          && parts[0] in options.skipTopLevel)
      && (reason == Some(ExcludedControlFile) <==>
        parts != [] && !IsControl(parts[0]) && !IsArchiveMetadata(parts) && "node_modules" !in parts
          && parts[0] !in options.skipTopLevel && IsExcluded(normalized, options))
      && (reason.None? <==>
        parts != [] && !IsControl(parts[0]) && !IsArchiveMetadata(parts) && "node_modules" !in parts
          && parts[0] !in options.skipTopLevel && !IsExcluded(normalized, options))
      && reason != Some(ConflictSkipped)
  {
    hide NormalizeApplyPath, Filter, Split, IsExcluded, IsArchiveMetadata;
  }

  /** An entry is written exactly when it is no directory and its target is ordinary. */
  lemma TargetExactly(file: ZipFile, prefix: string, options: Options)
    ensures Target(file, prefix, options).Some? <==>
      !file.directory && Ordinary(TargetParts(file.path, prefix), options)
    ensures Target(file, prefix, options).Some? ==>
      Target(file, prefix, options).value == Join(TargetParts(file.path, prefix))
  {
    SkipReasons(file.path, prefix, options);
    TargetIsJoin(file.path, prefix);
    hide ShouldSkip, NormalizeApplyPath, TargetParts, Ordinary;
  }

  // ------------------------------------------------------------ exactly which root is stripped

  /** All regular entries outside the metadata directories, and there are some, lie below this directory. */
  ghost predicate SharedTop(files: seq<ZipFile>, top: string) {
    && top != "" && '/' !in top && top[0] != '.'
    && (exists i :: 0 <= i < |files| && DecidesRoot(files[i]))
    && forall i :: 0 <= i < |files| && DecidesRoot(files[i]) ==> top + "/" <= Slashes(files[i].path)
  }

  /** A file with a name, not in one of the metadata directories. */
  ghost predicate DecidesRoot(file: ZipFile) {
    && !file.directory && file.path != ""
    && var parts := Filter(NonEmpty, Split(Slashes(file.path)));
       parts == [] || parts[0] !in {".bridge", ".zipflow", ".git", "node_modules"}
  }

  lemma DecidesExactly(file: ZipFile)
    ensures DecidesRoot(file) <==> IsApplyRegular(file)
  {
    SlashesIdempotent(Slashes(file.path));
    hide Slashes, Split, Filter;
  }

  lemma FirstPartExactly(name: string, top: string)
    requires '/' !in top
    ensures top + "/" <= name <==> Split(name)[0] == top && '/' in name
    ensures top + "/" <= name ==> |Split(name)| >= 2
  {
    FirstPart(name);
    if top + "/" <= name {
      var rest := name[|top| + 1..];
      assert name == top + "/" + rest;
      SplitConcat(top, rest);
      assert name[|top|] == '/';
    }
  }

  lemma SharedTopByNames(files: seq<ZipFile>, names: seq<string>, top: string)
    requires names == ApplyRegular(files) && '/' !in top
    ensures SharedTop(files, top) <==>
      top != "" && top[0] != '.' && names != [] && forall name :: name in names ==> top + "/" <= name
  {
    forall file
      ensures DecidesRoot(file) <==> IsApplyRegular(file)
    {
      DecidesExactly(file);
    }
    hide Slashes, IsApplyRegular, ApplyRegular, DecidesRoot;
    forall i | 0 <= i < |files| && IsApplyRegular(files[i])
      ensures Slashes(files[i].path) in names
    {}
    if names != [] {
      assert names[0] in names;
    }
  }

  /** The root that is stripped is the one that all those entries share, and none is stripped if they share none. */
  lemma CommonPrefixExactly(files: seq<ZipFile>, top: string)
    requires '/' !in top
    ensures SharedTop(files, top) <==> CommonTopLevelPrefix(files) == top + "/"
    ensures CommonTopLevelPrefix(files) != "" <==> exists shared :: SharedTop(files, shared)
  {
    PrefixOfShared(files, top);
    forall shared | SharedTop(files, shared)
      ensures CommonTopLevelPrefix(files) == shared + "/"
    {
      PrefixOfShared(files, shared);
    }
    hide CommonTopLevelPrefix, SharedTop, Split, ApplyRegular;
    PrefixIsShared(files);
    assert (top + "/")[..|top|] == top;
    if CommonTopLevelPrefix(files) != "" {
      var shared :| SharedTop(files, shared) && CommonTopLevelPrefix(files) == shared + "/";
      assert (shared + "/")[..|shared|] == shared;
    }
  }

  lemma PrefixOfShared(files: seq<ZipFile>, top: string)
    ensures SharedTop(files, top) ==> CommonTopLevelPrefix(files) == top + "/"
  {
    var names := ApplyRegular(files);
    if SharedTop(files, top) {
      assert '/' !in top;
      hide *;
      SharedTopByNames(files, names, top);
      forall name | name in names
        ensures Under(name, top)
      {
        UnderExactly(name, top);
      }
      PrefixByNames(files, names, top);
    }
  }

  ghost predicate Under(name: string, top: string) {
    && Split(name)[0] == top && '/' in name && |Split(name)| >= 2
    && (top == "project" <==> "project/" <= name)
  }

  lemma UnderExactly(name: string, top: string)
    requires '/' !in top && top + "/" <= name
    ensures Under(name, top)
  {
    hide Split;
    FirstPartExactly(name, top);
    FirstPartExactly(name, "project");
    assert "project" + "/" == "project/";
  }

  lemma PrefixByNames(files: seq<ZipFile>, names: seq<string>, top: string)
    requires names == ApplyRegular(files) && names != [] && top != "" && top[0] != '.'
    requires forall name :: name in names ==> Under(name, top)
    ensures CommonTopLevelPrefix(files) == top + "/"
  {
    hide Split, ApplyRegular;
    assert names[0] in names;
    assert "project" + "/" == "project/";
  }

  lemma PrefixIsShared(files: seq<ZipFile>)
    ensures CommonTopLevelPrefix(files) != "" ==>
      exists shared :: SharedTop(files, shared) && CommonTopLevelPrefix(files) == shared + "/"
  {
    var names, prefix := ApplyRegular(files), CommonTopLevelPrefix(files);
    if prefix != "" {
      var shared := prefix[..|prefix| - 1];
      var first := Split(names[0])[0];
      assert names[0] in names;
      assert (first + "/")[..|first|] == first && "project/"[..7] == "project";
      assert shared == "project" || shared == first;
      if shared == "project" && prefix == "project/" && forall name :: name in names ==> "project/" <= name {
        assert "project" + "/" == "project/";
      } else {
        forall name | name in names
          ensures first + "/" <= name
        {
          FirstPart(name);
        }
      }
      hide Split, ApplyRegular;
      SharedTopByNames(files, names, shared);
    }
  }

  /** Nothing is stripped unless the options say so. */
  lemma StrippedExactly(files: seq<ZipFile>, options: Options, top: string)
    requires '/' !in top
    ensures StripPrefix(files, options) == top + "/" <==> options.stripCommonRoot && SharedTop(files, top)
    ensures StripPrefix(files, options) != "" ==> exists shared :: SharedTop(files, shared)
  {
    CommonPrefixExactly(files, top);
    hide CommonTopLevelPrefix, SharedTop;
    assert top + "/" != "";
  }
}
