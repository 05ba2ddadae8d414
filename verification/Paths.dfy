/** Slash-separated names: the path helpers of src/zipWriter.js and src/zipUtils.js. */
module Paths {

  // ------------------------------------------------------------ split, join, filter

  /** `s.split('/')`. */
  function Split(s: string): (parts: seq<string>)
    ensures |parts| >= 1
    ensures forall i :: 0 <= i < |parts| ==> '/' !in parts[i]
  {
    if s == "" then [""]
    else
      var rest := Split(s[1..]);
      if s[0] == '/' then [""] + rest else [[s[0]] + rest[0]] + rest[1..]
  }

  /** `parts.join('/')`. */
  function Join(parts: seq<string>): string {
    if parts == [] then ""
    else if |parts| == 1 then parts[0]
    else parts[0] + "/" + Join(parts[1..])
  }

  /** `parts.filter(keep)`. */
  function Filter(keep: string -> bool, parts: seq<string>): (r: seq<string>)
    ensures forall i :: 0 <= i < |r| ==> keep(r[i]) && r[i] in parts
  {
    if parts == [] then []
    else if keep(parts[0]) then [parts[0]] + Filter(keep, parts[1..])
    else Filter(keep, parts[1..])
  }

  lemma {:induction false} JoinSplit(s: string)
    ensures Join(Split(s)) == s
  {
    if s != "" {
      var rest := Split(s[1..]);
      JoinSplit(s[1..]);
      if s[0] == '/' {
        assert ([""] + rest)[1..] == rest;
      } else {
        var parts := [[s[0]] + rest[0]] + rest[1..];
        assert parts[1..] == rest[1..];
        assert Join(parts) == [s[0]] + Join(rest);
      }
    }
  }

  lemma {:induction false} SplitNoSlash(s: string)
    requires '/' !in s
    ensures Split(s) == [s]
  {
    if s != "" {
      assert s[0] in s && s == [s[0]] + s[1..];
      SplitNoSlash(s[1..]);
    }
  }

  lemma {:induction false} SplitConcat(s: string, t: string)
    requires '/' !in s
    ensures Split(s + "/" + t) == [s] + Split(t)
  {
    var whole := s + "/" + t;
    if s == "" {
      assert whole[1..] == t;
    } else {
      assert whole[1..] == s[1..] + "/" + t;
      SplitConcat(s[1..], t);
      assert [s[0]] + s[1..] == s;
    }
  }

  /** Joining loses nothing when no part has a slash. */
  lemma {:induction false} SplitJoin(parts: seq<string>)
    requires parts != []
    requires forall i :: 0 <= i < |parts| ==> '/' !in parts[i]
    ensures Split(Join(parts)) == parts
  {
    if |parts| == 1 {
      SplitNoSlash(parts[0]);
    } else {
      SplitJoin(parts[1..]);
      SplitConcat(parts[0], Join(parts[1..]));
    }
  }

  lemma {:induction false} FilterConcat(keep: string -> bool, a: seq<string>, b: seq<string>)
    ensures Filter(keep, a + b) == Filter(keep, a) + Filter(keep, b)
  {
    if a == [] {
      assert a + b == b;
    } else {
      assert (a + b)[1..] == a[1..] + b;
      FilterConcat(keep, a[1..], b);
    }
  }

  lemma {:induction false} FilterAll(keep: string -> bool, parts: seq<string>)
    requires forall i :: 0 <= i < |parts| ==> keep(parts[i])
    ensures Filter(keep, parts) == parts
  {
    if parts != [] {
      FilterAll(keep, parts[1..]);
    }
  }

  // ------------------------------------------------------------ replacements on the raw name

  /** `name.replace(/\\/g, '/')`. */
  function Slashes(name: string): (r: string)
    ensures |r| == |name| && '\\' !in r
  {
    if name == "" then ""
    else [if name[0] == '\\' then '/' else name[0]] + Slashes(name[1..])
  }

  /** `name.replace(/^\/+/, '')`. */
  function StripLeading(name: string): string {
    if name != "" && name[0] == '/' then StripLeading(name[1..]) else name
  }

  /** `name.replace(/\/+/g, '/')`. */
  function Collapse(name: string): string {
    if |name| < 2 then name
    else if name[0] == '/' && name[1] == '/' then Collapse(name[1..])
    else [name[0]] + Collapse(name[1..])
  }

  lemma {:induction false} SlashesIdempotent(name: string)
    requires '\\' !in name
    ensures Slashes(name) == name
  {
    if name != "" {
      SlashesIdempotent(name[1..]);
    }
  }

  lemma {:induction false} StripLeadingKeepsParts(keep: string -> bool, name: string)
    requires !keep("")
    ensures Filter(keep, Split(StripLeading(name))) == Filter(keep, Split(name))
  {
    if name != "" && name[0] == '/' {
      StripLeadingKeepsParts(keep, name[1..]);
      assert ([""] + Split(name[1..]))[1..] == Split(name[1..]);
    }
  }

  lemma {:induction false} CollapseKeepsParts(keep: string -> bool, name: string)
    requires !keep("")
    ensures Split(Collapse(name))[0] == Split(name)[0]
    ensures Filter(keep, Split(Collapse(name))[1..]) == Filter(keep, Split(name)[1..])
  {
    if |name| >= 2 {
      CollapseKeepsParts(keep, name[1..]);
      var rest, rest' := Split(name[1..]), Split(Collapse(name[1..]));
      if name[0] == '/' && name[1] == '/' {
        assert Split(name)[1..] == rest;
      } else {
        assert ([name[0]] + Collapse(name[1..]))[1..] == Collapse(name[1..]);
        if name[0] == '/' {
          assert Split(Collapse(name))[1..] == rest' && Split(name)[1..] == rest;
          assert rest' == [rest'[0]] + rest'[1..] && rest == [rest[0]] + rest[1..];
        } else {
          assert Split(Collapse(name))[1..] == rest'[1..] && Split(name)[1..] == rest[1..];
        }
      }
    }
  }

  lemma CollapsePreserves(keep: string -> bool, name: string)
    requires !keep("")
    ensures Filter(keep, Split(Collapse(name))) == Filter(keep, Split(name))
  {
    CollapseKeepsParts(keep, name);
    var a, b := Split(Collapse(name)), Split(name);
    assert a == [a[0]] + a[1..] && b == [b[0]] + b[1..];
  }

  // ------------------------------------------------------------ the source's helpers

  const Plain: string -> bool := (part: string) => part != "" && part != "."
  const Inner: string -> bool := (part: string) => part != "" && part != "." && part != ".."
  const NonEmpty: string -> bool := (part: string) => part != ""

  /** normalizeZipPath. */
  function NormalizeZipPath(name: string): string {
    Join(NormalizedParts(name))
  }

  /** canonicalZipPath. */
  function CanonicalZipPath(name: string): string {
    Join(Filter(Plain, Split(Collapse(StripLeading(Slashes(name))))))
  }

  /** normalizeApplyPath. */
  function NormalizeApplyPath(name: string, stripPrefix: string): string {
    var bare := StripLeading(Slashes(name));
    var rest := if stripPrefix != "" && stripPrefix <= bare then bare[|stripPrefix|..] else bare;
    Join(Filter(Inner, Split(rest)))
  }

  /** `/^[a-zA-Z]:\//`. */
  predicate HasDrivePrefix(name: string) {
    && |name| >= 3
    && ('a' <= name[0] <= 'z' || 'A' <= name[0] <= 'Z')
    && name[1] == ':' && name[2] == '/'
  }

  /** isUnsafeZipPath. */
  predicate IsUnsafeZipPath(name: string) {
    var normalized := Slashes(name);
    if normalized == "" || normalized[0] == '/' || HasDrivePrefix(normalized) then true
    else
      var trimmed := if normalized[|normalized| - 1] == '/' then normalized[..|normalized| - 1] else normalized;
      trimmed == "" || HasUnsafePart(Split(trimmed))
  }

  predicate HasUnsafePart(parts: seq<string>) {
    exists i :: 0 <= i < |parts| && (parts[i] == ".." || parts[i] == "")
  }

  /** isArchiveMetadataPath. */
  predicate IsArchiveMetadataPath(name: string) {
    IsArchiveMetadata(Filter(NonEmpty, Split(name)))
  }

  predicate IsArchiveMetadata(parts: seq<string>) {
    || "__MACOSX" in parts
    || exists i :: 0 <= i < |parts| && (parts[i] == ".DS_Store" || "._" <= parts[i])
  }

  /** The meaningful components of a name. */
  function Components(name: string): (r: seq<string>)
    ensures forall i :: 0 <= i < |r| ==> Plain(r[i]) && '/' !in r[i]
  {
    Filter(Plain, Split(Slashes(name)))
  }

  // ------------------------------------------------------------ what the helpers mean

  lemma CanonicalIsComponents(name: string)
    ensures CanonicalZipPath(name) == Join(Components(name))
  {
    var s := Slashes(name);
    CollapsePreserves(Plain, StripLeading(s));
    StripLeadingKeepsParts(Plain, s);
  }

  /** Two names have the same canonical path exactly when they have the same components. */
  lemma CanonicalIsInjective(a: string, b: string)
    requires Components(a) != [] && Components(b) != []
    ensures CanonicalZipPath(a) == CanonicalZipPath(b) <==> Components(a) == Components(b)
  {
    CanonicalIsComponents(a);
    CanonicalIsComponents(b);
    SplitJoin(Components(a));
    SplitJoin(Components(b));
  }

  lemma {:induction false} SplitTrailing(s: string)
    ensures Split(s + "/") == Split(s) + [""]
  {
    if s == "" {
      assert Split("") == [""];
    } else {
      assert (s + "/")[1..] == s[1..] + "/";
      SplitTrailing(s[1..]);
    }
  }

  lemma {:induction false} FilterOnly(keep: string -> bool, parts: seq<string>)
    requires forall i :: 0 <= i < |parts| ==> !keep(parts[i])
    ensures Filter(keep, parts) == []
  {
    if parts != [] {
      FilterOnly(keep, parts[1..]);
    }
  }

  /** The raw parts of a safe name: no empty part, no `..`, but perhaps one trailing slash. */
  lemma SafeParts(name: string)
    requires !IsUnsafeZipPath(name)
    ensures var s := Slashes(name); var t := if s[|s| - 1] == '/' then s[..|s| - 1] else s;
      && s != "" && s[0] != '/'
      && StripLeading(s) == s
      && (forall i :: 0 <= i < |Split(t)| ==> Split(t)[i] != ".." && Split(t)[i] != "")
      && Components(name) == Filter(Plain, Split(t))
      && Filter(Inner, Split(s)) == Components(name)
      && Filter(NonEmpty, Split(s)) == Split(t)
  {
    hide Split, Filter, Slashes;
    var s := Slashes(name);
    var t := if s[|s| - 1] == '/' then s[..|s| - 1] else s;
    var parts := Split(t);
    assert forall i :: 0 <= i < |parts| ==> parts[i] != ".." && parts[i] != "";
    if s[|s| - 1] == '/' {
      assert s == t + "/";
      SplitTrailing(t);
      FilterConcat(Plain, Split(t), [""]);
      FilterConcat(Inner, Split(t), [""]);
      FilterConcat(NonEmpty, Split(t), [""]);
      FilterOnly(Plain, [""]);
      FilterOnly(Inner, [""]);
      FilterOnly(NonEmpty, [""]);
    }
    FilterAgree(Inner, Plain, Split(t));
    FilterAll(NonEmpty, Split(t));
  }

  lemma {:induction false} FilterAgree(keep: string -> bool, keep': string -> bool, parts: seq<string>)
    requires forall i :: 0 <= i < |parts| ==> keep(parts[i]) == keep'(parts[i])
    ensures Filter(keep, parts) == Filter(keep', parts)
  {
    if parts != [] {
      FilterAgree(keep, keep', parts[1..]);
    }
  }

  // ------------------------------------------------------------ normalised names

  lemma {:induction false} SplitHasNoOther(s: string, c: char)
    requires c !in s
    ensures forall i :: 0 <= i < |Split(s)| ==> c !in Split(s)[i]
  {
    if s != "" {
      SplitHasNoOther(s[1..], c);
    }
  }

  lemma {:induction false} JoinHasNoOther(parts: seq<string>, c: char)
    requires c != '/' && forall i :: 0 <= i < |parts| ==> c !in parts[i]
    ensures c !in Join(parts)
  {
    if |parts| > 1 {
      JoinHasNoOther(parts[1..], c);
    }
  }

  lemma {:induction false} FilterSubset(keep: string -> bool, parts: seq<string>, good: string -> bool)
    requires forall i :: 0 <= i < |parts| ==> good(parts[i])
    ensures forall i :: 0 <= i < |Filter(keep, parts)| ==> good(Filter(keep, parts)[i])
  {
    if parts != [] {
      FilterSubset(keep, parts[1..], good);
    }
  }

  lemma {:induction false} StripLeadingSuffix(name: string, c: char)
    requires c !in name
    ensures c !in StripLeading(name) && c !in Collapse(name)
  {
    if name != "" && name[0] == '/' {
      StripLeadingSuffix(name[1..], c);
    }
    if |name| >= 2 {
      assert name == [name[0]] + name[1..];
      StripLeadingSuffix(name[1..], c);
    }
  }

  /** The parts of a normalised name. */
  function NormalizedParts(name: string): (parts: seq<string>)
    ensures forall i :: 0 <= i < |parts| ==> Inner(parts[i]) && '/' !in parts[i]
  {
    Filter(Inner, Split(Collapse(StripLeading(Slashes(name)))))
  }

  lemma NormalizedPartsClean(name: string)
    ensures forall i :: 0 <= i < |NormalizedParts(name)| ==> '\\' !in NormalizedParts(name)[i]
  {
    var s := Slashes(name);
    StripLeadingSuffix(s, '\\');
    StripLeadingSuffix(StripLeading(s), '\\');
    var parts := Split(Collapse(StripLeading(s)));
    SplitHasNoOther(Collapse(StripLeading(s)), '\\');
    FilterSubset(Inner, parts, (part: string) => '\\' !in part);
  }

  /** A normalised name is its own canonical path, does not name a directory, and is unsafe
      for the reader only when it starts with a drive letter. */
  lemma NormalizedNameReads(raw: string)
    requires NormalizeZipPath(raw) != ""
    ensures var name := NormalizeZipPath(raw);
      && CanonicalZipPath(name) == name
      && name[|name| - 1] != '/'
      && (IsUnsafeZipPath(name) <==> HasDrivePrefix(name))
  {
    var parts := NormalizedParts(raw);
    var name := NormalizeZipPath(raw);
    NormalizedPartsClean(raw);
    assert name == Join(parts) && parts != [];
    hide NormalizeZipPath, NormalizedParts;
    SplitJoin(parts);
    JoinHasNoOther(parts, '\\');
    SlashesIdempotent(name);
    CanonicalIsComponents(name);
    forall i | 0 <= i < |parts|
      ensures Plain(parts[i]) && parts[i] != ""
    {
      assert Inner(parts[i]);
    }
    FilterAll(Plain, parts);
    LastChar(parts);
    FirstChar(parts);
    NoUnsafePart(parts);
  }

  lemma {:induction false} LastChar(parts: seq<string>)
    requires parts != []
    requires forall i :: 0 <= i < |parts| ==> parts[i] != "" && '/' !in parts[i]
    ensures Join(parts) != "" && Join(parts)[|Join(parts)| - 1] != '/'
  {
    if |parts| > 1 {
      LastChar(parts[1..]);
    }
  }

  lemma FirstChar(parts: seq<string>)
    requires parts != [] && parts[0] != "" && '/' !in parts[0]
    ensures Join(parts) != "" && Join(parts)[0] != '/'
  {}

  lemma NoUnsafePart(parts: seq<string>)
    requires forall i :: 0 <= i < |parts| ==> Inner(parts[i])
    ensures !HasUnsafePart(parts)
  {
    forall i | 0 <= i < |parts|
      ensures parts[i] != ".." && parts[i] != ""
    {
      assert Inner(parts[i]);
    }
  }

  /** Backslashes become slashes and nothing else changes. */
  lemma {:induction false} SlashesAt(name: string, i: nat)
    requires i < |name|
    ensures Slashes(name)[i] == if name[i] == '\\' then '/' else name[i]
  {
    if i > 0 {
      SlashesAt(name[1..], i - 1);
    }
  }

  /** The parts of a normalised name are the raw parts without the empty ones, `.` and `..`. */
  lemma NormalizedPartsAre(name: string)
    ensures NormalizedParts(name) == Filter(Inner, Split(Slashes(name)))
  {
    CollapsePreserves(Inner, StripLeading(Slashes(name)));
    StripLeadingKeepsParts(Inner, Slashes(name));
  }

  ghost predicate IsLetter(c: char) {
    'a' <= c <= 'z' || 'A' <= c <= 'Z'
  }

  /** A drive prefix is a first part of one letter and a colon, with something after its slash or not. */
  lemma DrivePrefixExactly(name: string)
    ensures HasDrivePrefix(name) <==>
      |Split(name)| >= 2 && |Split(name)[0]| == 2 && IsLetter(Split(name)[0][0]) && Split(name)[0][1] == ':'
  {
    if |name| >= 3 {
      if HasDrivePrefix(name) {
        assert name == name[..2] + "/" + name[3..];
        SplitConcat(name[..2], name[3..]);
      }
    }
    if |Split(name)| >= 2 && |Split(name)[0]| == 2 {
      FirstPartThenSlash(name);
    }
  }

  lemma {:induction false} FirstPartThenSlash(name: string)
    requires |Split(name)| >= 2
    ensures var first := Split(name)[0]; |first| < |name| && name[..|first|] == first && name[|first|] == '/'
  {
    if name[0] != '/' {
      FirstPartThenSlash(name[1..]);
      var rest := Split(name[1..])[0];
      assert Split(name)[0] == [name[0]] + rest;
      assert name[..|rest| + 1] == [name[0]] + name[1..][..|rest|];
    }
  }
}
