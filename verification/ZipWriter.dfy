/** writeZip of src/zipWriter.js: which entries are kept, and the bytes that are written. */
module ZipWriter {
  import opened Bytes
  import Crc32
  import opened Paths
  import opened Wrappers
  import opened ZipFormat

  /** UTF-8 and raw DEFLATE, which the source takes from the platform. `inflate` also takes
      the largest output it may produce. */
  datatype Platform = Platform(
    encode: string -> Buffer,
    decode: Buffer -> string,
    deflate: Buffer -> Buffer,
    inflate: (Buffer, nat) -> Option<Buffer>)

  datatype SourceEntry = SourceEntry(name: string, data: Buffer, dosTime: nat, dosDate: nat)

  datatype WriteError = DuplicateEntry(name: string)

  datatype WrittenZip = WrittenZip(bytes: Buffer, entries: nat, size: nat, uncompressedSize: nat, compressedSize: nat)

  /** encodedEntry: deflate only when asked to, and only when it makes the data shorter. */
  function Encoded(p: Platform, compress: bool, data: Buffer): (nat, Buffer) {
    if !compress || data == [] then (0, data)
    else
      var compressed := p.deflate(data);
      if |compressed| < |data| then (8, compressed) else (0, data)
  }

  function MemberOf(p: Platform, compress: bool, name: string, e: SourceEntry): Member {
    var (compression, stored) := Encoded(p, compress, e.data);
    Member(name, p.encode(name), compression, stored, |e.data|, Crc32.Crc(e.data), e.dosTime, e.dosDate)
  }

  /** An entry whose name normalises to nothing, or to macOS metadata, is left out of the archive. */
  predicate IsKept(e: SourceEntry) {
    var name := NormalizeZipPath(e.name);
    name != "" && !IsArchiveMetadataPath(name)
  }

  /** The entries that are kept, in order. */
  function Kept(entries: seq<SourceEntry>): seq<SourceEntry> {
    if entries == [] then []
    else
      var init, last := entries[..|entries| - 1], entries[|entries| - 1];
      if IsKept(last) then Kept(init) + [last] else Kept(init)
  }

  /** Exactly the entries whose name has meaningful parts, and none that macOS leaves behind, are kept. */
  lemma KeptExactly(e: SourceEntry)
    ensures var parts := Filter(Inner, Split(Slashes(e.name)));
      IsKept(e) <==> parts != [] && forall part :: part in parts ==>
        part != "__MACOSX" && part != ".DS_Store" && !(|part| >= 2 && part[0] == '.' && part[1] == '_')
  {
    var parts := NormalizedParts(e.name);
    NormalizedPartsAre(e.name);
    LeftBehind(parts);
    if parts != [] {
      JoinedParts(parts);
    }
    hide *;
    KeptIs(e);
    NothingJoined();
  }

  lemma KeptIs(e: SourceEntry)
    ensures var name := Join(NormalizedParts(e.name)); IsKept(e) <==> name != "" && !IsArchiveMetadataPath(name)
    ensures IsArchiveMetadataPath(Join(NormalizedParts(e.name))) <==>
      IsArchiveMetadata(Filter(NonEmpty, Split(Join(NormalizedParts(e.name)))))
  {
    hide Join, NormalizedParts, IsArchiveMetadata, Filter, Split;
  }

  lemma NothingJoined()
    ensures Join([]) == ""
  {}

  lemma JoinedParts(parts: seq<string>)
    requires parts != [] && forall i :: 0 <= i < |parts| ==> Inner(parts[i]) && '/' !in parts[i]
    ensures Join(parts) != "" && Filter(NonEmpty, Split(Join(parts))) == parts
  {
    SplitJoin(parts);
    assert Inner(parts[0]);
    FirstChar(parts);
    hide Split, Join, Filter;
    forall i | 0 <= i < |parts|
      ensures NonEmpty(parts[i])
    {
      assert Inner(parts[i]);
    }
    FilterAll(NonEmpty, parts);
  }

  lemma LeftBehind(parts: seq<string>)
    ensures !IsArchiveMetadata(parts) <==> forall part :: part in parts ==>
      part != "__MACOSX" && part != ".DS_Store" && !(|part| >= 2 && part[0] == '.' && part[1] == '_')
  {
    if IsArchiveMetadata(parts) && "__MACOSX" !in parts {
      var i :| 0 <= i < |parts| && (parts[i] == ".DS_Store" || "._" <= parts[i]);
      assert parts[i] in parts;
      assert parts[i] == ".DS_Store" || (parts[i][0] == '.' && parts[i][1] == '_');
    }
    if part :| part in parts && (part == ".DS_Store" || (|part| >= 2 && part[0] == '.' && part[1] == '_')) {
      var i :| 0 <= i < |parts| && parts[i] == part;
      assert part == ".DS_Store" || "._" <= part;
    }
  }

  lemma KeptLast(entries: seq<SourceEntry>)
    ensures Kept([]) == []
    ensures entries != [] ==>
      var n := |entries| - 1;
      Kept(entries) == Kept(entries[..n]) + if IsKept(entries[n]) then [entries[n]] else []
  {
    hide IsKept;
  }

  /** The order is that of the source, and each entry is judged by itself. */
  lemma {:induction false} KeptConcat(a: seq<SourceEntry>, b: seq<SourceEntry>)
    ensures Kept(a + b) == Kept(a) + Kept(b)
    ensures forall e :: Kept([e]) == if IsKept(e) then [e] else []
  {
    hide *;
    forall e
      ensures Kept([e]) == if IsKept(e) then [e] else []
    {
      KeptLast([e]);
      assert [e][..0] == [];
    }
    KeptLast(b);
    KeptLast(a + b);
    if b == [] {
      assert a + b == a;
    } else {
      var n := |b| - 1;
      assert (a + b)[..|a| + n] == a + b[..n];
      KeptConcat(a, b[..n]);
    }
  }

  /** What is written of an entry: deflated data exactly when that was asked for and makes it shorter, and its checksum,
      size and time. */
  lemma MemberExactly(p: Platform, compress: bool, name: string, e: SourceEntry)
    ensures var m := MemberOf(p, compress, name, e);
      && m.name == name && m.nameBytes == p.encode(name) && m.size == |e.data| && m.crc == Crc32.Crc(e.data)
      && m.dosTime == e.dosTime && m.dosDate == e.dosDate
      && (compress && e.data != [] && |p.deflate(e.data)| < |e.data| ==>
        m.compression == 8 && m.stored == p.deflate(e.data))
      && (!(compress && e.data != [] && |p.deflate(e.data)| < |e.data|) ==> m.compression == 0 && m.stored == e.data)
  {
    hide Crc32.Crc;
  }

  function KeptNames(entries: seq<SourceEntry>): seq<string> {
    NamesOf(Kept(entries))
  }

  function NamesOf(kept: seq<SourceEntry>): (names: seq<string>)
    ensures |names| == |kept|
    ensures forall i :: 0 <= i < |kept| ==> names[i] == NormalizeZipPath(kept[i].name)
  {
    seq(|kept|, i requires 0 <= i < |kept| => NormalizeZipPath(kept[i].name))
  }

  ghost predicate Distinct<T>(s: seq<T>) {
    forall i, j :: 0 <= i < j < |s| ==> s[i] != s[j]
  }

  function MembersOf(p: Platform, compress: bool, kept: seq<SourceEntry>): (ms: seq<Member>)
    ensures |ms| == |kept|
    ensures forall i :: 0 <= i < |kept| ==> ms[i] == MemberOf(p, compress, NormalizeZipPath(kept[i].name), kept[i])
  {
    seq(|kept|, i requires 0 <= i < |kept| => MemberOf(p, compress, NormalizeZipPath(kept[i].name), kept[i]))
  }

  function TotalSize(members: seq<Member>): nat {
    if members == [] then 0 else members[0].size + TotalSize(members[1..])
  }

  function TotalStored(members: seq<Member>): nat {
    if members == [] then 0 else |members[0].stored| + TotalStored(members[1..])
  }

  /** The kept names collide at `n` and at no earlier entry. */
  ghost predicate FirstDuplicate(entries: seq<SourceEntry>, name: string) {
    exists n ::
      && 0 <= n < |entries|
      && IsKept(entries[n])
      && name == NormalizeZipPath(entries[n].name)
      && name in KeptNames(entries[..n])
      && Distinct(KeptNames(entries[..n]))
  }

  // ------------------------------------------------------------ layout grows at the end

  lemma {:induction false} LocalsAppend(ms: seq<Member>, m: Member)
    ensures Locals(ms + [m]) == Locals(ms) + (LocalHeader(m) + m.stored)
  {
    if ms == [] {
      assert [m][1..] == [] && Locals([]) == [];
      assert Locals([m]) == LocalHeader(m) + m.stored + [];
    } else {
      assert (ms + [m])[1..] == ms[1..] + [m];
      LocalsAppend(ms[1..], m);
    }
  }

  lemma {:induction false} LocalsSize(ms: seq<Member>, m: Member)
    ensures |LocalHeader(m)| == 30 + |m.nameBytes|
    ensures |Locals(ms + [m])| == |Locals(ms)| + LocalSize(m)
  {
    LocalLayout(m);
    LocalsAppend(ms, m);
  }

  lemma {:induction false} CentralsAppend(ms: seq<Member>, offset: nat, m: Member)
    ensures Centrals(ms + [m], offset) == Centrals(ms, offset) + CentralHeader(m, offset + |Locals(ms)|)
  {
    hide *;
    CentralsFirst(ms, offset, m);
    if ms != [] {
      var rest, offset' := ms[1..], offset + LocalSize(ms[0]);
      CentralsAppend(rest, offset', m);
      ConcatAssociates(CentralHeader(ms[0], offset), Centrals(rest, offset'),
          CentralHeader(m, offset' + |Locals(rest)|));
    }
  }

  lemma ConcatAssociates<T>(a: seq<T>, b: seq<T>, c: seq<T>)
    ensures a + (b + c) == (a + b) + c
  {}

  lemma CentralsFirst(ms: seq<Member>, offset: nat, m: Member)
    ensures ms == [] ==>
      Locals(ms) == [] && Centrals(ms + [m], offset) == Centrals(ms, offset) + CentralHeader(m, offset)
    ensures ms != [] ==>
      var offset' := offset + LocalSize(ms[0]);
      && Centrals(ms + [m], offset) == CentralHeader(ms[0], offset) + Centrals(ms[1..] + [m], offset')
      && Centrals(ms, offset) == CentralHeader(ms[0], offset) + Centrals(ms[1..], offset')
      && offset + |Locals(ms)| == offset' + |Locals(ms[1..])|
  {
    if ms == [] {
      assert [] + [m] == [m] && [m][1..] == [];
      assert Centrals([m], offset) == CentralHeader(m, offset) + [];
    } else {
      LocalLayout(ms[0]);
      assert (ms + [m])[1..] == ms[1..] + [m];
    }
  }

  lemma {:induction false} TotalsAppend(ms: seq<Member>, m: Member)
    ensures TotalSize(ms + [m]) == TotalSize(ms) + m.size
    ensures TotalStored(ms + [m]) == TotalStored(ms) + |m.stored|
  {
    if ms == [] {
      assert [m][1..] == [];
    } else {
      assert (ms + [m])[1..] == ms[1..] + [m];
      TotalsAppend(ms[1..], m);
    }
  }

  // ------------------------------------------------------------ writeZip

  /** What writeZip has accumulated for its first entries. */
  datatype Progress = Progress(
    chunks: Buffer, central: Buffer, count: nat, offset: nat, uncompressedSize: nat, compressedSize: nat)

  ghost predicate LaidOut(s: Progress, ms: seq<Member>) {
    && s.chunks == Locals(ms) && s.central == Centrals(ms, 0) && s.count == |ms| && s.offset == |s.chunks|
    && s.uncompressedSize == TotalSize(ms) && s.compressedSize == TotalStored(ms)
  }

  /** One turn of the loop for a kept member. */
  function Added(s: Progress, m: Member): Progress {
    Progress(
      s.chunks + (LocalHeader(m) + m.stored),
      s.central + CentralHeader(m, s.offset),
      s.count + 1,
      s.offset + |LocalHeader(m)| + |m.stored|,
      s.uncompressedSize + m.size,
      s.compressedSize + |m.stored|)
  }

  lemma MemberLaidOut(s: Progress, ms: seq<Member>, m: Member)
    requires LaidOut(s, ms)
    ensures LaidOut(Added(s, m), ms + [m])
  {
    hide LocalHeader, CentralHeader, Locals, Centrals, TotalSize, TotalStored;
    LocalsAppend(ms, m);
    CentralsAppend(ms, 0, m);
    TotalsAppend(ms, m);
  }

  lemma KeptNamesAre(entries: seq<SourceEntry>)
    ensures KeptNames(entries) == NamesOf(Kept(entries))
  {}

  lemma Finished(s: Progress, ms: seq<Member>)
    requires LaidOut(s, ms)
    ensures Archive(ms) == s.chunks + s.central + EndRecord(s.count, |s.central|, s.offset)
    ensures |Archive(ms)| == s.offset + |s.central| + |EndRecord(s.count, |s.central|, s.offset)|
    ensures s.count == |ms| && s.uncompressedSize == TotalSize(ms) && s.compressedSize == TotalStored(ms)
  {}

  lemma NextEntry(entries: seq<SourceEntry>, i: nat)
    requires i < |entries|
    ensures Kept(entries[..i + 1]) == if IsKept(entries[i]) then Kept(entries[..i]) + [entries[i]]
      else Kept(entries[..i])
  {
    assert entries[..i + 1][..i] == entries[..i];
  }

  lemma NewName(kept: seq<SourceEntry>, seen: set<string>, e: SourceEntry)
    requires Distinct(NamesOf(kept)) && seen == (set name | name in NamesOf(kept))
    requires NormalizeZipPath(e.name) !in seen
    ensures Distinct(NamesOf(kept + [e]))
    ensures seen + {NormalizeZipPath(e.name)} == (set name | name in NamesOf(kept + [e]))
  {
    assert NamesOf(kept + [e]) == NamesOf(kept) + [NormalizeZipPath(e.name)];
  }

  lemma NewMember(p: Platform, compress: bool, kept: seq<SourceEntry>, e: SourceEntry)
    ensures MembersOf(p, compress, kept + [e])
         == MembersOf(p, compress, kept) + [MemberOf(p, compress, NormalizeZipPath(e.name), e)]
  {}

  /** The writer either names the first duplicate or writes the archive of the kept entries. */
  method WriteZip(p: Platform, compress: bool, table: array<nat>, entries: seq<SourceEntry>)
    returns (r: Result<WrittenZip, WriteError>)
    requires Crc32.IsTable(table[..])
    ensures r.Failure? <==> !Distinct(KeptNames(entries))
    ensures r.Failure? ==> FirstDuplicate(entries, r.error.name)
    ensures r.Success? ==>
      var ms := MembersOf(p, compress, Kept(entries));
      && r.value.bytes == Archive(ms)
      && r.value.entries == |ms|
      && r.value.size == |Archive(ms)|
      && r.value.uncompressedSize == TotalSize(ms)
      && r.value.compressedSize == TotalStored(ms)
  {
    var s := Progress([], [], 0, 0, 0, 0);
    var seenPaths: set<string> := {};
    NothingYet(p, compress, entries);
    hide *;
    var i := 0;
    while i < |entries|
      invariant 0 <= i <= |entries| && SoFar(p, compress, entries, i, s, seenPaths)
    {
      var name := NormalizeZipPath(entries[i].name);
      if IsKept(entries[i]) && name in seenPaths {
        AlreadySeen(p, compress, entries, i, s, seenPaths);
        return Failure(DuplicateEntry(name));
      }
      s, seenPaths := AddEntry(p, compress, table, entries, i, s, seenPaths);
      i := i + 1;
    }
    AllWritten(p, compress, entries, s, seenPaths);
    var offset := s.offset + |s.central|;
    var eocd := EndRecord(s.count, |s.central|, s.offset);
    r :=
      Success(WrittenZip(s.chunks + s.central + eocd, s.count, offset + |eocd|, s.uncompressedSize, s.compressedSize));
  }

  /** The first `n` entries are written, and their names are the ones seen. */
  ghost predicate SoFar(p: Platform, compress: bool, entries: seq<SourceEntry>, n: nat, s: Progress,
      seen: set<string>) {
    && n <= |entries|
    && Distinct(NamesOf(Kept(entries[..n])))
    && seen == (set name | name in NamesOf(Kept(entries[..n])))
    && LaidOut(s, MembersOf(p, compress, Kept(entries[..n])))
  }

  lemma NothingYet(p: Platform, compress: bool, entries: seq<SourceEntry>)
    ensures SoFar(p, compress, entries, 0, Progress([], [], 0, 0, 0, 0), {})
  {}

  lemma AlreadySeen(p: Platform, compress: bool, entries: seq<SourceEntry>, n: nat, s: Progress, seen: set<string>)
    requires SoFar(p, compress, entries, n, s, seen) && n < |entries|
    requires IsKept(entries[n]) && NormalizeZipPath(entries[n].name) in seen
    ensures !Distinct(KeptNames(entries)) && FirstDuplicate(entries, NormalizeZipPath(entries[n].name))
  {
    hide IsKept, Kept, NamesOf, Distinct, FirstDuplicate, LaidOut, MembersOf, KeptNames;
    DuplicateStays(entries, n, NormalizeZipPath(entries[n].name));
  }

  lemma AllWritten(p: Platform, compress: bool, entries: seq<SourceEntry>, s: Progress, seen: set<string>)
    requires SoFar(p, compress, entries, |entries|, s, seen)
    ensures Distinct(KeptNames(entries))
    ensures var ms := MembersOf(p, compress, Kept(entries)); var eocd := EndRecord(s.count, |s.central|, s.offset);
      && Archive(ms) == s.chunks + s.central + eocd && |Archive(ms)| == s.offset + |s.central| + |eocd|
      && s.count == |ms| && s.uncompressedSize == TotalSize(ms) && s.compressedSize == TotalStored(ms)
  {
    hide Kept, NamesOf, Distinct, LaidOut, MembersOf, KeptNames, Archive, EndRecord;
    assert entries[..|entries|] == entries;
    KeptNamesAre(entries);
    Finished(s, MembersOf(p, compress, Kept(entries)));
  }

  lemma OneMoreWritten(p: Platform, compress: bool, entries: seq<SourceEntry>, n: nat, s: Progress, seen: set<string>)
    requires SoFar(p, compress, entries, n, s, seen) && n < |entries|
    requires IsKept(entries[n]) ==> NormalizeZipPath(entries[n].name) !in seen
    ensures var name := NormalizeZipPath(entries[n].name);
      if IsKept(entries[n]) then
        SoFar(p, compress, entries, n + 1, Added(s, MemberOf(p, compress, name, entries[n])), seen + {name})
      else SoFar(p, compress, entries, n + 1, s, seen)
  {
    hide IsKept, Kept, NamesOf, Distinct, LaidOut, MembersOf, Added, MemberOf, NormalizeZipPath;
    var kept, e := Kept(entries[..n]), entries[n];
    NextEntry(entries, n);
    if IsKept(e) {
      NewName(kept, seen, e);
      NewMember(p, compress, kept, e);
      MemberLaidOut(s, MembersOf(p, compress, kept), MemberOf(p, compress, NormalizeZipPath(e.name), e));
    }
  }

  /** The body of the loop, once the name is known to be new. */
  method AddEntry(p: Platform, compress: bool, table: array<nat>, entries: seq<SourceEntry>, n: nat, s: Progress,
          seen: set<string>)
    returns (next: Progress, nextSeen: set<string>)
    requires Crc32.IsTable(table[..]) && n < |entries| && SoFar(p, compress, entries, n, s, seen)
    requires IsKept(entries[n]) ==> NormalizeZipPath(entries[n].name) !in seen
    ensures SoFar(p, compress, entries, n + 1, next, nextSeen)
  {
    hide *;
    var e := entries[n];
    OneMoreWritten(p, compress, entries, n, s, seen);
    next, nextSeen := s, seen;
    if IsKept(e) {
      var name := NormalizeZipPath(e.name);
      var m := NextMember(p, compress, table, name, e);
      next, nextSeen := Added(s, m), seen + {name};
    }
  }

  method NextMember(p: Platform, compress: bool, table: array<nat>, name: string, e: SourceEntry) returns (m: Member)
    requires Crc32.IsTable(table[..])
    ensures m == MemberOf(p, compress, name, e)
  {
    var (compression, stored) := Encoded(p, compress, e.data);
    var crc := Crc32.Crc32(table, e.data);
    m := Member(name, p.encode(name), compression, stored, |e.data|, crc, e.dosTime, e.dosDate);
  }

  lemma {:induction false} KeptPrefix(entries: seq<SourceEntry>, n: nat)
    requires n <= |entries|
    ensures Kept(entries[..n]) <= Kept(entries)
    decreases |entries|
  {
    if n < |entries| {
      var init := entries[..|entries| - 1];
      assert init[..n] == entries[..n];
      KeptPrefix(init, n);
    } else {
      assert entries[..n] == entries;
    }
  }

  lemma DuplicateStays(entries: seq<SourceEntry>, n: nat, name: string)
    requires n < |entries| && IsKept(entries[n]) && name == NormalizeZipPath(entries[n].name)
    requires name in NamesOf(Kept(entries[..n]))
    ensures !Distinct(KeptNames(entries))
    ensures Distinct(NamesOf(Kept(entries[..n]))) ==> FirstDuplicate(entries, name)
  {
    hide Kept, NormalizeZipPath, IsKept;
    var before, upTo, all := Kept(entries[..n]), Kept(entries[..n + 1]), Kept(entries);
    NextEntry(entries, n);
    KeptPrefix(entries, n + 1);
    var i :| 0 <= i < |before| && NamesOf(before)[i] == name;
    assert all[i] == before[i] && all[|before|] == entries[n];
    assert NamesOf(all)[i] == NamesOf(all)[|before|];
  }
}
