/** What the writer writes, the reader reads back. */
module ZipRoundTrip {
  import opened Bytes
  import Crc32
  import opened Paths
  import opened Wrappers
  import opened ZipFormat
  import opened ZipWriter
  import opened ZipReader

  /** The member's fields fit the widths of the format. */
  ghost predicate Fits(m: Member) {
    && |m.nameBytes| < POW16
    && |m.stored| < POW32
    && m.size < POW32
    && m.crc < POW32
    && m.compression in {0, 8}
  }

  /** The name survives encoding and is one the writer can have produced. */
  ghost predicate Named(p: Platform, m: Member) {
    && p.decode(m.nameBytes) == m.name
    && m.name != ""
    && m.name[|m.name| - 1] != '/'
    && CanonicalZipPath(m.name) == m.name
    && (IsUnsafeZipPath(m.name) <==> HasDrivePrefix(m.name))
  }

  ghost predicate Writable(p: Platform, ms: seq<Member>) {
    && (forall i :: 0 <= i < |ms| ==> Fits(ms[i]) && Named(p, ms[i]))
    && (forall i, j :: 0 <= i < j < |ms| ==> ms[i].name != ms[j].name)
  }

  function LocalsSize(ms: seq<Member>): nat {
    if ms == [] then 0 else LocalSize(ms[0]) + LocalsSize(ms[1..])
  }

  function FileOf(m: Member, localOffset: nat): ZipFile {
    ZipFile(m.name, false, |m.stored|, m.size, m.compression, m.crc, localOffset)
  }

  /** What the reader should report for the members laid out from `localOffset`. */
  function FilesOf(ms: seq<Member>, localOffset: nat): (files: seq<ZipFile>)
    ensures |files| == |ms|
  {
    if ms == [] then []
    else [FileOf(ms[0], localOffset)] + FilesOf(ms[1..], localOffset + LocalSize(ms[0]))
  }

  // ------------------------------------------------------------ the central directory

  lemma MemberReadBack(p: Platform, buffer: Buffer, c: Cursor, m: Member, localOffset: nat, sizeLimit: nat)
    requires Fits(m) && Named(p, m) && localOffset < POW32
    requires Holds(buffer, c.offset, CentralHeader(m, localOffset))
    requires m.name !in c.seen
    ensures ReadEntry(p, buffer, c, sizeLimit) ==
      if HasDrivePrefix(m.name) then Failure(UnsafePath(m.name))
      else if c.total + m.size > sizeLimit then Failure(SizeLimitExceeded)
      else Success((FileOf(m, localOffset),
        Cursor(c.offset + 46 + |m.nameBytes|, c.seen + {m.name}, c.total + m.size)))
  {
    hide CentralHeader, ReadU16, ReadU32, CheckEntry, Named, HasDrivePrefix;
    CentralFields(buffer, c.offset, m, localOffset);
    assert buffer[c.offset + 46..c.offset + 46 + |m.nameBytes|] == m.nameBytes;
    NamedIs(p, m);
    assert ReadEntry(p, buffer, c, sizeLimit) ==
      CheckEntry(c, FileOf(m, localOffset), 0, c.offset + 46 + |m.nameBytes|, sizeLimit);
    MemberChecks(p, c, m, localOffset, c.offset + 46 + |m.nameBytes|, sizeLimit);
  }

  lemma NamedIs(p: Platform, m: Member)
    requires Named(p, m)
    ensures p.decode(m.nameBytes) == m.name && m.name != "" && m.name[|m.name| - 1] != '/'
  {}

  lemma MemberChecks(p: Platform, c: Cursor, m: Member, localOffset: nat, offset: nat, sizeLimit: nat)
    requires Fits(m) && Named(p, m) && m.name !in c.seen
    ensures CheckEntry(c, FileOf(m, localOffset), 0, offset, sizeLimit) ==
      if HasDrivePrefix(m.name) then Failure(UnsafePath(m.name))
      else if c.total + m.size > sizeLimit then Failure(SizeLimitExceeded)
      else Success((FileOf(m, localOffset), Cursor(offset, c.seen + {m.name}, c.total + m.size)))
  {
    hide CanonicalZipPath, IsUnsafeZipPath, HasDrivePrefix;
  }

  ghost predicate NoDrive(ms: seq<Member>) {
    forall i :: 0 <= i < |ms| ==> !HasDrivePrefix(ms[i].name)
  }

  /** The reader's loop, started where the central directory of `ms` begins, succeeds exactly when
      no name has a drive prefix and the sizes stay within the limit, and then reports `ms`. */
  ghost predicate ReadsBack(r: Result<Parsed, ReadError>, ms: seq<Member>, localOffset: nat, total: nat,
          sizeLimit: nat) {
    && (r.Success? <==> NoDrive(ms) && (ms != [] ==> total + TotalSize(ms) <= sizeLimit))
    && (r.Success? ==> r.value == Parsed(FilesOf(ms, localOffset), total + TotalSize(ms)))
  }

  lemma {:induction false} DirectoryReadBack(p: Platform, buffer: Buffer, c: Cursor, ms: seq<Member>, localOffset: nat,
          sizeLimit: nat)
    requires Writable(p, ms) && localOffset + LocalsSize(ms) < POW32
    requires Holds(buffer, c.offset, Centrals(ms, localOffset))
    requires forall i :: 0 <= i < |ms| ==> ms[i].name !in c.seen
    ensures ReadsBack(ReadEntries(p, buffer, c, |ms|, sizeLimit), ms, localOffset, c.total, sizeLimit)
    decreases |ms|
  {
    hide *;
    if ms == [] {
      NoMoreEntries(p, buffer, c, sizeLimit);
      NothingReadsBack(localOffset, c.total, sizeLimit);
    } else {
      var m, rest := ms[0], ms[1..];
      var localOffset' := localOffset + LocalSize(m);
      FirstMember(p, ms, localOffset);
      HoldsConcat(buffer, c.offset, CentralHeader(m, localOffset), Centrals(rest, localOffset'));
      MemberReadBack(p, buffer, c, m, localOffset, sizeLimit);
      NextEntryRead(p, buffer, c, |ms|, sizeLimit);
      if !HasDrivePrefix(m.name) && c.total + m.size <= sizeLimit {
        var next := Cursor(c.offset + 46 + |m.nameBytes|, c.seen + {m.name}, c.total + m.size);
        DirectoryReadBack(p, buffer, next, rest, localOffset', sizeLimit);
        ReadsBackFirst(ReadEntries(p, buffer, next, |rest|, sizeLimit), ms, localOffset, c.total, sizeLimit);
      } else {
        RejectsFirst(ReadEntries(p, buffer, c, |ms|, sizeLimit), ms, localOffset, c.total, sizeLimit);
      }
    }
  }

  lemma NothingReadsBack(localOffset: nat, total: nat, sizeLimit: nat)
    ensures ReadsBack(Success(Parsed([], total)), [], localOffset, total, sizeLimit)
  {}

  lemma FirstMember(p: Platform, ms: seq<Member>, localOffset: nat)
    requires Writable(p, ms) && ms != []
    ensures var m, rest := ms[0], ms[1..];
      && Fits(m) && Named(p, m) && Writable(p, rest)
      && LocalsSize(ms) == LocalSize(m) + LocalsSize(rest)
      && Centrals(ms, localOffset) == CentralHeader(m, localOffset) + Centrals(rest, localOffset + LocalSize(m))
      && |CentralHeader(m, localOffset)| == 46 + |m.nameBytes|
      && forall i :: 0 <= i < |rest| ==> rest[i].name != m.name && rest[i] == ms[i + 1]
  {
    hide Fits, Named;
    CentralLayout(ms[0], localOffset);
  }

  lemma ReadsBackFirst(rest: Result<Parsed, ReadError>, ms: seq<Member>, localOffset: nat, total: nat, sizeLimit: nat)
    requires ms != [] && !HasDrivePrefix(ms[0].name) && total + ms[0].size <= sizeLimit
    requires ReadsBack(rest, ms[1..], localOffset + LocalSize(ms[0]), total + ms[0].size, sizeLimit)
    ensures ReadsBack(Prepend([FileOf(ms[0], localOffset)], rest), ms, localOffset, total, sizeLimit)
  {
    hide HasDrivePrefix;
    assert ms == [ms[0]] + ms[1..];
    assert NoDrive(ms) <==> NoDrive(ms[1..]) by {
      if NoDrive(ms[1..]) {
        forall i | 0 <= i < |ms|
          ensures !HasDrivePrefix(ms[i].name)
        {
          if i > 0 {
            assert ms[i] == ms[1..][i - 1];
          }
        }
      }
    }
    assert ms[1..] == [] ==> TotalSize(ms[1..]) == 0;
  }

  lemma RejectsFirst(r: Result<Parsed, ReadError>, ms: seq<Member>, localOffset: nat, total: nat, sizeLimit: nat)
    requires ms != [] && r.Failure?
    requires HasDrivePrefix(ms[0].name) || total + ms[0].size > sizeLimit
    ensures ReadsBack(r, ms, localOffset, total, sizeLimit)
  {
    hide HasDrivePrefix;
  }

  // ------------------------------------------------------------ the whole archive

  lemma {:induction false} LocalsLength(ms: seq<Member>)
    ensures |Locals(ms)| == LocalsSize(ms)
  {
    if ms != [] {
      LocalLayout(ms[0]);
      LocalsLength(ms[1..]);
    }
  }

  /** The archive as the reader sees it: both signatures and the end record are where it looks. */
  lemma ArchiveLayout(ms: seq<Member>)
    requires |ms| < POW16 && LocalsSize(ms) < POW32 && |Centrals(ms, 0)| < POW32
    ensures var buffer, central := Archive(ms), Centrals(ms, 0);
      var eocd := LocalsSize(ms) + |central|;
      && |buffer| == eocd + 22
      && Holds(buffer, 0, Locals(ms))
      && Holds(buffer, LocalsSize(ms), central)
      && ReadU32(buffer, eocd) == EOCD_SIGNATURE
      && ReadU16(buffer, eocd + 10) == |ms|
      && ReadU32(buffer, eocd + 12) == |central|
      && ReadU32(buffer, eocd + 16) == LocalsSize(ms)
      && ReadU32(buffer, 0) == if ms == [] then EOCD_SIGNATURE else LOCAL_SIGNATURE
  {
    hide *;
    var buffer, locals, central := Archive(ms), Locals(ms), Centrals(ms, 0);
    var end := EndRecord(|ms|, |central|, |locals|);
    LocalsLength(ms);
    EndLayout(|ms|, |central|, |locals|);
    ArchiveParts(ms);
    EndFields(buffer, |locals| + |central|, |ms|, |central|, |locals|);
    SmallModulo(|ms|, POW16);
    SmallModulo(|central|, POW32);
    SmallModulo(|locals|, POW32);
    if ms == [] {
      EmptyArchive();
    } else {
      FirstSignature(buffer, ms);
    }
  }

  lemma SmallModulo(x: nat, m: nat)
    requires x < m
    ensures x % m == x
  {}

  lemma ArchiveParts(ms: seq<Member>)
    ensures var buffer, locals, central := Archive(ms), Locals(ms), Centrals(ms, 0);
      var end := EndRecord(|ms|, |central|, |locals|);
      && |buffer| == |locals| + |central| + |end|
      && Holds(buffer, 0, locals)
      && Holds(buffer, |locals|, central)
      && Holds(buffer, |locals| + |central|, end)
  {
    hide EndRecord, Locals, Centrals;
  }

  lemma EmptyArchive()
    ensures LocalsSize([]) == 0 && Centrals([], 0) == []
  {}

  lemma FirstSignature(buffer: Buffer, ms: seq<Member>)
    requires ms != [] && Holds(buffer, 0, Locals(ms))
    ensures ReadU32(buffer, 0) == LOCAL_SIGNATURE
  {
    hide LocalHeader, Holds, ReadU32;
    assert Locals(ms) == LocalHeader(ms[0]) + (ms[0].stored + Locals(ms[1..]));
    hide *;
    HoldsConcat(buffer, 0, LocalHeader(ms[0]), ms[0].stored + Locals(ms[1..]));
    LocalFields(buffer, 0, ms[0]);
  }

  /** The archive of writable members is accepted exactly when it is neither empty nor over a limit
      and no name has a drive prefix; it is then reported as exactly these members, in order. */
  lemma ArchiveReadsBack(p: Platform, ms: seq<Member>, limits: Limits)
    requires Writable(p, ms)
    requires |ms| < POW16 && LocalsSize(ms) < POW32 && |Centrals(ms, 0)| < POW32
    ensures var r := ParseZip(p, Archive(ms), limits);
      && (r.Success? <==> 1 <= |ms| <= EntryLimit(limits) && NoDrive(ms) && TotalSize(ms) <= SizeLimit(limits))
      && (r.Success? ==> r.value == Parsed(FilesOf(ms, 0), TotalSize(ms)))
  {
    hide *;
    var buffer := Archive(ms);
    var eocd := LocalsSize(ms) + |Centrals(ms, 0)|;
    ArchiveLayout(ms);
    ParseFromEnd(p, buffer, eocd, limits);
    if ms != [] {
      DirectoryReadBack(p, buffer, Cursor(LocalsSize(ms), {}, 0), ms, 0, SizeLimit(limits));
      ReadsBackWhole(ReadEntries(p, buffer, Cursor(LocalsSize(ms), {}, 0), |ms|, SizeLimit(limits)), ms,
          SizeLimit(limits));
    } else {
      SignaturesDiffer();
    }
  }

  lemma SignaturesDiffer()
    ensures EOCD_SIGNATURE != LOCAL_SIGNATURE
  {}

  lemma ReadsBackWhole(r: Result<Parsed, ReadError>, ms: seq<Member>, sizeLimit: nat)
    requires ms != [] && ReadsBack(r, ms, 0, 0, sizeLimit)
    ensures r.Success? <==> NoDrive(ms) && TotalSize(ms) <= sizeLimit
    ensures r.Success? ==> r.value == Parsed(FilesOf(ms, 0), TotalSize(ms))
  {}

  /** With an end record in the last 22 bytes the backward scan stops at once. */
  lemma ParseFromEnd(p: Platform, buffer: Buffer, eocd: nat, limits: Limits)
    requires |buffer| == eocd + 22 && ReadU32(buffer, eocd) == EOCD_SIGNATURE
    ensures
      var count, size, offset := ReadU16(buffer, eocd + 10), ReadU32(buffer, eocd + 12), ReadU32(buffer, eocd + 16);
      ParseZip(p, buffer, limits) ==
        if ReadU32(buffer, 0) != LOCAL_SIGNATURE then Failure(NotAZip)
        else if count == 0 || count > EntryLimit(limits) then Failure(InvalidEntryCount(count))
        else if offset + size > |buffer| then Failure(DirectoryOutsideFile)
        else ReadEntries(p, buffer, Cursor(offset, {}, 0), count, SizeLimit(limits))
  {
    hide ReadU16, ReadU32, ReadEntries;
    var minEocd := if |buffer| - 22 - 65535 < 0 then 0 else |buffer| - 22 - 65535;
    assert FindEndRecord(buffer, eocd, minEocd) == eocd;
  }

  // ------------------------------------------------------------ the data of each member

  lemma {:induction false} MemberHeld(buffer: Buffer, offset: nat, ms: seq<Member>, i: nat)
    requires Holds(buffer, offset, Locals(ms)) && i < |ms|
    ensures var at := offset + LocalsSize(ms[..i]);
      && FilesOf(ms, offset)[i] == FileOf(ms[i], at)
      && Holds(buffer, at, LocalHeader(ms[i]))
      && Holds(buffer, at + 30 + |ms[i].nameBytes|, ms[i].stored)
    decreases i
  {
    hide *;
    var m, rest := ms[0], ms[1..];
    FirstLocal(ms, offset, i);
    HoldsConcat(buffer, offset, LocalHeader(m), m.stored + Locals(rest));
    HoldsConcat(buffer, offset + |LocalHeader(m)|, m.stored, Locals(rest));
    if i > 0 {
      MemberHeld(buffer, offset + LocalSize(m), rest, i - 1);
      assert ms[i] == rest[i - 1];
    }
  }

  lemma FirstLocal(ms: seq<Member>, offset: nat, i: nat)
    requires i < |ms|
    ensures var m, rest := ms[0], ms[1..];
      && |LocalHeader(m)| == 30 + |m.nameBytes|
      && LocalSize(m) == 30 + |m.nameBytes| + |m.stored|
      && Locals(ms) == LocalHeader(m) + (m.stored + Locals(rest))
      && FilesOf(ms, offset) == [FileOf(m, offset)] + FilesOf(rest, offset + LocalSize(m))
      && LocalsSize(ms[..i]) == if i == 0 then 0 else LocalSize(m) + LocalsSize(rest[..i - 1])
  {
    LocalLayout(ms[0]);
    if i > 0 {
      assert ms[..i][0] == ms[0] && ms[..i][1..] == ms[1..][..i - 1];
    }
  }

  /** The member's stored bytes decompress to `data`. */
  ghost predicate Stores(p: Platform, m: Member, data: Buffer) {
    && m.size == |data|
    && m.crc == Crc32.Crc(data)
    && (m.compression == 0 ==> m.stored == data)
    && (m.compression == 8 ==> data != [] && p.inflate(m.stored, |data|) == Some(data))
  }

  lemma DataReadBack(p: Platform, buffer: Buffer, m: Member, at: nat, data: Buffer)
    requires Fits(m) && Stores(p, m, data)
    requires Holds(buffer, at, LocalHeader(m)) && Holds(buffer, at + 30 + |m.nameBytes|, m.stored)
    ensures EntryData(p, buffer, FileOf(m, at)) == Success(data)
  {
    hide ReadU16, ReadU32, LocalHeader, Crc32.Crc;
    LocalFields(buffer, at, m);
    var start := at + 30 + |m.nameBytes|;
    assert buffer[start..start + |m.stored|] == m.stored;
  }

  // ------------------------------------------------------------ writeZip, then parseZipBuffer and entryData

  /** Inflating a deflated buffer, with enough room, gives the buffer back. */
  ghost predicate LosslessDeflate(p: Platform) {
    forall data: Buffer, room: nat :: |data| <= room ==> p.inflate(p.deflate(data), room) == Some(data)
  }

  /** The kept entries fit the format, and their names survive UTF-8. */
  ghost predicate FitsFormat(p: Platform, compress: bool, entries: seq<SourceEntry>) {
    var ms := MembersOf(p, compress, Kept(entries));
    && |ms| < POW16 && LocalsSize(ms) < POW32 && |Centrals(ms, 0)| < POW32
    && (forall i :: 0 <= i < |ms| ==> |ms[i].nameBytes| < POW16 && |ms[i].stored| < POW32 && ms[i].size < POW32)
    && (forall i :: 0 <= i < |ms| ==> p.decode(ms[i].nameBytes) == ms[i].name)
  }

  lemma {:induction false} KeptAreKept(entries: seq<SourceEntry>)
    ensures forall i :: 0 <= i < |Kept(entries)| ==> IsKept(Kept(entries)[i])
  {
    if entries != [] {
      hide IsKept;
      KeptAreKept(entries[..|entries| - 1]);
    }
  }

  lemma MembersAreWritable(p: Platform, compress: bool, entries: seq<SourceEntry>)
    requires Distinct(KeptNames(entries)) && FitsFormat(p, compress, entries)
    ensures Writable(p, MembersOf(p, compress, Kept(entries)))
  {
    var kept := Kept(entries);
    var ms := MembersOf(p, compress, kept);
    KeptAreKept(entries);
    hide IsKept, Kept, NormalizeZipPath, Fits, Named, MemberOf, LocalsSize, Centrals;
    forall i | 0 <= i < |ms|
      ensures Fits(ms[i]) && Named(p, ms[i])
    {
      MemberIsWritable(p, compress, kept[i]);
    }
    forall i | 0 <= i < |ms|
      ensures ms[i].name == KeptNames(entries)[i]
    {
      MemberName(p, compress, kept[i]);
    }
    forall i, j | 0 <= i < j < |ms|
      ensures ms[i].name != ms[j].name
    {
      assert KeptNames(entries)[i] != KeptNames(entries)[j];
    }
  }

  lemma MemberName(p: Platform, compress: bool, e: SourceEntry)
    ensures MemberOf(p, compress, NormalizeZipPath(e.name), e).name == NormalizeZipPath(e.name)
  {}

  lemma MemberIsWritable(p: Platform, compress: bool, e: SourceEntry)
    requires IsKept(e)
    requires var m := MemberOf(p, compress, NormalizeZipPath(e.name), e);
      && |m.nameBytes| < POW16 && |m.stored| < POW32 && m.size < POW32 && p.decode(m.nameBytes) == m.name
    ensures var m := MemberOf(p, compress, NormalizeZipPath(e.name), e); Fits(m) && Named(p, m)
  {
    NormalizedNameReads(e.name);
    Crc32.CrcBound(e.data);
    hide NormalizeZipPath, CanonicalZipPath, IsUnsafeZipPath, HasDrivePrefix, Crc32.Crc;
  }

  lemma MemberStores(p: Platform, compress: bool, name: string, e: SourceEntry)
    requires LosslessDeflate(p)
    ensures Stores(p, MemberOf(p, compress, name, e), e.data)
  {
    hide Crc32.Crc;
  }

  /** Round trip: the reader accepts what writeZip wrote exactly when some entry was kept, the limits
      are met and no name has a drive prefix. It then reports the kept entries, in order. */
  lemma RoundTrip(p: Platform, compress: bool, entries: seq<SourceEntry>, limits: Limits)
    requires Distinct(KeptNames(entries)) && FitsFormat(p, compress, entries)
    ensures
      var ms := MembersOf(p, compress, Kept(entries));
      var r := ParseZip(p, Archive(ms), limits);
      && (r.Success? <==>
           && 1 <= |ms| <= EntryLimit(limits)
           && TotalSize(ms) <= SizeLimit(limits)
           && forall i :: 0 <= i < |ms| ==> !HasDrivePrefix(ms[i].name))
      && (r.Success? ==>
           && r.value.totalUncompressedSize == TotalSize(ms)
           && |r.value.files| == |ms|
           && forall i :: 0 <= i < |ms| ==> r.value.files[i].path == ms[i].name && !r.value.files[i].directory)
  {
    var ms := MembersOf(p, compress, Kept(entries));
    MembersAreWritable(p, compress, entries);
    ArchiveReadsBack(p, ms, limits);
    hide ParseZip, Archive, Writable, MembersOf, Kept;
    FilesNames(ms, 0);
  }

  lemma {:induction false} FilesNames(ms: seq<Member>, localOffset: nat)
    ensures forall i :: 0 <= i < |ms| ==>
      FilesOf(ms, localOffset)[i].path == ms[i].name && !FilesOf(ms, localOffset)[i].directory
  {
    if ms != [] {
      FilesNames(ms[1..], localOffset + LocalSize(ms[0]));
    }
  }

  /** Round trip of the contents: entryData gives back the bytes of every kept entry, whether stored or deflated,
      and its size and CRC checks pass. */
  lemma RoundTripData(p: Platform, compress: bool, entries: seq<SourceEntry>, limits: Limits, i: nat)
    requires Distinct(KeptNames(entries)) && FitsFormat(p, compress, entries) && LosslessDeflate(p)
    requires i < |Kept(entries)|
    ensures
      var ms := MembersOf(p, compress, Kept(entries));
      var r := ParseZip(p, Archive(ms), limits);
      r.Success? ==>
        i < |r.value.files| && EntryData(p, Archive(ms), r.value.files[i]) == Success(Kept(entries)[i].data)
  {
    hide *;
    var kept := Kept(entries);
    var ms := MembersOf(p, compress, kept);
    MembersAreWritable(p, compress, entries);
    FormatBounds(p, compress, entries, i);
    ArchiveReadsBack(p, ms, limits);
    ArchiveLayout(ms);
    MemberHeld(Archive(ms), 0, ms, i);
    MemberStores(p, compress, NormalizeZipPath(kept[i].name), kept[i]);
    DataReadBack(p, Archive(ms), ms[i], LocalsSize(ms[..i]), kept[i].data);
  }

  lemma FormatBounds(p: Platform, compress: bool, entries: seq<SourceEntry>, i: nat)
    requires FitsFormat(p, compress, entries) && Writable(p, MembersOf(p, compress, Kept(entries)))
    requires i < |Kept(entries)|
    ensures var ms := MembersOf(p, compress, Kept(entries));
      && |ms| < POW16 && LocalsSize(ms) < POW32 && |Centrals(ms, 0)| < POW32
      && ms[i] == MemberOf(p, compress, NormalizeZipPath(Kept(entries)[i].name), Kept(entries)[i])
      && Fits(ms[i])
  {}
}
