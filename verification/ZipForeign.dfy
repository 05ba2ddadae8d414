/** Archives of other tools: the reader passes over extra fields, comments, times, versions and whatever follows. */
module ZipForeign {
  import opened Bytes
  import Crc32
  import opened Paths
  import opened Wrappers
  import opened ZipFormat
  import opened ZipWriter
  import opened ZipReader

  /** An entry of a central directory: the fields the reader reads, and the bytes it passes over. */
  datatype Entry = Entry(
    nameBytes: Buffer, compression: nat, crc: nat, compressedSize: nat, uncompressedSize: nat,
    unixMode: nat, localHeaderOffset: nat,
    versions: Buffer, times: Buffer, place: Buffer, attributes: nat, extra: Buffer, comment: Buffer)

  ghost predicate WellFormed(e: Entry) {
    && |e.versions| == 6 && |e.times| == 4 && |e.place| == 4
    && |e.nameBytes| < POW16 && |e.extra| < POW16 && |e.comment| < POW16
    && e.compression < POW16 && e.unixMode < POW16 && e.attributes < POW16
    && e.crc < POW32 && e.compressedSize < POW32 && e.uncompressedSize < POW32 && e.localHeaderOffset < POW32
  }

  // ------------------------------------------------------------ the format, section 4.3.12

  function Head(e: Entry): Buffer {
    U32(CENTRAL_SIGNATURE) + e.versions + U16(e.compression) + e.times
  }

  function Sizes(e: Entry): Buffer {
    U32(e.crc) + U32(e.compressedSize) + U32(e.uncompressedSize)
  }

  function Lengths(e: Entry): Buffer {
    U16(|e.nameBytes|) + U16(|e.extra|) + U16(|e.comment|) + e.place
  }

  function Attributes(e: Entry): Buffer {
    U32(e.unixMode * POW16 + e.attributes) + U32(e.localHeaderOffset)
  }

  function Texts(e: Entry): Buffer {
    e.nameBytes + e.extra + e.comment
  }

  function Header(e: Entry): Buffer {
    Head(e) + Sizes(e) + Lengths(e) + Attributes(e) + Texts(e)
  }

  function Directory(es: seq<Entry>): Buffer {
    if es == [] then [] else Header(es[0]) + Directory(es[1..])
  }

  /** The end record up to the length of its comment; `disks` are the fields about other disks. */
  function End(disks: Buffer, count: nat, size: nat, offset: nat): Buffer {
    U32(EOCD_SIGNATURE) + disks + U16(count) + U32(size) + U32(offset)
  }

  // ------------------------------------------------------------ what is to be reported

  function NameOf(p: Platform, e: Entry): string {
    p.decode(e.nameBytes)
  }

  function Reported(p: Platform, e: Entry): ZipFile {
    var name := NameOf(p, e);
    ZipFile(name, name != "" && name[|name| - 1] == '/', e.compressedSize, e.uncompressedSize, e.compression, e.crc,
        e.localHeaderOffset)
  }

  function AllReported(p: Platform, es: seq<Entry>): (files: seq<ZipFile>)
    ensures |files| == |es| && forall i :: 0 <= i < |es| ==> files[i] == Reported(p, es[i])
  {
    if es == [] then [] else [Reported(p, es[0])] + AllReported(p, es[1..])
  }

  function Total(es: seq<Entry>): nat {
    if es == [] then 0 else es[0].uncompressedSize + Total(es[1..])
  }

  /** A safe name, no symbolic link, stored or deflated. */
  ghost predicate Admissible(p: Platform, e: Entry) {
    && !IsUnsafeZipPath(NameOf(p, e))
    && !(0xA000 <= e.unixMode < 0xB000)
    && e.compression in {0, 8}
  }

  /** All entries are admissible, their canonical paths are new and different, and the sizes are within the limit. */
  ghost predicate AllAdmissible(p: Platform, es: seq<Entry>, seen: set<string>, total: nat, sizeLimit: nat) {
    && (forall i :: 0 <= i < |es| ==> Admissible(p, es[i]) && CanonicalZipPath(NameOf(p, es[i])) !in seen)
    && (forall i, j :: 0 <= i < j < |es| ==>
         CanonicalZipPath(NameOf(p, es[i])) != CanonicalZipPath(NameOf(p, es[j])))
    && (es != [] ==> total + Total(es) <= sizeLimit)
  }

  // ------------------------------------------------------------ the fields of an entry

  lemma HeadLayout(e: Entry)
    requires WellFormed(e)
    ensures var g := Head(e); |g| == 16 && g[0..4] == U32(CENTRAL_SIGNATURE) && g[10..12] == U16(e.compression)
  {
    FieldSizes();
    hide U16, U32;
  }

  lemma SizesLayout(e: Entry)
    ensures var g := Sizes(e);
      && |g| == 12 && g[0..4] == U32(e.crc) && g[4..8] == U32(e.compressedSize)
      && g[8..12] == U32(e.uncompressedSize)
  {
    FieldSizes();
    hide U16, U32;
  }

  lemma LengthsLayout(e: Entry)
    requires WellFormed(e)
    ensures var g := Lengths(e);
      && |g| == 10 && g[0..2] == U16(|e.nameBytes|) && g[2..4] == U16(|e.extra|) && g[4..6] == U16(|e.comment|)
  {
    FieldSizes();
    hide U16, U32;
  }

  lemma AttributesLayout(e: Entry)
    ensures var g := Attributes(e);
      |g| == 8 && g[0..4] == U32(e.unixMode * POW16 + e.attributes) && g[4..8] == U32(e.localHeaderOffset)
  {
    FieldSizes();
    hide U16, U32;
  }

  lemma HeaderIs(e: Entry)
    ensures Header(e) == Head(e) + Sizes(e) + Lengths(e) + Attributes(e) + Texts(e)
    ensures Texts(e) == e.nameBytes + (e.extra + e.comment)
  {
    hide Head, Sizes, Lengths, Attributes;
  }

  lemma HeaderParts(buffer: Buffer, at: nat, e: Entry)
    requires WellFormed(e) && Holds(buffer, at, Header(e))
    ensures |Header(e)| == 46 + |e.nameBytes| + |e.extra| + |e.comment|
    ensures Holds(buffer, at, Head(e)) && Holds(buffer, at + 16, Sizes(e)) && Holds(buffer, at + 28, Lengths(e))
    ensures Holds(buffer, at + 38, Attributes(e)) && Holds(buffer, at + 46, e.nameBytes)
    ensures at + |Header(e)| <= |buffer|
  {
    hide *;
    var h, texts := Header(e), Texts(e);
    var head, sizes, lengths, attributes := Head(e), Sizes(e), Lengths(e), Attributes(e);
    HeaderIs(e);
    BytesHeld(buffer, at, h);
    HeadLayout(e);
    SizesLayout(e);
    LengthsLayout(e);
    AttributesLayout(e);
    Grouped(h, head, sizes, lengths, attributes, texts);
    HoldsSlice(buffer, at, h, 0, 16);
    HoldsSlice(buffer, at, h, 16, 28);
    HoldsSlice(buffer, at, h, 28, 38);
    HoldsSlice(buffer, at, h, 38, 46);
    HoldsSlice(buffer, at, h, 46, |h|);
    HoldsConcat(buffer, at + 46, e.nameBytes, e.extra + e.comment);
  }

  lemma HeaderFields(buffer: Buffer, at: nat, e: Entry)
    requires WellFormed(e) && Holds(buffer, at, Header(e))
    ensures ReadU32(buffer, at) == CENTRAL_SIGNATURE && ReadU16(buffer, at + 10) == e.compression
    ensures ReadU32(buffer, at + 16) == e.crc && ReadU32(buffer, at + 20) == e.compressedSize
    ensures ReadU32(buffer, at + 24) == e.uncompressedSize
    ensures ReadU16(buffer, at + 28) == |e.nameBytes| && ReadU16(buffer, at + 30) == |e.extra|
    ensures ReadU16(buffer, at + 32) == |e.comment|
    ensures ReadU32(buffer, at + 38) == e.unixMode * POW16 + e.attributes
    ensures ReadU32(buffer, at + 42) == e.localHeaderOffset
  {
    hide *;
    HeaderParts(buffer, at, e);
    HeadAndSizes(buffer, at, e);
    LengthsAndAttributes(buffer, at, e);
  }

  lemma HeadAndSizes(buffer: Buffer, at: nat, e: Entry)
    requires WellFormed(e) && Holds(buffer, at, Head(e)) && Holds(buffer, at + 16, Sizes(e))
    ensures ReadU32(buffer, at) == CENTRAL_SIGNATURE && ReadU16(buffer, at + 10) == e.compression
    ensures ReadU32(buffer, at + 16) == e.crc && ReadU32(buffer, at + 20) == e.compressedSize
    ensures ReadU32(buffer, at + 24) == e.uncompressedSize
  {
    HeadLayout(e);
    SizesLayout(e);
    Small(e);
    hide *;
    FieldU32(buffer, at, Head(e), 0, CENTRAL_SIGNATURE);
    FieldU16(buffer, at, Head(e), 10, e.compression);
    FieldU32(buffer, at + 16, Sizes(e), 0, e.crc);
    FieldU32(buffer, at + 16, Sizes(e), 4, e.compressedSize);
    FieldU32(buffer, at + 16, Sizes(e), 8, e.uncompressedSize);
  }

  lemma LengthsAndAttributes(buffer: Buffer, at: nat, e: Entry)
    requires WellFormed(e) && Holds(buffer, at + 28, Lengths(e)) && Holds(buffer, at + 38, Attributes(e))
    ensures ReadU16(buffer, at + 28) == |e.nameBytes| && ReadU16(buffer, at + 30) == |e.extra|
    ensures ReadU16(buffer, at + 32) == |e.comment|
    ensures ReadU32(buffer, at + 38) == e.unixMode * POW16 + e.attributes
    ensures ReadU32(buffer, at + 42) == e.localHeaderOffset
  {
    LengthsLayout(e);
    AttributesLayout(e);
    Small(e);
    hide *;
    FieldU16(buffer, at + 28, Lengths(e), 0, |e.nameBytes|);
    FieldU16(buffer, at + 28, Lengths(e), 2, |e.extra|);
    FieldU16(buffer, at + 28, Lengths(e), 4, |e.comment|);
    FieldU32(buffer, at + 38, Attributes(e), 0, e.unixMode * POW16 + e.attributes);
    FieldU32(buffer, at + 38, Attributes(e), 4, e.localHeaderOffset);
  }

  lemma Small(e: Entry)
    requires WellFormed(e)
    ensures CENTRAL_SIGNATURE % POW32 == CENTRAL_SIGNATURE && e.compression % POW16 == e.compression
    ensures e.crc % POW32 == e.crc && e.compressedSize % POW32 == e.compressedSize
    ensures e.uncompressedSize % POW32 == e.uncompressedSize && |e.nameBytes| % POW16 == |e.nameBytes|
    ensures |e.extra| % POW16 == |e.extra| && |e.comment| % POW16 == |e.comment|
    ensures var all := e.unixMode * POW16 + e.attributes; all % POW32 == all
    ensures e.localHeaderOffset % POW32 == e.localHeaderOffset
  {}

  /** An entry is read as what its fields say, or refused for the first of the reasons, and the next one is looked for
      behind its name, its extra fields and its comment. */
  lemma EntryRead(p: Platform, buffer: Buffer, c: Cursor, e: Entry, sizeLimit: nat)
    requires WellFormed(e) && Holds(buffer, c.offset, Header(e))
    ensures var name, path := NameOf(p, e), CanonicalZipPath(NameOf(p, e));
      ReadEntry(p, buffer, c, sizeLimit) ==
        if IsUnsafeZipPath(name) then Failure(UnsafePath(name))
        else if path in c.seen then Failure(DuplicatePath(path))
        else if 0xA000 <= e.unixMode < 0xB000 then Failure(SymlinkEntry(name))
        else if e.compression !in {0, 8} then Failure(UnsupportedCompression(e.compression))
        else if c.total + e.uncompressedSize > sizeLimit then Failure(SizeLimitExceeded)
        else Success((Reported(p, e),
          Cursor(c.offset + |Header(e)|, c.seen + {path}, c.total + e.uncompressedSize)))
  {
    hide *;
    FieldsTaken(p, buffer, c, e, sizeLimit);
    SymlinkMode(e);
    ReportedIs(p, e);
    CheckIs(c, Reported(p, e), e.unixMode * POW16 + e.attributes, c.offset + |Header(e)|, sizeLimit);
  }

  lemma ReportedIs(p: Platform, e: Entry)
    ensures var file := Reported(p, e);
      file.path == NameOf(p, e) && file.compression == e.compression && file.uncompressedSize == e.uncompressedSize
  {}

  lemma CheckIs(c: Cursor, file: ZipFile, attributes: nat, offset: nat, sizeLimit: nat)
    ensures var name, path := file.path, CanonicalZipPath(file.path);
      CheckEntry(c, file, attributes, offset, sizeLimit) ==
        if IsUnsafeZipPath(name) then Failure(UnsafePath(name))
        else if path in c.seen then Failure(DuplicatePath(path))
        else if attributes / 0x1000_0000 == 10 then Failure(SymlinkEntry(name))
        else if file.compression !in {0, 8} then Failure(UnsupportedCompression(file.compression))
        else if c.total + file.uncompressedSize > sizeLimit then Failure(SizeLimitExceeded)
        else Success((file, Cursor(offset, c.seen + {path}, c.total + file.uncompressedSize)))
  {
    hide IsUnsafeZipPath, CanonicalZipPath;
  }

  lemma FieldsTaken(p: Platform, buffer: Buffer, c: Cursor, e: Entry, sizeLimit: nat)
    requires WellFormed(e) && Holds(buffer, c.offset, Header(e))
    ensures ReadEntry(p, buffer, c, sizeLimit) ==
      CheckEntry(c, Reported(p, e), e.unixMode * POW16 + e.attributes, c.offset + |Header(e)|, sizeLimit)
  {
    hide *;
    HeaderFields(buffer, c.offset, e);
    HeaderParts(buffer, c.offset, e);
    BytesHeld(buffer, c.offset + 46, e.nameBytes);
    ReportedFields(p, e);
    ReadIs(p, buffer, c, sizeLimit, e.nameBytes, Reported(p, e));
  }

  lemma ReportedFields(p: Platform, e: Entry)
    ensures var name := p.decode(e.nameBytes);
      Reported(p, e) == ZipFile(name, name != "" && name[|name| - 1] == '/', e.compressedSize, e.uncompressedSize,
          e.compression, e.crc, e.localHeaderOffset)
  {}

  lemma ReadIs(p: Platform, buffer: Buffer, c: Cursor, sizeLimit: nat, nameBytes: Buffer, file: ZipFile)
    requires ReadU32(buffer, c.offset) == CENTRAL_SIGNATURE && ReadU16(buffer, c.offset + 28) == |nameBytes|
    requires c.offset + 46 + |nameBytes| <= |buffer|
    requires buffer[c.offset + 46..c.offset + 46 + |nameBytes|] == nameBytes
    requires var name := p.decode(nameBytes);
      file == ZipFile(
        name, name != "" && name[|name| - 1] == '/',
        ReadU32(buffer, c.offset + 20), ReadU32(buffer, c.offset + 24), ReadU16(buffer, c.offset + 10),
        ReadU32(buffer, c.offset + 16), ReadU32(buffer, c.offset + 42))
    ensures ReadEntry(p, buffer, c, sizeLimit) ==
      CheckEntry(c, file, ReadU32(buffer, c.offset + 38),
        c.offset + 46 + |nameBytes| + ReadU16(buffer, c.offset + 30) + ReadU16(buffer, c.offset + 32), sizeLimit)
  {
    hide ReadU16, ReadU32, CheckEntry;
  }

  lemma BytesHeld(buffer: Buffer, at: nat, part: Buffer)
    requires Holds(buffer, at, part)
    ensures at + |part| <= |buffer| && buffer[at..at + |part|] == part
  {}

  lemma SymlinkMode(e: Entry)
    requires WellFormed(e)
    ensures (e.unixMode * POW16 + e.attributes) / 0x1000_0000 == 10 <==> 0xA000 <= e.unixMode < 0xB000
  {}

  // ------------------------------------------------------------ the whole directory

  /** The reading succeeds exactly when all entries may be taken, and then reports all of them in order. */
  ghost predicate ReadsAll(r: Result<Parsed, ReadError>, p: Platform, es: seq<Entry>, seen: set<string>, total: nat,
          sizeLimit: nat) {
    && (r.Success? <==> AllAdmissible(p, es, seen, total, sizeLimit))
    && (r.Success? ==> r.value == Parsed(AllReported(p, es), total + Total(es)))
  }

  lemma {:induction false} DirectoryRead(p: Platform, buffer: Buffer, c: Cursor, es: seq<Entry>, sizeLimit: nat)
    requires (forall i :: 0 <= i < |es| ==> WellFormed(es[i])) && Holds(buffer, c.offset, Directory(es))
    ensures ReadsAll(ReadEntries(p, buffer, c, |es|, sizeLimit), p, es, c.seen, c.total, sizeLimit)
    decreases |es|
  {
    hide *;
    if es == [] {
      NoMoreEntries(p, buffer, c, sizeLimit);
      NothingRead(p, c.seen, c.total, sizeLimit);
    } else {
      var e, rest := es[0], es[1..];
      FirstHeader(es);
      HoldsConcat(buffer, c.offset, Header(e), Directory(rest));
      EntryRead(p, buffer, c, e, sizeLimit);
      NextEntryRead(p, buffer, c, |es|, sizeLimit);
      var path := CanonicalZipPath(NameOf(p, e));
      var next := Cursor(c.offset + |Header(e)|, c.seen + {path}, c.total + e.uncompressedSize);
      DirectoryRead(p, buffer, next, rest, sizeLimit);
      AdmissibleExactly(p, e);
      if Admissible(p, e) && path !in c.seen && c.total + e.uncompressedSize <= sizeLimit {
        FirstRead(ReadEntries(p, buffer, next, |rest|, sizeLimit), p, es, c.seen, c.total, sizeLimit);
      } else {
        FirstRefused(ReadEntries(p, buffer, c, |es|, sizeLimit), p, es, c.seen, c.total, sizeLimit);
      }
    }
  }

  lemma AdmissibleExactly(p: Platform, e: Entry)
    ensures Admissible(p, e) <==>
      !IsUnsafeZipPath(NameOf(p, e)) && !(0xA000 <= e.unixMode < 0xB000) && e.compression in {0, 8}
  {}

  lemma FirstHeader(es: seq<Entry>)
    requires es != []
    ensures Directory(es) == Header(es[0]) + Directory(es[1..])
  {}

  lemma NothingRead(p: Platform, seen: set<string>, total: nat, sizeLimit: nat)
    ensures ReadsAll(Success(Parsed([], total)), p, [], seen, total, sizeLimit)
  {}

  lemma FirstAdmissible(p: Platform, es: seq<Entry>, seen: set<string>, total: nat, sizeLimit: nat)
    requires es != []
    ensures var path, size := CanonicalZipPath(NameOf(p, es[0])), es[0].uncompressedSize;
      AllAdmissible(p, es, seen, total, sizeLimit) <==>
        && Admissible(p, es[0]) && path !in seen && total + size <= sizeLimit
        && AllAdmissible(p, es[1..], seen + {path}, total + size, sizeLimit)
  {
    var path, size, rest := CanonicalZipPath(NameOf(p, es[0])), es[0].uncompressedSize, es[1..];
    hide *;
    if AllAdmissible(p, es, seen, total, sizeLimit) {
      RestAdmissible(p, es, seen, total, sizeLimit);
    }
    if Admissible(p, es[0]) && path !in seen && total + size <= sizeLimit
      && AllAdmissible(p, rest, seen + {path}, total + size, sizeLimit) {
      WholeAdmissible(p, es, seen, total, sizeLimit);
    }
  }

  lemma RestAdmissible(p: Platform, es: seq<Entry>, seen: set<string>, total: nat, sizeLimit: nat)
    requires es != [] && AllAdmissible(p, es, seen, total, sizeLimit)
    ensures var path, size := CanonicalZipPath(NameOf(p, es[0])), es[0].uncompressedSize;
      && Admissible(p, es[0]) && path !in seen && total + size <= sizeLimit
      && AllAdmissible(p, es[1..], seen + {path}, total + size, sizeLimit)
  {
    hide CanonicalZipPath, NameOf, Admissible;
    var rest := es[1..];
    assert forall i :: 0 <= i < |rest| ==> rest[i] == es[i + 1];
  }

  lemma WholeAdmissible(p: Platform, es: seq<Entry>, seen: set<string>, total: nat, sizeLimit: nat)
    requires es != []
    requires var path, size := CanonicalZipPath(NameOf(p, es[0])), es[0].uncompressedSize;
      && Admissible(p, es[0]) && path !in seen && total + size <= sizeLimit
      && AllAdmissible(p, es[1..], seen + {path}, total + size, sizeLimit)
    ensures AllAdmissible(p, es, seen, total, sizeLimit)
  {
    hide CanonicalZipPath, NameOf, Admissible;
    var path, rest := CanonicalZipPath(NameOf(p, es[0])), es[1..];
    assert rest == [] ==> Total(rest) == 0;
    assert Total(es) == es[0].uncompressedSize + Total(rest);
    forall i | 0 <= i < |es|
      ensures Admissible(p, es[i]) && CanonicalZipPath(NameOf(p, es[i])) !in seen
      ensures i > 0 ==> CanonicalZipPath(NameOf(p, es[i])) != path
    {
      if i > 0 {
        assert es[i] == rest[i - 1];
      }
    }
    forall i, j | 0 <= i < j < |es|
      ensures CanonicalZipPath(NameOf(p, es[i])) != CanonicalZipPath(NameOf(p, es[j]))
    {
      if i > 0 {
        assert es[i] == rest[i - 1] && es[j] == rest[j - 1];
      }
    }
  }

  lemma FirstRead(r: Result<Parsed, ReadError>, p: Platform, es: seq<Entry>, seen: set<string>, total: nat,
          sizeLimit: nat)
    requires es != []
    requires var path, size := CanonicalZipPath(NameOf(p, es[0])), es[0].uncompressedSize;
      && Admissible(p, es[0]) && path !in seen && total + size <= sizeLimit
      && ReadsAll(r, p, es[1..], seen + {path}, total + size, sizeLimit)
    ensures ReadsAll(Prepend([Reported(p, es[0])], r), p, es, seen, total, sizeLimit)
  {
    FirstAdmissible(p, es, seen, total, sizeLimit);
    hide CanonicalZipPath, NameOf, Admissible, AllAdmissible, Reported;
  }

  lemma FirstRefused(r: Result<Parsed, ReadError>, p: Platform, es: seq<Entry>, seen: set<string>, total: nat,
          sizeLimit: nat)
    requires es != [] && r.Failure?
    requires !Admissible(p, es[0]) || CanonicalZipPath(NameOf(p, es[0])) in seen
      || total + es[0].uncompressedSize > sizeLimit
    ensures ReadsAll(r, p, es, seen, total, sizeLimit)
  {
    FirstAdmissible(p, es, seen, total, sizeLimit);
    hide CanonicalZipPath, NameOf, Admissible, AllAdmissible, Reported;
  }

  // ------------------------------------------------------------ the whole file

  /** `tail` is the length of the archive's comment and the comment, with whatever follows. */
  ghost predicate EndsWith(buffer: Buffer, front: Buffer, es: seq<Entry>, disks: Buffer, tail: Buffer) {
    var directory := Directory(es);
    && |disks| == 6 && |es| < POW16 && |directory| < POW32 && |front| < POW32 && |tail| >= 2
    && buffer == front + directory + End(disks, |es|, |directory|, |front|) + tail
    && forall j :: |front| + |directory| < j <= |buffer| - 22 ==> ReadU32(buffer, j) != EOCD_SIGNATURE
  }

  lemma EndLayoutOf(disks: Buffer, count: nat, size: nat, offset: nat)
    requires |disks| == 6
    ensures var g := End(disks, count, size, offset);
      && |g| == 20 && g[0..4] == U32(EOCD_SIGNATURE) && g[10..12] == U16(count)
      && g[12..16] == U32(size) && g[16..20] == U32(offset)
  {
    FieldSizes();
    hide U16, U32;
  }

  lemma EndRead(buffer: Buffer, front: Buffer, es: seq<Entry>, disks: Buffer, tail: Buffer)
    requires EndsWith(buffer, front, es, disks, tail)
    ensures var directory := Directory(es); var eocd := |front| + |directory|;
      && |buffer| == eocd + 20 + |tail| && Holds(buffer, |front|, directory)
      && ReadU32(buffer, eocd) == EOCD_SIGNATURE && ReadU16(buffer, eocd + 10) == |es|
      && ReadU32(buffer, eocd + 12) == |directory| && ReadU32(buffer, eocd + 16) == |front|
  {
    hide *;
    var directory := Directory(es);
    EndPlaced(buffer, front, es, disks, tail);
    EndFieldsRead(buffer, |front| + |directory|, disks, |es|, |directory|, |front|);
  }

  lemma EndPlaced(buffer: Buffer, front: Buffer, es: seq<Entry>, disks: Buffer, tail: Buffer)
    requires EndsWith(buffer, front, es, disks, tail)
    ensures var directory := Directory(es); var eocd := |front| + |directory|;
      && |buffer| == eocd + 20 + |tail| && Holds(buffer, |front|, directory)
      && Holds(buffer, eocd, End(disks, |es|, |directory|, |front|))
      && |disks| == 6 && |es| < POW16 && |directory| < POW32 && |front| < POW32
  {
    var directory := Directory(es);
    var record := End(disks, |es|, |directory|, |front|);
    assert |disks| == 6 && |es| < POW16 && |directory| < POW32 && |front| < POW32;
    assert buffer == front + directory + record + tail;
    hide *;
    EndLayoutOf(disks, |es|, |directory|, |front|);
    Placed(buffer, front, directory, record, tail);
  }

  lemma EndFieldsRead(buffer: Buffer, eocd: nat, disks: Buffer, count: nat, size: nat, offset: nat)
    requires Holds(buffer, eocd, End(disks, count, size, offset))
    requires |disks| == 6 && count < POW16 && size < POW32 && offset < POW32
    ensures ReadU32(buffer, eocd) == EOCD_SIGNATURE && ReadU16(buffer, eocd + 10) == count
    ensures ReadU32(buffer, eocd + 12) == size && ReadU32(buffer, eocd + 16) == offset
  {
    hide *;
    var record := End(disks, count, size, offset);
    EndLayoutOf(disks, count, size, offset);
    SmallNumbers(count, size, offset);
    FieldU32(buffer, eocd, record, 0, EOCD_SIGNATURE);
    FieldU16(buffer, eocd, record, 10, count);
    FieldU32(buffer, eocd, record, 12, size);
    FieldU32(buffer, eocd, record, 16, offset);
  }

  lemma SmallNumbers(count: nat, size: nat, offset: nat)
    requires count < POW16 && size < POW32 && offset < POW32
    ensures count % POW16 == count && size % POW32 == size && offset % POW32 == offset
    ensures EOCD_SIGNATURE % POW32 == EOCD_SIGNATURE
  {}

  lemma Placed(buffer: Buffer, a: Buffer, b: Buffer, c: Buffer, d: Buffer)
    requires buffer == a + b + c + d
    ensures Holds(buffer, |a|, b) && Holds(buffer, |a| + |b|, c)
    ensures |buffer| == |a| + |b| + |c| + |d|
  {}

  /** A file that ends in this way is accepted exactly when it begins with a local header, its last end record is within
      the permitted range, it has entries but not too many, and all of them may be taken. It is reported in full. */
  lemma ForeignArchiveReads(p: Platform, buffer: Buffer, front: Buffer, es: seq<Entry>, disks: Buffer, tail: Buffer,
          limits: Limits)
    requires EndsWith(buffer, front, es, disks, tail) && forall i :: 0 <= i < |es| ==> WellFormed(es[i])
    ensures var r := ParseZip(p, buffer, limits);
      && (r.Success? <==>
           && ReadU32(buffer, 0) == LOCAL_SIGNATURE
           && |tail| <= 2 + 65_535
           && 1 <= |es| <= EntryLimit(limits)
           && AllAdmissible(p, es, {}, 0, SizeLimit(limits)))
      && (r.Success? ==> r.value == Parsed(AllReported(p, es), Total(es)))
  {
    hide *;
    FoundAtEnd(p, buffer, front, es, disks, tail, limits);
    var start := Cursor(|front|, {}, 0);
    EndRead(buffer, front, es, disks, tail);
    DirectoryRead(p, buffer, start, es, SizeLimit(limits));
    ReadsAllIs(ReadEntries(p, buffer, start, |es|, SizeLimit(limits)), p, es, {}, 0, SizeLimit(limits));
    Concluded(ParseZip(p, buffer, limits), ReadEntries(p, buffer, start, |es|, SizeLimit(limits)),
        ReadU32(buffer, 0) == LOCAL_SIGNATURE, |tail| <= 2 + 65_535, 1 <= |es| <= EntryLimit(limits),
        AllAdmissible(p, es, {}, 0, SizeLimit(limits)), Parsed(AllReported(p, es), Total(es)));
  }

  lemma FoundAtEnd(p: Platform, buffer: Buffer, front: Buffer, es: seq<Entry>, disks: Buffer, tail: Buffer,
          limits: Limits)
    requires EndsWith(buffer, front, es, disks, tail)
    ensures var r := ParseZip(p, buffer, limits);
      var found := ReadU32(buffer, 0) == LOCAL_SIGNATURE && |tail| <= 2 + 65_535 && 1 <= |es| <= EntryLimit(limits);
      && (r.Success? ==> found)
      && (found ==> r == ReadEntries(p, buffer, Cursor(|front|, {}, 0), |es|, SizeLimit(limits)))
  {
    hide *;
    NoLaterRecord(buffer, front, es, disks, tail);
    EndRead(buffer, front, es, disks, tail);
    LastRecordFound(p, buffer, |front| + |Directory(es)|, limits);
  }

  lemma Concluded(r: Result<Parsed, ReadError>, entries: Result<Parsed, ReadError>, begins: bool, within: bool,
          counted: bool, admissible: bool, parsed: Parsed)
    requires r.Success? ==> begins && within && counted
    requires begins && within && counted ==> r == entries
    requires (entries.Success? <==> admissible) && (entries.Success? ==> entries.value == parsed)
    ensures r.Success? <==> begins && within && counted && admissible
    ensures r.Success? ==> r.value == parsed
  {}

  lemma NoLaterRecord(buffer: Buffer, front: Buffer, es: seq<Entry>, disks: Buffer, tail: Buffer)
    requires EndsWith(buffer, front, es, disks, tail)
    ensures |tail| >= 2
    ensures forall j :: |front| + |Directory(es)| < j <= |buffer| - 22 ==> ReadU32(buffer, j) != EOCD_SIGNATURE
  {}

  lemma ReadsAllIs(r: Result<Parsed, ReadError>, p: Platform, es: seq<Entry>, seen: set<string>, total: nat,
          sizeLimit: nat)
    requires ReadsAll(r, p, es, seen, total, sizeLimit)
    ensures r.Success? <==> AllAdmissible(p, es, seen, total, sizeLimit)
    ensures r.Success? ==> r.value == Parsed(AllReported(p, es), total + Total(es))
  {}

  lemma LastRecordFound(p: Platform, buffer: Buffer, eocd: nat, limits: Limits)
    requires eocd + 22 <= |buffer| && ReadU32(buffer, eocd) == EOCD_SIGNATURE
    requires forall j :: eocd < j <= |buffer| - 22 ==> ReadU32(buffer, j) != EOCD_SIGNATURE
    ensures
      var count, size, offset := ReadU16(buffer, eocd + 10), ReadU32(buffer, eocd + 12), ReadU32(buffer, eocd + 16);
      var r := ParseZip(p, buffer, limits);
      && (r.Success? ==>
           && ReadU32(buffer, 0) == LOCAL_SIGNATURE && |buffer| - eocd <= 22 + 65_535
           && 1 <= count <= EntryLimit(limits) && offset + size <= |buffer|)
      && (ReadU32(buffer, 0) == LOCAL_SIGNATURE && |buffer| - eocd <= 22 + 65_535
           && 1 <= count <= EntryLimit(limits) && offset + size <= |buffer| ==>
           r == ReadEntries(p, buffer, Cursor(offset, {}, 0), count, SizeLimit(limits)))
  {
    hide ReadU16, ReadU32, ReadEntries, FindEndRecord;
    var minEocd := if |buffer| - 22 - 65_535 < 0 then 0 else |buffer| - 22 - 65_535;
    assert FindEndRecord(buffer, |buffer| - 22, minEocd) == if eocd < minEocd then -1 else eocd;
  }

  // ------------------------------------------------------------ the data

  /** A local header, section 4.3.7, of which the reader reads the signature and the two lengths. */
  function LocalHead(fields: Buffer, name: Buffer, extra: Buffer): Buffer {
    U32(LOCAL_SIGNATURE) + fields + U16(|name|) + U16(|extra|)
  }

  lemma LocalHeadLayout(fields: Buffer, name: Buffer, extra: Buffer)
    requires |fields| == 22
    ensures var g := LocalHead(fields, name, extra);
      && |g| == 30 && g[0..4] == U32(LOCAL_SIGNATURE) && g[26..28] == U16(|name|) && g[28..30] == U16(|extra|)
  {
    FieldSizes();
    hide U16, U32;
  }

  /** The data of an entry are the bytes behind the local header's own name and extra fields, inflated if deflated; they
      are returned exactly when their length and checksum are those of the directory. */
  lemma DataRead(p: Platform, buffer: Buffer, file: ZipFile, fields: Buffer, name: Buffer, extra: Buffer,
      stored: Buffer,
          data: Buffer)
    requires |fields| == 22 && |name| < POW16 && |extra| < POW16 && |stored| == file.compressedSize
    requires Holds(buffer, file.localHeaderOffset, LocalHead(fields, name, extra))
    requires Holds(buffer, file.localHeaderOffset + 30 + |name| + |extra|, stored)
    ensures EntryData(p, buffer, file) == Success(data) <==>
      && (if file.compression == 0 then data == stored
          else file.compression == 8 && p.inflate(stored, Room(file)) == Some(data))
      && |data| == file.uncompressedSize && Crc32.Crc(data) == file.crc
  {
    var at := file.localHeaderOffset;
    LocalHeadLayout(fields, name, extra);
    LocalLengthsRead(buffer, at, LocalHead(fields, name, extra), |name|, |extra|);
    BytesHeld(buffer, at + 30 + |name| + |extra|, stored);
    hide ReadU16, ReadU32, LocalHead, Holds, Crc32.Crc;
  }

  /** The inflater may use as many bytes as the entry is to have, and at least one. */
  function Room(file: ZipFile): (room: nat)
    ensures room >= 1 && room >= file.uncompressedSize
  {
    if file.uncompressedSize == 0 then 1 else file.uncompressedSize
  }

  lemma LocalLengthsRead(buffer: Buffer, at: nat, head: Buffer, nameLength: nat, extraLength: nat)
    requires |head| == 30 && head[0..4] == U32(LOCAL_SIGNATURE)
    requires head[26..28] == U16(nameLength) && head[28..30] == U16(extraLength)
    requires nameLength < POW16 && extraLength < POW16 && Holds(buffer, at, head)
    ensures ReadU32(buffer, at) == LOCAL_SIGNATURE
    ensures ReadU16(buffer, at + 26) == nameLength && ReadU16(buffer, at + 28) == extraLength
  {
    assert nameLength % POW16 == nameLength && extraLength % POW16 == extraLength;
    assert LOCAL_SIGNATURE % POW32 == LOCAL_SIGNATURE;
    hide *;
    FieldU32(buffer, at, head, 0, LOCAL_SIGNATURE);
    FieldU16(buffer, at, head, 26, nameLength);
    FieldU16(buffer, at, head, 28, extraLength);
  }
}
