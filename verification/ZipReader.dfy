/** parseZipBuffer and entryData of src/zipUtils.js. */
module ZipReader {
  import opened Bytes
  import Crc32
  import opened Paths
  import opened Wrappers
  import opened ZipFormat
  import opened ZipWriter

  datatype ZipFile = ZipFile(
    path: string, directory: bool, compressedSize: nat, uncompressedSize: nat,
    compression: nat, crc: nat, localHeaderOffset: nat)

  datatype Parsed = Parsed(files: seq<ZipFile>, totalUncompressedSize: nat)

  datatype ReadError =
    | NotAZip
    | EndRecordNotFound
    | InvalidEntryCount(count: nat)
    | DirectoryOutsideFile
    | InvalidCentralHeader
    | NameOutsideArchive
    | UnsafePath(path: string)
    | DuplicatePath(path: string)
    | SymlinkEntry(path: string)
    | UnsupportedCompression(compression: nat)
    | SizeLimitExceeded
    | InvalidLocalHeader
    | DataOutsideArchive
    | InflateFailed
    | SizeMismatch
    | CrcMismatch

  datatype Limits = Limits(maxEntries: nat, maxUncompressedSize: nat)

  /** `Number(option) || fallback`. */
  function EntryLimit(l: Limits): nat {
    if l.maxEntries == 0 then 5000 else l.maxEntries
  }

  function SizeLimit(l: Limits): nat {
    if l.maxUncompressedSize == 0 then 500 * 1024 * 1024 else l.maxUncompressedSize
  }

  /** A limit that is not given, or given as zero, is five thousand entries or five hundred mebibytes. */
  lemma LimitsAre(l: Limits)
    ensures EntryLimit(l) >= 1 && SizeLimit(l) >= 1
    ensures if l.maxEntries > 0 then EntryLimit(l) == l.maxEntries else EntryLimit(l) == 5_000
    ensures if l.maxUncompressedSize > 0 then SizeLimit(l) == l.maxUncompressedSize else SizeLimit(l) == 524_288_000
  {}

  // ------------------------------------------------------------ specification

  /** The last end-of-central-directory signature at or below `i`, not below `min`; -1 when there is none. */
  function FindEndRecord(buffer: Buffer, i: int, min: nat): (r: int)
    ensures r == -1 || min <= r <= i
    ensures r != -1 ==> ReadU32(buffer, r) == EOCD_SIGNATURE
    ensures forall j: int :: min <= j <= i && j > r ==> ReadU32(buffer, j) != EOCD_SIGNATURE
    decreases i - min
  {
    if i < min then -1
    else if ReadU32(buffer, i) == EOCD_SIGNATURE then i
    else FindEndRecord(buffer, i - 1, min)
  }

  datatype Cursor = Cursor(offset: nat, seen: set<string>, total: nat)

  /** One turn of the central-directory loop: read the fields, then check them. */
  function ReadEntry(p: Platform, buffer: Buffer, c: Cursor, sizeLimit: nat): Result<(ZipFile, Cursor), ReadError> {
    if ReadU32(buffer, c.offset) != CENTRAL_SIGNATURE then Failure(InvalidCentralHeader)
    else
      var nameEnd := c.offset + 46 + ReadU16(buffer, c.offset + 28);
      if nameEnd > |buffer| then Failure(NameOutsideArchive)
      else
        var name := p.decode(buffer[c.offset + 46..nameEnd]);
        var file := ZipFile(
          name, name != "" && name[|name| - 1] == '/',
          ReadU32(buffer, c.offset + 20), ReadU32(buffer, c.offset + 24), ReadU16(buffer, c.offset + 10),
          ReadU32(buffer, c.offset + 16), ReadU32(buffer, c.offset + 42));
        CheckEntry(c, file, ReadU32(buffer, c.offset + 38),
          nameEnd + ReadU16(buffer, c.offset + 30) + ReadU16(buffer, c.offset + 32), sizeLimit)
  }

  function CheckEntry(c: Cursor, file: ZipFile, externalAttrs: nat, offset: nat,
          sizeLimit: nat): Result<(ZipFile, Cursor), ReadError> {
    var name, path := file.path, CanonicalZipPath(file.path);
    if IsUnsafeZipPath(name) then Failure(UnsafePath(name))
    else if path in c.seen then Failure(DuplicatePath(path))
    else if externalAttrs / 0x1000_0000 == 10 then Failure(SymlinkEntry(name))
    else if file.compression != 0 && file.compression != 8 then Failure(UnsupportedCompression(file.compression))
    else if c.total + file.uncompressedSize > sizeLimit then Failure(SizeLimitExceeded)
    else Success((file, Cursor(offset, c.seen + {path}, c.total + file.uncompressedSize)))
  }

  function ReadEntries(p: Platform, buffer: Buffer, c: Cursor, count: nat, sizeLimit: nat): Result<Parsed, ReadError>
    decreases count
  {
    if count == 0 then Success(Parsed([], c.total))
    else
      match ReadEntry(p, buffer, c, sizeLimit)
      case Failure(e) => Failure(e)
      case Success((file, next)) => Prepend([file], ReadEntries(p, buffer, next, count - 1, sizeLimit))
  }

  function Prepend(files: seq<ZipFile>, r: Result<Parsed, ReadError>): Result<Parsed, ReadError> {
    match r
    case Failure(e) => Failure(e)
    case Success(parsed) => Success(Parsed(files + parsed.files, parsed.totalUncompressedSize))
  }

  function ParseZip(p: Platform, buffer: Buffer, limits: Limits): Result<Parsed, ReadError> {
    if |buffer| < 22 || ReadU32(buffer, 0) != LOCAL_SIGNATURE then Failure(NotAZip)
    else
      var minEocd := if |buffer| - 22 - 65535 < 0 then 0 else |buffer| - 22 - 65535;
      var eocd := FindEndRecord(buffer, |buffer| - 22, minEocd);
      if eocd == -1 then Failure(EndRecordNotFound)
      else
        var count := ReadU16(buffer, eocd + 10);
        var size := ReadU32(buffer, eocd + 12);
        var offset := ReadU32(buffer, eocd + 16);
        if count == 0 || count > EntryLimit(limits) then Failure(InvalidEntryCount(count))
        else if offset + size > |buffer| then Failure(DirectoryOutsideFile)
        else ReadEntries(p, buffer, Cursor(offset, {}, 0), count, SizeLimit(limits))
  }

  /** entryData. */
  function EntryData(p: Platform, buffer: Buffer, file: ZipFile): Result<Buffer, ReadError> {
    var local := file.localHeaderOffset;
    if ReadU32(buffer, local) != LOCAL_SIGNATURE then Failure(InvalidLocalHeader)
    else
      var start := local + 30 + ReadU16(buffer, local + 26) + ReadU16(buffer, local + 28);
      if start + file.compressedSize > |buffer| then Failure(DataOutsideArchive)
      else
        var compressed := buffer[start..start + file.compressedSize];
        match Decompressed(p, file, compressed)
        case Failure(e) => Failure(e)
        case Success(data) =>
          if |data| != file.uncompressedSize then Failure(SizeMismatch)
          else if Crc32.Crc(data) != file.crc then Failure(CrcMismatch)
          else Success(data)
  }

  function Decompressed(p: Platform, file: ZipFile, compressed: Buffer): Result<Buffer, ReadError> {
    if file.compression == 0 then Success(compressed)
    else if file.compression == 8 then
      match p.inflate(compressed, if file.uncompressedSize < 1 then 1 else file.uncompressedSize)
      case None => Failure(InflateFailed)
      case Some(data) => Success(data)
    else Failure(UnsupportedCompression(file.compression))
  }

  // ------------------------------------------------------------ the source's loops

  lemma PrependTwice(files: seq<ZipFile>, file: ZipFile, r: Result<Parsed, ReadError>)
    ensures Prepend(files, Prepend([file], r)) == Prepend(files + [file], r)
  {
    if r.Success? {
      assert files + ([file] + r.value.files) == files + [file] + r.value.files;
    }
  }

  lemma NextEntryRead(p: Platform, buffer: Buffer, c: Cursor, count: nat, sizeLimit: nat)
    requires count > 0
    ensures ReadEntries(p, buffer, c, count, sizeLimit) ==
      match ReadEntry(p, buffer, c, sizeLimit)
      case Failure(e) => Failure(e)
      case Success((file, next)) => Prepend([file], ReadEntries(p, buffer, next, count - 1, sizeLimit))
    ensures ReadEntries(p, buffer, c, count, sizeLimit).Success? ==>
      && ReadEntry(p, buffer, c, sizeLimit).Success?
      && var (file, next) := ReadEntry(p, buffer, c, sizeLimit).value;
      && ReadEntries(p, buffer, next, count - 1, sizeLimit).Success?
      && var rest := ReadEntries(p, buffer, next, count - 1, sizeLimit).value;
      && ReadEntries(p, buffer, c, count, sizeLimit).value == Parsed([file] + rest.files, rest.totalUncompressedSize)
  {
    hide ReadEntry;
  }

  /** parseZipBuffer with its backward scan and its central-directory loop. */
  method ParseZipBuffer(p: Platform, buffer: Buffer, limits: Limits) returns (r: Result<Parsed, ReadError>)
    ensures r == ParseZip(p, buffer, limits)
  {
    hide ReadU16, ReadU32, ReadEntries;
    if |buffer| < 22 || ReadU32(buffer, 0) != LOCAL_SIGNATURE {
      return Failure(NotAZip);
    }
    var minEocd := if |buffer| - 22 - 65535 < 0 then 0 else |buffer| - 22 - 65535;
    var eocd, i := -1, |buffer| - 22;
    while i >= minEocd && eocd == -1
      invariant minEocd - 1 <= i
      invariant FindEndRecord(buffer, |buffer| - 22, minEocd) == if eocd != -1 then eocd
        else FindEndRecord(buffer, i, minEocd)
      decreases i, if eocd == -1 then 1 else 0
    {
      if ReadU32(buffer, i) == EOCD_SIGNATURE {
        eocd := i;
      } else {
        i := i - 1;
      }
    }
    if eocd == -1 {
      return Failure(EndRecordNotFound);
    }
    var count := ReadU16(buffer, eocd + 10);
    var size := ReadU32(buffer, eocd + 12);
    var offset := ReadU32(buffer, eocd + 16);
    if count == 0 || count > EntryLimit(limits) {
      return Failure(InvalidEntryCount(count));
    }
    if offset + size > |buffer| {
      return Failure(DirectoryOutsideFile);
    }
    r := ReadDirectory(p, buffer, Cursor(offset, {}, 0), count, SizeLimit(limits));
  }

  method ReadDirectory(p: Platform, buffer: Buffer, start: Cursor, count: nat, sizeLimit: nat)
    returns (r: Result<Parsed, ReadError>)
    ensures r == ReadEntries(p, buffer, start, count, sizeLimit)
  {
    var files: seq<ZipFile>, c, index := [], start, 0;
    hide ReadEntries, ReadEntry;
    PrependNothing(ReadEntries(p, buffer, c, count, sizeLimit));
    while index < count
      invariant 0 <= index <= count
      invariant ReadEntries(p, buffer, start, count, sizeLimit)
             == Prepend(files, ReadEntries(p, buffer, c, count - index, sizeLimit))
    {
      NextEntryRead(p, buffer, c, count - index, sizeLimit);
      match ReadEntry(p, buffer, c, sizeLimit) {
        case Failure(e) =>
          return Failure(e);
        case Success((file, next)) =>
          PrependTwice(files, file, ReadEntries(p, buffer, next, count - index - 1, sizeLimit));
          files := files + [file];
          c := next;
          index := index + 1;
      }
    }
    NoMoreEntries(p, buffer, c, sizeLimit);
    assert files + [] == files;
    r := Success(Parsed(files, c.total));
  }

  lemma PrependNothing(r: Result<Parsed, ReadError>)
    ensures Prepend([], r) == r
  {
    if r.Success? {
      assert [] + r.value.files == r.value.files;
    }
  }

  lemma NoMoreEntries(p: Platform, buffer: Buffer, c: Cursor, sizeLimit: nat)
    ensures ReadEntries(p, buffer, c, 0, sizeLimit) == Success(Parsed([], c.total))
    ensures ReadFrom(Parsed([], c.total), c, 0, sizeLimit)
  {}

  // ------------------------------------------------------------ what acceptance means

  ghost predicate Accepted(files: seq<ZipFile>) {
    && (forall i :: 0 <= i < |files| ==> !IsUnsafeZipPath(files[i].path))
    && (forall i, j :: 0 <= i < j < |files| ==> CanonicalZipPath(files[i].path) != CanonicalZipPath(files[j].path))
  }

  function TotalUncompressed(files: seq<ZipFile>): nat {
    if files == [] then 0 else files[0].uncompressedSize + TotalUncompressed(files[1..])
  }

  /** The entries read from a cursor: accepted, new to the cursor, and counted within the limit. */
  ghost predicate ReadFrom(parsed: Parsed, c: Cursor, count: nat, sizeLimit: nat) {
    && |parsed.files| == count
    && Accepted(parsed.files)
    && (forall i :: 0 <= i < count ==> CanonicalZipPath(parsed.files[i].path) !in c.seen)
    && parsed.totalUncompressedSize == c.total + TotalUncompressed(parsed.files)
    && (count > 0 ==> parsed.totalUncompressedSize <= sizeLimit)
  }

  lemma {:induction false} ReadEntriesAccepted(p: Platform, buffer: Buffer, c: Cursor, count: nat, sizeLimit: nat)
    requires ReadEntries(p, buffer, c, count, sizeLimit).Success?
    ensures ReadFrom(ReadEntries(p, buffer, c, count, sizeLimit).value, c, count, sizeLimit)
    decreases count
  {
    hide *;
    if count == 0 {
      NoMoreEntries(p, buffer, c, sizeLimit);
    } else {
      NextEntryRead(p, buffer, c, count, sizeLimit);
      var (file, next) := ReadEntry(p, buffer, c, sizeLimit).value;
      EntryAccepted(p, buffer, c, sizeLimit, file, next);
      ReadEntriesAccepted(p, buffer, next, count - 1, sizeLimit);
      ReadFromFirst(file, ReadEntries(p, buffer, next, count - 1, sizeLimit).value, c, next, count, sizeLimit);
    }
  }

  ghost predicate EntryFits(file: ZipFile, c: Cursor, next: Cursor, sizeLimit: nat) {
    && !IsUnsafeZipPath(file.path)
    && CanonicalZipPath(file.path) !in c.seen
    && next.seen == c.seen + {CanonicalZipPath(file.path)}
    && next.total == c.total + file.uncompressedSize <= sizeLimit
  }

  lemma ReadFromFirst(file: ZipFile, rest: Parsed, c: Cursor, next: Cursor, count: nat, sizeLimit: nat)
    requires count > 0 && EntryFits(file, c, next, sizeLimit)
    requires ReadFrom(rest, next, count - 1, sizeLimit)
    ensures ReadFrom(Parsed([file] + rest.files, rest.totalUncompressedSize), c, count, sizeLimit)
  {
    hide IsUnsafeZipPath, CanonicalZipPath;
    assert ([file] + rest.files)[1..] == rest.files;
    assert CanonicalZipPath(file.path) in next.seen;
    assert count == 1 ==> TotalUncompressed(rest.files) == 0;
  }

  lemma EntryAccepted(p: Platform, buffer: Buffer, c: Cursor, sizeLimit: nat, file: ZipFile, next: Cursor)
    requires ReadEntry(p, buffer, c, sizeLimit) == Success((file, next))
    ensures EntryFits(file, c, next, sizeLimit)
  {
    hide IsUnsafeZipPath, CanonicalZipPath, ReadU16, ReadU32;
  }

  lemma ParsedFrom(p: Platform, buffer: Buffer, limits: Limits)
    requires ParseZip(p, buffer, limits).Success?
    ensures exists c: Cursor, count: nat ::
      && 1 <= count <= EntryLimit(limits) && c.total == 0
      && ParseZip(p, buffer, limits) == ReadEntries(p, buffer, c, count, SizeLimit(limits))
  {
    hide ReadEntries, ReadU16, ReadU32;
    var minEocd := if |buffer| - 22 - 65535 < 0 then 0 else |buffer| - 22 - 65535;
    var eocd := FindEndRecord(buffer, |buffer| - 22, minEocd);
    var c := Cursor(ReadU32(buffer, eocd + 16), {}, 0);
    assert ParseZip(p, buffer, limits) == ReadEntries(p, buffer, c, ReadU16(buffer, eocd + 10), SizeLimit(limits));
  }

  /** Every archive the reader accepts has safe, pairwise different canonical paths and stays within the limits. */
  lemma ParsedIsAccepted(p: Platform, buffer: Buffer, limits: Limits)
    requires ParseZip(p, buffer, limits).Success?
    ensures var r := ParseZip(p, buffer, limits).value;
      && Accepted(r.files)
      && 1 <= |r.files| <= EntryLimit(limits)
      && r.totalUncompressedSize == TotalUncompressed(r.files) <= SizeLimit(limits)
  {
    ParsedFrom(p, buffer, limits);
    hide ParseZip, ReadEntries, Accepted, TotalUncompressed, EntryLimit, SizeLimit;
    var c: Cursor, count: nat :|
      && 1 <= count <= EntryLimit(limits) && c.total == 0
      && ParseZip(p, buffer, limits) == ReadEntries(p, buffer, c, count, SizeLimit(limits));
    ReadEntriesAccepted(p, buffer, c, count, SizeLimit(limits));
  }
}
