/** The records of a ZIP archive (sections 4.3.7, 4.3.12 and 4.3.16 of PKWARE APPNOTE.TXT), as src/zipWriter.js lays
    them out. */
module ZipFormat {
  import opened Bytes

  const LOCAL_SIGNATURE: nat := 0x0403_4b50
  const CENTRAL_SIGNATURE: nat := 0x0201_4b50
  const EOCD_SIGNATURE: nat := 0x0605_4b50

  /** One archive member, ready to be laid out. */
  datatype Member = Member(
    name: string, nameBytes: Buffer, compression: nat, stored: Buffer,
    size: nat, crc: nat, dosTime: nat, dosDate: nat)

  /** The three groups of fields of a local header. */
  function LocalVersions(m: Member): Buffer {
    U32(LOCAL_SIGNATURE) + U16(20) + U16(0x0800) + U16(m.compression) + U16(m.dosTime) + U16(m.dosDate)
  }

  function LocalSizes(m: Member): Buffer {
    U32(m.crc) + U32(|m.stored|) + U32(m.size)
  }

  function LocalLengths(m: Member): Buffer {
    U16(|m.nameBytes|) + U16(0)
  }

  function LocalHeader(m: Member): Buffer {
    LocalVersions(m) + LocalSizes(m) + LocalLengths(m) + m.nameBytes
  }

  /** The five groups of fields of a central header. */
  function CentralVersions(m: Member): Buffer {
    U32(CENTRAL_SIGNATURE) + U16(20) + U16(20) + U16(0x0800) + U16(m.compression) + U16(m.dosTime) + U16(m.dosDate)
  }

  function CentralSizes(m: Member): Buffer {
    U32(m.crc) + U32(|m.stored|) + U32(m.size)
  }

  function CentralLengths(m: Member): Buffer {
    U16(|m.nameBytes|) + U16(0) + U16(0) + U16(0) + U16(0)
  }

  function CentralPlace(localOffset: nat): Buffer {
    U32(0) + U32(localOffset)
  }

  function CentralHeader(m: Member, localOffset: nat): Buffer {
    CentralVersions(m) + CentralSizes(m) + CentralLengths(m) + CentralPlace(localOffset) + m.nameBytes
  }

  function EndRecord(count: nat, centralSize: nat, centralOffset: nat): Buffer {
    (U32(EOCD_SIGNATURE) + U16(0) + U16(0) + U16(count) + U16(count))
    + (U32(centralSize) + U32(centralOffset) + U16(0))
  }

  function LocalSize(m: Member): nat {
    30 + |m.nameBytes| + |m.stored|
  }

  /** All local headers, each followed by its data. */
  function Locals(members: seq<Member>): Buffer {
    if members == [] then [] else LocalHeader(members[0]) + members[0].stored + Locals(members[1..])
  }

  /** The central directory; the first member's local header is at `localOffset`. */
  function Centrals(members: seq<Member>, localOffset: nat): Buffer {
    if members == [] then []
    else CentralHeader(members[0], localOffset) + Centrals(members[1..], localOffset + LocalSize(members[0]))
  }

  function Archive(members: seq<Member>): Buffer {
    var locals, central := Locals(members), Centrals(members, 0);
    locals + central + EndRecord(|members|, |central|, |locals|)
  }

  // ------------------------------------------------------------ where the fields are

  lemma HoldsSlice(buffer: Buffer, offset: int, part: Buffer, i: nat, j: nat)
    requires Holds(buffer, offset, part) && i <= j <= |part|
    ensures Holds(buffer, offset + i, part[i..j])
  {
    forall k | i <= k < j
      ensures buffer[offset + k] == part[k]
    {
      assert buffer[offset..offset + |part|][k] == part[k];
    }
    assert buffer[offset + i..offset + j] == part[i..j];
  }

  lemma FieldU16(buffer: Buffer, offset: int, part: Buffer, i: nat, value: nat)
    requires Holds(buffer, offset, part) && i + 2 <= |part| && part[i..i + 2] == U16(value)
    ensures ReadU16(buffer, offset + i) == value % POW16
  {
    HoldsSlice(buffer, offset, part, i, i + 2);
    ReadBackU16(buffer, offset + i, value);
  }

  lemma FieldU32(buffer: Buffer, offset: int, part: Buffer, i: nat, value: nat)
    requires Holds(buffer, offset, part) && i + 4 <= |part| && part[i..i + 4] == U32(value)
    ensures ReadU32(buffer, offset + i) == value % POW32
  {
    HoldsSlice(buffer, offset, part, i, i + 4);
    ReadBackU32(buffer, offset + i, value);
  }

  /** The signatures begin with the letters PK. */
  lemma SignatureBytes()
    ensures U32(LOCAL_SIGNATURE) == [0x50, 0x4b, 3, 4] && U32(CENTRAL_SIGNATURE) == [0x50, 0x4b, 1, 2]
    ensures U32(EOCD_SIGNATURE) == [0x50, 0x4b, 5, 6]
  {}

  lemma LocalGroups(m: Member)
    ensures var g := LocalVersions(m);
      && |g| == 14 && g[0..4] == U32(LOCAL_SIGNATURE) && g[4..6] == U16(20) && g[6..8] == U16(0x0800)
      && g[8..10] == U16(m.compression) && g[10..12] == U16(m.dosTime) && g[12..14] == U16(m.dosDate)
    ensures var g := LocalSizes(m);
      |g| == 12 && g[0..4] == U32(m.crc) && g[4..8] == U32(|m.stored|) && g[8..12] == U32(m.size)
    ensures var g := LocalLengths(m); |g| == 4 && g[0..2] == U16(|m.nameBytes|) && g[2..4] == U16(0)
  {
    FieldSizes();
    hide U16, U32;
  }

  /** Every field of a local header. */
  lemma LocalLayout(m: Member)
    ensures var h := LocalHeader(m);
      && |h| == 30 + |m.nameBytes|
      && h[0..4] == U32(LOCAL_SIGNATURE) && h[4..6] == U16(20) && h[6..8] == U16(0x0800)
      && h[8..10] == U16(m.compression) && h[10..12] == U16(m.dosTime) && h[12..14] == U16(m.dosDate)
      && h[14..18] == U32(m.crc) && h[18..22] == U32(|m.stored|) && h[22..26] == U32(m.size)
      && h[26..28] == U16(|m.nameBytes|) && h[28..30] == U16(0)
      && h[30..|h|] == m.nameBytes
  {
    var h := LocalHeader(m);
    var versions, sizes, lengths := LocalVersions(m), LocalSizes(m), LocalLengths(m);
    assert h == versions + sizes + lengths + m.nameBytes;
    hide *;
    LocalGroups(m);
    GroupedLocal(h, versions, sizes, lengths, m.nameBytes);
    Inside(h, versions, 0, 0, 4);
    Inside(h, versions, 0, 4, 6);
    Inside(h, versions, 0, 6, 8);
    Inside(h, versions, 0, 8, 10);
    Inside(h, versions, 0, 10, 12);
    Inside(h, versions, 0, 12, 14);
    Inside(h, sizes, 14, 0, 4);
    Inside(h, sizes, 14, 4, 8);
    Inside(h, sizes, 14, 8, 12);
    Inside(h, lengths, 26, 0, 2);
    Inside(h, lengths, 26, 2, 4);
  }

  lemma GroupedLocal<T>(h: seq<T>, a: seq<T>, b: seq<T>, c: seq<T>, d: seq<T>)
    requires h == a + b + c + d && |a| == 14 && |b| == 12 && |c| == 4
    ensures |h| == 30 + |d|
    ensures h[0..14] == a && h[14..26] == b && h[26..30] == c && h[30..|h|] == d
  {
    Ends(a + b + c, d);
    Ends(a + b, c);
    Ends(a, b);
    Nested(h, a + b + c, 30, 26, 30);
    Nested(h, a + b + c, 30, 0, 26);
    Nested(h, a + b, 26, 14, 26);
    Nested(h, a + b, 26, 0, 14);
  }

  lemma FieldSizes()
    ensures forall n: nat :: |U16(n)| == 2
    ensures forall n: nat :: |U32(n)| == 4
  {}

  lemma VersionsLayout(m: Member)
    ensures var g := CentralVersions(m);
      && |g| == 16 && g[0..4] == U32(CENTRAL_SIGNATURE) && g[4..6] == U16(20) && g[6..8] == U16(20)
      && g[8..10] == U16(0x0800) && g[10..12] == U16(m.compression) && g[12..14] == U16(m.dosTime)
      && g[14..16] == U16(m.dosDate)
  {
    FieldSizes();
    hide U16, U32;
  }

  lemma SizesLayout(m: Member)
    ensures var g := CentralSizes(m);
      |g| == 12 && g[0..4] == U32(m.crc) && g[4..8] == U32(|m.stored|) && g[8..12] == U32(m.size)
  {
    FieldSizes();
    hide U16, U32;
  }

  lemma LengthsLayout(m: Member)
    ensures var g := CentralLengths(m);
      && |g| == 10 && g[0..2] == U16(|m.nameBytes|) && g[2..4] == U16(0) && g[4..6] == U16(0)
      && g[6..8] == U16(0) && g[8..10] == U16(0)
  {
    FieldSizes();
    hide U16, U32;
  }

  lemma PlaceLayout(localOffset: nat)
    ensures var g := CentralPlace(localOffset); |g| == 8 && g[0..4] == U32(0) && g[4..8] == U32(localOffset)
  {
    FieldSizes();
    hide U16, U32;
  }

  /** Every field of a central header. */
  lemma CentralLayout(m: Member, localOffset: nat)
    ensures var h := CentralHeader(m, localOffset);
      && |h| == 46 + |m.nameBytes|
      && h[0..4] == U32(CENTRAL_SIGNATURE) && h[4..6] == U16(20) && h[6..8] == U16(20) && h[8..10] == U16(0x0800)
      && h[10..12] == U16(m.compression) && h[12..14] == U16(m.dosTime) && h[14..16] == U16(m.dosDate)
      && h[16..20] == U32(m.crc) && h[20..24] == U32(|m.stored|) && h[24..28] == U32(m.size)
      && h[28..30] == U16(|m.nameBytes|) && h[30..32] == U16(0) && h[32..34] == U16(0)
      && h[34..36] == U16(0) && h[36..38] == U16(0)
      && h[38..42] == U32(0) && h[42..46] == U32(localOffset)
      && h[46..|h|] == m.nameBytes
  {
    var h := CentralHeader(m, localOffset);
    var versions, sizes, lengths, place :=
      CentralVersions(m), CentralSizes(m), CentralLengths(m), CentralPlace(localOffset);
    assert h == versions + sizes + lengths + place + m.nameBytes;
    hide *;
    VersionsLayout(m);
    SizesLayout(m);
    LengthsLayout(m);
    PlaceLayout(localOffset);
    Grouped(h, versions, sizes, lengths, place, m.nameBytes);
    Inside(h, versions, 0, 0, 4);
    Inside(h, versions, 0, 4, 6);
    Inside(h, versions, 0, 6, 8);
    Inside(h, versions, 0, 8, 10);
    Inside(h, versions, 0, 10, 12);
    Inside(h, versions, 0, 12, 14);
    Inside(h, versions, 0, 14, 16);
    Inside(h, sizes, 16, 0, 4);
    Inside(h, sizes, 16, 4, 8);
    Inside(h, sizes, 16, 8, 12);
    Inside(h, lengths, 28, 0, 2);
    Inside(h, lengths, 28, 2, 4);
    Inside(h, lengths, 28, 4, 6);
    Inside(h, lengths, 28, 6, 8);
    Inside(h, lengths, 28, 8, 10);
    Inside(h, place, 38, 0, 4);
    Inside(h, place, 38, 4, 8);
  }

  lemma Grouped<T>(h: seq<T>, a: seq<T>, b: seq<T>, c: seq<T>, d: seq<T>, e: seq<T>)
    requires h == a + b + c + d + e && |a| == 16 && |b| == 12 && |c| == 10 && |d| == 8
    ensures |h| == 46 + |e|
    ensures h[0..16] == a && h[16..28] == b && h[28..38] == c && h[38..46] == d && h[46..|h|] == e
  {
    Ends(a + b + c + d, e);
    Ends(a + b + c, d);
    Ends(a + b, c);
    Ends(a, b);
    Nested(h, a + b + c + d, 46, 38, 46);
    Nested(h, a + b + c + d, 46, 0, 38);
    Nested(h, a + b + c, 38, 28, 38);
    Nested(h, a + b + c, 38, 0, 28);
    Nested(h, a + b, 28, 16, 28);
    Nested(h, a + b, 28, 0, 16);
  }

  lemma Ends<T>(front: seq<T>, back: seq<T>)
    ensures (front + back)[..|front|] == front && (front + back)[|front|..] == back
  {}

  lemma Nested<T>(h: seq<T>, front: seq<T>, n: nat, i: nat, j: nat)
    requires n <= |h| && h[..n] == front && i <= j <= n
    ensures h[i..j] == front[i..j]
  {
    forall k | i <= k < j
      ensures h[k] == front[k]
    {
      assert h[..n][k] == front[k];
    }
  }

  lemma Inside<T>(h: seq<T>, group: seq<T>, at: nat, i: nat, j: nat)
    requires i <= j <= |group| && at + |group| <= |h| && h[at..at + |group|] == group
    ensures h[at + i..at + j] == group[i..j]
  {
    forall k | i <= k < j
      ensures h[at + k] == group[k]
    {
      assert h[at..at + |group|][k] == group[k];
    }
  }

  lemma EndLayout(count: nat, centralSize: nat, centralOffset: nat)
    ensures var h := EndRecord(count, centralSize, centralOffset);
      && |h| == 22
      && h[0..4] == U32(EOCD_SIGNATURE) && h[4..6] == U16(0) && h[6..8] == U16(0)
      && h[8..10] == U16(count) && h[10..12] == U16(count)
      && h[12..16] == U32(centralSize) && h[16..20] == U32(centralOffset) && h[20..22] == U16(0)
  {
    FieldSizes();
    hide U16, U32;
  }

  /** Both headers of a member give the same version, flags, method, times, checksum, sizes and lengths. */
  lemma HeadersAgree(m: Member, localOffset: nat)
    ensures var local, central := LocalHeader(m), CentralHeader(m, localOffset);
      |local| >= 30 && |central| >= 46 && local[4..30] == central[6..32] && local[30..] == central[46..]
  {
    var local, central := LocalHeader(m), CentralHeader(m, localOffset);
    LocalLayout(m);
    CentralLayout(m, localOffset);
    hide *;
    SameFields(local, central);
    assert local[30..] == local[30..|local|] && central[46..] == central[46..|central|];
  }

  lemma SameFields(a: Buffer, b: Buffer)
    requires |a| >= 30 && |b| >= 32
    requires a[4..6] == b[6..8] && a[6..8] == b[8..10] && a[8..10] == b[10..12] && a[10..12] == b[12..14]
    requires a[12..14] == b[14..16] && a[14..18] == b[16..20] && a[18..22] == b[20..24] && a[22..26] == b[24..28]
    requires a[26..28] == b[28..30] && a[28..30] == b[30..32]
    ensures a[4..30] == b[6..32]
  {
    assert a[4..8] == a[4..6] + a[6..8] && b[6..10] == b[6..8] + b[8..10];
    assert a[8..12] == a[8..10] + a[10..12] && b[10..14] == b[10..12] + b[12..14];
    assert a[12..18] == a[12..14] + a[14..18] && b[14..20] == b[14..16] + b[16..20];
    assert a[18..26] == a[18..22] + a[22..26] && b[20..28] == b[20..24] + b[24..28];
    assert a[26..30] == a[26..28] + a[28..30] && b[28..32] == b[28..30] + b[30..32];
    assert a[4..30] == a[4..8] + a[8..12] + a[12..18] + a[18..26] + a[26..30];
    assert b[6..32] == b[6..10] + b[10..14] + b[14..20] + b[20..28] + b[28..32];
  }

  lemma LocalFields(buffer: Buffer, offset: int, m: Member)
    requires Holds(buffer, offset, LocalHeader(m))
    ensures ReadU32(buffer, offset) == LOCAL_SIGNATURE
    ensures ReadU16(buffer, offset + 8) == m.compression % POW16
    ensures ReadU32(buffer, offset + 14) == m.crc % POW32
    ensures ReadU32(buffer, offset + 18) == |m.stored| % POW32
    ensures ReadU32(buffer, offset + 22) == m.size % POW32
    ensures ReadU16(buffer, offset + 26) == |m.nameBytes| % POW16
    ensures ReadU16(buffer, offset + 28) == 0
    ensures Holds(buffer, offset + 30, m.nameBytes)
  {
    var h := LocalHeader(m);
    LocalLayout(m);
    hide LocalHeader, CentralHeader, EndRecord, U16, U32, ReadU16, ReadU32, Holds;
    FieldU32(buffer, offset, h, 0, LOCAL_SIGNATURE);
    FieldU16(buffer, offset, h, 8, m.compression);
    FieldU32(buffer, offset, h, 14, m.crc);
    FieldU32(buffer, offset, h, 18, |m.stored|);
    FieldU32(buffer, offset, h, 22, m.size);
    FieldU16(buffer, offset, h, 26, |m.nameBytes|);
    FieldU16(buffer, offset, h, 28, 0);
    HoldsSlice(buffer, offset, h, 30, |h|);
  }

  lemma CentralFields(buffer: Buffer, offset: int, m: Member, localOffset: nat)
    requires Holds(buffer, offset, CentralHeader(m, localOffset))
    ensures ReadU32(buffer, offset) == CENTRAL_SIGNATURE
    ensures ReadU16(buffer, offset + 10) == m.compression % POW16
    ensures ReadU32(buffer, offset + 16) == m.crc % POW32
    ensures ReadU32(buffer, offset + 20) == |m.stored| % POW32
    ensures ReadU32(buffer, offset + 24) == m.size % POW32
    ensures ReadU16(buffer, offset + 28) == |m.nameBytes| % POW16
    ensures ReadU16(buffer, offset + 30) == 0
    ensures ReadU16(buffer, offset + 32) == 0
    ensures ReadU32(buffer, offset + 38) == 0
    ensures ReadU32(buffer, offset + 42) == localOffset % POW32
    ensures Holds(buffer, offset + 46, m.nameBytes)
  {
    var h := CentralHeader(m, localOffset);
    CentralLayout(m, localOffset);
    hide LocalHeader, CentralHeader, EndRecord, U16, U32, ReadU16, ReadU32, Holds;
    FieldU32(buffer, offset, h, 0, CENTRAL_SIGNATURE);
    FieldU16(buffer, offset, h, 10, m.compression);
    FieldU32(buffer, offset, h, 16, m.crc);
    FieldU32(buffer, offset, h, 20, |m.stored|);
    FieldU32(buffer, offset, h, 24, m.size);
    FieldU16(buffer, offset, h, 28, |m.nameBytes|);
    FieldU16(buffer, offset, h, 30, 0);
    FieldU16(buffer, offset, h, 32, 0);
    FieldU32(buffer, offset, h, 38, 0);
    FieldU32(buffer, offset, h, 42, localOffset);
    HoldsSlice(buffer, offset, h, 46, |h|);
  }

  lemma EndFields(buffer: Buffer, offset: int, count: nat, centralSize: nat, centralOffset: nat)
    requires Holds(buffer, offset, EndRecord(count, centralSize, centralOffset))
    ensures ReadU32(buffer, offset) == EOCD_SIGNATURE
    ensures ReadU16(buffer, offset + 10) == count % POW16
    ensures ReadU32(buffer, offset + 12) == centralSize % POW32
    ensures ReadU32(buffer, offset + 16) == centralOffset % POW32
  {
    var h := EndRecord(count, centralSize, centralOffset);
    EndLayout(count, centralSize, centralOffset);
    hide LocalHeader, CentralHeader, EndRecord, U16, U32, ReadU16, ReadU32, Holds;
    FieldU32(buffer, offset, h, 0, EOCD_SIGNATURE);
    FieldU16(buffer, offset, h, 10, count);
    FieldU32(buffer, offset, h, 12, centralSize);
    FieldU32(buffer, offset, h, 16, centralOffset);
  }
}
