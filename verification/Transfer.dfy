/** src/bridge/transferIntegrity.js: a payload that arrives in chunks is put together again, or refused. */
module Transfer {
  import opened Bytes
  import opened Chunks
  import opened Wrappers

  // ------------------------------------------------------------ base64

  /** The base64 alphabet, section 4 of RFC 4648. */
  function Letter(n: nat): (c: char)
    requires n < 64
    ensures c != '='
  {
    if n < 26 then (65 + n) as char
    else if n < 52 then (71 + n) as char
    else if n < 62 then (n - 4) as char
    else if n == 62 then '+'
    else '/'
  }

  /** So many characters from this one on. */
  function Range(first: char, n: nat): string
    requires first as int + n < 128
  {
    seq(n, i requires 0 <= i < n => (first as int + i) as char)
  }

  const ALPHABET := Range('A', 26) + Range('a', 26) + Range('0', 10) + "+/"

  lemma LetterIsInAlphabet(n: nat)
    requires n < 64
    ensures |ALPHABET| == 64 && Letter(n) == ALPHABET[n]
  {}

  lemma LetterIsInjective(a: nat, b: nat)
    requires a < 64 && b < 64 && Letter(a) == Letter(b)
    ensures a == b
  {}

  /** The byte at a position, or zero behind the end. */
  function At(bytes: Buffer, i: nat): (n: nat)
    ensures n < 256
  {
    if i < |bytes| then bytes[i] as nat else 0
  }

  /** Four letters for three bytes; letters that no byte reaches are padding. */
  function Quad(bytes: Buffer): (s: string)
    requires bytes != []
    ensures |s| == 4
  {
    var a, b, c := At(bytes, 0), At(bytes, 1), At(bytes, 2);
    [Letter(a / 4), Letter(a % 4 * 16 + b / 16),
     if |bytes| > 1 then Letter(b % 16 * 4 + c / 64) else '=',
     if |bytes| > 2 then Letter(c % 64) else '=']
  }

  /** Four letters of the alphabet hold the 24 bits of three bytes, the highest first. Bytes that are missing count as
      zero, and letters that hold nothing of a byte are padding. */
  lemma QuadHoldsBits(bytes: Buffer) returns (w: nat, x: nat, y: nat, z: nat)
    requires bytes != []
    ensures w < 64 && x < 64 && y < 64 && z < 64 && |ALPHABET| == 64
    ensures 0x4_0000 * w + 0x1000 * x + 0x40 * y + z ==
      0x1_0000 * bytes[0] as nat + 0x100 * (if |bytes| > 1 then bytes[1] as nat else 0)
      + if |bytes| > 2 then bytes[2] as nat else 0
    ensures Quad(bytes)[0] == ALPHABET[w] && Quad(bytes)[1] == ALPHABET[x]
    ensures Quad(bytes)[2] == (if |bytes| > 1 then ALPHABET[y] else '=')
    ensures Quad(bytes)[3] == (if |bytes| > 2 then ALPHABET[z] else '=')
  {
    var a, b, c := At(bytes, 0), At(bytes, 1), At(bytes, 2);
    w, x, y, z := a / 4, a % 4 * 16 + b / 16, b % 16 * 4 + c / 64, c % 64;
    LetterIsInAlphabet(w);
    LetterIsInAlphabet(x);
    LetterIsInAlphabet(y);
    LetterIsInAlphabet(z);
    BitsAgree(a, b, c);
    hide Letter;
  }

  lemma BitsAgree(a: nat, b: nat, c: nat)
    requires a < 256 && b < 256 && c < 256
    ensures 0x4_0000 * (a / 4) + 0x1000 * (a % 4 * 16 + b / 16) + 0x40 * (b % 16 * 4 + c / 64) + c % 64 ==
      0x1_0000 * a + 0x100 * b + c
  {}

  /** `bytes.toString('base64')`. */
  function Encode(bytes: Buffer): string {
    if bytes == [] then "" else Quad(bytes) + if |bytes| > 3 then Encode(bytes[3..]) else ""
  }

  lemma EncodeFirst(bytes: Buffer)
    requires bytes != []
    ensures Encode(bytes) == Quad(bytes) + Encode(if |bytes| > 3 then bytes[3..] else [])
  {
    hide Quad;
  }

  lemma {:induction false} EncodeLength(bytes: Buffer)
    ensures |Encode(bytes)| == (|bytes| + 2) / 3 * 4
  {
    hide *;
    if bytes == [] {
      EncodeNothing();
    } else {
      EncodeFirst(bytes);
      EncodeNothing();
      if |bytes| > 3 {
        EncodeLength(bytes[3..]);
      }
    }
  }

  lemma EncodeNothing()
    ensures Encode([]) == ""
  {}

  lemma SextetsDetermine(a: nat, b: nat, c: nat, x: nat, y: nat, z: nat)
    requires a < 256 && b < 256 && c < 256 && x < 256 && y < 256 && z < 256
    requires a / 4 == x / 4 && a % 4 * 16 + b / 16 == x % 4 * 16 + y / 16
    ensures a == x && b / 16 == y / 16
    ensures b % 16 * 4 + c / 64 == y % 16 * 4 + z / 64 ==> b == y && c / 64 == z / 64
    ensures b % 16 * 4 + c / 64 == y % 16 * 4 + z / 64 && c % 64 == z % 64 ==> c == z
  {}

  /** Equal quads come from equal groups of bytes. */
  lemma QuadIsInjective(p: Buffer, q: Buffer)
    requires p != [] && q != [] && Quad(p) == Quad(q)
    ensures |p| >= 3 <==> |q| >= 3
    ensures |p| < 3 ==> p == q
    ensures |p| >= 3 ==> p[..3] == q[..3]
  {
    var a, b, c, x, y, z := At(p, 0), At(p, 1), At(p, 2), At(q, 0), At(q, 1), At(q, 2);
    QuadMeans(p, q);
    hide Quad, Letter;
    SextetsDetermine(a, b, c, x, y, z);
  }

  lemma QuadMeans(p: Buffer, q: Buffer)
    requires p != [] && q != [] && Quad(p) == Quad(q)
    ensures var a, b, c, x, y, z := At(p, 0), At(p, 1), At(p, 2), At(q, 0), At(q, 1), At(q, 2);
      && a / 4 == x / 4 && a % 4 * 16 + b / 16 == x % 4 * 16 + y / 16
      && (|p| > 1 <==> |q| > 1) && (|p| > 2 <==> |q| > 2)
      && (|p| > 1 ==> b % 16 * 4 + c / 64 == y % 16 * 4 + z / 64)
      && (|p| > 2 ==> c % 64 == z % 64)
  {
    var a, b, c, x, y, z := At(p, 0), At(p, 1), At(p, 2), At(q, 0), At(q, 1), At(q, 2);
    var s, t := Quad(p), Quad(q);
    assert s[0] == t[0] && s[1] == t[1] && s[2] == t[2] && s[3] == t[3];
    hide Letter;
    LetterIsInjective(a / 4, x / 4);
    LetterIsInjective(a % 4 * 16 + b / 16, x % 4 * 16 + y / 16);
    if |p| > 1 {
      LetterIsInjective(b % 16 * 4 + c / 64, y % 16 * 4 + z / 64);
    }
    if |p| > 2 {
      LetterIsInjective(c % 64, z % 64);
    }
  }

  /** Base64 loses nothing. */
  lemma {:induction false} EncodeIsInjective(p: Buffer, q: Buffer)
    requires Encode(p) == Encode(q)
    ensures p == q
    decreases |p|
  {
    hide *;
    EncodeNothing();
    if p != [] && q != [] {
      var rest, rest' := if |p| > 3 then p[3..] else [], if |q| > 3 then q[3..] else [];
      EncodeFirst(p);
      EncodeFirst(q);
      SameHalves(Quad(p), Quad(q), Encode(rest), Encode(rest'));
      QuadIsInjective(p, q);
      EncodeIsInjective(rest, rest');
      assert |p| >= 3 ==> p == p[..3] + rest && q == q[..3] + rest';
    } else {
      EncodeLength(p);
      EncodeLength(q);
    }
  }

  lemma SameHalves(a: string, b: string, x: string, y: string)
    requires |a| == |b| && a + x == b + y
    ensures a == b && x == y
  {
    assert (a + x)[..|a|] == a && (b + y)[..|b|] == b && (a + x)[|a|..] == x && (b + y)[|b|..] == y;
  }

  // ------------------------------------------------------------ the accumulator

  datatype Encoding = Base64 | Utf8 | Binary

  datatype Metadata = Metadata(transferId: string, size: nat, encodedSize: nat, totalChunks: nat, encoding: Encoding,
      sha256: string)

  /** What the platform provides: `Buffer.from` for each encoding, and the hash. */
  datatype Platform = Platform(decode: (Encoding, string) -> Buffer, hash: Buffer -> string)

  /** The platform's base64 decoder undoes its encoder. What it makes of anything else is its own affair. */
  ghost predicate DecodesBase64(p: Platform) {
    forall b :: p.decode(Base64, Encode(b)) == b
  }

  /** The checks that finish makes of the whole content. */
  predicate Intact(p: Platform, m: Metadata, content: string) {
    var bytes := p.decode(m.encoding, content);
    && (m.encoding == Base64 ==> Encode(bytes) == content)
    && |bytes| == m.size && p.hash(bytes) == m.sha256
  }

  /** Content in base64 is intact exactly when it is the canonical encoding of bytes of the right size and hash, and
      only one content can be, for given bytes. */
  lemma IntactIsCanonical(p: Platform, m: Metadata, content: string)
    requires DecodesBase64(p) && m.encoding == Base64
    ensures Intact(p, m, content) <==>
      exists bytes :: content == Encode(bytes) && |bytes| == m.size && p.hash(bytes) == m.sha256
  {
    hide Encode;
    var decoded := p.decode(Base64, content);
    if Intact(p, m, content) {
      assert content == Encode(decoded);
    }
    forall bytes | content == Encode(bytes)
      ensures decoded == bytes
    {
      assert p.decode(Base64, Encode(bytes)) == bytes;
    }
  }

  /** The chunk continues what has arrived, within what was announced. */
  ghost predicate IsNext(m: Metadata, chunks: seq<string>, index: int, offset: int, content: string) {
    && index == |chunks| < m.totalChunks
    && offset == |Joined(chunks)| && |Joined(chunks)| + |content| <= m.encodedSize
  }

  class TransferAccumulator {
    const metadata: Metadata
    var chunks: seq<string>
    var length: nat

    ghost predicate Valid()
      reads this
    {
      length == |Joined(chunks)| <= metadata.encodedSize && |chunks| <= metadata.totalChunks
    }

    constructor (metadata: Metadata)
      ensures Valid() && this.metadata == metadata && chunks == []
    {
      this.metadata := metadata;
      chunks, length := [], 0;
    }

    /** append. A chunk is taken only as the next one, at the right offset and within the announced size. */
    method Append(m: Metadata, index: int, offset: int, content: string) returns (ok: bool)
      requires Valid()
      modifies this`chunks, this`length
      ensures Valid()
      ensures ok <==> m == metadata && IsNext(metadata, old(chunks), index, offset, content)
      ensures chunks == if ok then old(chunks) + [content] else old(chunks)
    {
      if m != metadata || index != |chunks| || index >= metadata.totalChunks || offset != length
        || length + |content| > metadata.encodedSize {
        return false;
      }
      assert (chunks + [content])[..|chunks|] == chunks;
      chunks := chunks + [content];
      length := length + |content|;
      ok := true;
    }

    /** finish. It gives back nothing but all chunks in order, complete and intact. */
    method Finish(p: Platform, m: Metadata) returns (content: Option<string>)
      requires Valid()
      ensures content.Some? <==>
        m == metadata && |chunks| == metadata.totalChunks && |Joined(chunks)| == metadata.encodedSize
          && Intact(p, metadata, Joined(chunks))
      ensures content.Some? ==> content.value == Joined(chunks)
    {
      if m != metadata || |chunks| != metadata.totalChunks || length != metadata.encodedSize {
        return None;
      }
      var whole := Joined(chunks);
      content := if Intact(p, metadata, whole) then Some(whole) else None;
    }
  }

  /** Whatever is cut into the announced number of chunks and sent in order is accepted chunk by chunk, and given back
      exactly if it is intact. */
  method ReceiveAll(p: Platform, m: Metadata, chunks: seq<string>) returns (content: Option<string>)
    requires |chunks| == m.totalChunks && |Joined(chunks)| == m.encodedSize
    ensures content == if Intact(p, m, Joined(chunks)) then Some(Joined(chunks)) else None
  {
    var transfer := new TransferAccumulator(m);
    var n, offset := 0, 0;
    while n < |chunks|
      invariant 0 <= n <= |chunks| && offset == |Joined(chunks[..n])|
      invariant transfer.Valid() && transfer.chunks == chunks[..n] && transfer.metadata == m && fresh(transfer)
    {
      JoinedPrefix(chunks, n);
      var ok := transfer.Append(m, n, offset, chunks[n]);
      assert ok;
      offset := offset + |chunks[n]|;
      n := n + 1;
    }
    assert chunks[..n] == chunks;
    content := transfer.Finish(p, m);
  }
}
