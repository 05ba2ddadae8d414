/** Incremental framing of a stream: the line loop of src/codexRpcServer.js and the event loop of src/debugClient.js. */
module Framing {
  import opened Chunks

  /** The first position from `i` on at which `s` has `delimiter`; -1 when there is none. */
  function IndexFrom(s: string, delimiter: string, i: nat): (r: int)
    requires i <= |s|
    ensures r == -1 || (i <= r && r + |delimiter| <= |s| && delimiter <= s[r..])
    ensures forall j :: i <= j < |s| && (r == -1 || j < r) ==> !(delimiter <= s[j..])
    decreases |s| - i
  {
    if i == |s| then -1
    else if delimiter <= s[i..] then i
    else IndexFrom(s, delimiter, i + 1)
  }

  /** `s.indexOf(delimiter)`. */
  function IndexOf(s: string, delimiter: string): (r: int)
    ensures r == -1 || (0 <= r && r + |delimiter| <= |s| && delimiter <= s[r..])
  {
    IndexFrom(s, delimiter, 0)
  }

  datatype Framed = Framed(frames: seq<string>, rest: string)

  function Prepend(frame: string, f: Framed): Framed {
    Framed([frame] + f.frames, f.rest)
  }

  /** The whole stream cut at every delimiter, and what is left behind the last. */
  function Frames(s: string, delimiter: string): Framed
    requires delimiter != ""
    decreases |s|
  {
    var i := IndexOf(s, delimiter);
    if i == -1 then Framed([], s) else Prepend(s[..i], Frames(s[i + |delimiter|..], delimiter))
  }

  lemma SameWithin(s: string, more: string, delimiter: string, j: nat)
    requires j + |delimiter| <= |s|
    ensures delimiter <= s[j..] <==> delimiter <= (s + more)[j..]
  {
    assert (s + more)[j..] == s[j..] + more;
  }

  /** A delimiter that is there keeps its place when the stream goes on. */
  lemma IndexStays(s: string, more: string, delimiter: string)
    requires delimiter != "" && IndexOf(s, delimiter) != -1
    ensures IndexOf(s + more, delimiter) == IndexOf(s, delimiter)
  {
    var i := IndexOf(s, delimiter);
    forall j | 0 <= j <= i
      ensures delimiter <= s[j..] <==> delimiter <= (s + more)[j..]
    {
      SameWithin(s, more, delimiter, j);
    }
  }

  lemma FramesFirst(s: string, delimiter: string)
    requires delimiter != ""
    ensures IndexOf(s, delimiter) == -1 ==> Frames(s, delimiter) == Framed([], s)
    ensures IndexOf(s, delimiter) != -1 ==>
      Frames(s, delimiter) ==
        Prepend(s[..IndexOf(s, delimiter)], Frames(s[IndexOf(s, delimiter) + |delimiter|..], delimiter))
  {
    hide IndexOf, Prepend;
  }

  /** Framing what has arrived, and then the rest together with what follows, is framing it all. */
  lemma {:induction false} FramesInTwo(s: string, more: string, delimiter: string)
    requires delimiter != ""
    ensures var first := Frames(s, delimiter); var second := Frames(first.rest + more, delimiter);
      Frames(s + more, delimiter) == Framed(first.frames + second.frames, second.rest)
    decreases |s|
  {
    hide IndexOf, Frames;
    var i := IndexOf(s, delimiter);
    FramesFirst(s, delimiter);
    if i == -1 {
      assert [] + Frames(s + more, delimiter).frames == Frames(s + more, delimiter).frames;
    } else {
      var tail := s[i + |delimiter|..];
      IndexStays(s, more, delimiter);
      FramesInTwo(tail, more, delimiter);
      FramesFirst(s + more, delimiter);
      assert (s + more)[..i] == s[..i] && (s + more)[i + |delimiter|..] == tail + more;
    }
  }

  /** One chunk: the buffer grows, and every complete frame is taken from its front. */
  method Feed(buffer: string, chunk: string, delimiter: string) returns (frames: seq<string>, rest: string)
    requires delimiter != ""
    ensures Framed(frames, rest) == Frames(buffer + chunk, delimiter)
  {
    hide IndexOf, Frames;
    frames, rest := [], buffer + chunk;
    var index := IndexOf(rest, delimiter);
    assert [] + Frames(rest, delimiter).frames == Frames(rest, delimiter).frames;
    while index != -1
      invariant index == IndexOf(rest, delimiter)
      invariant Frames(buffer + chunk, delimiter) ==
        Framed(frames + Frames(rest, delimiter).frames, Frames(rest, delimiter).rest)
      decreases |rest|
    {
      FramesFirst(rest, delimiter);
      OneMoreFrame(frames, rest[..index], Frames(rest[index + |delimiter|..], delimiter).frames);
      frames := frames + [rest[..index]];
      rest := rest[index + |delimiter|..];
      index := IndexOf(rest, delimiter);
    }
    FramesFirst(rest, delimiter);
    assert frames + [] == frames;
  }

  lemma OneMoreFrame(a: seq<string>, frame: string, b: seq<string>)
    ensures a + ([frame] + b) == (a + [frame]) + b
  {}

  /** What the handlers see: the frames that are not ignored, as `deliver` turns them into messages. */
  function Delivered<T>(frames: seq<string>, deliver: string -> seq<T>): seq<T> {
    if frames == [] then [] else Delivered(frames[..|frames| - 1], deliver) + deliver(frames[|frames| - 1])
  }

  lemma {:induction false} DeliveredConcat<T>(a: seq<string>, b: seq<string>, deliver: string -> seq<T>)
    ensures Delivered(a + b, deliver) == Delivered(a, deliver) + Delivered(b, deliver)
    ensures forall frame :: Delivered([frame], deliver) == deliver(frame)
  {
    DeliveredOne(deliver);
    if b == [] {
      assert a + b == a;
    } else {
      assert (a + b)[..|a + b| - 1] == a + b[..|b| - 1];
      DeliveredConcat(a, b[..|b| - 1], deliver);
    }
  }

  lemma DeliveredOne<T>(deliver: string -> seq<T>)
    ensures forall frame :: Delivered([frame], deliver) == deliver(frame)
  {
    forall frame
      ensures Delivered([frame], deliver) == deliver(frame)
    {
      assert [frame][..0] == [];
    }
  }

  /** The reading loop over all chunks. However the stream is cut into chunks, the messages delivered and the text left
      over are those of the whole stream framed at once. */
  method ReadAll<T>(chunks: seq<string>, delimiter: string, deliver: string -> seq<T>) returns (messages: seq<T>,
          rest: string)
    requires delimiter != ""
    ensures var whole := Frames(Joined(chunks), delimiter);
      messages == Delivered(whole.frames, deliver) && rest == whole.rest
  {
    messages, rest := [], "";
    ghost var seen: seq<string> := [];
    NothingFramed(delimiter);
    hide IndexOf;
    for n := 0 to |chunks|
      invariant Frames(Joined(chunks[..n]), delimiter) == Framed(seen, rest) && messages == Delivered(seen, deliver)
    {
      assert chunks[..n + 1][..n] == chunks[..n];
      FramesInTwo(Joined(chunks[..n]), chunks[n], delimiter);
      var frames;
      frames, rest := Feed(rest, chunks[n], delimiter);
      DeliveredConcat(seen, frames, deliver);
      seen := seen + frames;
      messages := messages + Delivered(frames, deliver);
    }
    assert chunks[..|chunks|] == chunks;
  }

  lemma NothingFramed(delimiter: string)
    requires delimiter != ""
    ensures Frames("", delimiter) == Framed([], "")
  {}

  /** Two ways of cutting the same stream. */
  lemma {:induction false} ChunksDoNotMatter(a: seq<string>, b: seq<string>, delimiter: string)
    requires delimiter != ""
    ensures Joined(a) == Joined(b) ==> FedAll(a, delimiter) == FedAll(b, delimiter)
  {
    FedIsFramed(a, delimiter);
    FedIsFramed(b, delimiter);
  }

  /** Chunk after chunk, as the loops do it. */
  function FedAll(chunks: seq<string>, delimiter: string): Framed
    requires delimiter != ""
  {
    if chunks == [] then Framed([], "")
    else
      var before := FedAll(chunks[..|chunks| - 1], delimiter);
      var now := Frames(before.rest + chunks[|chunks| - 1], delimiter);
      Framed(before.frames + now.frames, now.rest)
  }

  lemma {:induction false} FedIsFramed(chunks: seq<string>, delimiter: string)
    requires delimiter != ""
    ensures FedAll(chunks, delimiter) == Frames(Joined(chunks), delimiter)
  {
    if chunks == [] {
      NothingFramed(delimiter);
    } else {
      hide Frames;
      FedIsFramed(chunks[..|chunks| - 1], delimiter);
      FramesInTwo(Joined(chunks[..|chunks| - 1]), chunks[|chunks| - 1], delimiter);
    }
  }
}
