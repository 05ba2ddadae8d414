/** Text that arrives in pieces. */
module Chunks {

  /** `chunks.join('')`. */
  function Joined(chunks: seq<string>): string {
    if chunks == [] then "" else Joined(chunks[..|chunks| - 1]) + chunks[|chunks| - 1]
  }

  lemma {:induction false} JoinedPrefix(chunks: seq<string>, n: nat)
    requires n < |chunks|
    ensures Joined(chunks[..n + 1]) == Joined(chunks[..n]) + chunks[n]
    ensures |Joined(chunks[..n])| + |chunks[n]| <= |Joined(chunks)|
    decreases |chunks| - n
  {
    assert chunks[..n + 1][..n] == chunks[..n];
    if n + 1 == |chunks| {
      assert chunks[..n + 1] == chunks;
    } else {
      JoinedPrefix(chunks, n + 1);
    }
  }
}
