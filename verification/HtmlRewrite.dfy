/** replaceHtmlTextDynamicValues of scripts/e2e/dom-fixture-capture.js: replacements found in the text of an HTML
    document as a whole, and made in the tokens the text is scattered over. */
module HtmlRewrite {
  import opened Wrappers

  // ------------------------------------------------------------ tokens

  /** The length of `<[^>]*>` at the start of `s`, or 0. */
  function TagLength(s: string): (n: nat)
    requires s != "" && s[0] == '<'
    ensures n <= |s|
    ensures n > 0 <==> '>' in s
    ensures n > 0 ==> s[n - 1] == '>' && '>' !in s[..n - 1]
  {
    FirstClose(s, 0)
  }

  function FirstClose(s: string, i: nat): (n: nat)
    requires i <= |s| && '>' !in s[..i]
    ensures n <= |s|
    ensures n > 0 <==> '>' in s
    ensures n > 0 ==> s[n - 1] == '>' && '>' !in s[..n - 1]
    decreases |s| - i
  {
    if i == |s| then assert s[..i] == s; 0
    else if s[i] == '>' then i + 1
    else assert s[..i + 1] == s[..i] + [s[i]]; FirstClose(s, i + 1)
  }

  /** The length of `[^<]+` at the start of `s`. */
  function TextLength(s: string): (n: nat)
    ensures n <= |s| && '<' !in s[..n]
    ensures n == |s| || s[n] == '<'
  {
    if s == "" || s[0] == '<' then 0
    else
      var n := TextLength(s[1..]);
      assert s[..n + 1] == [s[0]] + s[1..][..n];
      n + 1
  }

  /** `html.match(/<[^>]*>|[^<]+/g)`: a `<` that no `>` follows is passed over. */
  function Tokens(html: string): (tokens: seq<string>)
    ensures forall i :: 0 <= i < |tokens| ==> tokens[i] != ""
    decreases |html|
  {
    if html == "" then []
    else if html[0] == '<' then
      if TagLength(html) > 0 then [html[..TagLength(html)]] + Tokens(html[TagLength(html)..]) else Tokens(html[1..])
    else [html[..TextLength(html)]] + Tokens(html[TextLength(html)..])
  }

  predicate IsTag(token: string) {
    token != "" && token[0] == '<'
  }

  /** `tokens.join('')`. */
  function Concat(tokens: seq<string>): string {
    if tokens == [] then "" else tokens[0] + Concat(tokens[1..])
  }

  /** Some `<` is followed by no `>`. */
  ghost predicate HasOpenAngle(html: string) {
    exists i :: 0 <= i < |html| && html[i] == '<' && '>' !in html[i..]
  }

  lemma OpenAngleRest(html: string, n: nat)
    requires n <= |html|
    requires forall i :: 0 <= i < n && html[i] == '<' ==> '>' in html[i..]
    ensures HasOpenAngle(html) <==> HasOpenAngle(html[n..])
  {
    var rest := html[n..];
    if HasOpenAngle(html) {
      var i :| 0 <= i < |html| && html[i] == '<' && '>' !in html[i..];
      assert rest[i - n] == '<' && rest[i - n..] == html[i..];
    }
    if HasOpenAngle(rest) {
      var i :| 0 <= i < |rest| && rest[i] == '<' && '>' !in rest[i..];
      assert html[n + i] == '<' && html[n + i..] == rest[i..];
    }
  }

  lemma CloseAfter(html: string, i: nat, n: nat)
    requires i < n <= |html| && html[n - 1] == '>'
    ensures '>' in html[i..]
  {
    assert html[i..][n - 1 - i] == '>';
  }

  lemma {:induction false} TokensShorter(html: string)
    ensures |Concat(Tokens(html))| <= |html|
    decreases |html|
  {
    if html != "" {
      if html[0] == '<' {
        var n := TagLength(html);
        TokensShorter(html[if n > 0 then n else 1..]);
      } else {
        TokensShorter(html[TextLength(html)..]);
      }
    }
  }

  /** The tokens make up the document again exactly when no `<` is left open. */
  lemma {:induction false} TokensLoseNothing(html: string)
    ensures Concat(Tokens(html)) == html <==> !HasOpenAngle(html)
    decreases |html|
  {
    if html != "" {
      if html[0] == '<' {
        var n := TagLength(html);
        if n > 0 {
          forall i | 0 <= i < n && html[i] == '<'
            ensures '>' in html[i..]
          {
            CloseAfter(html, i, n);
          }
          OpenAngleRest(html, n);
          TokensLoseNothing(html[n..]);
          FirstToken(html, n);
        } else {
          assert html[0..] == html;
          TokensShorter(html[1..]);
        }
      } else {
        var n := TextLength(html);
        assert forall i :: 0 <= i < n ==> html[..n][i] == html[i];
        OpenAngleRest(html, n);
        TokensLoseNothing(html[n..]);
        FirstToken(html, n);
      }
    }
  }

  lemma FirstToken(html: string, n: nat)
    requires n <= |html|
    ensures html[..n] + Concat(Tokens(html[n..])) == html <==> Concat(Tokens(html[n..])) == html[n..]
  {
    hide Tokens;
    assert html == html[..n] + html[n..];
    var rest := Concat(Tokens(html[n..]));
    if html[..n] + rest == html {
      assert (html[..n] + rest)[n..] == rest;
    }
  }

  // ------------------------------------------------------------ the text and its segments

  /** The text of a document: its tokens that are no tags, in order. */
  function TextOf(tokens: seq<string>): string {
    if tokens == [] then ""
    else
      var n := |tokens| - 1;
      TextOf(tokens[..n]) + if IsTag(tokens[n]) then "" else tokens[n]
  }

  /** Where the text of token `i` begins in the whole text. */
  function Offset(tokens: seq<string>, i: nat): nat
    requires i <= |tokens|
  {
    |TextOf(tokens[..i])|
  }

  datatype Segment = Segment(tokenIndex: nat, start: nat, end: nat)

  lemma TextOfNext(tokens: seq<string>, i: nat)
    requires i < |tokens|
    ensures TextOf(tokens[..i + 1]) == TextOf(tokens[..i]) + if IsTag(tokens[i]) then "" else tokens[i]
    ensures Offset(tokens, i + 1) == Offset(tokens, i) + if IsTag(tokens[i]) then 0 else |tokens[i]|
  {
    assert tokens[..i + 1][..i] == tokens[..i];
  }

  /** The segments tile the text of the first `upto` tokens, token by token. */
  ghost predicate Tiles(tokens: seq<string>, upto: nat, segments: seq<Segment>)
    requires upto <= |tokens|
  {
    && EachFits(tokens, upto, segments) && InOrder(segments)
    && EndOf(segments) == Offset(tokens, upto) && Covers(tokens, upto, segments)
  }

  ghost predicate SegmentFits(tokens: seq<string>, segment: Segment) {
    && segment.tokenIndex < |tokens| && !IsTag(tokens[segment.tokenIndex])
    && segment.start == Offset(tokens, segment.tokenIndex)
    && segment.end == segment.start + |tokens[segment.tokenIndex]|
    && segment.start < segment.end
  }

  ghost predicate EachFits(tokens: seq<string>, upto: nat, segments: seq<Segment>) {
    forall k :: 0 <= k < |segments| ==> SegmentFits(tokens, segments[k]) && segments[k].tokenIndex < upto
  }

  ghost predicate InOrder(segments: seq<Segment>) {
    && (segments != [] ==> segments[0].start == 0)
    && forall k :: 0 < k < |segments| ==>
      segments[k].start == segments[k - 1].end && segments[k - 1].tokenIndex < segments[k].tokenIndex
  }

  function EndOf(segments: seq<Segment>): nat {
    if segments == [] then 0 else segments[|segments| - 1].end
  }

  ghost predicate HasSegment(segments: seq<Segment>, tokenIndex: nat) {
    exists k :: 0 <= k < |segments| && segments[k].tokenIndex == tokenIndex
  }

  ghost predicate Covers(tokens: seq<string>, upto: nat, segments: seq<Segment>)
    requires upto <= |tokens|
  {
    forall i :: 0 <= i < upto && !IsTag(tokens[i]) ==> HasSegment(segments, i)
  }

  /** The loop that collects the text segments. */
  method CollectSegments(tokens: seq<string>) returns (segments: seq<Segment>, text: string)
    requires forall i :: 0 <= i < |tokens| ==> tokens[i] != ""
    ensures text == TextOf(tokens) && Tiles(tokens, |tokens|, segments)
  {
    segments, text := [], "";
    var tokenIndex := 0;
    hide Tiles, TextOf, Offset;
    NothingTiles(tokens);
    while tokenIndex < |tokens|
      invariant 0 <= tokenIndex <= |tokens|
      invariant text == TextOf(tokens[..tokenIndex]) && Tiles(tokens, tokenIndex, segments)
    {
      var token := tokens[tokenIndex];
      TextOfNext(tokens, tokenIndex);
      OffsetIs(tokens, tokenIndex);
      if IsTag(token) {
        TilesTag(tokens, tokenIndex, segments);
      } else {
        TilesText(tokens, tokenIndex, segments, Segment(tokenIndex, |text|, |text| + |token|));
        segments := segments + [Segment(tokenIndex, |text|, |text| + |token|)];
        text := text + token;
      }
      tokenIndex := tokenIndex + 1;
    }
    assert tokens[..tokenIndex] == tokens;
  }

  lemma OffsetIs(tokens: seq<string>, i: nat)
    requires i <= |tokens|
    ensures Offset(tokens, i) == |TextOf(tokens[..i])|
  {}

  lemma NothingTiles(tokens: seq<string>)
    ensures TextOf(tokens[..0]) == "" && Tiles(tokens, 0, [])
  {
    assert tokens[..0] == [];
  }

  lemma TilesTag(tokens: seq<string>, n: nat, segments: seq<Segment>)
    requires n < |tokens| && IsTag(tokens[n]) && Tiles(tokens, n, segments)
    ensures Tiles(tokens, n + 1, segments)
  {
    hide TextOf, Offset, SegmentFits, HasSegment, EachFits, InOrder, Covers;
    TextOfNext(tokens, n);
    EachFitsLater(tokens, n, segments);
    CoversTag(tokens, n, segments);
  }

  lemma EachFitsLater(tokens: seq<string>, n: nat, segments: seq<Segment>)
    requires EachFits(tokens, n, segments)
    ensures EachFits(tokens, n + 1, segments)
  {
    hide SegmentFits;
  }

  lemma CoversTag(tokens: seq<string>, n: nat, segments: seq<Segment>)
    requires n < |tokens| && IsTag(tokens[n]) && Covers(tokens, n, segments)
    ensures Covers(tokens, n + 1, segments)
  {
    hide HasSegment;
  }

  lemma TilesText(tokens: seq<string>, n: nat, segments: seq<Segment>, segment: Segment)
    requires n < |tokens| && !IsTag(tokens[n]) && tokens[n] != "" && Tiles(tokens, n, segments)
    requires segment == Segment(n, Offset(tokens, n), Offset(tokens, n) + |tokens[n]|)
    ensures Tiles(tokens, n + 1, segments + [segment])
  {
    TextOfNext(tokens, n);
    assert SegmentFits(tokens, segment);
    hide TextOf, Offset, SegmentFits, HasSegment, EachFits, InOrder, Covers;
    EachFitsMore(tokens, n, segments, segment);
    CoversMore(tokens, n, segments, segment);
    InOrderMore(tokens, n, segments, segment);
  }

  lemma EachFitsMore(tokens: seq<string>, n: nat, segments: seq<Segment>, segment: Segment)
    requires EachFits(tokens, n, segments) && SegmentFits(tokens, segment) && segment.tokenIndex == n
    ensures EachFits(tokens, n + 1, segments + [segment])
  {
    hide SegmentFits;
  }

  lemma InOrderMore(tokens: seq<string>, n: nat, segments: seq<Segment>, segment: Segment)
    requires InOrder(segments) && EachFits(tokens, n, segments) && segment.tokenIndex == n
    requires segment.start == EndOf(segments)
    ensures InOrder(segments + [segment])
  {
    hide SegmentFits;
  }

  lemma CoversMore(tokens: seq<string>, n: nat, segments: seq<Segment>, segment: Segment)
    requires n < |tokens| && Covers(tokens, n, segments) && segment.tokenIndex == n
    ensures Covers(tokens, n + 1, segments + [segment])
  {
    var more := segments + [segment];
    assert more[|segments|] == segment;
    forall i | 0 <= i < n + 1 && !IsTag(tokens[i])
      ensures HasSegment(more, i)
    {
      if i < n {
        assert HasSegment(segments, i);
        var k :| 0 <= k < |segments| && segments[k].tokenIndex == i;
        assert more[k].tokenIndex == i;
      }
    }
  }

  // ------------------------------------------------------------ the replacements

  type Replacement = (string, string)

  /** A stable sort by decreasing length of what is replaced. */
  function SortedByLength(replacements: seq<Replacement>): (r: seq<Replacement>) {
    if replacements == [] then []
    else Insert(SortedByLength(replacements[..|replacements| - 1]), replacements[|replacements| - 1])
  }

  /** After every element that is at least as long. */
  function Insert(sorted: seq<Replacement>, x: Replacement): (r: seq<Replacement>) {
    if sorted != [] && |sorted[|sorted| - 1].0| < |x.0| then Insert(sorted[..|sorted| - 1], x) + [sorted[|sorted| - 1]]
    else sorted + [x]
  }

  function NonEmptyOnly(replacements: seq<Replacement>): (r: seq<Replacement>)
    ensures forall i :: 0 <= i < |r| ==> r[i].0 != ""
  {
    if replacements == [] then []
    else
      var n := |replacements| - 1;
      NonEmptyOnly(replacements[..n]) + if replacements[n].0 != "" then [replacements[n]] else []
  }

  /** `replacements.filter(([from]) => from).sort(...)`. */
  function Ordered(replacements: seq<Replacement>): seq<Replacement> {
    SortedByLength(NonEmptyOnly(replacements))
  }

  /** `ordered.find(([from]) => text.startsWith(from))`. */
  function Find(ordered: seq<Replacement>, s: string): (r: Option<Replacement>)
    ensures r.Some? ==> r.value in ordered && r.value.0 <= s
    ensures r.None? ==> forall x :: x in ordered ==> !(x.0 <= s)
  {
    if ordered == [] then None
    else if ordered[0].0 <= s then Some(ordered[0])
    else Find(ordered[1..], s)
  }

  /** The reference choice: of the listed replacements that match at the start of `s`, the longest, and the first of
      those. */
  function Longest(replacements: seq<Replacement>, s: string): Option<Replacement> {
    if replacements == [] then None
    else
      var n := |replacements| - 1;
      var x := replacements[n];
      var best := Longest(replacements[..n], s);
      if x.0 == "" || !(x.0 <= s) then best
      else if best.Some? && |x.0| <= |best.value.0| then best
      else Some(x)
  }

  lemma {:induction false} FindConcat(a: seq<Replacement>, b: seq<Replacement>, s: string)
    ensures Find(a + b, s) == if Find(a, s).Some? then Find(a, s) else Find(b, s)
  {
    if a == [] {
      assert a + b == b;
    } else {
      assert (a + b)[0] == a[0] && (a + b)[1..] == a[1..] + b;
      FindConcat(a[1..], b, s);
    }
  }

  ghost predicate Decreasing(sorted: seq<Replacement>) {
    forall i, j :: 0 <= i < j < |sorted| ==> |sorted[i].0| >= |sorted[j].0|
  }

  lemma {:induction false} InsertDecreasing(sorted: seq<Replacement>, x: Replacement)
    requires Decreasing(sorted)
    ensures Decreasing(Insert(sorted, x)) && forall y :: y in Insert(sorted, x) <==> y in sorted || y == x
    decreases |sorted|
  {
    var n := |sorted| - 1;
    if sorted != [] && |sorted[n].0| < |x.0| {
      InsertDecreasing(sorted[..n], x);
      assert sorted == sorted[..n] + [sorted[n]];
      forall z | z in Insert(sorted[..n], x)
        ensures |z.0| >= |sorted[n].0|
      {
        if z != x {
          var k :| 0 <= k < n && sorted[..n][k] == z;
        }
      }
    }
  }

  lemma {:induction false} InsertFinds(sorted: seq<Replacement>, x: Replacement, s: string)
    requires Decreasing(sorted)
    ensures Find(Insert(sorted, x), s) ==
      if x.0 <= s && (Find(sorted, s).None? || |Find(sorted, s).value.0| < |x.0|) then Some(x) else Find(sorted, s)
    decreases |sorted|
  {
    var n := |sorted| - 1;
    if sorted != [] && |sorted[n].0| < |x.0| {
      assert sorted == sorted[..n] + [sorted[n]];
      InsertFinds(sorted[..n], x, s);
      FindConcat(sorted[..n], [sorted[n]], s);
      FindConcat(Insert(sorted[..n], x), [sorted[n]], s);
    } else {
      FindConcat(sorted, [x], s);
    }
  }

  lemma {:induction false} SortedIsDecreasing(replacements: seq<Replacement>)
    ensures Decreasing(SortedByLength(replacements))
  {
    if replacements != [] {
      SortedIsDecreasing(replacements[..|replacements| - 1]);
      InsertDecreasing(SortedByLength(replacements[..|replacements| - 1]), replacements[|replacements| - 1]);
    }
  }

  /** What the sorted list finds first is the longest match, and the first listed among equally long ones. */
  lemma {:induction false} FindIsLongest(replacements: seq<Replacement>, s: string)
    ensures Find(Ordered(replacements), s) == Longest(replacements, s)
  {
    if replacements != [] {
      var n := |replacements| - 1;
      FindIsLongest(replacements[..n], s);
      var kept := NonEmptyOnly(replacements[..n]);
      if replacements[n].0 != "" {
        assert (kept + [replacements[n]])[..|kept|] == kept;
        SortedIsDecreasing(kept);
        InsertFinds(SortedByLength(kept), replacements[n], s);
      } else {
        assert kept + [] == kept;
      }
    }
  }

  /** The reference: plain leftmost-longest replacement on a string, without overlaps. */
  function Replace(replacements: seq<Replacement>, s: string): string
    decreases |s|
  {
    if s == "" then ""
    else
      match Longest(replacements, s)
      case Some((from, to)) => if 0 < |from| <= |s| then to + Replace(replacements, s[|from|..]) else s
      case None => [s[0]] + Replace(replacements, s[1..])
  }

  lemma {:induction false} LongestMatches(replacements: seq<Replacement>, s: string)
    ensures Longest(replacements, s).Some? ==>
      Longest(replacements, s).value in replacements && Longest(replacements, s).value.0 != ""
        && Longest(replacements, s).value.0 <= s
    ensures forall x :: x in replacements && x.0 != "" && x.0 <= s ==>
      Longest(replacements, s).Some? && |x.0| <= |Longest(replacements, s).value.0|
  {
    if replacements != [] {
      var n := |replacements| - 1;
      LongestMatches(replacements[..n], s);
      assert replacements == replacements[..n] + [replacements[n]];
    }
  }

  // ------------------------------------------------------------ edits

  datatype Edit = Edit(start: nat, end: nat, value: string)

  /** The edits from position `index` of the text on. */
  function EditsFrom(replacements: seq<Replacement>, text: string, index: nat): seq<Edit>
    requires index <= |text|
    decreases |text| - index
  {
    if index == |text| then []
    else
      match Longest(replacements, text[index..])
      case None => EditsFrom(replacements, text, index + 1)
      case Some((from, to)) =>
        if 0 < |from| <= |text| - index then
          [Edit(index, index + |from|, to)] + EditsFrom(replacements, text, index + |from|) else []
  }

  /** The edits lie one after the other between `lo` and `hi`. */
  ghost predicate Apart(edits: seq<Edit>, lo: nat, hi: nat) {
    edits == [] || (lo <= edits[0].start < edits[0].end <= hi && Apart(edits[1..], edits[0].end, hi))
  }

  lemma {:induction false} EditsFromApart(replacements: seq<Replacement>, text: string, index: nat)
    requires index <= |text|
    ensures Apart(EditsFrom(replacements, text, index), index, |text|)
    decreases |text| - index
  {
    if index < |text| {
      hide Longest;
      match Longest(replacements, text[index..])
      case None =>
        EditsFromApart(replacements, text, index + 1);
      case Some((from, to)) =>
        if 0 < |from| <= |text| - index {
          EditsFromApart(replacements, text, index + |from|);
          assert EditsFrom(replacements, text, index)[1..] == EditsFrom(replacements, text, index + |from|);
        }
    }
  }

  /** The loop that finds the edits. */
  method FindEdits(replacements: seq<Replacement>, text: string) returns (edits: seq<Edit>)
    ensures edits == EditsFrom(replacements, text, 0)
  {
    var ordered := Ordered(replacements);
    edits := [];
    var index := 0;
    hide Ordered, Longest, Find;
    while index < |text|
      invariant 0 <= index <= |text|
      invariant EditsFrom(replacements, text, 0) == edits + EditsFrom(replacements, text, index)
    {
      FindIsLongest(replacements, text[index..]);
      LongestMatches(replacements, text[index..]);
      var replacement := Find(ordered, text[index..]);
      match replacement {
        case None =>
          index := index + 1;
        case Some((from, to)) =>
          edits := edits + [Edit(index, index + |from|, to)];
          index := index + |from|;
      }
    }
  }

  // ------------------------------------------------------------ what becomes of each character

  /** What stands in the result for character `p` of the text: the replacement, at the first character of an edit,
      and nothing at the others. */
  function Emit(edits: seq<Edit>, text: string, p: nat): string
    requires p < |text|
  {
    if edits == [] then [text[p]]
    else if edits[0].start <= p < edits[0].end then
      if p == edits[0].start then edits[0].value else ""
    else Emit(edits[1..], text, p)
  }

  /** What stands for characters `lo` to `hi`. */
  function Piece(edits: seq<Edit>, text: string, lo: nat, hi: nat): string
    requires lo <= hi <= |text|
    decreases hi - lo
  {
    if lo == hi then "" else Emit(edits, text, lo) + Piece(edits, text, lo + 1, hi)
  }

  lemma {:induction false} PieceSplit(edits: seq<Edit>, text: string, lo: nat, mid: nat, hi: nat)
    requires lo <= mid <= hi <= |text|
    ensures Piece(edits, text, lo, hi) == Piece(edits, text, lo, mid) + Piece(edits, text, mid, hi)
    decreases mid - lo
  {
    hide Emit;
    if lo < mid {
      PieceSplit(edits, text, lo + 1, mid, hi);
    }
  }

  lemma {:induction false} EmitLiteral(edits: seq<Edit>, text: string, lo: nat, hi: nat, p: nat)
    requires Apart(edits, lo, hi) && p < lo && p < |text|
    ensures Emit(edits, text, p) == [text[p]]
  {
    if edits != [] {
      EmitLiteral(edits[1..], text, edits[0].end, hi, p);
    }
  }

  /** Before the first edit the text stands as it was. */
  lemma {:induction false} PieceLiteral(edits: seq<Edit>, text: string, lo: nat, hi: nat, next: nat, end: nat)
    requires lo <= hi <= |text| && hi <= next && Apart(edits, next, end)
    ensures Piece(edits, text, lo, hi) == text[lo..hi]
    decreases hi - lo
  {
    hide Emit;
    if lo < hi {
      EmitLiteral(edits, text, next, end, lo);
      PieceLiteral(edits, text, lo + 1, hi, next, end);
      assert text[lo..hi] == [text[lo]] + text[lo + 1..hi];
    }
  }

  /** One more edit in front changes nothing outside it, */
  lemma {:induction false} PieceOutside(e: Edit, edits: seq<Edit>, text: string, lo: nat, hi: nat)
    requires lo <= hi <= |text| && (hi <= e.start || e.end <= lo)
    ensures Piece([e] + edits, text, lo, hi) == Piece(edits, text, lo, hi)
    decreases hi - lo
  {
    if lo < hi {
      assert ([e] + edits)[1..] == edits;
      PieceOutside(e, edits, text, lo + 1, hi);
    }
  }

  /** leaves nothing of its inner characters, */
  lemma {:induction false} PieceInner(e: Edit, edits: seq<Edit>, text: string, lo: nat, hi: nat)
    requires e.start < lo <= hi <= e.end && hi <= |text|
    ensures Piece([e] + edits, text, lo, hi) == ""
    decreases hi - lo
  {
    if lo < hi {
      PieceInner(e, edits, text, lo + 1, hi);
    }
  }

  /** and puts its value at its start. */
  lemma PieceStart(e: Edit, edits: seq<Edit>, text: string, hi: nat)
    requires e.start < hi <= e.end && hi <= |text|
    ensures Piece([e] + edits, text, e.start, hi) == e.value
  {
    PieceInner(e, edits, text, e.start + 1, hi);
  }

  lemma EditsUnfold(replacements: seq<Replacement>, text: string, index: nat)
    requires index < |text|
    ensures var s := text[index..];
      match Longest(replacements, s)
      case None =>
        EditsFrom(replacements, text, index) == EditsFrom(replacements, text, index + 1)
        && Replace(replacements, s) == [text[index]] + Replace(replacements, text[index + 1..])
      case Some((from, to)) =>
        && 0 < |from| <= |s|
        && EditsFrom(replacements, text, index) ==
          [Edit(index, index + |from|, to)] + EditsFrom(replacements, text, index + |from|)
        && Replace(replacements, s) == to + Replace(replacements, text[index + |from|..])
  {
    LongestMatches(replacements, text[index..]);
    hide Longest;
    assert text[index..][1..] == text[index + 1..];
    match Longest(replacements, text[index..])
    case None =>
    case Some((from, _)) =>
      assert text[index..][|from|..] == text[index + |from|..];
  }

  lemma PieceFirst(edits: seq<Edit>, text: string, lo: nat, hi: nat)
    requires lo < hi <= |text|
    ensures Piece(edits, text, lo, hi) == Emit(edits, text, lo) + Piece(edits, text, lo + 1, hi)
  {
    hide Emit;
  }

  lemma NoPiece(replacements: seq<Replacement>, text: string)
    ensures Piece(EditsFrom(replacements, text, |text|), text, |text|, |text|) == Replace(replacements, text[|text|..])
  {}

  /** The whole text, character by character, is the plain replacement. */
  lemma {:induction false} PieceIsReplace(replacements: seq<Replacement>, text: string, index: nat)
    requires index <= |text|
    ensures Piece(EditsFrom(replacements, text, index), text, index, |text|) == Replace(replacements, text[index..])
    decreases |text| - index
  {
    hide *;
    if index == |text| {
      NoPiece(replacements, text);
    } else {
      EditsUnfold(replacements, text, index);
      match Longest(replacements, text[index..])
      case None =>
        PieceIsReplace(replacements, text, index + 1);
        EditsFromApart(replacements, text, index + 1);
        EmitLiteral(EditsFrom(replacements, text, index + 1), text, index + 1, |text|, index);
        PieceFirst(EditsFrom(replacements, text, index), text, index, |text|);
      case Some((from, to)) =>
        var next := index + |from|;
        var e, rest := Edit(index, next, to), EditsFrom(replacements, text, next);
        PieceIsReplace(replacements, text, next);
        PieceSplit([e] + rest, text, index, next, |text|);
        PieceStart(e, rest, text, next);
        PieceOutside(e, rest, text, next, |text|);
    }
  }

  // ------------------------------------------------------------ the edits made in the tokens

  /** What token `i` becomes: a tag stays, and a text token holds what stands for its own characters. */
  function Cell(tokens: seq<string>, edits: seq<Edit>, text: string, i: nat): string
    requires i < |tokens|
  {
    if IsTag(tokens[i]) || Offset(tokens, i) + |tokens[i]| > |text| then tokens[i]
    else Piece(edits, text, Offset(tokens, i), Offset(tokens, i) + |tokens[i]|)
  }

  /** `s.slice(0, n)` and `s.slice(n)`. */
  function Take(s: string, n: nat): string {
    if n <= |s| then s[..n] else s
  }

  function Drop(s: string, n: nat): string {
    if n <= |s| then s[n..] else ""
  }

  lemma {:induction false} SegmentsOrdered(tokens: seq<string>, upto: nat, segments: seq<Segment>, j: nat, k: nat)
    requires InOrder(segments) && EachFits(tokens, upto, segments) && j < k < |segments|
    ensures segments[j].end <= segments[k].start && segments[j].tokenIndex < segments[k].tokenIndex
    decreases k
  {
    hide Offset;
    if j < k - 1 {
      SegmentsOrdered(tokens, upto, segments, j, k - 1);
    }
  }

  /** `Math.max(0, Math.min(x, high))`. */
  function Clamp(x: int, high: int): nat {
    if x <= 0 || high <= 0 then 0 else if x < high then x else high
  }

  /** locate. */
  method Locate(segments: seq<Segment>, offset: nat, preferEnd: bool) returns (k: nat, local: nat)
    requires segments != [] && InOrder(segments) && forall j :: 0 <= j < |segments| ==>
      segments[j].start < segments[j].end
    ensures k < |segments|
    ensures !preferEnd && offset < EndOf(segments) ==>
      segments[k].start <= offset < segments[k].end && local == offset - segments[k].start
    ensures preferEnd && 0 < offset <= EndOf(segments) ==>
      segments[k].start < offset <= segments[k].end && local == offset - segments[k].start
  {
    k := 0;
    while k < |segments|
      invariant 0 <= k <= |segments|
      invariant k > 0 ==> segments[k - 1].end <= offset && (preferEnd ==> segments[k - 1].end < offset)
    {
      var segment := segments[k];
      if offset < segment.end || (preferEnd && offset == segment.end) {
        local := Clamp(offset - segment.start, segment.end - segment.start);
        return;
      }
      k := k + 1;
    }
    k := |segments| - 1;
    local := segments[k].end - segments[k].start;
  }

  /** An edit within one token. */
  lemma EditWithin(e: Edit, rest: seq<Edit>, text: string, a: nat, b: nat)
    requires a <= e.start < e.end <= b <= |text| && Apart(rest, e.end, |text|)
    ensures var old' := Piece(rest, text, a, b);
      Take(old', e.start - a) + e.value + Drop(old', e.end - a) == Piece([e] + rest, text, a, b)
  {
    hide Piece, Apart;
    PieceSplit(rest, text, a, e.start, b);
    PieceSplit(rest, text, e.start, e.end, b);
    PieceLiteral(rest, text, a, e.start, e.end, |text|);
    PieceLiteral(rest, text, e.start, e.end, e.end, |text|);
    PieceSplit([e] + rest, text, a, e.start, b);
    PieceSplit([e] + rest, text, e.start, e.end, b);
    PieceOutside(e, rest, text, a, e.start);
    PieceOutside(e, rest, text, e.end, b);
    PieceStart(e, rest, text, e.end);
    var old' := Piece(rest, text, a, b);
    assert old' == text[a..e.start] + (text[e.start..e.end] + Piece(rest, text, e.end, b));
    assert Drop(old', e.end - a) == Piece(rest, text, e.end, b);
  }

  /** The token in which an edit begins, when it ends in a later one. */
  lemma EditBegins(e: Edit, rest: seq<Edit>, text: string, a: nat, b: nat)
    requires a <= e.start < b <= e.end <= |text| && Apart(rest, e.end, |text|)
    ensures Take(Piece(rest, text, a, b), e.start - a) + e.value == Piece([e] + rest, text, a, b)
  {
    hide Piece, Apart;
    PieceLiteral(rest, text, a, b, e.end, |text|);
    PieceLiteral(rest, text, a, e.start, e.end, |text|);
    PieceSplit([e] + rest, text, a, e.start, b);
    PieceOutside(e, rest, text, a, e.start);
    PieceStart(e, rest, text, b);
    assert text[a..b][..e.start - a] == text[a..e.start];
  }

  /** The token in which an edit ends, when it began in an earlier one. */
  lemma EditEnds(e: Edit, rest: seq<Edit>, text: string, a: nat, b: nat)
    requires e.start < a < e.end <= b <= |text| && Apart(rest, e.end, |text|)
    ensures Drop(Piece(rest, text, a, b), e.end - a) == Piece([e] + rest, text, a, b)
  {
    hide Piece, Apart;
    PieceSplit(rest, text, a, e.end, b);
    PieceLiteral(rest, text, a, e.end, e.end, |text|);
    PieceSplit([e] + rest, text, a, e.end, b);
    PieceInner(e, rest, text, a, e.end);
    PieceOutside(e, rest, text, e.end, b);
  }

  /** What one edit makes of token `i`, given the segments in which it begins and ends. */
  function Edited(tokens: seq<string>, now: string, e: Edit, start: Segment, end: Segment, i: nat): string
    requires i < |tokens|
  {
    var from, to :=
      if e.start < start.start then 0 else e.start - start.start, if e.end < end.start then 0 else e.end - end.start;
    if i == start.tokenIndex then
      if i == end.tokenIndex then Take(now, from) + e.value + Drop(now, to) else Take(now, from) + e.value
    else if start.tokenIndex < i < end.tokenIndex && !IsTag(tokens[i]) then ""
    else if i == end.tokenIndex then Drop(now, to)
    else now
  }

  ghost predicate Brackets(segments: seq<Segment>, e: Edit, s: nat, t: nat) {
    && s < |segments| && t < |segments|
    && segments[s].start <= e.start < segments[s].end
    && segments[t].start < e.end <= segments[t].end
  }

  /** The segment of an untouched, a swallowed or a bordering token. */
  lemma SegmentPlaces(tokens: seq<string>, segments: seq<Segment>, e: Edit, s: nat, t: nat, k: nat)
    requires Tiles(tokens, |tokens|, segments) && Brackets(segments, e, s, t) && e.start < e.end && k < |segments|
    ensures s <= t
    ensures s < k ==> e.start < segments[k].start && segments[s].tokenIndex < segments[k].tokenIndex
    ensures k < s ==> segments[k].end <= e.start && segments[k].tokenIndex < segments[s].tokenIndex
    ensures k < t ==> segments[k].end < e.end && segments[k].tokenIndex < segments[t].tokenIndex
    ensures t < k ==> e.end <= segments[k].start && segments[t].tokenIndex < segments[k].tokenIndex
  {
    hide SegmentFits, Covers, Offset;
    if s < k {
      SegmentsOrdered(tokens, |tokens|, segments, s, k);
    } else if k < s {
      SegmentsOrdered(tokens, |tokens|, segments, k, s);
    }
    if k < t {
      SegmentsOrdered(tokens, |tokens|, segments, k, t);
    } else if t < k {
      SegmentsOrdered(tokens, |tokens|, segments, t, k);
    }
    if t < s {
      SegmentsOrdered(tokens, |tokens|, segments, t, s);
    }
  }

  lemma TilesMean(tokens: seq<string>, segments: seq<Segment>)
    requires Tiles(tokens, |tokens|, segments)
    ensures EachFits(tokens, |tokens|, segments) && InOrder(segments) && EndOf(segments) == |TextOf(tokens)|
    ensures Covers(tokens, |tokens|, segments)
  {
    assert tokens[..|tokens|] == tokens;
    hide TextOf, Covers, EachFits, InOrder;
  }

  lemma CellText(tokens: seq<string>, edits: seq<Edit>, text: string, i: nat)
    requires i < |tokens| && !IsTag(tokens[i]) && Offset(tokens, i) + |tokens[i]| <= |text|
    ensures Cell(tokens, edits, text, i) == Piece(edits, text, Offset(tokens, i), Offset(tokens, i) + |tokens[i]|)
  {
    hide Offset, Piece;
  }

  lemma CellOfSegment(tokens: seq<string>, segments: seq<Segment>, edits: seq<Edit>, k: nat)
    requires Tiles(tokens, |tokens|, segments) && k < |segments|
    ensures var g := segments[k]; var text := TextOf(tokens);
      && g.tokenIndex < |tokens| && !IsTag(tokens[g.tokenIndex]) && g.start < g.end <= |text|
      && Cell(tokens, edits, text, g.tokenIndex) == Piece(edits, text, g.start, g.end)
  {
    hide *;
    TilesMean(tokens, segments);
    FitsAt(tokens, |tokens|, segments, k);
    SegmentWithin(tokens, segments, k);
    SegmentMeans(tokens, segments[k]);
    CellText(tokens, edits, TextOf(tokens), segments[k].tokenIndex);
  }

  lemma FitsAt(tokens: seq<string>, upto: nat, segments: seq<Segment>, k: nat)
    requires EachFits(tokens, upto, segments) && k < |segments|
    ensures SegmentFits(tokens, segments[k])
  {
    hide SegmentFits;
  }

  lemma SegmentMeans(tokens: seq<string>, segment: Segment)
    requires SegmentFits(tokens, segment)
    ensures segment.tokenIndex < |tokens| && !IsTag(tokens[segment.tokenIndex]) && segment.start < segment.end
    ensures segment.start == Offset(tokens, segment.tokenIndex)
    ensures segment.end == segment.start + |tokens[segment.tokenIndex]|
  {}

  lemma SegmentWithin(tokens: seq<string>, segments: seq<Segment>, k: nat)
    requires Tiles(tokens, |tokens|, segments) && k < |segments|
    ensures segments[k].end <= |TextOf(tokens)|
  {
    hide *;
    TilesMean(tokens, segments);
    var last := |segments| - 1;
    LastEnds(segments);
    if k < last {
      SegmentsOrdered(tokens, |tokens|, segments, k, last);
      FitsAt(tokens, |tokens|, segments, last);
      SegmentMeans(tokens, segments[last]);
    }
  }

  lemma LastEnds(segments: seq<Segment>)
    ensures segments != [] ==> EndOf(segments) == segments[|segments| - 1].end
  {}

  lemma SegmentOfToken(tokens: seq<string>, segments: seq<Segment>, i: nat) returns (k: nat)
    requires Tiles(tokens, |tokens|, segments) && i < |tokens| && !IsTag(tokens[i])
    ensures k < |segments| && segments[k].tokenIndex == i
  {
    hide EachFits, InOrder, Offset;
    assert HasSegment(segments, i);
    k :| 0 <= k < |segments| && segments[k].tokenIndex == i;
  }

  lemma EditedOutside(tokens: seq<string>, now: string, e: Edit, start: Segment, end: Segment, i: nat)
    requires i < |tokens| && (i < start.tokenIndex || end.tokenIndex < i) && start.tokenIndex <= end.tokenIndex
    ensures Edited(tokens, now, e, start, end, i) == now
  {}

  lemma EditedBetween(tokens: seq<string>, now: string, e: Edit, start: Segment, end: Segment, i: nat)
    requires i < |tokens| && start.tokenIndex < i < end.tokenIndex
    ensures Edited(tokens, now, e, start, end, i) == if IsTag(tokens[i]) then now else ""
  {}

  lemma EditedAt(tokens: seq<string>, now: string, e: Edit, start: Segment, end: Segment, i: nat)
    requires i < |tokens| && start.start <= e.start && end.start <= e.end && start.tokenIndex <= end.tokenIndex
    ensures i == start.tokenIndex == end.tokenIndex ==>
      Edited(tokens, now, e, start, end, i) == Take(now, e.start - start.start) + e.value + Drop(now, e.end - end.start)
    ensures i == start.tokenIndex < end.tokenIndex ==>
      Edited(tokens, now, e, start, end, i) == Take(now, e.start - start.start) + e.value
    ensures start.tokenIndex < end.tokenIndex == i ==>
      Edited(tokens, now, e, start, end, i) == Drop(now, e.end - end.start)
  {}

  lemma CellOfTag(tokens: seq<string>, edits: seq<Edit>, text: string, i: nat)
    requires i < |tokens| && IsTag(tokens[i])
    ensures Cell(tokens, edits, text, i) == tokens[i]
  {}

  lemma BracketsMean(segments: seq<Segment>, e: Edit, s: nat, t: nat)
    requires Brackets(segments, e, s, t)
    ensures s < |segments| && t < |segments|
    ensures segments[s].start <= e.start < segments[s].end && segments[t].start < e.end <= segments[t].end
  {}

  /** One edit, token by token. */
  lemma EditedIsCell(tokens: seq<string>, segments: seq<Segment>, e: Edit, rest: seq<Edit>, s: nat, t: nat, i: nat)
    requires Tiles(tokens, |tokens|, segments) && Brackets(segments, e, s, t)
    requires e.start < e.end <= |TextOf(tokens)| && Apart(rest, e.end, |TextOf(tokens)|) && i < |tokens|
    ensures Edited(tokens, Cell(tokens, rest, TextOf(tokens), i), e, segments[s], segments[t], i) ==
      Cell(tokens, [e] + rest, TextOf(tokens), i)
  {
    hide *;
    var text := TextOf(tokens);
    BracketsMean(segments, e, s, t);
    CellOfSegment(tokens, segments, rest, s);
    CellOfSegment(tokens, segments, rest, t);
    SegmentPlaces(tokens, segments, e, s, t, s);
    if IsTag(tokens[i]) {
      CellOfTag(tokens, rest, text, i);
      CellOfTag(tokens, [e] + rest, text, i);
      EditedTag(tokens, tokens[i], e, segments[s], segments[t], i);
    } else {
      var k := SegmentOfToken(tokens, segments, i);
      EditedSegment(tokens, segments, e, rest, s, t, k);
    }
  }

  lemma EditedTag(tokens: seq<string>, now: string, e: Edit, start: Segment, end: Segment, i: nat)
    requires i < |tokens| && IsTag(tokens[i]) && i != start.tokenIndex && i != end.tokenIndex
    ensures Edited(tokens, now, e, start, end, i) == now
  {}

  lemma EditedSegment(tokens: seq<string>, segments: seq<Segment>, e: Edit, rest: seq<Edit>, s: nat, t: nat, k: nat)
    requires Tiles(tokens, |tokens|, segments) && Brackets(segments, e, s, t) && k < |segments|
    requires segments[k].tokenIndex < |tokens|
    requires e.start < e.end <= |TextOf(tokens)| && Apart(rest, e.end, |TextOf(tokens)|)
    ensures var i := segments[k].tokenIndex;
      s < |segments| && t < |segments|
        && Edited(tokens, Cell(tokens, rest, TextOf(tokens), i), e, segments[s], segments[t], i) ==
          Cell(tokens, [e] + rest, TextOf(tokens), i)
  {
    hide *;
    var text, i := TextOf(tokens), segments[k].tokenIndex;
    var now := Cell(tokens, rest, text, i);
    BracketsMean(segments, e, s, t);
    SegmentPlaces(tokens, segments, e, s, t, k);
    SegmentPlaces(tokens, segments, e, s, t, s);
    CellOfSegment(tokens, segments, rest, k);
    CellOfSegment(tokens, segments, [e] + rest, k);
    var a, b := segments[k].start, segments[k].end;
    if k < s || t < k {
      PieceOutside(e, rest, text, a, b);
      EditedOutside(tokens, now, e, segments[s], segments[t], i);
    } else if s < k < t {
      PieceInner(e, rest, text, a, b);
      EditedBetween(tokens, now, e, segments[s], segments[t], i);
    } else {
      EditedAt(tokens, now, e, segments[s], segments[t], i);
      if s == t {
        EditWithin(e, rest, text, a, b);
      } else if k == s {
        EditBegins(e, rest, text, a, b);
      } else {
        EditEnds(e, rest, text, a, b);
      }
    }
  }

  lemma {:induction false} TextAt(tokens: seq<string>, n: nat, i: nat)
    requires i < n <= |tokens| && !IsTag(tokens[i])
    ensures Offset(tokens, i) + |tokens[i]| <= |TextOf(tokens[..n])|
    ensures TextOf(tokens[..n])[Offset(tokens, i)..Offset(tokens, i) + |tokens[i]|] == tokens[i]
    decreases n
  {
    hide *;
    TextOfNext(tokens, n - 1);
    OffsetIs(tokens, i);
    if i < n - 1 {
      TextAt(tokens, n - 1, i);
    }
  }

  lemma UneditedCell(tokens: seq<string>, i: nat)
    requires i < |tokens|
    ensures Cell(tokens, [], TextOf(tokens), i) == tokens[i]
  {
    hide *;
    if IsTag(tokens[i]) {
      CellOfTag(tokens, [], TextOf(tokens), i);
    } else {
      var text := TextOf(tokens);
      assert tokens[..|tokens|] == tokens;
      TextAt(tokens, |tokens|, i);
      CellText(tokens, [], text, i);
      NothingApart(|text|);
      PieceLiteral([], text, Offset(tokens, i), Offset(tokens, i) + |tokens[i]|, |text|, |text|);
    }
  }

  lemma NothingApart(n: nat)
    ensures Apart([], n, n)
  {}

  lemma {:induction false} ApartDrop(edits: seq<Edit>, lo: nat, hi: nat, n: nat)
    requires Apart(edits, lo, hi) && n < |edits|
    ensures lo <= edits[n].start < edits[n].end <= hi && Apart(edits[n + 1..], edits[n].end, hi)
    ensures edits[n..] == [edits[n]] + edits[n + 1..]
    decreases n
  {
    if n > 0 {
      ApartDrop(edits[1..], edits[0].end, hi, n - 1);
      assert edits[1..][n..] == edits[n + 1..];
    }
  }

  lemma SegmentsNonEmpty(tokens: seq<string>, segments: seq<Segment>)
    requires Tiles(tokens, |tokens|, segments)
    ensures forall j :: 0 <= j < |segments| ==> segments[j].start < segments[j].end
    ensures InOrder(segments) && EndOf(segments) == |TextOf(tokens)|
  {
    hide *;
    TilesMean(tokens, segments);
    forall j | 0 <= j < |segments|
      ensures segments[j].start < segments[j].end
    {
      FitsAt(tokens, |tokens|, segments, j);
      SegmentMeans(tokens, segments[j]);
    }
  }

  lemma SegmentToken(tokens: seq<string>, segments: seq<Segment>, k: nat)
    requires Tiles(tokens, |tokens|, segments) && k < |segments|
    ensures segments[k].tokenIndex < |tokens| && !IsTag(tokens[segments[k].tokenIndex])
  {
    hide *;
    TilesMean(tokens, segments);
    FitsAt(tokens, |tokens|, segments, k);
    SegmentMeans(tokens, segments[k]);
  }

  /** Empties the text tokens between the two bordering ones. */
  method ClearBetween(cells: array<string>, ghost tokens: seq<string>, segments: seq<Segment>, low: nat, high: nat)
    requires cells.Length == |tokens| && Tiles(tokens, |tokens|, segments)
    modifies cells
    ensures forall i :: 0 <= i < cells.Length ==>
      cells[i] == if low < i < high && !IsTag(tokens[i]) then "" else old(cells[i])
  {
    hide *;
    ghost var cleared: set<nat> := {};
    var n := 0;
    while n < |segments|
      invariant 0 <= n <= |segments|
      invariant forall k :: 0 <= k < n ==> segments[k].tokenIndex in cleared
      invariant forall i :: i in cleared ==> i < cells.Length && !IsTag(tokens[i])
      invariant forall i :: 0 <= i < cells.Length ==>
        cells[i] == if low < i < high && i in cleared then "" else old(cells[i])
    {
      SegmentToken(tokens, segments, n);
      var tokenIndex := segments[n].tokenIndex;
      if low < tokenIndex < high {
        cells[tokenIndex] := "";
      }
      cleared := cleared + {tokenIndex};
      n := n + 1;
    }
    AllCleared(tokens, segments, cleared);
  }

  lemma AllCleared(tokens: seq<string>, segments: seq<Segment>, cleared: set<nat>)
    requires Tiles(tokens, |tokens|, segments) && forall k :: 0 <= k < |segments| ==> segments[k].tokenIndex in cleared
    ensures forall i :: 0 <= i < |tokens| && !IsTag(tokens[i]) ==> i in cleared
  {
    hide *;
    forall i | 0 <= i < |tokens| && !IsTag(tokens[i])
      ensures i in cleared
    {
      var k := SegmentOfToken(tokens, segments, i);
    }
  }

  /** The writes of one edit. */
  method WriteEdit(cells: array<string>, ghost tokens: seq<string>, segments: seq<Segment>, e: Edit, start: Segment,
          from: nat, end: Segment, to: nat)
    requires cells.Length == |tokens| && Tiles(tokens, |tokens|, segments)
    requires start.tokenIndex <= end.tokenIndex < |tokens| && !IsTag(tokens[start.tokenIndex])
    requires !IsTag(tokens[end.tokenIndex])
    requires e.start == start.start + from && e.end == end.start + to
    modifies cells
    ensures forall i :: 0 <= i < |tokens| ==> cells[i] == Edited(tokens, old(cells[i]), e, start, end, i)
  {
    hide Tiles, Take, Drop, IsTag;
    var startToken, endToken := cells[start.tokenIndex], cells[end.tokenIndex];
    if start.tokenIndex == end.tokenIndex {
      cells[start.tokenIndex] := Take(startToken, from) + e.value + Drop(startToken, to);
    } else {
      cells[start.tokenIndex] := Take(startToken, from) + e.value;
      ClearBetween(cells, tokens, segments, start.tokenIndex, end.tokenIndex);
      cells[end.tokenIndex] := Drop(endToken, to);
    }
  }

  /** One edit made in the tokens. */
  method MakeEdit(cells: array<string>, ghost tokens: seq<string>, segments: seq<Segment>, e: Edit,
          ghost rest: seq<Edit>)
    requires cells.Length == |tokens| && Tiles(tokens, |tokens|, segments)
    requires e.start < e.end <= |TextOf(tokens)| && Apart(rest, e.end, |TextOf(tokens)|)
    requires forall i :: 0 <= i < |tokens| ==> cells[i] == Cell(tokens, rest, TextOf(tokens), i)
    modifies cells
    ensures forall i :: 0 <= i < |tokens| ==> cells[i] == Cell(tokens, [e] + rest, TextOf(tokens), i)
  {
    hide *;
    SegmentsNonEmpty(tokens, segments);
    SegmentsExist(segments, e.end);
    var s, from := Locate(segments, e.start, false);
    var t, to := Locate(segments, e.end, true);
    BracketsAre(segments, e, s, t);
    SegmentPlaces(tokens, segments, e, s, t, s);
    SegmentToken(tokens, segments, s);
    SegmentToken(tokens, segments, t);
    WriteEdit(cells, tokens, segments, e, segments[s], from, segments[t], to);
    forall i | 0 <= i < |tokens|
      ensures cells[i] == Cell(tokens, [e] + rest, TextOf(tokens), i)
    {
      EditedIsCell(tokens, segments, e, rest, s, t, i);
    }
  }

  lemma BracketsAre(segments: seq<Segment>, e: Edit, s: nat, t: nat)
    requires s < |segments| && t < |segments|
    requires segments[s].start <= e.start < segments[s].end && segments[t].start < e.end <= segments[t].end
    ensures Brackets(segments, e, s, t)
  {}

  lemma SegmentsExist(segments: seq<Segment>, n: nat)
    requires 0 < n <= EndOf(segments)
    ensures segments != []
  {}

  /** The tokens after all edits. */
  function Cells(tokens: seq<string>, edits: seq<Edit>): (cells: seq<string>)
    ensures |cells| == |tokens|
    ensures forall i :: 0 <= i < |tokens| ==> cells[i] == Cell(tokens, edits, TextOf(tokens), i)
  {
    seq(|tokens|, i requires 0 <= i < |tokens| => Cell(tokens, edits, TextOf(tokens), i))
  }

  /** The edits made from the last to the first, each by the offsets of the original text. */
  method MakeEdits(cells: array<string>, ghost tokens: seq<string>, segments: seq<Segment>, edits: seq<Edit>)
    requires cells[..] == tokens && Tiles(tokens, |tokens|, segments) && Apart(edits, 0, |TextOf(tokens)|)
    modifies cells
    ensures cells[..] == Cells(tokens, edits)
  {
    hide *;
    var n := |edits|;
    UneditedCells(tokens);
    assert edits[n..] == [];
    while n > 0
      invariant 0 <= n <= |edits|
      invariant forall i :: 0 <= i < |tokens| ==> cells[i] == Cell(tokens, edits[n..], TextOf(tokens), i)
    {
      n := n - 1;
      ApartDrop(edits, 0, |TextOf(tokens)|, n);
      MakeEdit(cells, tokens, segments, edits[n], edits[n + 1..]);
    }
    assert edits[0..] == edits;
  }

  lemma UneditedCells(tokens: seq<string>)
    ensures forall i :: 0 <= i < |tokens| ==> tokens[i] == Cell(tokens, [], TextOf(tokens), i)
  {
    hide *;
    forall i | 0 <= i < |tokens|
      ensures tokens[i] == Cell(tokens, [], TextOf(tokens), i)
    {
      UneditedCell(tokens, i);
    }
  }

  function Rewrite(html: string, replacements: seq<Replacement>): string {
    var tokens := Tokens(html);
    var text := TextOf(tokens);
    if text == "" then html else Concat(Cells(tokens, EditsFrom(replacements, text, 0)))
  }

  /** replaceHtmlTextDynamicValues. */
  method ReplaceHtmlTextDynamicValues(html: string, replacements: seq<Replacement>) returns (r: string)
    ensures r == Rewrite(html, replacements)
  {
    var tokens := Tokens(html);
    hide Tokens, TextOf, Tiles, Cells, Apart, EditsFrom;
    var segments, text := CollectSegments(tokens);
    if text == "" {
      return html;
    }
    var edits := FindEdits(replacements, text);
    EditsFromApart(replacements, text, 0);
    var cells := new string[|tokens|](i requires 0 <= i < |tokens| => tokens[i]);
    assert cells[..] == tokens;
    MakeEdits(cells, tokens, segments, edits);
    r := Concat(cells[..]);
  }

  // ------------------------------------------------------------ what the rewriting does

  /** The parts of `cells` that stand where `tokens` has text. */
  function TextParts(tokens: seq<string>, cells: seq<string>): string
    requires |tokens| == |cells|
  {
    if tokens == [] then ""
    else
      var n := |tokens| - 1;
      TextParts(tokens[..n], cells[..n]) + if IsTag(tokens[n]) then "" else cells[n]
  }

  lemma {:induction false} PartsArePieces(tokens: seq<string>, edits: seq<Edit>, n: nat)
    requires n <= |tokens|
    ensures |TextOf(tokens[..n])| <= |TextOf(tokens)|
    ensures TextParts(tokens[..n], Cells(tokens, edits)[..n]) == Piece(edits, TextOf(tokens), 0, |TextOf(tokens[..n])|)
    decreases n
  {
    hide *;
    var text, cells := TextOf(tokens), Cells(tokens, edits);
    OffsetInside(tokens, n);
    if n == 0 {
      NoParts(tokens, cells, edits);
    } else {
      PartsArePieces(tokens, edits, n - 1);
      TextOfNext(tokens, n - 1);
      OffsetIs(tokens, n - 1);
      PartsNext(tokens, cells, n - 1);
      if !IsTag(tokens[n - 1]) {
        CellText(tokens, edits, text, n - 1);
        PieceSplit(edits, text, 0, Offset(tokens, n - 1), Offset(tokens, n - 1) + |tokens[n - 1]|);
      }
    }
  }

  lemma NoParts(tokens: seq<string>, cells: seq<string>, edits: seq<Edit>)
    requires |tokens| == |cells|
    ensures TextParts(tokens[..0], cells[..0]) == Piece(edits, TextOf(tokens), 0, |TextOf(tokens[..0])|)
  {}

  lemma PartsNext(tokens: seq<string>, cells: seq<string>, n: nat)
    requires |tokens| == |cells| && n < |tokens|
    ensures TextParts(tokens[..n + 1], cells[..n + 1]) ==
      TextParts(tokens[..n], cells[..n]) + if IsTag(tokens[n]) then "" else cells[n]
  {
    assert tokens[..n + 1][..n] == tokens[..n] && cells[..n + 1][..n] == cells[..n];
  }

  lemma {:induction false} OffsetInside(tokens: seq<string>, n: nat)
    requires n <= |tokens|
    ensures |TextOf(tokens[..n])| <= |TextOf(tokens)|
    decreases |tokens| - n
  {
    if n == |tokens| {
      assert tokens[..n] == tokens;
    } else {
      TextOfNext(tokens, n);
      OffsetInside(tokens, n + 1);
    }
  }

  /** The rewriting refines plain replacement: every tag comes out unchanged and in its place, and the text, read
      through all tags, is the leftmost-longest replacement of the original text, even where a match spans several
      tags. */
  lemma RewriteRefinesReplace(html: string, replacements: seq<Replacement>)
    requires TextOf(Tokens(html)) != ""
    ensures var tokens := Tokens(html); var cells := Cells(tokens, EditsFrom(replacements, TextOf(tokens), 0));
      && Rewrite(html, replacements) == Concat(cells) && |cells| == |tokens|
      && (forall i :: 0 <= i < |tokens| && IsTag(tokens[i]) ==> cells[i] == tokens[i])
      && TextParts(tokens, cells) == Replace(replacements, TextOf(tokens))
  {
    var tokens := Tokens(html);
    var text := TextOf(tokens);
    var edits := EditsFrom(replacements, text, 0);
    hide Tokens, TextOf, Cell, EditsFrom, Replace, Piece, TextParts;
    PartsArePieces(tokens, edits, |tokens|);
    assert tokens[..|tokens|] == tokens && Cells(tokens, edits)[..|tokens|] == Cells(tokens, edits);
    PieceIsReplace(replacements, text, 0);
    assert text[0..] == text;
    forall i | 0 <= i < |tokens| && IsTag(tokens[i])
      ensures Cells(tokens, edits)[i] == tokens[i]
    {
      CellOfTag(tokens, edits, text, i);
    }
  }

  // ------------------------------------------------------------ the result, read again

  ghost predicate IsPlain(s: string) {
    '<' !in s
  }

  ghost predicate IsWholeTag(s: string) {
    s != "" && s[0] == '<' && s[|s| - 1] == '>' && '>' !in s[..|s| - 1]
  }

  /** The tags of a document, in order. */
  function Tags(tokens: seq<string>): seq<string> {
    if tokens == [] then [] else (if IsTag(tokens[0]) then [tokens[0]] else []) + Tags(tokens[1..])
  }

  /** Every token is a tag up to its first `>`, or free of `<`. */
  lemma {:induction false} TokensAreTagsOrPlain(html: string)
    ensures forall i :: 0 <= i < |Tokens(html)| ==>
      if IsTag(Tokens(html)[i]) then IsWholeTag(Tokens(html)[i]) else IsPlain(Tokens(html)[i])
    decreases |html|
  {
    if html != "" {
      if html[0] == '<' {
        var n := TagLength(html);
        TokensAreTagsOrPlain(html[if n > 0 then n else 1..]);
        assert n > 0 ==> html[..n][..n - 1] == html[..n - 1];
      } else {
        TokensAreTagsOrPlain(html[TextLength(html)..]);
      }
    }
  }

  lemma TagAhead(tag: string, rest: string)
    requires IsWholeTag(tag)
    ensures Tokens(tag + rest) == [tag] + Tokens(rest)
  {
    var s, n := tag + rest, |tag|;
    var m := TagLength(s);
    assert s[n - 1] == '>' && s[..n - 1] == tag[..n - 1];
    InPrefix(s, n - 1);
    InPrefix(s, m - 1);
    assert s[..n] == tag && s[n..] == rest;
  }

  lemma TextLengthJoin(text: string, rest: string)
    requires IsPlain(text)
    ensures TextLength(text + rest) == |text| + TextLength(rest)
  {
    hide TextLength;
    var k := TextLength(rest);
    var s, n, m := text + rest, TextLength(text + rest), |text| + k;
    assert s[..m] == text + rest[..k];
    assert m < |s| ==> s[m] == rest[k];
    InPrefix(s, n);
    InPrefix(s, m);
  }

  lemma InPrefix(s: string, n: nat)
    requires n <= |s|
    ensures forall i :: 0 <= i < n ==> s[i] in s[..n]
  {
    forall i | 0 <= i < n
      ensures s[i] in s[..n]
    {
      assert s[..n][i] == s[i];
    }
  }

  lemma PlainText(rest: string)
    ensures var k := TextLength(rest);
      && Tags(Tokens(rest)) == Tags(Tokens(rest[k..]))
      && TextOf(Tokens(rest)) == rest[..k] + TextOf(Tokens(rest[k..]))
      && (k > 0 ==> Tokens(rest) == [rest[..k]] + Tokens(rest[k..]))
  {
    var k := TextLength(rest);
    if k == 0 {
      assert rest[0..] == rest;
    } else {
      OneAhead(rest[..k], Tokens(rest[k..]));
    }
  }

  lemma OneAhead(token: string, tokens: seq<string>)
    ensures Tags([token] + tokens) == (if IsTag(token) then [token] else []) + Tags(tokens)
    ensures TextOf([token] + tokens) == (if IsTag(token) then "" else token) + TextOf(tokens)
  {
    TextOfAhead(token, tokens);
    assert ([token] + tokens)[1..] == tokens;
  }

  lemma {:induction false} TextOfAhead(token: string, tokens: seq<string>)
    ensures TextOf([token] + tokens) == (if IsTag(token) then "" else token) + TextOf(tokens)
  {
    hide IsTag;
    var all, n := [token] + tokens, |tokens|;
    if tokens == [] {
      assert all == [token] && all[..0] == [] && TextOf([]) == "";
    } else {
      assert all[..n] == [token] + tokens[..n - 1];
      TextOfAhead(token, tokens[..n - 1]);
    }
  }

  /** Text in front of a document changes no tag of it, also where it merges with the first token. */
  lemma TextAhead(text: string, rest: string)
    requires IsPlain(text)
    ensures Tags(Tokens(text + rest)) == Tags(Tokens(rest))
    ensures TextOf(Tokens(text + rest)) == text + TextOf(Tokens(rest))
  {
    hide *;
    var k := TextLength(rest);
    TextLengthJoin(text, rest);
    PlainText(rest);
    PlainText(text + rest);
    assert (text + rest)[|text| + k..] == rest[k..];
    assert (text + rest)[..|text| + k] == text + rest[..k];
  }

  lemma {:induction false} PartsAhead(token: string, cell: string, tokens: seq<string>, cells: seq<string>)
    requires |tokens| == |cells|
    ensures TextParts([token] + tokens, [cell] + cells) ==
      (if IsTag(token) then "" else cell) + TextParts(tokens, cells)
  {
    var all, parts, n := [token] + tokens, [cell] + cells, |tokens|;
    if n == 0 {
      assert all[..0] == [] && parts[..0] == [];
      assert TextParts(all[..0], parts[..0]) == "" && TextParts(tokens, cells) == "";
    } else {
      assert all[..n] == [token] + tokens[..n - 1] && parts[..n] == [cell] + cells[..n - 1];
      PartsAhead(token, cell, tokens[..n - 1], cells[..n - 1]);
    }
  }

  /** Each tag stays, and what stands for text is free of `<`. */
  ghost predicate TextReplaced(tokens: seq<string>, cells: seq<string>) {
    && |tokens| == |cells|
    && forall i :: 0 <= i < |tokens| ==>
      if IsTag(tokens[i]) then cells[i] == tokens[i] && IsWholeTag(tokens[i]) else IsPlain(cells[i])
  }

  /** Then the pieces, joined and cut into tokens again, have the same tags, and their text is that of the pieces. */
  lemma {:induction false} ConcatReadsBack(tokens: seq<string>, cells: seq<string>)
    requires TextReplaced(tokens, cells)
    ensures Tags(Tokens(Concat(cells))) == Tags(tokens)
    ensures TextOf(Tokens(Concat(cells))) == TextParts(tokens, cells)
  {
    hide IsTag, IsWholeTag, IsPlain;
    if tokens == [] {
      assert Tokens(Concat(cells)) == [];
    } else {
      var token, cell, rest := tokens[0], cells[0], Concat(cells[1..]);
      hide Tokens, TextOf, TextParts;
      ConcatReadsBack(tokens[1..], cells[1..]);
      assert tokens == [token] + tokens[1..] && cells == [cell] + cells[1..];
      OneAhead(token, tokens[1..]);
      PartsAhead(token, cell, tokens[1..], cells[1..]);
      if IsTag(token) {
        TagAhead(token, rest);
        OneAhead(token, Tokens(rest));
      } else {
        TextAhead(cell, rest);
      }
    }
  }

  ghost predicate PlainValues(replacements: seq<Replacement>) {
    forall i :: 0 <= i < |replacements| ==> IsPlain(replacements[i].1)
  }

  ghost predicate PlainEdits(edits: seq<Edit>) {
    forall i :: 0 <= i < |edits| ==> IsPlain(edits[i].value)
  }

  lemma {:induction false} EditsArePlain(replacements: seq<Replacement>, text: string, index: nat)
    requires index <= |text| && PlainValues(replacements)
    ensures PlainEdits(EditsFrom(replacements, text, index))
    decreases |text| - index
  {
    hide IsPlain;
    if index < |text| {
      LongestMatches(replacements, text[index..]);
      hide Longest;
      match Longest(replacements, text[index..])
      case None =>
        EditsArePlain(replacements, text, index + 1);
      case Some((from, to)) =>
        assert 0 < |from| <= |text| - index;
        EditsArePlain(replacements, text, index + |from|);
        assert IsPlain(to);
    }
  }

  lemma {:induction false} EmitIsPlain(edits: seq<Edit>, text: string, p: nat)
    requires p < |text| && IsPlain(text) && PlainEdits(edits)
    ensures IsPlain(Emit(edits, text, p))
  {
    if edits != [] {
      EmitIsPlain(edits[1..], text, p);
      assert IsPlain(edits[0].value);
    }
  }

  lemma {:induction false} PieceIsPlain(edits: seq<Edit>, text: string, lo: nat, hi: nat)
    requires lo <= hi <= |text| && IsPlain(text) && PlainEdits(edits)
    ensures IsPlain(Piece(edits, text, lo, hi))
    decreases hi - lo
  {
    if lo < hi {
      hide Emit;
      EmitIsPlain(edits, text, lo);
      PieceIsPlain(edits, text, lo + 1, hi);
    }
  }

  lemma {:induction false} TextIsPlain(tokens: seq<string>)
    requires forall i :: 0 <= i < |tokens| && !IsTag(tokens[i]) ==> IsPlain(tokens[i])
    ensures IsPlain(TextOf(tokens))
  {
    if tokens != [] {
      TextIsPlain(tokens[..|tokens| - 1]);
    }
  }

  lemma CellsReplaceText(html: string, replacements: seq<Replacement>)
    requires PlainValues(replacements)
    ensures var tokens := Tokens(html); TextReplaced(tokens, Cells(tokens, EditsFrom(replacements, TextOf(tokens), 0)))
  {
    hide *;
    var tokens := Tokens(html);
    var text := TextOf(tokens);
    var edits := EditsFrom(replacements, text, 0);
    TokensAreTagsOrPlain(html);
    TextIsPlain(tokens);
    EditsArePlain(replacements, text, 0);
    forall i | 0 <= i < |tokens|
      ensures if IsTag(tokens[i]) then Cells(tokens, edits)[i] == tokens[i] && IsWholeTag(tokens[i])
        else IsPlain(Cells(tokens, edits)[i])
    {
      if IsTag(tokens[i]) {
        CellOfTag(tokens, edits, text, i);
      } else {
        assert tokens[..|tokens|] == tokens;
        TextAt(tokens, |tokens|, i);
        CellText(tokens, edits, text, i);
        PieceIsPlain(edits, text, Offset(tokens, i), Offset(tokens, i) + |tokens[i]|);
      }
    }
    TextReplacedIs(tokens, Cells(tokens, edits));
  }

  lemma TextReplacedIs(tokens: seq<string>, cells: seq<string>)
    requires |tokens| == |cells|
    requires forall i :: 0 <= i < |tokens| ==>
      if IsTag(tokens[i]) then cells[i] == tokens[i] && IsWholeTag(tokens[i]) else IsPlain(cells[i])
    ensures TextReplaced(tokens, cells)
  {}

  /** Said of the result itself: as long as no replacement brings in a `<`, the document that comes out has the tags of
      the one that went in, and its text is the plain replacement of the other's. */
  lemma RewriteReadsBack(html: string, replacements: seq<Replacement>)
    requires PlainValues(replacements)
    ensures var before, after := Tokens(html), Tokens(Rewrite(html, replacements));
      Tags(after) == Tags(before) && TextOf(after) == Replace(replacements, TextOf(before))
  {
    var tokens := Tokens(html);
    hide Tokens, TextOf, Cells, TextParts, TextReplaced, PlainValues, EditsFrom;
    if TextOf(tokens) != "" {
      RewriteRefinesReplace(html, replacements);
      CellsReplaceText(html, replacements);
      ConcatReadsBack(tokens, Cells(tokens, EditsFrom(replacements, TextOf(tokens), 0)));
    }
  }

  lemma {:induction false} NoReplacementsNoEdits(text: string, index: nat)
    requires index <= |text|
    ensures EditsFrom([], text, index) == []
    decreases |text| - index
  {
    if index < |text| {
      NoReplacementsNoEdits(text, index + 1);
    }
  }

  /** Without replacements the document comes out as it was, unless it has text and leaves a `<` open: that one is
      lost. */
  lemma RewriteNothing(html: string)
    ensures Rewrite(html, []) == html <==> TextOf(Tokens(html)) == "" || !HasOpenAngle(html)
  {
    var tokens := Tokens(html);
    NoReplacementsNoEdits(TextOf(tokens), 0);
    UneditedCells(tokens);
    hide Cell, TextOf, Tokens, EditsFrom;
    assert Cells(tokens, []) == tokens;
    TokensLoseNothing(html);
  }
}
