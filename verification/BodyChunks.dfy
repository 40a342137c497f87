/** internal/pindoc/embed/chunk.go: splitting a markdown body on its H2/H3 headings.
    Positions count code points. */
module BodyChunks {
  import opened Wrappers
  import opened Strings
  import Acceptance

  datatype Chunk = Chunk(index: int, heading: string, text: string, start: int, end: int)

  datatype Heading = Heading(start: nat, end: nat)

  /** UTF-8 length, which is what len(body) compares with the threshold. */
  function ByteLen(s: string): nat {
    if s == "" then 0
    else
      var c := s[|s| - 1];
      ByteLen(s[..|s| - 1])
        + (if c < '\U{0080}' then 1 else if c < '\U{0800}' then 2 else if c < '\U{10000}' then 3 else 4)
  }

  function TrimNewlines(body: string): (r: string)
    ensures r <= body
    ensures r != "" ==> r[|r| - 1] != '\n'
    ensures forall p :: |r| <= p < |body| ==> body[p] == '\n'
  {
    if body != "" && body[|body| - 1] == '\n' then TrimNewlines(body[..|body| - 1]) else body
  }

  // ----- `(?m)^#{2,3}\s+.+$` ------------------------------------------------------

  predicate LineStart(body: string, p: nat)
    requires p <= |body|
  {
    p == 0 || body[p - 1] == '\n'
  }

  /** The first position at or after p that is not \s. */
  function SpaceEnd(body: string, p: nat): (q: nat)
    requires p <= |body|
    ensures p <= q <= |body| && (q < |body| ==> !Acceptance.ReSpace(body[q]))
    ensures forall i :: p <= i < q ==> Acceptance.ReSpace(body[i])
    decreases |body| - p
  {
    if p < |body| && Acceptance.ReSpace(body[p]) then SpaceEnd(body, p + 1) else p
  }

  function LineEnd(body: string, p: nat): (q: nat)
    requires p <= |body|
    ensures p <= q <= |body|
    ensures p < |body| && body[p] != '\n' ==> p < q
    ensures (forall i :: p <= i < q ==> body[i] != '\n') && (q < |body| ==> body[q] == '\n')
    decreases |body| - p
  {
    if p < |body| && body[p] != '\n' then LineEnd(body, p + 1) else p
  }

  /** The last position in from..to that is not a newline, which `.+` starts at when \s+ has to give back. */
  function GiveBack(body: string, low: nat, high: nat): (r: Option<nat>)
    requires high <= |body|
    ensures r.Some? ==> low <= r.value < high && body[r.value] != '\n'
    ensures forall i :: (if r.Some? then r.value < i else low <= i) && i < high ==> body[i] == '\n'
    decreases high
  {
    if high <= low then None
    else if body[high - 1] != '\n' then Some(high - 1)
    else GiveBack(body, low, high - 1)
  }

  predicate Hashes(body: string, p: nat, n: nat) {
    p + n < |body| && (forall i :: p <= i < p + n ==> body[i] == '#') && Acceptance.ReSpace(body[p + n])
  }

  /** The end of the match that starts at p, if there is one. */
  function HeadingAt(body: string, p: nat): (end: Option<nat>)
    ensures end.Some? ==> p < end.value <= |body|
  {
    if p >= |body| || !LineStart(body, p) || !(Hashes(body, p, 3) || Hashes(body, p, 2)) then None
    else
      var n := if Hashes(body, p, 3) then 3 else 2;
      var q := SpaceEnd(body, p + n);
      if q < |body| then Some(LineEnd(body, q))
      else
        match GiveBack(body, p + n + 1, |body|)
        case None => None
        case Some(r) => Some(LineEnd(body, r))
  }

  /** FindAllStringIndex from position p. */
  function FindAll(body: string, p: nat): (r: seq<Heading>)
    requires p <= |body|
    ensures forall i :: 0 <= i < |r| ==> p <= r[i].start < r[i].end <= |body|
    ensures forall i, j :: 0 <= i < j < |r| ==> r[i].end <= r[j].start
    decreases |body| - p
  {
    if p == |body| then []
    else
      match HeadingAt(body, p)
      case Some(end) => [Heading(p, end)] + FindAll(body, end)
      case None => FindAll(body, p + 1)
  }

  /** The regular expression read as a concatenation: n hashes, white space up to mid, and the
      rest of mid's line. */
  ghost predicate Reads(body: string, start: nat, n: nat, mid: nat, end: nat) {
    && 2 <= n <= 3 && start + n < mid < end <= |body| && LineStart(body, start)
    && (forall i :: start <= i < start + n ==> body[i] == '#')
    && (forall i :: start + n <= i < mid ==> Acceptance.ReSpace(body[i]))
    && (forall i :: mid <= i < end ==> body[i] != '\n') && (end < |body| ==> body[end] == '\n')
  }

  /** The reading the engine prefers: as much white space as leaves something to read. */
  ghost predicate Prefers(body: string, start: nat, n: nat, mid: nat, end: nat) {
    && Reads(body, start, n, mid, end)
    && forall n': nat, mid': nat, end': nat :: Reads(body, start, n', mid', end') ==> mid' <= mid
  }

  lemma HashesAgree(body: string, start: nat, n: nat, mid: nat, end: nat)
    requires Reads(body, start, n, mid, end)
    ensures Hashes(body, start, n) && (Hashes(body, start, 3) <==> n == 3)
  {
    assert Acceptance.ReSpace(body[start + n]);
    assert body[start + 2] == '#' <==> n == 3;
  }

  lemma HeadingIsReading(body: string, start: nat) returns (n: nat, mid: nat)
    requires HeadingAt(body, start).Some?
    ensures Prefers(body, start, n, mid, HeadingAt(body, start).value)
  {
    n := if Hashes(body, start, 3) then 3 else 2;
    var q := SpaceEnd(body, start + n);
    mid := if q < |body| then q else GiveBack(body, start + n + 1, |body|).value;
    forall n': nat, mid': nat, end': nat | Reads(body, start, n', mid', end') ensures mid' <= mid {
      HashesAgree(body, start, n', mid', end');
      assert n' == n && body[mid'] != '\n';
    }
  }

  lemma ReadingIsHeading(body: string, start: nat, n: nat, mid: nat, end: nat)
    requires Reads(body, start, n, mid, end)
    ensures HeadingAt(body, start).Some?
  {
    HashesAgree(body, start, n, mid, end);
    var q := SpaceEnd(body, start + n);
    if q == |body| {
      assert body[mid] != '\n';
    }
  }

  /** HeadingAt is the expression's preferred match at a position, when it has any there. */
  lemma HeadingMatches(body: string, start: nat, end: nat)
    ensures HeadingAt(body, start) == Some(end) <==> exists n: nat, mid: nat :: Prefers(body, start, n, mid, end)
  {
    if HeadingAt(body, start).Some? {
      var n, mid := HeadingIsReading(body, start);
      if n': nat, mid': nat :| Prefers(body, start, n', mid', end) {
        assert mid' == mid;
        EndsLine(body, start, n, mid, HeadingAt(body, start).value);
        EndsLine(body, start, n', mid, end);
      }
    } else if n: nat, mid: nat :| Prefers(body, start, n, mid, end) {
      ReadingIsHeading(body, start, n, mid, end);
    }
  }

  lemma EndsLine(body: string, start: nat, n: nat, mid: nat, end: nat)
    requires Reads(body, start, n, mid, end)
    ensures end == LineEnd(body, mid)
  {
  }

  ghost predicate Found(found: seq<Heading>, s: nat) {
    exists k :: 0 <= k < |found| && found[k].start <= s < found[k].end
  }

  lemma FoundLater(first: Heading, rest: seq<Heading>, s: nat)
    requires Found(rest, s) || first.start <= s < first.end
    ensures Found([first] + rest, s)
  {
    var found := [first] + rest;
    if k :| 0 <= k < |rest| && rest[k].start <= s < rest[k].end {
      assert found[k + 1] == rest[k];
    } else {
      assert found[0] == first;
    }
  }

  /** FindAll is leftmost and without overlap: each heading found is a match, and every
      position where the expression matches lies in one of them. */
  lemma {:induction false} FindAllMeans(body: string, p: nat, s: nat)
    requires p <= |body|
    ensures forall k :: 0 <= k < |FindAll(body, p)| ==>
              HeadingAt(body, FindAll(body, p)[k].start) == Some(FindAll(body, p)[k].end)
    ensures p <= s < |body| && HeadingAt(body, s).Some? ==> Found(FindAll(body, p), s)
    decreases |body| - p
  {
    if p < |body| {
      match HeadingAt(body, p)
      case None => FindAllMeans(body, p + 1, s);
      case Some(end) =>
        FindAllMeans(body, end, s);
        if p <= s < |body| && HeadingAt(body, s).Some? {
          FoundLater(Heading(p, end), FindAll(body, end), s);
        }
    }
  }

  // ----- the chunks ---------------------------------------------------------------

  function PrefixTitle(title: string, body: string): string {
    if TrimSpace(title) == "" then body else TrimSpace(title) + "\n\n" + body
  }

  function TrimHashes(s: string): string {
    if s != "" && (s[0] == '#' || s[0] == ' ' || s[0] == '\t') then TrimHashes(s[1..]) else s
  }

  function SectionEnd(body: string, locs: seq<Heading>, i: nat): int
    requires i < |locs|
  {
    if i + 1 < |locs| then locs[i + 1].start else |body|
  }

  ghost predicate Located(body: string, locs: seq<Heading>) {
    && (forall i :: 0 <= i < |locs| ==> locs[i].start < locs[i].end <= |body|)
    && (forall i, j :: 0 <= i < j < |locs| ==> locs[i].end <= locs[j].start)
  }

  function Section(title: string, body: string, locs: seq<Heading>, i: nat, index: int): Chunk
    requires Located(body, locs) && i < |locs|
  {
    Chunk(index, TrimHashes(TrimSpace(body[locs[i].start..locs[i].end])),
          PrefixTitle(title, TrimSpace(body[locs[i].start..SectionEnd(body, locs, i)])),
          locs[i].start, SectionEnd(body, locs, i))
  }

  function Preamble(title: string, body: string, locs: seq<Heading>): (r: seq<Chunk>)
    requires Located(body, locs) && locs != []
    ensures |r| <= 1
  {
    var pre := TrimSpace(body[..locs[0].start]);
    if locs[0].start > 0 && pre != "" then [Chunk(0, "", PrefixTitle(title, pre), 0, locs[0].start)] else []
  }

  /** One chunk per heading, numbered from first. */
  function Sections(title: string, body: string, locs: seq<Heading>, first: int): (r: seq<Chunk>)
    requires Located(body, locs)
    ensures |r| == |locs| && forall i :: 0 <= i < |locs| ==> r[i] == Section(title, body, locs, i, first + i)
  {
    seq(|locs|, i requires 0 <= i < |locs| => Section(title, body, locs, i, first + i))
  }

  function SplitAt(title: string, body: string, locs: seq<Heading>): (r: seq<Chunk>)
    requires Located(body, locs) && locs != []
    ensures |r| == |Preamble(title, body, locs)| + |locs|
  {
    var pre := Preamble(title, body, locs);
    pre + Sections(title, body, locs, |pre|)
  }

  function ChunksOf(title: string, rawBody: string, minCharsForSplit: int): seq<Chunk> {
    var body := TrimNewlines(rawBody);
    var min := if minCharsForSplit <= 0 then 600 else minCharsForSplit;
    if body == "" then []
    else if ByteLen(body) < min || FindAll(body, 0) == [] then [Chunk(0, "", PrefixTitle(title, body), 0, |body|)]
    else SplitAt(title, body, FindAll(body, 0))
  }

  /** ChunkBody. */
  method ChunkBody(title: string, rawBody: string, minCharsForSplit: int) returns (out: seq<Chunk>)
    ensures out == ChunksOf(title, rawBody, minCharsForSplit)
  {
    var body := TrimNewlines(rawBody);
    var min := minCharsForSplit;
    if min <= 0 {
      min := 600;
    }
    if |body| == 0 {
      return [];
    }
    if ByteLen(body) < min {
      return [Chunk(0, "", PrefixTitle(title, body), 0, |body|)];
    }
    var locs := FindAll(body, 0);
    if |locs| == 0 {
      return [Chunk(0, "", PrefixTitle(title, body), 0, |body|)];
    }
    out := SplitSections(title, body, locs);
  }

  lemma SectionAt(title: string, body: string, locs: seq<Heading>, i: nat, k: nat)
    requires Located(body, locs) && i < |locs| && k == |Preamble(title, body, locs)| + i
    ensures SplitAt(title, body, locs)[k] == Section(title, body, locs, i, k)
  {
  }

  lemma OneMore(all: seq<Chunk>, k: nat)
    requires k < |all|
    ensures all[..k] + [all[k]] == all[..k + 1]
  {
  }

  /** The heading loop of ChunkBody, with its running index. */
  method SplitSections(title: string, body: string, locs: seq<Heading>) returns (out: seq<Chunk>)
    requires Located(body, locs) && locs != []
    ensures out == SplitAt(title, body, locs)
  {
    ghost var all := SplitAt(title, body, locs);
    out := [];
    var idx := 0;
    var first := locs[0].start;
    if first > 0 {
      var pre := TrimSpace(body[..first]);
      if pre != "" {
        out := out + [Chunk(idx, "", PrefixTitle(title, pre), 0, first)];
        idx := idx + 1;
      }
    }
    assert out == Preamble(title, body, locs) && out == all[..|out|];
    for i := 0 to |locs|
      invariant idx == |Preamble(title, body, locs)| + i <= |all|
      invariant out == all[..idx]
    {
      SectionAt(title, body, locs, i, idx);
      OneMore(all, idx);
      out := out + [Section(title, body, locs, i, idx)];
      idx := idx + 1;
    }
  }

  /** Numbered from zero, each starting where the last one ended, the final one ending
      the body, and nothing but white space before the first. */
  ghost predicate Tiles(body: string, chunks: seq<Chunk>) {
    && (forall k :: 0 <= k < |chunks| ==> chunks[k].index == k && 0 <= chunks[k].start < chunks[k].end <= |body|)
    && (forall k :: 0 <= k < |chunks| - 1 ==> chunks[k].end == chunks[k + 1].start)
    && (chunks != [] ==> chunks[|chunks| - 1].end == |body| && Blank(body[..chunks[0].start]))
  }

  /** One chunk of the split, by its place. */
  lemma SplitChunk(title: string, body: string, locs: seq<Heading>, k: nat)
    requires Located(body, locs) && locs != [] && k < |SplitAt(title, body, locs)|
    ensures var c, pre := SplitAt(title, body, locs)[k], |Preamble(title, body, locs)|;
            && c.index == k && 0 <= c.start < c.end <= |body|
            && (k >= pre ==> c.start == locs[k - pre].start && c.end == SectionEnd(body, locs, k - pre))
            && (k < pre ==> k == 0 && pre == 1 && c.start == 0 && c.end == locs[0].start)
  {
    var pre := Preamble(title, body, locs);
    if k < |pre| {
      assert SplitAt(title, body, locs)[k] == pre[0];
    }
  }

  lemma SplitTiles(title: string, body: string, locs: seq<Heading>)
    requires Located(body, locs) && locs != []
    ensures Tiles(body, SplitAt(title, body, locs))
  {
    var chunks := SplitAt(title, body, locs);
    forall k | 0 <= k < |chunks| ensures chunks[k].index == k && 0 <= chunks[k].start < chunks[k].end <= |body| {
      SplitChunk(title, body, locs, k);
    }
    forall k | 0 <= k < |chunks| - 1 ensures chunks[k].end == chunks[k + 1].start {
      SplitChunk(title, body, locs, k);
      SplitChunk(title, body, locs, k + 1);
    }
    SplitChunk(title, body, locs, 0);
    SplitChunk(title, body, locs, |chunks| - 1);
    TrimSpaceBlank(body[..locs[0].start]);
    assert body[..0] == "";
  }

  /** The chunks of any body tile its newline-trimmed text. */
  lemma ChunksTileBody(title: string, rawBody: string, minCharsForSplit: int)
    ensures var body, chunks := TrimNewlines(rawBody), ChunksOf(title, rawBody, minCharsForSplit);
            Tiles(body, chunks) && (chunks == [] <==> body == "")
  {
    var body := TrimNewlines(rawBody);
    var locs := FindAll(body, 0);
    if locs != [] {
      SplitTiles(title, body, locs);
    }
    if body != "" {
      WholeTiles(title, body);
    }
  }

  lemma WholeTiles(title: string, body: string)
    requires body != ""
    ensures Tiles(body, [Chunk(0, "", PrefixTitle(title, body), 0, |body|)])
  {
    assert body[..0] == "";
  }

  predicate Covers(c: Chunk, p: int) {
    c.start <= p < c.end
  }

  lemma {:induction false} TilesAscend(chunks: seq<Chunk>, j: nat, k: nat)
    requires forall i :: 0 <= i < |chunks| ==> chunks[i].start < chunks[i].end
    requires forall i :: 0 <= i < |chunks| - 1 ==> chunks[i].end == chunks[i + 1].start
    requires j < k < |chunks|
    ensures chunks[j].end <= chunks[k].start
  {
    if j + 1 < k {
      TilesAscend(chunks, j, k - 1);
    }
  }

  lemma {:induction false} TilesCover(chunks: seq<Chunk>, p: int) returns (k: nat)
    requires chunks != [] && chunks[0].start <= p < chunks[|chunks| - 1].end
    requires forall i :: 0 <= i < |chunks| - 1 ==> chunks[i].end == chunks[i + 1].start
    ensures k < |chunks| && Covers(chunks[k], p)
  {
    var last := |chunks| - 1;
    if p >= chunks[last].start {
      k := last;
    } else {
      k := TilesCover(chunks[..last], p);
    }
  }

  /** Every character of the body that is not white space lies in exactly one chunk. */
  lemma EveryCharacterInOneChunk(title: string, rawBody: string, minCharsForSplit: int, p: nat)
    requires p < |rawBody| && !IsSpace(rawBody[p])
    ensures var chunks := ChunksOf(title, rawBody, minCharsForSplit);
            && (exists k :: 0 <= k < |chunks| && Covers(chunks[k], p))
            && (forall j, k ::
               0 <= j < |chunks| && 0 <= k < |chunks| && Covers(chunks[j], p) && Covers(chunks[k], p) ==> j == k)
  {
    var body, chunks := TrimNewlines(rawBody), ChunksOf(title, rawBody, minCharsForSplit);
    ChunksTileBody(title, rawBody, minCharsForSplit);
    assert p < |body| && body[p] == rawBody[p];
    forall q | 0 <= q < chunks[0].start ensures IsSpace(body[q]) {
      assert body[..chunks[0].start][q] == body[q];
    }
    var k := TilesCover(chunks, p);
    forall i, j | 0 <= i < j < |chunks| ensures !(Covers(chunks[i], p) && Covers(chunks[j], p)) {
      TilesAscend(chunks, i, j);
    }
  }
}
