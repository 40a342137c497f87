/** What the chunks of a body say: the text and heading of each, and when a body is split. */
module ChunkTexts {
  import opened Wrappers
  import opened Strings
  import PercentCoding
  import opened BodyChunks

  // ----- the texts ------------------------------------------------------------------------

  /** A text without the white space around it. */
  ghost predicate Trims(s: string, lead: string, t: string, tail: string) {
    && s == lead + t + tail && Blank(lead) && Blank(tail)
    && (t != "" ==> !IsSpace(t[0]) && !IsSpace(t[|t| - 1]))
  }

  /** The title's words and a blank line before the content; just the content under a blank title. */
  ghost predicate Titled(title: string, content: string, text: string) {
    if Blank(title) then text == content
    else exists lead, name, tail :: Trims(title, lead, name, tail) && name != "" && text == name + "\n\n" + content
  }

  lemma PrefixTitled(title: string, content: string)
    ensures Titled(title, content, PrefixTitle(title, content))
  {
    TrimSpaceBlank(title);
    if !Blank(title) {
      var lead, tail := TrimSpaceMeans(title);
      assert Trims(title, lead, TrimSpace(title), tail);
    }
  }

  ghost predicate TextFrom(title: string, span: string, text: string) {
    exists lead, content, tail :: Trims(span, lead, content, tail) && Titled(title, content, text)
  }

  lemma SpanText(title: string, span: string)
    ensures TextFrom(title, span, PrefixTitle(title, TrimSpace(span)))
  {
    var lead, tail := TrimSpaceMeans(span);
    assert Trims(span, lead, TrimSpace(span), tail);
    PrefixTitled(title, TrimSpace(span));
  }

  /** Every chunk of a split says the title and the body's own text between its ends, trimmed. */
  lemma SplitText(title: string, body: string, locs: seq<Heading>, k: nat)
    requires Located(body, locs) && locs != [] && k < |SplitAt(title, body, locs)|
    ensures var c := SplitAt(title, body, locs)[k];
            0 <= c.start <= c.end <= |body| && TextFrom(title, body[c.start..c.end], c.text)
  {
    var pre := Preamble(title, body, locs);
    if k < |pre| {
      assert SplitAt(title, body, locs)[k] == pre[0];
      PreambleText(title, body, locs);
    } else {
      SectionAt(title, body, locs, k - |pre|, k);
      SectionText(title, body, locs, k - |pre|, k);
    }
  }

  lemma PreambleText(title: string, body: string, locs: seq<Heading>)
    requires Located(body, locs) && locs != [] && Preamble(title, body, locs) != []
    ensures var c := Preamble(title, body, locs)[0];
            0 <= c.start <= c.end <= |body| && TextFrom(title, body[c.start..c.end], c.text)
  {
    SpanText(title, body[..locs[0].start]);
    assert body[0..locs[0].start] == body[..locs[0].start];
  }

  lemma SectionText(title: string, body: string, locs: seq<Heading>, i: nat, k: int)
    requires Located(body, locs) && i < |locs|
    ensures var c := Section(title, body, locs, i, k);
            0 <= c.start <= c.end <= |body| && TextFrom(title, body[c.start..c.end], c.text)
  {
    assert i + 1 < |locs| ==> locs[i].end <= locs[i + 1].start;
    SpanText(title, body[locs[i].start..SectionEnd(body, locs, i)]);
  }

  // ----- when a body is split ---------------------------------------------------------------

  function ByteLengthOf(c: char): nat {
    |PercentCoding.Utf8(c as int)|
  }

  /** The threshold is compared with the length in UTF-8. */
  lemma ByteLenSnoc(s: string, c: char)
    ensures ByteLen(s + [c]) == ByteLen(s) + ByteLengthOf(c)
  {
    assert (s + [c])[..|s|] == s;
  }

  lemma {:induction false} ByteLenJoined(a: string, b: string)
    ensures ByteLen(a + b) == ByteLen(a) + ByteLen(b)
  {
    if b == "" {
      assert a + b == a;
    } else {
      var front, c := b[..|b| - 1], b[|b| - 1];
      assert b == front + [c] && a + b == (a + front) + [c];
      ByteLenJoined(a, front);
      ByteLenSnoc(a + front, c);
      ByteLenSnoc(front, c);
    }
  }

  /** Some line starts with a heading. */
  ghost predicate HasHeading(body: string) {
    exists s: nat, n: nat, mid: nat, end: nat :: Reads(body, s, n, mid, end)
  }

  ghost predicate Splits(rawBody: string, minCharsForSplit: int) {
    var body := TrimNewlines(rawBody);
    ByteLen(body) >= (if minCharsForSplit <= 0 then 600 else minCharsForSplit) && HasHeading(body)
  }

  lemma FoundSome(body: string)
    ensures FindAll(body, 0) != [] <==> HasHeading(body)
  {
    if FindAll(body, 0) != [] {
      var first := FindAll(body, 0)[0];
      FindAllMeans(body, 0, 0);
      HeadingMatches(body, first.start, first.end);
      var n: nat, mid: nat :| Prefers(body, first.start, n, mid, first.end);
      assert Reads(body, first.start, n, mid, first.end);
    }
    if s: nat, n: nat, mid: nat, end: nat :| Reads(body, s, n, mid, end) {
      ReadingIsHeading(body, s, n, mid, end);
      FindAllMeans(body, 0, s);
    }
  }

  /** A body is one chunk exactly when it is shorter than the threshold, 600 bytes unless the
      caller names another, or has no heading. */
  lemma SplitWhen(title: string, rawBody: string, minCharsForSplit: int)
    ensures var body, chunks := TrimNewlines(rawBody), ChunksOf(title, rawBody, minCharsForSplit);
            && (Splits(rawBody, minCharsForSplit) ==>
                 FindAll(body, 0) != [] && chunks == SplitAt(title, body, FindAll(body, 0)))
            && (!Splits(rawBody, minCharsForSplit) && body != "" ==>
                 chunks == [Chunk(0, "", PrefixTitle(title, body), 0, |body|)])
            && (body == "" ==> chunks == [])
  {
    FoundSome(TrimNewlines(rawBody));
  }

  ghost predicate SaysItsText(title: string, rawBody: string, whole: bool, c: Chunk) {
    && 0 <= c.start <= c.end <= |rawBody|
    && (if whole then Titled(title, rawBody[c.start..c.end], c.text)
        else TextFrom(title, rawBody[c.start..c.end], c.text))
  }

  lemma WholeText(title: string, rawBody: string, body: string)
    requires body <= rawBody
    ensures SaysItsText(title, rawBody, true, Chunk(0, "", PrefixTitle(title, body), 0, |body|))
  {
    PrefixTitled(title, body);
    assert rawBody[0..|body|] == body;
  }

  lemma PartText(title: string, rawBody: string, body: string, locs: seq<Heading>, k: nat)
    requires body <= rawBody && Located(body, locs) && locs != [] && k < |SplitAt(title, body, locs)|
    ensures SaysItsText(title, rawBody, false, SplitAt(title, body, locs)[k])
  {
    SplitText(title, body, locs, k);
    var c := SplitAt(title, body, locs)[k];
    assert rawBody[c.start..c.end] == body[c.start..c.end];
  }

  /** The same of any body; the one chunk of a body that is not split is not trimmed but for its newlines. */
  lemma ChunkTextIs(title: string, rawBody: string, minCharsForSplit: int, k: nat)
    requires k < |ChunksOf(title, rawBody, minCharsForSplit)|
    ensures SaysItsText(title, rawBody, !Splits(rawBody, minCharsForSplit),
                        ChunksOf(title, rawBody, minCharsForSplit)[k])
  {
    var body, chunks := TrimNewlines(rawBody), ChunksOf(title, rawBody, minCharsForSplit);
    SplitWhen(title, rawBody, minCharsForSplit);
    if Splits(rawBody, minCharsForSplit) {
      PartText(title, rawBody, body, FindAll(body, 0), k);
    } else {
      WholeText(title, rawBody, body);
    }
  }

  // ----- the headings -------------------------------------------------------------------------

  predicate HashOrSpace(c: char) {
    c == '#' || c == ' ' || c == '\t'
  }

  lemma {:induction false} TrimHashesIs(lead: string, words: string)
    requires forall i :: 0 <= i < |lead| ==> HashOrSpace(lead[i])
    requires words != "" ==> !HashOrSpace(words[0])
    ensures TrimHashes(lead + words) == words
  {
    if lead == "" {
      assert lead + words == words;
    } else {
      assert (lead + words)[1..] == lead[1..] + words;
      TrimHashesIs(lead[1..], words);
    }
  }

  /** The words of a heading, told apart from the characters around them. */
  predicate Words(words: string) {
    && words != "" && '\n' !in words
    && !IsSpace(words[0]) && words[0] != '#' && !IsSpace(words[|words| - 1])
  }

  predicate TwoOrThree(marks: string) {
    2 <= |marks| <= 3 && forall i :: 0 <= i < |marks| ==> marks[i] == '#'
  }

  /** `## words` or `### words`. */
  predicate SaysHeading(line: string, marks: string, words: string) {
    Words(words) && TwoOrThree(marks) && line == marks + ([' '] + words)
  }

  /** A line of the body, with what comes before and behind it. */
  predicate OnItsLine(body: string, front: string, line: string, back: string) {
    && body == front + line + back
    && (front == "" || front[|front| - 1] == '\n') && (back == "" || back[0] == '\n')
  }

  lemma LineReads(body: string, p: nat, marks: string, words: string, line: string)
    requires SaysHeading(line, marks, words)
    requires p + |line| <= |body| && LineStart(body, p)
    requires forall i :: 0 <= i < |line| ==> body[p + i] == line[i]
    requires p + |line| < |body| ==> body[p + |line|] == '\n'
    ensures Reads(body, p, |marks|, p + |marks| + 1, p + |line|) && !IsSpace(body[p + |marks| + 1])
  {
    var n := |marks|;
    forall i | p <= i < p + n ensures body[i] == '#' {
      assert body[p + (i - p)] == line[i - p] == marks[i - p];
    }
    assert body[p + n] == line[n] == ' ';
    forall i | p + n + 1 <= i < p + |line| ensures body[i] != '\n' {
      assert body[p + (i - p)] == line[i - p] == words[i - p - n - 1];
      assert words[i - p - n - 1] in words;
    }
    assert body[p + (n + 1)] == line[n + 1] == words[0];
  }

  lemma WordsFollowSpace(body: string, p: nat, n: nat, mid: nat, end: nat)
    requires Reads(body, p, n, mid, end) && mid == p + n + 1 && !IsSpace(body[mid])
    ensures HeadingAt(body, p) == Some(end)
  {
    assert Prefers(body, p, n, mid, end) by {
      forall n': nat, mid': nat, end': nat | Reads(body, p, n', mid', end') ensures mid' <= mid {
        HashesAgree(body, p, n, mid, end);
        HashesAgree(body, p, n', mid', end');
      }
    }
    HeadingMatches(body, p, end);
  }

  lemma LineMatches(body: string, p: nat, line: string, marks: string, words: string)
    requires SaysHeading(line, marks, words) && p + |line| <= |body| && LineStart(body, p)
    requires body[p..p + |line|] == line
    requires p + |line| < |body| ==> body[p + |line|] == '\n'
    ensures HeadingAt(body, p) == Some(p + |line|)
  {
    forall i | 0 <= i < |line| ensures body[p + i] == line[i] {
      assert body[p..p + |line|][i] == body[p + i];
    }
    LineReads(body, p, marks, words, line);
    WordsFollowSpace(body, p, |marks|, p + |marks| + 1, p + |line|);
  }

  lemma OwnLine(body: string, front: string, line: string, back: string)
    requires OnItsLine(body, front, line, back)
    ensures var p := |front|;
            && p + |line| <= |body| && LineStart(body, p) && (p + |line| < |body| ==> body[p + |line|] == '\n')
            && body[p..p + |line|] == line && body[..p] == front
  {
  }

  /** Such a line is a heading. */
  lemma LineIsHeading(body: string, front: string, line: string, back: string, marks: string, words: string)
    requires OnItsLine(body, front, line, back) && SaysHeading(line, marks, words)
    ensures HeadingAt(body, |front|) == Some(|front| + |line|)
    ensures |front| + |line| <= |body| && body[|front|..|front| + |line|] == line && body[..|front|] == front
  {
    OwnLine(body, front, line, back);
    LineMatches(body, |front|, line, marks, words);
  }

  /** Its words are the chunk's heading. */
  lemma HeadingWords(line: string, marks: string, words: string)
    requires SaysHeading(line, marks, words)
    ensures TrimHashes(TrimSpace(line)) == words
  {
    var lead := marks + " ";
    assert line[0] == marks[0] && line[|line| - 1] == words[|words| - 1];
    TrimSpaceFixed(line);
    forall i | 0 <= i < |lead| ensures HashOrSpace(lead[i]) {
      assert i < |marks| ==> lead[i] == marks[i];
    }
    assert line == lead + words;
    TrimHashesIs(lead, words);
  }

  lemma {:induction false} NothingBefore(body: string, p: nat, q: nat)
    requires p <= q <= |body| && forall i :: p <= i < q ==> body[i] != '#'
    ensures FindAll(body, p) == FindAll(body, q)
    decreases q - p
  {
    if p < q {
      NothingBefore(body, p + 1, q);
    }
  }

  lemma FirstFound(body: string, front: string, line: string, back: string, marks: string, words: string)
    requires OnItsLine(body, front, line, back) && SaysHeading(line, marks, words) && '#' !in front
    ensures FindAll(body, 0) != [] && FindAll(body, 0)[0] == Heading(|front|, |front| + |line|)
  {
    LineIsHeading(body, front, line, back, marks, words);
    forall i | 0 <= i < |front| ensures body[i] != '#' {
      assert front[i] in front;
    }
    NothingBefore(body, 0, |front|);
  }

  /** The chunk at a place of the body is headed so, and before it there is at most the preamble. */
  ghost predicate HeadedAt(chunks: seq<Chunk>, front: string, words: string) {
    var k := if Blank(front) then 0 else 1;
    && |chunks| > k && chunks[k].start == |front| && chunks[k].heading == words
    && (k == 1 ==> chunks[0].start == 0 && chunks[0].end == |front| && chunks[0].heading == "")
  }

  lemma FirstSection(title: string, body: string, locs: seq<Heading>, front: string, words: string)
    requires Located(body, locs) && locs != [] && locs[0].start == |front| && body[..|front|] == front
    requires TrimHashes(TrimSpace(body[|front|..locs[0].end])) == words
    ensures HeadedAt(SplitAt(title, body, locs), front, words)
  {
    TrimSpaceBlank(front);
    SectionAt(title, body, locs, 0, |Preamble(title, body, locs)|);
  }

  lemma FirstOfSplit(title: string, body: string, front: string, line: string, back: string,
      marks: string, words: string)
    requires OnItsLine(body, front, line, back) && SaysHeading(line, marks, words) && '#' !in front
    ensures FindAll(body, 0) != [] && HeadedAt(SplitAt(title, body, FindAll(body, 0)), front, words)
  {
    LineIsHeading(body, front, line, back, marks, words);
    FirstFound(body, front, line, back, marks, words);
    HeadingWords(line, marks, words);
    FirstSection(title, body, FindAll(body, 0), front, words);
  }

  /** The first heading line of a body that is long enough cuts it: its chunk starts there and is headed by
      its words, and what comes before is a chunk of its own unless it is blank. */
  lemma FirstHeading(title: string, rawBody: string, minCharsForSplit: int,
      front: string, line: string, back: string, marks: string, words: string)
    requires OnItsLine(TrimNewlines(rawBody), front, line, back) && SaysHeading(line, marks, words) && '#' !in front
    requires ByteLen(TrimNewlines(rawBody)) >= (if minCharsForSplit <= 0 then 600 else minCharsForSplit)
    ensures HeadedAt(ChunksOf(title, rawBody, minCharsForSplit), front, words)
  {
    FirstOfSplit(title, TrimNewlines(rawBody), front, line, back, marks, words);
    FoundSome(TrimNewlines(rawBody));
    SplitWhen(title, rawBody, minCharsForSplit);
  }
}
