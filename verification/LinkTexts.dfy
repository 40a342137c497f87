/** What the link rewriter does, said of the text alone: which characters end a reference,
    what is kept behind it, and what is left as it was. */
module LinkTexts {
  import opened Wrappers
  import opened Strings
  import opened ArtifactLinks
  import opened LinkPositions
  import opened LinkSecondPass

  function Runes(s: string): (t: Text)
    ensures |t| == |s| && forall i :: 0 <= i < |s| ==> t[i] == Rune(s[i])
  {
    seq(|s|, i requires 0 <= i < |s| => Rune(s[i]))
  }

  // ----- references -----------------------------------------------------------------------

  /** What closes a reference: quotes, brackets, a fragment or query, white space, a stray byte. */
  predicate Closes(s: Sym) {
    s.Stray? || s.c in {'`', '<', '>', '"', '\'', '(', ')', '[', ']', '{', '}', '#', '?'}
    || s.c in {'\t', '\n', '\U{000B}', '\U{000C}', '\r', ' ', '\U{0085}', '\U{00A0}', '\U{1680}', '\U{2000}',
               '\U{2001}', '\U{2002}', '\U{2003}', '\U{2004}', '\U{2005}', '\U{2006}', '\U{2007}', '\U{2008}',
               '\U{2009}', '\U{200A}', '\U{2028}', '\U{2029}', '\U{202F}', '\U{205F}', '\U{3000}'}
  }

  predicate Trails(s: Sym) {
    s in {Rune('.'), Rune(','), Rune(';'), Rune(':'), Rune('!')}
  }

  lemma ClosesIsEnds(s: Sym)
    ensures Closes(s) <==> Ends(s)
    ensures Trails(s) <==> IsPunct(s) && !Closes(s)
  {
    if s.Rune? {
      SpacesAre(s.c);
    }
  }

  /** A reference as it is written: nothing in it closes it, no slash, no punctuation last. */
  ghost predicate IsRef(ref: Text) {
    && ref != [] && !Trails(ref[|ref| - 1])
    && forall i :: 0 <= i < |ref| ==> !Closes(ref[i]) && ref[i] != Rune('/')
  }

  ghost predicate AllTrail(marks: Text) {
    forall i :: 0 <= i < |marks| ==> Trails(marks[i])
  }

  /** At the end of the line, or before something that closes a reference. */
  predicate ClosedBy(after: Text) {
    after == [] || Closes(after[0])
  }

  lemma {:induction false} RawIs(t: Text, n: nat)
    requires n <= |t| && (forall i :: 0 <= i < n ==> !Ends(t[i])) && (n < |t| ==> Ends(t[n]))
    ensures RawRef(t) == t[..n]
  {
    if n > 0 {
      RawIs(t[1..], n - 1);
      assert t[..n] == [t[0]] + t[1..][..n - 1];
    }
  }

  lemma {:induction false} SlashIs(t: Text, n: nat)
    requires n <= |t| && forall i :: 0 <= i < n ==> !Ends(t[i]) && t[i] != Rune('/')
    ensures n < |t| && t[n] == Rune('/') ==> HitsSlash(t)
    ensures n == |t| || (Ends(t[n]) && t[n] != Rune('/')) ==> !HitsSlash(t)
  {
    if n > 0 {
      SlashIs(t[1..], n - 1);
    }
  }

  lemma {:induction false} TrimIs(ref: Text, marks: Text)
    requires AllTrail(marks) && (ref == [] || (!IsPunct(ref[|ref| - 1])))
    ensures TrimPunct(ref + marks) == ref
  {
    if marks == [] {
      assert ref + marks == ref;
    } else {
      var front, t := marks[..|marks| - 1], ref + marks;
      ClosesIsEnds(marks[|marks| - 1]);
      assert t[..|t| - 1] == ref + front && t[|t| - 1] == marks[|marks| - 1];
      TrimIs(ref, front);
    }
  }

  /** What is captured from the text behind a prefix. */
  lemma RefInText(ref: Text, marks: Text, after: Text)
    requires IsRef(ref) && AllTrail(marks) && ClosedBy(after)
    ensures var t := ref + marks + after; !HitsSlash(t) && RawRef(t) == ref + marks && RefOf(t) == ref
  {
    var t, n := ref + marks + after, |ref| + |marks|;
    forall i | 0 <= i < n ensures !Ends(t[i]) && t[i] != Rune('/') {
      ClosesIsEnds(t[i]);
    }
    if after != [] {
      ClosesIsEnds(after[0]);
      assert t[n] == after[0] && !Closes(Rune('/'));
    }
    ClosesIsEnds(ref[|ref| - 1]);
    RawIs(t, n);
    SlashIs(t, n);
    assert t[..n] == ref + marks;
    TrimIs(ref, marks);
  }

  /** Nothing is, when a slash comes before the end, or only punctuation does. */
  lemma NoRefInText(text: Text, marks: Text, after: Text)
    requires forall i :: 0 <= i < |text| ==> !Closes(text[i]) && text[i] != Rune('/')
    requires AllTrail(marks) && ClosedBy(after)
    ensures RefOf(text + Runes("/") + after) == []
    ensures RefOf(marks + after) == []
  {
    var s, t := text + Runes("/") + after, marks + after;
    forall i | 0 <= i < |text| ensures !Ends(s[i]) && s[i] != Rune('/') {
      ClosesIsEnds(s[i]);
    }
    SlashIs(s, |text|);
    forall i | 0 <= i < |marks| ensures !Ends(t[i]) && t[i] != Rune('/') {
      ClosesIsEnds(t[i]);
    }
    if after != [] {
      ClosesIsEnds(after[0]);
      assert t[|marks|] == after[0] && !Closes(Rune('/'));
    }
    RawIs(t, |marks|);
    SlashIs(t, |marks|);
    assert t[..|marks|] == marks == [] + marks;
    TrimIs([], marks);
  }

  // ----- one line ---------------------------------------------------------------------------

  lemma PrefixIs()
    ensures Prefix() == Runes("pindoc://")
  {
  }

  /** Blanks, and then three backticks or three tildes. */
  ghost predicate FenceText(s: Text) {
    exists k: nat :: FenceAt(s, k)
  }

  predicate FenceAt(s: Text, k: nat) {
    && k + 3 <= |s| && s[k] == s[k + 1] == s[k + 2] && s[k] in {Rune('`'), Rune('~')}
    && forall i :: 0 <= i < k ==> s[i] in {Rune(' '), Rune('\t')}
  }

  lemma {:induction false} FenceIs(s: Text)
    ensures Fence(s) <==> FenceText(s)
  {
    if s != [] && (s[0] == Rune(' ') || s[0] == Rune('\t')) {
      FenceIs(s[1..]);
      if k: nat :| FenceAt(s[1..], k) {
        assert FenceAt(s, k + 1);
      }
      if k: nat :| FenceAt(s, k) {
        assert k > 0 && FenceAt(s[1..], k - 1);
      }
    } else {
      assert Fence(s) ==> FenceAt(s, 0);
    }
  }

  /** The only prefix in the body is the one at this place. */
  ghost predicate OnlyPrefixAt(body: Text, at: nat) {
    forall i :: 0 <= i <= |body| && i != at ==> !(Runes("pindoc://") <= body[i..])
  }

  /** A body of one line that is no fence. */
  ghost predicate PlainLine(body: Text) {
    Rune('\n') !in body && !FenceText(body)
  }

  lemma OneLineSplices(body: Text, resolve: Resolver)
    requires PlainLine(body)
    ensures var r, refs := Rewritten(body, resolve), LineRefs(body, 0);
            && r.error == FirstBad(refs, resolve)
            && (r.error.None? ==> r.body == SpliceLine(body, 0, resolve) && r.refs == refs)
            && (r.error.Some? ==> r.body == body)
  {
    FenceIs(body);
    RewritingSplices(body, resolve);
    var lines := SplitAfter(body);
    assert lines == [body];
    assert Open(lines, 0) && RefsFrom(lines, 1) == [] && Splice(lines, 1, resolve) == [];
    Nothing(LineRefs(body, 0));
    Nothing(SpliceLine(body, 0, resolve));
  }

  /** The body is this text around a link. */
  ghost predicate Around(body: Text, before: Text, ref: Text, marks: Text, after: Text) {
    body == before + Runes("pindoc://") + ref + marks + after
  }

  lemma Slices(body: Text, before: Text, ref: Text, marks: Text, after: Text)
    requires Around(body, before, ref, marks, after)
    ensures |body| == |before| + 9 + |ref| + |marks| + |after| && body[..|before|] == before
    ensures body[|before|..|before| + 9] == Runes("pindoc://")
    ensures body[|before| + 9..] == ref + marks + after
    ensures body[|before| + 9 + |ref|..] == marks + after
  {
  }

  lemma PrefixSlice(body: Text, at: nat)
    requires at + 9 <= |body| && body[at..at + 9] == Runes("pindoc://")
    ensures PrefixAt(body, at) && body[at..][9..] == body[at + 9..]
  {
    PrefixIs();
    assert body[at..][..9] == body[at..at + 9];
  }

  lemma PlaceOfLink(body: Text, before: Text, ref: Text, marks: Text, after: Text)
    requires Around(body, before, ref, marks, after) && IsRef(ref) && AllTrail(marks) && ClosedBy(after)
    ensures |before| < |body| && RefAt(body, |before|) == ref
    ensures CapturedAt(body, |before|) <==> Runs(before) % 2 == 0
  {
    Slices(body, before, ref, marks, after);
    PrefixSlice(body, |before|);
    RefInText(ref, marks, after);
  }

  lemma NothingElseCaptured(body: Text, at: nat, i: nat)
    requires OnlyPrefixAt(body, at) && i < |body| && i != at
    ensures !CapturedAt(body, i)
  {
    PrefixIs();
  }

  ghost predicate NoneIn(body: Text, i: nat, j: nat) {
    forall p :: i <= p < j ==> !CapturedAt(body, p)
  }

  lemma NoneElse(body: Text, at: nat, i: nat, j: nat)
    requires OnlyPrefixAt(body, at) && i <= j <= |body| && !(i <= at < j)
    ensures NoneIn(body, i, j)
  {
    forall p | i <= p < j ensures !CapturedAt(body, p) {
      NothingElseCaptured(body, at, p);
    }
  }

  lemma RefsEnd(body: Text, past: nat)
    requires past <= |body| && NoneIn(body, past, |body|)
    ensures LineRefs(body, past) == []
  {
    NoRefsBetween(body, past, |body|);
  }

  lemma TextEnd(body: Text, past: nat, resolve: Resolver)
    requires past <= |body| && NoneIn(body, past, |body|)
    ensures SpliceLine(body, past, resolve) == body[past..]
  {
    CopiedInLine(body, past, |body|, resolve);
    Nothing(body[past..]);
    assert body[past..|body|] == body[past..];
  }

  lemma OneLinkRefs(body: Text, at: nat, past: nat, resolve: Resolver)
    requires CapturedAt(body, at) && past == at + 9 + |RefAt(body, at)| <= |body|
    requires NoneIn(body, 0, at) && NoneIn(body, past, |body|)
    ensures LineRefs(body, 0) == [RefAt(body, at)]
  {
    var ref := RefAt(body, at);
    RefsEnd(body, past);
    Unfolded(body, at, past, resolve);
    NoRefsBetween(body, 0, at);
    assert [ref] + [] == [ref];
  }

  lemma OneLinkText(body: Text, at: nat, past: nat, resolve: Resolver)
    requires CapturedAt(body, at) && past == at + 9 + |RefAt(body, at)| <= |body|
    requires NoneIn(body, 0, at) && NoneIn(body, past, |body|)
    ensures SpliceLine(body, 0, resolve) == body[..at] + (UrlOf(resolve, RefAt(body, at)) + body[past..])
  {
    TextEnd(body, past, resolve);
    Unfolded(body, at, past, resolve);
    CopiedInLine(body, 0, at, resolve);
    FromStart(body, at);
  }

  lemma FromStart(body: Text, at: nat)
    requires at <= |body|
    ensures body[0..at] == body[..at]
  {
  }

  /** The line with none, or in code. */
  lemma NoLink(body: Text, at: nat, resolve: Resolver)
    requires OnlyPrefixAt(body, at) && !CapturedAt(body, at)
    ensures LineRefs(body, 0) == [] && SpliceLine(body, 0, resolve) == body
  {
    forall p | 0 <= p < |body| ensures !CapturedAt(body, p) {
      if p != at {
        NothingElseCaptured(body, at, p);
      }
    }
    RefsEnd(body, 0);
    TextEnd(body, 0, resolve);
  }

  /** A reference in a line, outside code: exactly the prefix and it are replaced, whatever
      closes it and the punctuation before that are kept, and an unknown one is reported. */
  lemma LinkInLine(body: Text, before: Text, ref: Text, marks: Text, after: Text, resolve: Resolver)
    requires Around(body, before, ref, marks, after) && PlainLine(body) && OnlyPrefixAt(body, |before|)
    requires IsRef(ref) && AllTrail(marks) && ClosedBy(after) && Runs(before) % 2 == 0
    ensures Rewritten(body, resolve) == match resolve(ref)
                                        case Some(url) => Rewrite(before + url + marks + after, [ref], None)
                                        case None => Rewrite(body, [], Some(ref))
  {
    LinkSplices(body, before, ref, marks, after, resolve);
    OneLineSplices(body, resolve);
    OneRefErrors(body, ref, resolve);
  }

  lemma LinkSplices(body: Text, before: Text, ref: Text, marks: Text, after: Text, resolve: Resolver)
    requires Around(body, before, ref, marks, after) && OnlyPrefixAt(body, |before|)
    requires IsRef(ref) && AllTrail(marks) && ClosedBy(after) && Runs(before) % 2 == 0
    ensures LineRefs(body, 0) == [ref]
    ensures SpliceLine(body, 0, resolve) == before + UrlOf(resolve, ref) + marks + after
  {
    var at, past := |before|, |before| + 9 + |ref|;
    Slices(body, before, ref, marks, after);
    PlaceOfLink(body, before, ref, marks, after);
    NoneElse(body, at, 0, at);
    NoneElse(body, at, past, |body|);
    OneLinkRefs(body, at, past, resolve);
    OneLinkText(body, at, past, resolve);
    Kept(before, UrlOf(resolve, ref), marks, after);
  }

  lemma Kept(before: Text, url: Text, marks: Text, after: Text)
    ensures before + (url + (marks + after)) == before + url + marks + after
  {
  }

  /** Behind an odd number of backtick runs, or with a slash before the end, it is left alone. */
  lemma LinkInCode(body: Text, before: Text, ref: Text, marks: Text, after: Text, resolve: Resolver)
    requires Around(body, before, ref, marks, after) && PlainLine(body) && OnlyPrefixAt(body, |before|)
    requires (Runs(before) % 2 == 1 && IsRef(ref) && AllTrail(marks) && ClosedBy(after))
             || RefOf(ref + marks + after) == []
    ensures Rewritten(body, resolve) == Rewrite(body, [], None)
  {
    Slices(body, before, ref, marks, after);
    PrefixSlice(body, |before|);
    if RefOf(ref + marks + after) != [] {
      PlaceOfLink(body, before, ref, marks, after);
    }
    NoLink(body, |before|, resolve);
    OneLineSplices(body, resolve);
  }

  /** A single backtick before it, for one. */
  lemma OneTick(a: Text, b: Text)
    requires Rune('`') !in a && Rune('`') !in b
    ensures Runs(a) == 0 && Runs(a + [Rune('`')] + b) == 1
  {
    var t := a + [Rune('`')] + b;
    NoRunStarts(a, 0, |a|);
    assert a[..|a|] == a && a[..0] == [];
    NoRunStarts(t, 0, |a|);
    OneRun(t, |a|, 1);
    NoRunStarts(t, |a| + 1, |t|);
    assert t[..|t|] == t && t[..0] == [];
  }

  /** Markdown's own link syntax. */
  lemma MarkdownLink(shown: Text, ref: Text, rest: Text, resolve: Resolver)
    requires IsRef(ref) && Rune('`') !in shown
    requires var body := [Rune('[')] + shown + Runes("](") + Runes("pindoc://") + ref + [Rune(')')] + rest;
             PlainLine(body) && OnlyPrefixAt(body, |shown| + 3)
    requires resolve(ref).Some?
    ensures var body := [Rune('[')] + shown + Runes("](") + Runes("pindoc://") + ref + [Rune(')')] + rest;
            Rewritten(body, resolve) ==
              Rewrite([Rune('[')] + shown + Runes("](") + resolve(ref).value + [Rune(')')] + rest, [ref], None)
  {
    var body := [Rune('[')] + shown + Runes("](") + Runes("pindoc://") + ref + [Rune(')')] + rest;
    var before, after := [Rune('[')] + shown + Runes("]("), [Rune(')')] + rest;
    assert body == before + Runes("pindoc://") + ref + [] + after;
    NoRunStarts(before, 0, |before|);
    assert before[..|before|] == before && before[..0] == [];
    LinkInLine(body, before, ref, [], after, resolve);
    var url := resolve(ref).value;
    assert before + url + [] + after == before + url + [Rune(')')] + rest;
  }

  lemma OneRefErrors(body: Text, ref: Text, resolve: Resolver)
    ensures FirstBad([ref], resolve) == if resolve(ref).None? then Some(ref) else None
    ensures PlainLine(body) && FirstBad(LineRefs(body, 0), resolve).Some? ==> Rewritten(body, resolve).refs == []
  {
    assert [ref][1..] == [];
    if PlainLine(body) && FirstBad(LineRefs(body, 0), resolve).Some? {
      FenceIs(body);
      assert SplitAfter(body) == [body];
      OneLineIsSplice([body], 0, Prose, resolve);
      LinesAreSplice([body], 0, Prose, resolve);
      assert [body][0..] == [body];
      OneLineSplices(body, resolve);
    }
  }

  // ----- fences -------------------------------------------------------------------------------

  /** A line with its newline. */
  ghost predicate FullLine(line: Text) {
    line != [] && line[|line| - 1] == Rune('\n') && forall i :: 0 <= i < |line| - 1 ==> line[i] != Rune('\n')
  }

  /** Between two fences the text is kept; behind them links count again. */
  lemma FencedIsKept(open: Text, inside: Text, close: Text, last: Text, resolve: Resolver)
    requires FullLine(open) && FullLine(inside) && FullLine(close) && FenceText(open) && FenceText(close)
             && !FenceText(inside)
    requires PlainLine(last)
    ensures var r, alone := Rewritten(open + inside + close + last, resolve), Rewritten(last, resolve);
            && r.error == alone.error
            && (r.error.None? ==> r.body == open + inside + close + alone.body && r.refs == alone.refs)
  {
    var lines := [open, inside, close, last];
    FenceIs(open);
    FenceIs(inside);
    FenceIs(close);
    FenceIs(last);
    FourLines(open, inside, close, last);
    var body := open + inside + close + last;
    SplitAgain(lines);
    RewritingSplices(body, resolve);
    OneLineSplices(last, resolve);
    FourSplices(lines, resolve);
    Nothing(LineRefs(last, 0));
    FourKept(open, inside, close, SpliceLine(last, 0, resolve));
  }

  lemma FourKept(a: Text, b: Text, c: Text, d: Text)
    ensures a + (b + (c + (d + []))) == a + b + c + d
  {
  }

  lemma FourLines(a: Text, b: Text, c: Text, d: Text)
    requires FullLine(a) && FullLine(b) && FullLine(c) && Rune('\n') !in d
    ensures WellSplit([a, b, c, d]) && Concat([a, b, c, d]) == a + b + c + d
  {
    var lines := [a, b, c, d];
    assert lines[1..] == [b, c, d] && lines[1..][1..] == [c, d] && lines[1..][1..][1..] == [d];
    assert [d][1..] == [] && Concat([d]) == d + [];
    assert Concat([c, d]) == c + Concat([c, d][1..]);
    assert [c, d][1..] == [d];
  }

  lemma FourSplices(lines: seq<Text>, resolve: Resolver)
    requires |lines| == 4 && Fence(lines[0]) && !Fence(lines[1]) && Fence(lines[2]) && !Fence(lines[3])
    ensures Splice(lines, 0, resolve) == lines[0] + (lines[1] + (lines[2] + (SpliceLine(lines[3], 0, resolve) + [])))
    ensures RefsFrom(lines, 0) == LineRefs(lines[3], 0) + []
  {
    assert Fences(lines, 0) == 0 && Fences(lines, 1) == 1 && Fences(lines, 2) == 1 && Fences(lines, 3) == 2;
    assert !Open(lines, 0) && !Open(lines, 1) && !Open(lines, 2) && Open(lines, 3);
    assert Splice(lines, 4, resolve) == [] && RefsFrom(lines, 4) == [];
    assert Splice(lines, 3, resolve) == SpliceLine(lines[3], 0, resolve) + [];
    assert Splice(lines, 2, resolve) == lines[2] + Splice(lines, 3, resolve);
    assert Splice(lines, 1, resolve) == lines[1] + Splice(lines, 2, resolve);
    var refs := LineRefs(lines[3], 0) + [];
    assert RefsFrom(lines, 3) == refs;
    assert RefsFrom(lines, 2) == [] + refs == refs;
    assert RefsFrom(lines, 1) == [] + refs == refs;
    assert RefsFrom(lines, 0) == [] + refs == refs;
  }

  // ----- what an error leaves -----------------------------------------------------------------

  /** The references before the failing line, that line, and what they come to. */
  ghost predicate Settled(lines: seq<Text>, k: nat, mode: Mode, resolve: Resolver, bad: nat)
    requires k <= |lines|
  {
    && k <= bad < |lines| && Open(lines, bad) && FirstBad(LineRefs(lines[bad], 0), resolve).Some?
    && RefsFrom(lines, k) == SettledRefs(lines[k..], mode, resolve) + RefsFrom(lines, bad)
    && FirstBad(SettledRefs(lines[k..], mode, resolve), resolve).None?
  }

  lemma {:induction false} SettledBefore(lines: seq<Text>, k: nat, mode: Mode, resolve: Resolver) returns (bad: nat)
    requires k <= |lines| && mode == Parity(Fences(lines, k)) && FirstBad(RefsFrom(lines, k), resolve).Some?
    ensures Settled(lines, k, mode, resolve, bad)
    decreases |lines| - k
  {
    OneLineIsSplice(lines, k, mode, resolve);
    var own := Refs(ScanLine(lines[k], mode));
    FirstBadJoined(own, RefsFrom(lines, k + 1), resolve);
    if FirstBad(own, resolve).Some? {
      bad := k;
      SettledHere(lines, k, mode, resolve);
    } else {
      bad := SettledBefore(lines, k + 1, AfterLine(lines[k], mode), resolve);
      SettledLater(lines, k, mode, resolve, bad);
    }
  }

  lemma SettledHere(lines: seq<Text>, k: nat, mode: Mode, resolve: Resolver)
    requires k < |lines| && mode == Parity(Fences(lines, k)) && FirstBad(Refs(ScanLine(lines[k], mode)), resolve).Some?
    ensures Settled(lines, k, mode, resolve, k)
  {
    OneLineIsSplice(lines, k, mode, resolve);
    SettledStep(lines, k, mode, resolve, Refs(ScanLine(lines[k], mode)));
  }

  lemma SettledLater(lines: seq<Text>, k: nat, mode: Mode, resolve: Resolver, bad: nat)
    requires k < |lines| && mode == Parity(Fences(lines, k)) && FirstBad(Refs(ScanLine(lines[k], mode)), resolve).None?
    requires Settled(lines, k + 1, AfterLine(lines[k], mode), resolve, bad)
    ensures Settled(lines, k, mode, resolve, bad)
  {
    OneLineIsSplice(lines, k, mode, resolve);
    var own, settled := Refs(ScanLine(lines[k], mode)), SettledRefs(lines[k + 1..], AfterLine(lines[k], mode), resolve);
    SettledStep(lines, k, mode, resolve, own);
    FirstBadJoined(own, settled, resolve);
    Regroup(own, settled, RefsFrom(lines, bad));
  }

  lemma SettledStep(lines: seq<Text>, k: nat, mode: Mode, resolve: Resolver, own: seq<Text>)
    requires k < |lines| && own == Refs(ScanLine(lines[k], mode))
    ensures var rest := SettledRefs(lines[k + 1..], AfterLine(lines[k], mode), resolve);
            SettledRefs(lines[k..], mode, resolve) == if FirstBad(own, resolve).Some? then [] else own + rest
    ensures [] + RefsFrom(lines, k) == RefsFrom(lines, k)
  {
    assert lines[k..][0] == lines[k] && lines[k..][1..] == lines[k + 1..];
  }

  /** When a reference fails, the references reported are those of the lines before its line. */
  lemma ErrorKeepsSettled(body: Text, resolve: Resolver) returns (bad: nat)
    requires Rewritten(body, resolve).error.Some?
    ensures var lines, refs := SplitAfter(body), Rewritten(body, resolve).refs;
            && bad < |lines| && Open(lines, bad) && FirstBad(LineRefs(lines[bad], 0), resolve).Some?
            && RefsFrom(lines, 0) == refs + RefsFrom(lines, bad) && FirstBad(refs, resolve).None?
  {
    ErrorIsFound(body, resolve);
    bad := SettledBefore(SplitAfter(body), 0, Prose, resolve);
    ReportedAre(body, resolve);
  }

  lemma ErrorIsFound(body: Text, resolve: Resolver)
    ensures FirstBad(RefsFrom(SplitAfter(body), 0), resolve) == Rewritten(body, resolve).error
  {
    RewritingSplices(body, resolve);
  }

  lemma ReportedAre(body: Text, resolve: Resolver)
    requires Rewritten(body, resolve).error.Some?
    ensures Rewritten(body, resolve).refs == SettledRefs(SplitAfter(body)[0..], Prose, resolve)
  {
    assert SplitAfter(body)[0..] == SplitAfter(body);
  }

  /** The resolver's URLs, spelled out. */
  lemma RetroUrlText(base: Text, project: Text, target: Text)
    ensures RetroUrl(base, project, target) == TrimSlashes(base) + Runes("/p/") + project + Runes("/wiki/") + target
  {
    assert Root() == Runes("/p/") && Wiki() == Runes("/wiki/");
  }
}
