/** internal/pindoc/artifactlinks/links.go: replacing pindoc:// references inside
    markdown, outside fences and inline code. */
module ArtifactLinks {
  import opened Wrappers
  import opened Strings

  /** One step of decoding a Go string: a well-formed code point, or a byte that starts none. */
  datatype Sym = Rune(c: char) | Stray(byte: nat)

  type Text = seq<Sym>

  const NEWLINE := Rune('\n')
  const TICK := Rune('`')

  /** pindoc:// */
  function Prefix(): (p: Text)
    ensures |p| == 9
  {
    [Rune('p'), Rune('i'), Rune('n'), Rune('d'), Rune('o'), Rune('c'), Rune(':'), Rune('/'), Rune('/')]
  }

  predicate IsTerminator(c: char) {
    IsSpace(c) || c == '`' || c == '<' || c == '>' || c == '"' || c == '\'' || c == '(' || c == ')'
    || c == '[' || c == ']' || c == '{' || c == '}' || c == '#' || c == '?'
  }

  /** What ends a reference. */
  predicate Ends(s: Sym) {
    s.Stray? || IsTerminator(s.c)
  }

  predicate IsPunct(s: Sym) {
    s.Rune? && (s.c == '.' || s.c == ',' || s.c == ';' || s.c == ':' || s.c == '!' || s.c == '?')
  }

  /** A slash comes before anything that ends the reference. */
  predicate HitsSlash(t: Text) {
    t != [] && (t[0] == Rune('/') || (!Ends(t[0]) && HitsSlash(t[1..])))
  }

  function RawRef(t: Text): (r: Text)
    ensures r <= t
  {
    if t == [] || Ends(t[0]) then [] else [t[0]] + RawRef(t[1..])
  }

  lemma {:induction false} RawRefEnds(t: Text)
    ensures forall i :: 0 <= i < |RawRef(t)| ==> !Ends(t[i])
    ensures |RawRef(t)| < |t| ==> Ends(t[|RawRef(t)|])
  {
    if t != [] && !Ends(t[0]) {
      RawRefEnds(t[1..]);
    }
  }

  function TrimPunct(t: Text): (r: Text)
    ensures r <= t
  {
    if t != [] && IsPunct(t[|t| - 1]) then TrimPunct(t[..|t| - 1]) else t
  }

  predicate PunctOnly(t: Text) {
    forall i :: 0 <= i < |t| ==> IsPunct(t[i])
  }

  lemma {:induction false} TrimPunctMeans(t: Text)
    ensures PunctOnly(t[|TrimPunct(t)|..])
    ensures TrimPunct(t) == [] <==> PunctOnly(t)
  {
    if t != [] && IsPunct(t[|t| - 1]) {
      var front, r := t[..|t| - 1], TrimPunct(t);
      TrimPunctMeans(front);
      assert t[|r|..] == front[|r|..] + [t[|t| - 1]] && t == front + [t[|t| - 1]];
    }
  }

  /** The reference captured before t, empty when there is none. */
  function RefOf(t: Text): Text {
    if HitsSlash(t) then [] else TrimPunct(RawRef(t))
  }

  /** The length of the leading backtick run. */
  function Ticks(t: Text): (n: nat)
    ensures n <= |t|
  {
    if t != [] && t[0] == TICK then 1 + Ticks(t[1..]) else 0
  }

  lemma {:induction false} TicksMean(t: Text)
    ensures forall i :: 0 <= i < Ticks(t) ==> t[i] == TICK
    ensures Ticks(t) < |t| ==> t[Ticks(t)] != TICK
  {
    if t != [] && t[0] == TICK {
      TicksMean(t[1..]);
    }
  }

  // ----- what a line and a body consist of ------------------------------------------

  datatype Piece = Verbatim(text: Text) | Link(ref: Text, trailing: Text)

  /** Whether the scanner is inside code: a fence, between lines; a span, within a line. */
  datatype Mode = Prose | Code

  function Flip(mode: Mode): Mode {
    if mode == Prose then Code else Prose
  }

  /** The first piece of a text, where the next one starts, and the mode it starts in. */
  datatype Step = Step(piece: Piece, next: nat, mode: Mode)

  function FirstStep(s: Text, mode: Mode): (r: Step)
    requires s != []
    ensures 0 < r.next <= |s|
  {
    if s[0] == TICK then Step(Verbatim(s[..Ticks(s)]), Ticks(s), Flip(mode))
    else if mode == Prose && Prefix() <= s then
      var ref, raw := RefOf(s[9..]), RawRef(s[9..]);
      if ref == [] then Step(Verbatim(Prefix()), 9, mode) else Step(Link(ref, raw[|ref|..]), 9 + |raw|, mode)
    else Step(Verbatim(s[..1]), 1, mode)
  }

  datatype Pieces = End | Then(head: Piece, rest: Pieces)

  function Scan(s: Text, mode: Mode): Pieces
    decreases |s|
  {
    if s == [] then End
    else
      var step := FirstStep(s, mode);
      Then(step.piece, Scan(s[step.next..], step.mode))
  }

  function Append(a: Pieces, b: Pieces): Pieces {
    match a
    case End => b
    case Then(head, rest) => Then(head, Append(rest, b))
  }

  function LineLen(s: Text): (n: nat)
    ensures n <= |s| && (s != [] ==> n > 0)
  {
    if s == [] then 0 else if s[0] == NEWLINE then 1 else 1 + LineLen(s[1..])
  }

  predicate HasNewline(s: Text) {
    NEWLINE in s
  }

  /** strings.SplitAfter(s, "\n"): the last line is the one without a newline, maybe empty. */
  function SplitAfter(s: Text): (lines: seq<Text>)
    ensures lines != []
    decreases |s|
  {
    if HasNewline(s) then [s[..LineLen(s)]] + SplitAfter(s[LineLen(s)..]) else [s]
  }

  /** Blanks, then three backticks or three tildes. */
  predicate Fence(s: Text) {
    if s != [] && (s[0] == Rune(' ') || s[0] == Rune('\t')) then Fence(s[1..])
    else |s| >= 3 && s[0] == s[1] == s[2] && (s[0] == TICK || s[0] == Rune('~'))
  }

  function ScanLine(line: Text, mode: Mode): Pieces {
    if mode == Code || Fence(line) then Then(Verbatim(line), End) else Scan(line, Prose)
  }

  function AfterLine(line: Text, mode: Mode): Mode {
    if Fence(line) then Flip(mode) else mode
  }

  function ScanLines(lines: seq<Text>, mode: Mode): Pieces {
    if lines == [] then End else Append(ScanLine(lines[0], mode), ScanLines(lines[1..], AfterLine(lines[0], mode)))
  }

  function PiecesOf(body: Text): Pieces {
    ScanLines(SplitAfter(body), Prose)
  }

  type Resolver = Text -> Option<Text>

  function UrlOf(resolve: Resolver, ref: Text): Text {
    match resolve(ref) case Some(url) => url case None => []
  }

  function PieceSource(p: Piece): Text {
    match p case Verbatim(t) => t case Link(ref, trailing) => Prefix() + ref + trailing
  }

  function PieceText(p: Piece, resolve: Resolver): Text {
    match p case Verbatim(t) => t case Link(ref, trailing) => UrlOf(resolve, ref) + trailing
  }

  function PieceRefs(p: Piece): seq<Text> {
    match p case Verbatim(_) => [] case Link(ref, _) => [ref]
  }

  /** The input that pieces stand for. */
  function Source(pieces: Pieces): Text {
    match pieces case End => [] case Then(head, rest) => PieceSource(head) + Source(rest)
  }

  /** The output, links replaced. */
  function Written(pieces: Pieces, resolve: Resolver): Text {
    match pieces case End => [] case Then(head, rest) => PieceText(head, resolve) + Written(rest, resolve)
  }

  function Refs(pieces: Pieces): seq<Text> {
    match pieces case End => [] case Then(head, rest) => PieceRefs(head) + Refs(rest)
  }

  /** The first reference that does not resolve. */
  function FirstBad(refs: seq<Text>, resolve: Resolver): (bad: Option<Text>)
  {
    if refs == [] then None
    else if resolve(refs[0]).None? then Some(refs[0])
    else FirstBad(refs[1..], resolve)
  }

  lemma {:induction false} FirstBadMeans(refs: seq<Text>, resolve: Resolver)
    ensures FirstBad(refs, resolve).None? <==> forall i :: 0 <= i < |refs| ==> resolve(refs[i]).Some?
    ensures FirstBad(refs, resolve).Some? ==>
            FirstBad(refs, resolve).value in refs && resolve(FirstBad(refs, resolve).value).None?
  {
    if refs != [] {
      FirstBadMeans(refs[1..], resolve);
      assert refs == [refs[0]] + refs[1..];
    }
  }

  lemma Regroup<T>(a: seq<T>, b: seq<T>, c: seq<T>)
    ensures a + (b + c) == (a + b) + c
  {
  }

  lemma Nothing<T>(a: seq<T>)
    ensures [] + a == a && a + [] == a
  {
  }

  lemma {:induction false} SourceJoined(a: Pieces, b: Pieces)
    ensures Source(Append(a, b)) == Source(a) + Source(b)
  {
    match a
    case End => Nothing(Source(b));
    case Then(head, rest) =>
      SourceJoined(rest, b);
      Regroup(PieceSource(head), Source(rest), Source(b));
  }

  lemma {:induction false} WrittenJoined(a: Pieces, b: Pieces, resolve: Resolver)
    ensures Written(Append(a, b), resolve) == Written(a, resolve) + Written(b, resolve)
  {
    match a
    case End => Nothing(Written(b, resolve));
    case Then(head, rest) =>
      WrittenJoined(rest, b, resolve);
      Regroup(PieceText(head, resolve), Written(rest, resolve), Written(b, resolve));
  }

  lemma {:induction false} RefsJoined(a: Pieces, b: Pieces)
    ensures Refs(Append(a, b)) == Refs(a) + Refs(b)
  {
    match a
    case End => Nothing(Refs(b));
    case Then(head, rest) =>
      RefsJoined(rest, b);
      Regroup(PieceRefs(head), Refs(rest), Refs(b));
  }

  lemma {:induction false} FirstBadJoined(a: seq<Text>, b: seq<Text>, resolve: Resolver)
    ensures FirstBad(a + b, resolve) == if FirstBad(a, resolve).Some? then FirstBad(a, resolve)
            else FirstBad(b, resolve)
  {
    if a == [] {
      assert a + b == b;
    } else {
      assert (a + b)[1..] == a[1..] + b;
      FirstBadJoined(a[1..], b, resolve);
    }
  }

  // ----- nothing is lost --------------------------------------------------------------

  lemma Reassemble(s: Text, a: nat, b: nat)
    requires a <= b <= |s|
    ensures s[..a] + s[a..b] == s[..b]
  {
  }

  lemma LinkSource(s: Text, ref: Text, raw: Text)
    requires |s| >= 9 && s[..9] == Prefix() && raw <= s[9..] && ref <= raw
    ensures PieceSource(Link(ref, raw[|ref|..])) == s[..9 + |raw|]
  {
    assert ref == s[9..9 + |ref|] && raw[|ref|..] == s[9 + |ref|..9 + |raw|];
    Reassemble(s, 9, 9 + |ref|);
    Reassemble(s, 9 + |ref|, 9 + |raw|);
  }

  /** The first step stands for the text it goes over. */
  lemma StepSource(s: Text, mode: Mode)
    requires s != []
    ensures PieceSource(FirstStep(s, mode).piece) == s[..FirstStep(s, mode).next]
  {
    if s[0] != TICK && mode == Prose && Prefix() <= s {
      LinkSource(s, RefOf(s[9..]), RawRef(s[9..]));
    }
  }

  lemma Rejoin(s: Text, n: nat)
    requires n <= |s|
    ensures s[..n] + s[n..] == s
  {
  }

  lemma {:induction false} ScanCovers(s: Text, mode: Mode)
    ensures Source(Scan(s, mode)) == s
    decreases |s|
  {
    if s != [] {
      var step := FirstStep(s, mode);
      StepSource(s, mode);
      ScanCovers(s[step.next..], step.mode);
      Rejoin(s, step.next);
    }
  }

  function Concat(lines: seq<Text>): Text {
    if lines == [] then [] else lines[0] + Concat(lines[1..])
  }

  lemma ConcatFront(line: Text, lines: seq<Text>)
    ensures Concat([line] + lines) == line + Concat(lines)
    ensures lines == [] ==> [line] + lines == [line]
  {
    assert ([line] + lines)[1..] == lines;
  }

  lemma {:induction false} SplitJoins(s: Text)
    ensures Concat(SplitAfter(s)) == s
    decreases |s|
  {
    if HasNewline(s) {
      var n := LineLen(s);
      SplitJoins(s[n..]);
      ConcatFront(s[..n], SplitAfter(s[n..]));
      Rejoin(s, n);
    } else {
      ConcatFront(s, []);
      Nothing(s);
    }
  }

  lemma {:induction false} LinesCovered(lines: seq<Text>, mode: Mode)
    ensures Source(ScanLines(lines, mode)) == Concat(lines)
  {
    if lines != [] {
      LinesCovered(lines[1..], AfterLine(lines[0], mode));
      SourceJoined(ScanLine(lines[0], mode), ScanLines(lines[1..], AfterLine(lines[0], mode)));
      ScanCovers(lines[0], Prose);
    }
  }

  /** The pieces of a body spell the body. */
  lemma PiecesSpellBody(body: Text)
    ensures Source(PiecesOf(body)) == body
  {
    LinesCovered(SplitAfter(body), Prose);
    SplitJoins(body);
  }

  // ----- the program -------------------------------------------------------------------

  /** RewritePindocLinks' three results; an error carries the reference it is about. */
  datatype Rewrite = Rewrite(body: Text, refs: seq<Text>, error: Option<Text>)

  lemma RawStep(s: Text, end: nat)
    requires end < |s| && !Ends(s[end]) && s[end] != Rune('/')
    ensures |RawRef(s[end..])| == 1 + |RawRef(s[end + 1..])| && HitsSlash(s[end..]) == HitsSlash(s[end + 1..])
  {
    assert s[end..][1..] == s[end + 1..];
  }

  method ConsumeRef(s: Text) returns (ref: Text, consumed: nat, trailing: Text)
    ensures HitsSlash(s) ==> ref == [] && consumed == 0 && trailing == []
    ensures !HitsSlash(s) ==> ref == RefOf(s) && consumed == |RawRef(s)| && trailing == RawRef(s)[|ref|..]
  {
    var end := 0;
    while end < |s|
      invariant 0 <= end <= |s| && |RawRef(s)| == end + |RawRef(s[end..])| && HitsSlash(s) == HitsSlash(s[end..])
    {
      if s[end].Stray? {
        break;
      }
      if s[end].c == '/' {
        return [], 0, [];
      }
      if IsTerminator(s[end].c) {
        break;
      }
      RawStep(s, end);
      end := end + 1;
    }
    var raw := s[..end];
    assert RawRef(s[end..]) == [] && raw == RawRef(s);
    ref := TrimPunct(raw);
    trailing := raw[|ref|..];
    consumed := end;
  }

  /** The pieces that are left, written behind what is there already. */
  function Finish(left: Pieces, out: Text, refs: seq<Text>, resolve: Resolver): Rewrite {
    match left
    case End => Rewrite(out, refs, None)
    case Then(head, rest) =>
      match head
      case Verbatim(text) => Finish(rest, out + text, refs, resolve)
      case Link(ref, trailing) =>
        match resolve(ref)
        case None => Rewrite([], refs, Some(ref))
        case Some(url) => Finish(rest, out + (url + trailing), refs + [ref], resolve)
  }

  lemma {:induction false} FinishMeans(left: Pieces, out: Text, refs: seq<Text>, resolve: Resolver)
    ensures var r := Finish(left, out, refs, resolve);
            && r.error == FirstBad(Refs(left), resolve)
            && (r.error.None? ==> r.body == out + Written(left, resolve) && r.refs == refs + Refs(left))
  {
    match left
    case End =>
      Nothing(out);
      Nothing(refs);
    case Then(head, rest) =>
      match head {
        case Verbatim(text) =>
          FinishMeans(rest, out + text, refs, resolve);
          Regroup(out, text, Written(rest, resolve));
          Nothing(Refs(rest));
        case Link(ref, trailing) =>
          if resolve(ref).Some? {
            var piece := UrlOf(resolve, ref) + trailing;
            FinishMeans(rest, out + piece, refs + [ref], resolve);
            Regroup(out, piece, Written(rest, resolve));
            Regroup(refs, [ref], Refs(rest));
          }
          FirstBadJoined([ref], Refs(rest), resolve);
      }
  }

  lemma Further(line: Text, i: nat, n: nat)
    requires i + n <= |line|
    ensures line[i..][n..] == line[i + n..]
  {
  }

  /** The line from i on, rewritten behind what is there already. */
  function From(line: Text, i: nat, mode: Mode, out: Text, refs: seq<Text>, resolve: Resolver): Rewrite
    requires i <= |line|
  {
    Finish(Scan(line[i..], mode), out, refs, resolve)
  }

  lemma CopyStep(line: Text, i: nat, mode: Mode, text: Text, n: nat, mode': Mode, out: Text, refs: seq<Text>,
      resolve: Resolver)
    requires i < |line| && FirstStep(line[i..], mode) == Step(Verbatim(text), n, mode')
    ensures From(line, i, mode, out, refs, resolve) == From(line, i + n, mode', out + text, refs, resolve)
  {
    Further(line, i, n);
  }

  lemma LinkStep(line: Text, i: nat, ref: Text, trailing: Text, n: nat, out: Text, refs: seq<Text>, resolve: Resolver)
    requires i < |line| && FirstStep(line[i..], Prose) == Step(Link(ref, trailing), n, Prose)
    ensures resolve(ref).None? ==> From(line, i, Prose, out, refs, resolve) == Rewrite([], refs, Some(ref))
    ensures resolve(ref).Some? ==>
              From(line, i, Prose, out, refs, resolve) ==
                From(line, i + n, Prose, out + (resolve(ref).value + trailing), refs + [ref], resolve)
  {
    Further(line, i, n);
  }

  lemma LinksInProse(s: Text, mode: Mode)
    requires s != [] && FirstStep(s, mode).piece.Link?
    ensures mode == Prose == FirstStep(s, mode).mode
  {
  }

  lemma EndOfLine(line: Text, mode: Mode, out: Text, refs: seq<Text>, resolve: Resolver)
    ensures From(line, |line|, mode, out, refs, resolve) == Rewrite(out, refs, None)
  {
  }

  /** The branches of rewriteLine's loop: a backtick run, a prefix with or without a
      reference, or one character. */
  method NextStep(rest: Text, mode: Mode) returns (step: Step)
    requires rest != []
    ensures step == FirstStep(rest, mode)
  {
    if rest[0] == TICK {
      var n := Ticks(rest);
      return Step(Verbatim(rest[..n]), n, Flip(mode));
    }
    if mode == Prose && Prefix() <= rest {
      var ref, consumed, trailing := ConsumeRef(rest[9..]);
      if ref == [] {
        return Step(Verbatim(Prefix()), 9, mode);
      }
      return Step(Link(ref, trailing), 9 + consumed, mode);
    }
    step := Step(Verbatim(rest[..1]), 1, mode);
  }

  /** rewriteLine. */
  method RewriteLine(line: Text, resolve: Resolver) returns (r: Rewrite)
    ensures r == From(line, 0, Prose, [], [], resolve)
  {
    var out: Text, refs: seq<Text>, mode, i := [], [], Prose, 0;
    ghost var whole := From(line, 0, Prose, [], [], resolve);
    while i < |line|
      invariant 0 <= i <= |line| && whole == From(line, i, mode, out, refs, resolve)
    {
      var step := NextStep(line[i..], mode);
      var n := step.next;
      match step.piece {
        case Verbatim(text) =>
          CopyStep(line, i, mode, text, n, step.mode, out, refs, resolve);
          out := out + text;
        case Link(ref, trailing) =>
          LinksInProse(line[i..], mode);
          LinkStep(line, i, ref, trailing, n, out, refs, resolve);
          var resolved := resolve(ref);
          if resolved.None? {
            return Rewrite([], refs, Some(ref));
          }
          out, refs := out + (resolved.value + trailing), refs + [ref];
      }
      i, mode := i + n, step.mode;
    }
    EndOfLine(line, mode, out, refs, resolve);
    r := Rewrite(out, refs, None);
  }

  /** The references of the lines before the first one that fails. */
  function SettledRefs(lines: seq<Text>, mode: Mode, resolve: Resolver): seq<Text> {
    if lines == [] || FirstBad(Refs(ScanLine(lines[0], mode)), resolve).Some? then []
    else Refs(ScanLine(lines[0], mode)) + SettledRefs(lines[1..], AfterLine(lines[0], mode), resolve)
  }

  /** What rewriting means: every link replaced, or the body as it was. */
  function Rewritten(body: Text, resolve: Resolver): Rewrite {
    match FirstBad(Refs(PiecesOf(body)), resolve)
    case None => Rewrite(Written(PiecesOf(body), resolve), Refs(PiecesOf(body)), None)
    case Some(bad) => Rewrite(body, SettledRefs(SplitAfter(body), Prose, resolve), Some(bad))
  }

  predicate Contains(s: Text) {
    s != [] && (Prefix() <= s || Contains(s[1..]))
  }

  /** The lines that are left, rewritten behind what is there already. */
  function FinishLines(body: Text, left: seq<Text>, mode: Mode, out: Text, refs: seq<Text>, resolve: Resolver): Rewrite
    decreases |left|
  {
    if left == [] then Rewrite(out, refs, None)
    else if Fence(left[0]) || mode == Code then
      FinishLines(body, left[1..], AfterLine(left[0], mode), out + left[0], refs, resolve)
    else
      var r := Finish(Scan(left[0], Prose), [], [], resolve);
      if r.error.Some? then Rewrite(body, refs, r.error)
      else FinishLines(body, left[1..], mode, out + r.body, refs + r.refs, resolve)
  }

  /** What FinishLines gives, in terms of the pieces of its lines. */
  ghost predicate Finishes(r: Rewrite, body: Text, left: seq<Text>, mode: Mode, out: Text, refs: seq<Text>,
      resolve: Resolver) {
    && r.error == FirstBad(Refs(ScanLines(left, mode)), resolve)
    && (r.error.None? ==>
       r.body == out + Written(ScanLines(left, mode), resolve) && r.refs == refs + Refs(ScanLines(left, mode)))
    && (r.error.Some? ==> r.body == body && r.refs == refs + SettledRefs(left, mode, resolve))
  }

  lemma LineJoins(r: Rewrite, body: Text, left: seq<Text>, mode: Mode, out: Text, refs: seq<Text>, resolve: Resolver)
    requires left != [] && FirstBad(Refs(ScanLine(left[0], mode)), resolve).None?
    requires var pieces := ScanLine(left[0], mode);
             Finishes(r, body, left[1..], AfterLine(left[0], mode), out + Written(pieces, resolve), refs + Refs(pieces),
               resolve)
    ensures Finishes(r, body, left, mode, out, refs, resolve)
  {
    var pieces, after := ScanLine(left[0], mode), AfterLine(left[0], mode);
    var rest := ScanLines(left[1..], after);
    WrittenJoined(pieces, rest, resolve);
    RefsJoined(pieces, rest);
    FirstBadJoined(Refs(pieces), Refs(rest), resolve);
    Regroup(out, Written(pieces, resolve), Written(rest, resolve));
    Regroup(refs, Refs(pieces), Refs(rest));
    Regroup(refs, Refs(pieces), SettledRefs(left[1..], after, resolve));
  }

  lemma LineBreaks(body: Text, left: seq<Text>, mode: Mode, out: Text, refs: seq<Text>, resolve: Resolver)
    requires left != [] && FirstBad(Refs(ScanLine(left[0], mode)), resolve).Some?
    ensures Finishes(Rewrite(body, refs, FirstBad(Refs(ScanLine(left[0], mode)), resolve)), body, left, mode, out, refs,
            resolve)
  {
    var pieces, rest := ScanLine(left[0], mode), ScanLines(left[1..], AfterLine(left[0], mode));
    RefsJoined(pieces, rest);
    FirstBadJoined(Refs(pieces), Refs(rest), resolve);
    Nothing(refs);
  }

  lemma {:induction false} FinishLinesMeans(body: Text, left: seq<Text>, mode: Mode, out: Text, refs: seq<Text>,
      resolve: Resolver)
    ensures Finishes(FinishLines(body, left, mode, out, refs, resolve), body, left, mode, out, refs, resolve)
    decreases |left|
  {
    var r := FinishLines(body, left, mode, out, refs, resolve);
    if left == [] {
      Nothing(out);
      Nothing(refs);
    } else if Fence(left[0]) || mode == Code {
      VerbatimLine(left[0], resolve);
      Nothing(refs);
      FinishLinesMeans(body, left[1..], AfterLine(left[0], mode), out + left[0], refs, resolve);
      LineJoins(r, body, left, mode, out, refs, resolve);
    } else {
      var line := Finish(Scan(left[0], Prose), [], [], resolve);
      LineMeans(left[0], resolve);
      if line.error.Some? {
        LineBreaks(body, left, mode, out, refs, resolve);
      } else {
        FinishLinesMeans(body, left[1..], mode, out + line.body, refs + line.refs, resolve);
        LineJoins(r, body, left, mode, out, refs, resolve);
      }
    }
  }

  lemma LineMeans(line: Text, resolve: Resolver)
    ensures var r := Finish(Scan(line, Prose), [], [], resolve);
            && r.error == FirstBad(Refs(Scan(line, Prose)), resolve)
            && (r.error.None? ==> r.body == Written(Scan(line, Prose), resolve) && r.refs == Refs(Scan(line, Prose)))
  {
    FinishMeans(Scan(line, Prose), [], [], resolve);
    Nothing(Written(Scan(line, Prose), resolve));
    Nothing(Refs(Scan(line, Prose)));
  }

  lemma VerbatimLine(line: Text, resolve: Resolver)
    ensures Written(Then(Verbatim(line), End), resolve) == line && Refs(Then(Verbatim(line), End)) == []
            && FirstBad([], resolve).None?
  {
  }

  lemma {:induction false} NoRefsCopies(pieces: Pieces, resolve: Resolver)
    ensures Refs(pieces) == [] ==> Written(pieces, resolve) == Source(pieces)
  {
    if pieces.Then? {
      NoRefsCopies(pieces.rest, resolve);
    }
  }

  lemma {:induction false} ContainsTail(s: Text, k: nat)
    requires k <= |s| && Contains(s[k..])
    ensures Contains(s)
  {
    if k > 0 {
      assert s[k..] == s[1..][k - 1..];
      ContainsTail(s[1..], k - 1);
    }
  }

  lemma {:induction false} ContainsHead(s: Text, k: nat)
    requires k <= |s| && Contains(s[..k])
    ensures Contains(s)
  {
    assert s[..k][1..] == s[1..][..k - 1];
    if !(Prefix() <= s[..k]) {
      ContainsHead(s[1..], k - 1);
    }
  }

  lemma {:induction false} NothingToScan(s: Text, mode: Mode)
    requires !Contains(s)
    ensures Refs(Scan(s, mode)) == []
    decreases |s|
  {
    if s != [] {
      var step := FirstStep(s, mode);
      if Contains(s[step.next..]) {
        ContainsTail(s, step.next);
      }
      NothingToScan(s[step.next..], step.mode);
    }
  }

  lemma NothingInLine(s: Text, mode: Mode)
    requires !Contains(s)
    ensures Refs(ScanLine(s, mode)) == []
  {
    NothingToScan(s, Prose);
    VerbatimLine(s, r => None);
  }

  lemma {:induction false} NothingInLines(s: Text, mode: Mode)
    requires !Contains(s)
    ensures Refs(ScanLines(SplitAfter(s), mode)) == []
    decreases |s|
  {
    if HasNewline(s) {
      var n := LineLen(s);
      var line, after := s[..n], AfterLine(s[..n], mode);
      if Contains(line) {
        ContainsHead(s, n);
      }
      if Contains(s[n..]) {
        ContainsTail(s, n);
      }
      NothingInLine(line, mode);
      NothingInLines(s[n..], after);
      RefsJoined(ScanLine(line, mode), ScanLines(SplitAfter(s[n..]), after));
      assert SplitAfter(s)[1..] == SplitAfter(s[n..]);
    } else {
      NothingInLine(s, mode);
      OneLine(s, mode);
    }
  }

  lemma {:induction false} AppendEnd(a: Pieces)
    ensures Append(a, End) == a
  {
    if a.Then? {
      AppendEnd(a.rest);
    }
  }

  lemma OneLine(s: Text, mode: Mode)
    ensures ScanLines([s], mode) == ScanLine(s, mode)
  {
    assert [s][1..] == [];
    AppendEnd(ScanLine(s, mode));
  }

  /** The two early exits of RewritePindocLinks give what the full pass would. */
  lemma EarlyExits(body: Text, resolve: Resolver)
    ensures !Contains(body) ==> Refs(PiecesOf(body)) == []
    ensures Refs(PiecesOf(body)) == [] ==> Rewritten(body, resolve) == Rewrite(body, [], None)
  {
    if !Contains(body) {
      NothingInLines(body, Prose);
    }
    NoRefsCopies(PiecesOf(body), resolve);
    PiecesSpellBody(body);
  }

  /** Going over the lines one by one gives what rewriting means. */
  lemma LinesRewrite(body: Text, resolve: Resolver)
    ensures FinishLines(body, SplitAfter(body), Prose, [], [], resolve) == Rewritten(body, resolve)
  {
    var lines := SplitAfter(body);
    FinishLinesMeans(body, lines, Prose, [], [], resolve);
    Nothing(Written(ScanLines(lines, Prose), resolve));
    Nothing(Refs(ScanLines(lines, Prose)));
    Nothing(SettledRefs(lines, Prose, resolve));
  }

  method RewritePindocLinks(body: Text, resolve: Resolver) returns (r: Rewrite)
    ensures r == Rewritten(body, resolve)
  {
    EarlyExits(body, resolve);
    if !Contains(body) {
      return Rewrite(body, [], None);
    }
    LinesRewrite(body, resolve);
    var lines := SplitAfter(body);
    var out: Text, refs: seq<Text>, mode := [], [], Prose;
    assert lines[0..] == lines;
    for k := 0 to |lines|
      invariant FinishLines(body, lines, Prose, [], [], resolve) ==
                FinishLines(body, lines[k..], mode, out, refs, resolve)
    {
      var line := lines[k];
      assert lines[k..][1..] == lines[k + 1..];
      if Fence(line) || mode == Code {
        out, mode := out + line, AfterLine(line, mode);
        continue;
      }
      var rewritten := RewriteLine(line, resolve);
      assert line[0..] == line;
      if rewritten.error.Some? {
        return Rewrite(body, refs, rewritten.error);
      }
      out, refs := out + rewritten.body, refs + rewritten.refs;
    }
    if |refs| == 0 {
      return Rewrite(body, [], None);
    }
    r := Rewrite(out, refs, None);
  }
}
