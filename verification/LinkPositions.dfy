/** Which references the scanner captures, said by line and position: the output is the
    input with exactly those replaced. */
module LinkPositions {
  import opened Wrappers
  import opened ArtifactLinks

  // ----- what is captured, without a scanner ------------------------------------------

  /** How many backtick runs a text holds. */
  function Runs(t: Text): nat {
    if t == [] then 0
    else
      var n := |t| - 1;
      Runs(t[..n]) + (if t[n] == TICK && (n == 0 || t[n - 1] != TICK) then 1 else 0)
  }

  function Parity(n: nat): Mode {
    if n % 2 == 0 then Prose else Code
  }

  predicate PrefixAt(s: Text, i: nat) {
    i <= |s| && Prefix() <= s[i..]
  }

  /** The raw text, and the reference, after a prefix at i. */
  function RawAt(s: Text, i: nat): (raw: Text)
    requires PrefixAt(s, i)
    ensures i + 9 + |raw| <= |s| && raw == s[i + 9..i + 9 + |raw|]
  {
    RawRef(s[i + 9..])
  }

  function RefAt(s: Text, i: nat): (ref: Text)
    ensures ref != [] ==> PrefixAt(s, i) && |ref| <= |RawAt(s, i)| && ref == s[i + 9..i + 9 + |ref|]
  {
    if PrefixAt(s, i) then RefOf(s[i + 9..]) else []
  }

  /** A link on a line: a prefix with a reference, an even number of backtick runs before it. */
  predicate CapturedAt(line: Text, i: nat) {
    i < |line| && RefAt(line, i) != [] && Parity(Runs(line[..i])) == Prose
  }

  function SpliceLine(line: Text, i: nat, resolve: Resolver): Text
    requires i <= |line|
    decreases |line| - i
  {
    if i == |line| then []
    else if CapturedAt(line, i) then
      UrlOf(resolve, RefAt(line, i)) + SpliceLine(line, i + 9 + |RefAt(line, i)|, resolve)
    else [line[i]] + SpliceLine(line, i + 1, resolve)
  }

  function LineRefs(line: Text, i: nat): seq<Text>
    requires i <= |line|
    decreases |line| - i
  {
    if i == |line| then []
    else if CapturedAt(line, i) then [RefAt(line, i)] + LineRefs(line, i + 9 + |RefAt(line, i)|)
    else LineRefs(line, i + 1)
  }

  /** Positions without a capture are copied. */
  lemma {:induction false} CopiedInLine(line: Text, i: nat, j: nat, resolve: Resolver)
    requires i <= j <= |line| && forall p :: i <= p < j ==> !CapturedAt(line, p)
    ensures SpliceLine(line, i, resolve) == line[i..j] + SpliceLine(line, j, resolve)
    decreases j - i
  {
    if i < j {
      CopiedInLine(line, i + 1, j, resolve);
      OneMore(line, i, j, SpliceLine(line, j, resolve));
    } else {
      Nothing(SpliceLine(line, j, resolve));
    }
  }

  lemma OneMore(line: Text, i: nat, j: nat, x: Text)
    requires i < j <= |line|
    ensures [line[i]] + (line[i + 1..j] + x) == line[i..j] + x
  {
  }

  lemma {:induction false} NoRefsBetween(line: Text, i: nat, j: nat)
    requires i <= j <= |line| && forall p :: i <= p < j ==> !CapturedAt(line, p)
    ensures LineRefs(line, i) == LineRefs(line, j)
    decreases j - i
  {
    if i < j {
      NoRefsBetween(line, i + 1, j);
    }
  }

  lemma OtherStart(t: Text)
    requires t == [] || t[0] != Rune('p')
    ensures !(Prefix() <= t)
  {
  }

  /** The prefix holds no backtick, no newline and no second prefix start. */
  lemma PrefixLetters(t: Text)
    requires Prefix() <= t
    ensures forall k :: 0 <= k < 9 ==> t[k] == Prefix()[k] && t[k] != TICK && t[k] != NEWLINE
    ensures forall k :: 0 < k < 9 ==> !(Prefix() <= t[k..])
  {
    assert t[0] == Rune('p') && t[1] == Rune('i') && t[2] == Rune('n') && t[3] == Rune('d') && t[4] == Rune('o');
    assert t[5] == Rune('c') && t[6] == Rune(':') && t[7] == Rune('/') && t[8] == Rune('/');
    forall k | 0 < k < 9 ensures !(Prefix() <= t[k..]) {
      OtherStart(t[k..]);
    }
  }

  lemma PrefixLetter(t: Text, k: nat)
    requires Prefix() <= t && k < 9
    ensures t[k] == Prefix()[k] && !Ends(t[k]) && t[k] != TICK
  {
    PrefixLetters(t);
    assert t[k] in [Rune('p'), Rune('i'), Rune('n'), Rune('d'), Rune('o'), Rune('c'), Rune(':'), Rune('/')];
  }

  /** No prefix starts inside a raw reference: its slashes would have emptied it. */
  lemma {:induction false} NoPrefixInside(t: Text, k: nat)
    requires k < |RawRef(t)| && Prefix() <= t[k..]
    ensures HitsSlash(t)
  {
    if k == 0 {
      PrefixSlash(t);
    } else {
      assert t[k..] == t[1..][k - 1..];
      NoPrefixInside(t[1..], k - 1);
    }
  }

  lemma PrefixSlash(t: Text)
    requires Prefix() <= t
    ensures HitsSlash(t)
  {
    SlashAhead(t, 7);
  }

  lemma {:induction false} SlashAhead(t: Text, k: nat)
    requires k < |t| && t[k] == Rune('/') && forall i :: 0 <= i < k ==> !Ends(t[i])
    ensures HitsSlash(t)
  {
    if k > 0 {
      SlashAhead(t[1..], k - 1);
    }
  }

  // ----- the scanner finds exactly these ------------------------------------------------

  lemma {:induction false} NoRunStarts(t: Text, i: nat, j: nat)
    requires i <= j <= |t| && forall k :: i <= k < j ==> t[k] != TICK
    ensures Runs(t[..j]) == Runs(t[..i])
    decreases j
  {
    if i < j {
      NoRunStarts(t, i, j - 1);
      assert t[..j][..j - 1] == t[..j - 1];
    }
  }

  lemma {:induction false} OneRun(t: Text, i: nat, n: nat)
    requires i + n <= |t| && n > 0 && (forall k :: i <= k < i + n ==> t[k] == TICK) && (i > 0 ==> t[i - 1] != TICK)
    ensures Runs(t[..i + n]) == Runs(t[..i]) + 1
    decreases n
  {
    assert t[..i + n][..i + n - 1] == t[..i + n - 1];
    if n > 1 {
      OneRun(t, i, n - 1);
    }
  }

  /** Scanning is at a place between backtick runs, in the mode their number says. */
  ghost predicate Aligned(line: Text, i: nat, mode: Mode) {
    && i <= |line|
    && mode == Parity(Runs(line[..i]))
    && (0 < i < |line| && line[i] == TICK ==> line[i - 1] != TICK)
  }

  lemma TicksFree(line: Text, i: nat, n: nat)
    requires i < |line| && line[i] == TICK && n == Ticks(line[i..])
    ensures 0 < n && i + n <= |line| && (forall k :: i <= k < i + n ==> line[k] == TICK)
            && (i + n < |line| ==> line[i + n] != TICK)
    ensures forall p :: i <= p < i + n ==> !CapturedAt(line, p)
  {
    TicksMean(line[i..]);
    forall k | i <= k < i + n ensures line[k] == TICK {
      assert line[k] == line[i..][k - i];
    }
    assert i + n < |line| ==> line[i + n] == line[i..][n];
    forall p | i <= p < i + n ensures !CapturedAt(line, p) {
      OtherStart(line[p..]);
    }
  }

  lemma AfterTicks(line: Text, i: nat, mode: Mode, n: nat)
    requires i < |line| && Aligned(line, i, mode) && line[i] == TICK && n == Ticks(line[i..])
    ensures 0 < n && Aligned(line, i + n, Flip(mode))
  {
    TicksFree(line, i, n);
    OneRun(line, i, n);
  }

  /** Going over characters that are no backticks. */
  lemma AfterOthers(line: Text, i: nat, mode: Mode, j: nat)
    requires i < j <= |line| && Aligned(line, i, mode) && forall k :: i <= k < j ==> line[k] != TICK
    ensures Aligned(line, j, mode)
  {
    NoRunStarts(line, i, j);
  }

  /** No backtick and no capture inside a prefix. */
  lemma WithinPrefix(line: Text, i: nat)
    requires PrefixAt(line, i)
    ensures i + 9 <= |line| && (forall k :: i <= k < i + 9 ==> line[k] != TICK)
            && (forall p :: i < p < i + 9 ==> !CapturedAt(line, p))
  {
    var rest := line[i..];
    PrefixLetters(rest);
    forall k | i <= k < i + 9 ensures line[k] != TICK {
      assert line[k] == rest[k - i];
    }
    forall p | i < p < i + 9 ensures !CapturedAt(line, p) {
      assert line[p..] == rest[p - i..];
    }
  }

  /** Nor inside the raw reference of a link. */
  lemma WithinRaw(line: Text, i: nat)
    requires RefAt(line, i) != []
    ensures var b := i + 9 + |RawAt(line, i)|;
            (forall k :: i + 9 <= k < b ==> line[k] != TICK) && (forall p :: i + 9 <= p < b ==> !CapturedAt(line, p))
  {
    var t, b := line[i + 9..], i + 9 + |RawAt(line, i)|;
    RawRefEnds(t);
    forall k | i + 9 <= k < b ensures line[k] != TICK {
      assert line[k] == t[k - (i + 9)];
    }
    forall p | i + 9 <= p < b ensures !CapturedAt(line, p) {
      assert line[p..] == t[p - (i + 9)..];
      if PrefixAt(line, p) {
        NoPrefixInside(t, p - (i + 9));
      }
    }
  }

  /** These pieces write what splicing the line from j on gives. */
  ghost predicate Agrees(pieces: Pieces, line: Text, j: nat, resolve: Resolver) {
    j <= |line| && Written(pieces, resolve) == SpliceLine(line, j, resolve) && Refs(pieces) == LineRefs(line, j)
  }

  lemma Copying(line: Text, i: nat, j: nat, text: Text, left: Pieces, resolve: Resolver)
    requires i <= j <= |line| && text == line[i..j] && forall p :: i <= p < j ==> !CapturedAt(line, p)
    requires Agrees(left, line, j, resolve)
    ensures Agrees(Then(Verbatim(text), left), line, i, resolve)
  {
    CopiedInLine(line, i, j, resolve);
    NoRefsBetween(line, i, j);
    Nothing(Refs(left));
  }

  lemma Unfolded(line: Text, i: nat, a: nat, resolve: Resolver)
    requires CapturedAt(line, i) && a == i + 9 + |RefAt(line, i)|
    ensures SpliceLine(line, i, resolve) == UrlOf(resolve, RefAt(line, i)) + SpliceLine(line, a, resolve)
    ensures LineRefs(line, i) == [RefAt(line, i)] + LineRefs(line, a)
  {
    assert i != |line|;
    assert SpliceLine(line, i, resolve) ==
      UrlOf(resolve, RefAt(line, i)) + SpliceLine(line, i + 9 + |RefAt(line, i)|, resolve);
    assert LineRefs(line, i) == [RefAt(line, i)] + LineRefs(line, i + 9 + |RefAt(line, i)|);
  }

  lemma LinkSplices(line: Text, i: nat, a: nat, b: nat, resolve: Resolver)
    requires CapturedAt(line, i) && a == i + 9 + |RefAt(line, i)| && b == i + 9 + |RawAt(line, i)|
    ensures a <= b && SpliceLine(line, i, resolve) ==
            UrlOf(resolve, RefAt(line, i)) + (line[a..b] + SpliceLine(line, b, resolve))
    ensures LineRefs(line, i) == [RefAt(line, i)] + LineRefs(line, b)
  {
    assert forall p :: a <= p < b ==> !CapturedAt(line, p) by {
      WithinRaw(line, i);
    }
    CopiedInLine(line, a, b, resolve);
    NoRefsBetween(line, a, b);
    Unfolded(line, i, a, resolve);
  }

  lemma Linking(line: Text, i: nat, a: nat, b: nat, trailing: Text, left: Pieces, resolve: Resolver)
    requires CapturedAt(line, i) && a == i + 9 + |RefAt(line, i)| && b == i + 9 + |RawAt(line, i)| && a <= b
    requires trailing == line[a..b] && Agrees(left, line, b, resolve)
    ensures Agrees(Then(Link(RefAt(line, i), trailing), left), line, i, resolve)
  {
    LinkSplices(line, i, a, b, resolve);
    Regroup(UrlOf(resolve, RefAt(line, i)), trailing, Written(left, resolve));
  }

  /** The scanner's step from i, by what stands there. */
  lemma TicksFirst(line: Text, i: nat, mode: Mode, n: nat)
    requires i < |line| && line[i] == TICK && n == Ticks(line[i..])
    ensures i + n <= |line| && FirstStep(line[i..], mode) == Step(Verbatim(line[i..i + n]), n, Flip(mode))
  {
    assert line[i..][..n] == line[i..i + n];
  }

  lemma PlainFirst(line: Text, i: nat, mode: Mode)
    requires i < |line| && line[i] != TICK && (mode == Code || !PrefixAt(line, i))
    ensures FirstStep(line[i..], mode) == Step(Verbatim(line[i..i + 1]), 1, mode)
  {
    assert line[i..][..1] == line[i..i + 1];
  }

  lemma EmptyRefFirst(line: Text, i: nat)
    requires PrefixAt(line, i) && RefAt(line, i) == []
    ensures i + 9 <= |line| && FirstStep(line[i..], Prose) == Step(Verbatim(line[i..i + 9]), 9, Prose)
  {
    PrefixLetter(line[i..], 0);
    Further(line, i, 9);
    assert RefOf(line[i..][9..]) == [];
    assert line[i..][..9] == line[i..i + 9] == Prefix();
  }

  lemma RawSlice(line: Text, i: nat, a: nat, b: nat)
    requires RefAt(line, i) != [] && a == i + 9 + |RefAt(line, i)| && b == i + 9 + |RawAt(line, i)|
    ensures a <= b <= |line| && RawAt(line, i)[|RefAt(line, i)|..] == line[a..b]
  {
  }

  lemma LinkFirst(line: Text, i: nat, a: nat, b: nat)
    requires PrefixAt(line, i) && RefAt(line, i) != [] && a == i + 9 + |RefAt(line, i)| && b == i + 9 + |RawAt(line, i)|
    ensures a <= b <= |line| && FirstStep(line[i..], Prose) == Step(Link(RefAt(line, i), line[a..b]), b - i, Prose)
  {
    PrefixLetter(line[i..], 0);
    Further(line, i, 9);
    RawSlice(line, i, a, b);
  }

  lemma CopyCase(line: Text, i: nat, j: nat, mode: Mode, mode': Mode, resolve: Resolver)
    requires i < j <= |line| && FirstStep(line[i..], mode) == Step(Verbatim(line[i..j]), j - i, mode')
    requires Agrees(Scan(line[j..], mode'), line, j, resolve) && forall p :: i <= p < j ==> !CapturedAt(line, p)
    ensures Agrees(Scan(line[i..], mode), line, i, resolve)
  {
    ScanFrom(line, i, j, mode, FirstStep(line[i..], mode));
    Copying(line, i, j, line[i..j], Scan(line[j..], mode'), resolve);
  }

  lemma LinkCase(line: Text, i: nat, a: nat, b: nat, resolve: Resolver)
    requires CapturedAt(line, i) && a == i + 9 + |RefAt(line, i)| && b == i + 9 + |RawAt(line, i)| && a <= b
    requires FirstStep(line[i..], Prose) == Step(Link(RefAt(line, i), line[a..b]), b - i, Prose)
    requires Agrees(Scan(line[b..], Prose), line, b, resolve)
    ensures Agrees(Scan(line[i..], Prose), line, i, resolve)
  {
    ScanFrom(line, i, b, Prose, FirstStep(line[i..], Prose));
    Linking(line, i, a, b, line[a..b], Scan(line[b..], Prose), resolve);
  }

  lemma ScanFrom(line: Text, i: nat, j: nat, mode: Mode, step: Step)
    requires i < |line| && step == FirstStep(line[i..], mode) && j == i + step.next
    ensures Scan(line[i..], mode) == Then(step.piece, Scan(line[j..], step.mode))
  {
    Further(line, i, step.next);
  }

  lemma AfterPrefix(line: Text, i: nat, j: nat)
    requires PrefixAt(line, i) && Aligned(line, i, Prose)
    requires j == if RefAt(line, i) == [] then i + 9 else i + 9 + |RawAt(line, i)|
    ensures i < j <= |line| && Aligned(line, j, Prose)
  {
    WithinPrefix(line, i);
    if RefAt(line, i) != [] {
      WithinRaw(line, i);
    }
    AfterOthers(line, i, Prose, j);
  }

  lemma EmptyRefCase(line: Text, i: nat, resolve: Resolver)
    requires PrefixAt(line, i) && i + 9 <= |line| && RefAt(line, i) == []
             && Agrees(Scan(line[i + 9..], Prose), line, i + 9, resolve)
    ensures Agrees(Scan(line[i..], Prose), line, i, resolve)
  {
    WithinPrefix(line, i);
    EmptyRefFirst(line, i);
    CopyCase(line, i, i + 9, Prose, Prose, resolve);
  }

  lemma WholeLinkCase(line: Text, i: nat, b: nat, resolve: Resolver)
    requires CapturedAt(line, i) && b == i + 9 + |RawAt(line, i)| && Agrees(Scan(line[b..], Prose), line, b, resolve)
    ensures Agrees(Scan(line[i..], Prose), line, i, resolve)
  {
    var a := i + 9 + |RefAt(line, i)|;
    LinkFirst(line, i, a, b);
    LinkCase(line, i, a, b, resolve);
  }

  lemma TicksCase(line: Text, i: nat, mode: Mode, n: nat, resolve: Resolver)
    requires i < |line| && line[i] == TICK && n == Ticks(line[i..]) && 0 < n && i + n <= |line|
    requires Agrees(Scan(line[i + n..], Flip(mode)), line, i + n, resolve)
    ensures Agrees(Scan(line[i..], mode), line, i, resolve)
  {
    TicksFree(line, i, n);
    TicksFirst(line, i, mode, n);
    CopyCase(line, i, i + n, mode, Flip(mode), resolve);
  }

  lemma PlainCase(line: Text, i: nat, mode: Mode, resolve: Resolver)
    requires i < |line| && Aligned(line, i, mode) && line[i] != TICK && (mode == Code || !PrefixAt(line, i))
    requires Agrees(Scan(line[i + 1..], mode), line, i + 1, resolve)
    ensures Agrees(Scan(line[i..], mode), line, i, resolve)
  {
    PlainFirst(line, i, mode);
    CopyCase(line, i, i + 1, mode, mode, resolve);
  }

  lemma NothingLeft(line: Text, mode: Mode, resolve: Resolver)
    ensures Agrees(Scan(line[|line|..], mode), line, |line|, resolve)
  {
    assert line[|line|..] == [];
  }

  lemma {:induction false} ScanIsSplice(line: Text, i: nat, mode: Mode, resolve: Resolver)
    requires Aligned(line, i, mode)
    ensures Agrees(Scan(line[i..], mode), line, i, resolve)
    decreases |line| - i
  {
    if i == |line| {
      NothingLeft(line, mode, resolve);
    } else {
      var b, mode' := OneScanStep(line, i, mode, resolve);
      ScanIsSplice(line, b, mode', resolve);
    }
  }

  /** Agreement at b gives agreement at i. */
  ghost predicate CarriesBack(line: Text, i: nat, mode: Mode, b: nat, mode': Mode, resolve: Resolver)
    requires i <= |line| && b <= |line|
  {
    Agrees(Scan(line[b..], mode'), line, b, resolve) ==> Agrees(Scan(line[i..], mode), line, i, resolve)
  }

  /** Where the scan goes on after one step, from where agreement carries back. */
  lemma OneScanStep(line: Text, i: nat, mode: Mode, resolve: Resolver) returns (b: nat, mode': Mode)
    requires i < |line| && Aligned(line, i, mode)
    ensures i < b <= |line| && Aligned(line, b, mode')
    ensures CarriesBack(line, i, mode, b, mode', resolve)
  {
    if line[i] == TICK {
      var n := Ticks(line[i..]);
      b, mode' := i + n, Flip(mode);
      OneTickStep(line, i, mode, n, resolve);
    } else if mode == Code || !PrefixAt(line, i) {
      b, mode' := OnePlainStep(line, i, mode, resolve);
    } else {
      b, mode' := OnePrefixStep(line, i, resolve);
    }
  }

  lemma OneTickStep(line: Text, i: nat, mode: Mode, n: nat, resolve: Resolver)
    requires i < |line| && Aligned(line, i, mode) && line[i] == TICK && n == Ticks(line[i..])
    ensures 0 < n && i + n <= |line| && Aligned(line, i + n, Flip(mode))
    ensures CarriesBack(line, i, mode, i + n, Flip(mode), resolve)
  {
    AfterTicks(line, i, mode, n);
    if Agrees(Scan(line[i + n..], Flip(mode)), line, i + n, resolve) {
      TicksCase(line, i, mode, n, resolve);
    }
  }

  lemma OnePlainStep(line: Text, i: nat, mode: Mode, resolve: Resolver) returns (b: nat, mode': Mode)
    requires i < |line| && Aligned(line, i, mode) && line[i] != TICK && (mode == Code || !PrefixAt(line, i))
    ensures i < b <= |line| && Aligned(line, b, mode')
    ensures CarriesBack(line, i, mode, b, mode', resolve)
  {
    AfterOthers(line, i, mode, i + 1);
    b, mode' := i + 1, mode;
    if Agrees(Scan(line[b..], mode'), line, b, resolve) {
      PlainCase(line, i, mode, resolve);
    }
  }

  lemma OnePrefixStep(line: Text, i: nat, resolve: Resolver) returns (b: nat, mode': Mode)
    requires i < |line| && Aligned(line, i, Prose) && line[i] != TICK && PrefixAt(line, i)
    ensures i < b <= |line| && Aligned(line, b, mode')
    ensures CarriesBack(line, i, Prose, b, mode', resolve)
  {
    mode' := Prose;
    if RefAt(line, i) == [] {
      AfterPrefix(line, i, i + 9);
      b := i + 9;
      if Agrees(Scan(line[b..], Prose), line, b, resolve) {
        EmptyRefCase(line, i, resolve);
      }
    } else {
      b := i + 9 + |RawAt(line, i)|;
      AfterPrefix(line, i, b);
      if Agrees(Scan(line[b..], Prose), line, b, resolve) {
        WholeLinkCase(line, i, b, resolve);
      }
    }
  }

  // ----- all lines -------------------------------------------------------------------

  /** How many of the first k lines are fences. */
  function Fences(lines: seq<Text>, k: nat): nat
    requires k <= |lines|
  {
    if k == 0 then 0 else Fences(lines, k - 1) + (if Fence(lines[k - 1]) then 1 else 0)
  }

  /** A line whose links count: no fence itself, and an even number of fences before it. */
  predicate Open(lines: seq<Text>, k: nat) {
    k < |lines| && !Fence(lines[k]) && Parity(Fences(lines, k)) == Prose
  }

  /** The lines from k on with every captured prefix-and-reference replaced. */
  function Splice(lines: seq<Text>, k: nat, resolve: Resolver): Text
    requires k <= |lines|
    decreases |lines| - k
  {
    if k == |lines| then []
    else (if Open(lines, k) then SpliceLine(lines[k], 0, resolve) else lines[k]) + Splice(lines, k + 1, resolve)
  }

  /** The captured references from line k on, in order. */
  function RefsFrom(lines: seq<Text>, k: nat): seq<Text>
    requires k <= |lines|
    decreases |lines| - k
  {
    if k == |lines| then []
    else (if Open(lines, k) then LineRefs(lines[k], 0) else []) + RefsFrom(lines, k + 1)
  }

  lemma OneLineIsSplice(lines: seq<Text>, k: nat, mode: Mode, resolve: Resolver)
    requires k < |lines| && mode == Parity(Fences(lines, k))
    ensures Written(ScanLine(lines[k], mode), resolve) == if Open(lines, k) then SpliceLine(lines[k], 0, resolve)
            else lines[k]
    ensures Refs(ScanLine(lines[k], mode)) == if Open(lines, k) then LineRefs(lines[k], 0) else []
    ensures AfterLine(lines[k], mode) == Parity(Fences(lines, k + 1))
  {
    var line := lines[k];
    if Open(lines, k) {
      assert line[..0] == [] && line[0..] == line;
      ScanIsSplice(line, 0, Prose, resolve);
    } else {
      VerbatimLine(line, resolve);
    }
  }

  lemma {:induction false} LinesAreSplice(lines: seq<Text>, k: nat, mode: Mode, resolve: Resolver)
    requires k <= |lines| && mode == Parity(Fences(lines, k))
    ensures Written(ScanLines(lines[k..], mode), resolve) == Splice(lines, k, resolve)
    ensures Refs(ScanLines(lines[k..], mode)) == RefsFrom(lines, k)
    decreases |lines| - k
  {
    if k < |lines| {
      var after := AfterLine(lines[k], mode);
      OneLineIsSplice(lines, k, mode, resolve);
      LinesAreSplice(lines, k + 1, after, resolve);
      assert lines[k..][1..] == lines[k + 1..];
      WrittenJoined(ScanLine(lines[k], mode), ScanLines(lines[k + 1..], after), resolve);
      RefsJoined(ScanLine(lines[k], mode), ScanLines(lines[k + 1..], after));
    }
  }

  // ----- the results --------------------------------------------------------------------

  /** Rewriting replaces exactly the captured references, in order, and copies the rest;
      when one of them does not resolve, the body stays as it was and the first such is reported. */
  lemma RewritingSplices(body: Text, resolve: Resolver)
    ensures var r, lines := Rewritten(body, resolve), SplitAfter(body);
            var refs := RefsFrom(lines, 0);
            && Concat(lines) == body
            && r.error == FirstBad(refs, resolve)
            && (r.error.None? ==> r.body == Splice(lines, 0, resolve) && r.refs == refs)
            && (r.error.Some? ==> r.body == body)
  {
    var lines := SplitAfter(body);
    SplitJoins(body);
    assert lines[0..] == lines;
    LinesAreSplice(lines, 0, Prose, resolve);
  }

  /** A resolver that answers with the reference's own link changes nothing. */
  lemma SameLinkIsIdentity(body: Text, resolve: Resolver)
    requires forall ref :: resolve(ref) == Some(Prefix() + ref)
    ensures Rewritten(body, resolve) == Rewrite(body, Refs(PiecesOf(body)), None)
  {
    OwnLinksSpell(PiecesOf(body), resolve);
    PiecesSpellBody(body);
    FirstBadMeans(Refs(PiecesOf(body)), resolve);
  }

  lemma {:induction false} OwnLinksSpell(pieces: Pieces, resolve: Resolver)
    requires forall ref :: resolve(ref) == Some(Prefix() + ref)
    ensures Written(pieces, resolve) == Source(pieces)
  {
    if pieces.Then? {
      OwnLinksSpell(pieces.rest, resolve);
    }
  }
}
