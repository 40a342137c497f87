/** The acceptance-checkbox counter behind the claimed_done gate
    (internal/pindoc/httpapi/task_meta.go). */
module Acceptance {
  import opened Wrappers

  /** \s of Go's regular expressions. */
  predicate ReSpace(c: char) {
    c == '\t' || c == '\n' || c == '\U{000C}' || c == '\r' || c == ' '
  }

  ghost predicate AllReSpace(s: string) {
    forall i :: 0 <= i < |s| ==> ReSpace(s[i])
  }

  predicate Bullet(c: char) {
    c == '-' || c == '*' || c == '+'
  }

  predicate Resolving(mark: char) {
    mark == 'x' || mark == 'X' || mark == '~' || mark == '-'
  }

  predicate Mark(mark: char) {
    mark == ' ' || Resolving(mark)
  }

  function SkipSpace(s: string): string {
    if s != "" && ReSpace(s[0]) then SkipSpace(s[1..]) else s
  }

  /** The first capture group of `^\s*[-*+]\s+\[([ xX~-])\]\s+`, if the line matches. */
  function Checkbox(line: string): Option<char> {
    var item := SkipSpace(line);
    if item == "" || !Bullet(item[0]) then None
    else
      var box := SkipSpace(item[1..]);
      if |box| < |item| - 1 && |box| >= 4 && box[0] == '[' && Mark(box[1]) && box[2] == ']' && ReSpace(box[3])
      then Some(box[1]) else None
  }

  /** The regular expression read as a concatenation. */
  ghost predicate Reads(line: string, lead: string, bullet: char, gap: string, mark: char, rest: string) {
    && AllReSpace(lead) && Bullet(bullet) && gap != "" && AllReSpace(gap) && Mark(mark)
    && rest != "" && ReSpace(rest[0])
    && line == lead + [bullet] + gap + ['[', mark, ']'] + rest
  }

  lemma {:induction false} SkipSpaceSplits(s: string)
    ensures |SkipSpace(s)| <= |s| && AllReSpace(s[..|s| - |SkipSpace(s)|]) && s[|s| - |SkipSpace(s)|..] == SkipSpace(s)
    ensures SkipSpace(s) != "" ==> !ReSpace(SkipSpace(s)[0])
  {
    if s != "" && ReSpace(s[0]) {
      SkipSpaceSplits(s[1..]);
      var n := |s| - |SkipSpace(s)|;
      assert s[..n] == [s[0]] + s[1..][..n - 1];
      assert s[n..] == s[1..][n - 1..];
    }
  }

  lemma {:induction false} SkipSpaceLead(lead: string, tail: string)
    requires AllReSpace(lead) && tail != "" && !ReSpace(tail[0])
    ensures SkipSpace(lead + tail) == tail
  {
    if lead == "" {
      assert lead + tail == tail;
    } else {
      assert (lead + tail)[1..] == lead[1..] + tail;
      SkipSpaceLead(lead[1..], tail);
    }
  }

  lemma CheckboxReads(line: string, mark: char) returns (lead: string, bullet: char, gap: string, rest: string)
    requires Checkbox(line) == Some(mark)
    ensures Reads(line, lead, bullet, gap, mark, rest)
  {
    var item := SkipSpace(line);
    var box := SkipSpace(item[1..]);
    bullet, rest := item[0], box[3..];
    lead := SkippedSpace(line);
    gap := SkippedSpace(item[1..]);
    Concatenates(line, lead, item, gap, box);
  }

  lemma SkippedSpace(s: string) returns (lead: string)
    ensures AllReSpace(lead) && s == lead + SkipSpace(s)
  {
    SkipSpaceSplits(s);
    lead := s[..|s| - |SkipSpace(s)|];
  }

  lemma Concatenates(line: string, lead: string, item: string, gap: string, box: string)
    requires item != "" && |box| >= 3 && line == lead + item && item[1..] == gap + box
    ensures line == lead + [item[0]] + gap + [box[0], box[1], box[2]] + box[3..]
  {
    assert item == [item[0]] + (gap + box);
    assert box == [box[0], box[1], box[2]] + box[3..];
  }

  lemma ReadsCheckbox(line: string, lead: string, bullet: char, gap: string, mark: char, rest: string)
    requires Reads(line, lead, bullet, gap, mark, rest)
    ensures Checkbox(line) == Some(mark)
  {
    var box := ['[', mark, ']'] + rest;
    var item := [bullet] + (gap + box);
    assert line == lead + item;
    SkipSpaceLead(lead, item);
    assert item[1..] == gap + box;
    SkipSpaceLead(gap, box);
  }

  /** The scanner accepts exactly what the regular expression describes, with the same mark. */
  lemma CheckboxMatches(line: string, mark: char)
    ensures Checkbox(line) == Some(mark) <==>
            exists lead, bullet, gap, rest :: Reads(line, lead, bullet, gap, mark, rest)
  {
    if Checkbox(line) == Some(mark) {
      var lead, bullet, gap, rest := CheckboxReads(line, mark);
    }
    if exists lead, bullet, gap, rest :: Reads(line, lead, bullet, gap, mark, rest) {
      var lead, bullet, gap, rest :| Reads(line, lead, bullet, gap, mark, rest);
      ReadsCheckbox(line, lead, bullet, gap, mark, rest);
    }
  }

  /** strings.Split(body, "\n"). */
  function Lines(body: string): (lines: seq<string>)
    ensures |lines| >= 1
  {
    if body == "" then [""]
    else if body[|body| - 1] == '\n' then Lines(body[..|body| - 1]) + [""]
    else
      var lines := Lines(body[..|body| - 1]);
      lines[..|lines| - 1] + [lines[|lines| - 1] + [body[|body| - 1]]]
  }

  function TrimCr(line: string): string {
    if line != "" && line[|line| - 1] == '\r' then TrimCr(line[..|line| - 1]) else line
  }

  function MarkOf(line: string): Option<char> {
    Checkbox(TrimCr(line))
  }

  /** No line of the body is an open checkbox. */
  predicate AllResolved(body: string) {
    forall line :: line in Lines(body) ==> MarkOf(line) != Some(' ')
  }

  /** The checkbox mark of each line, as the gate reads it. */
  function MarksOf(lines: seq<string>): (marks: seq<Option<char>>)
    ensures |marks| == |lines| && forall i :: 0 <= i < |lines| ==> marks[i] == MarkOf(lines[i])
  {
    seq(|lines|, i requires 0 <= i < |lines| => MarkOf(lines[i]))
  }

  /** How many lines carry a checkbox, and how many of those are resolved. */
  function Tally(marks: seq<Option<char>>): (counts: (nat, nat))
    ensures counts.0 <= counts.1
  {
    if marks == [] then (0, 0)
    else
      var (resolved, total) := Tally(marks[..|marks| - 1]);
      match marks[|marks| - 1]
      case None => (resolved, total)
      case Some(mark) => (if Resolving(mark) then resolved + 1 else resolved, total + 1)
  }

  lemma {:induction false} TallyComplete(marks: seq<Option<char>>)
    requires forall i :: 0 <= i < |marks| && marks[i].Some? ==> Mark(marks[i].value)
    ensures Tally(marks).0 == Tally(marks).1 <==> forall i :: 0 <= i < |marks| ==> marks[i] != Some(' ')
  {
    if marks != [] {
      TallyComplete(marks[..|marks| - 1]);
    }
  }

  lemma GateTally(body: string)
    ensures var counts := Tally(MarksOf(Lines(body))); counts.0 == counts.1 <==> AllResolved(body)
  {
    var lines := Lines(body);
    forall i | 0 <= i < |lines| ensures MarksOf(lines)[i].Some? ==> Mark(MarksOf(lines)[i].value) {
      MarkIsMark(lines[i]);
    }
    TallyComplete(MarksOf(lines));
    if line :| line in lines && MarkOf(line) == Some(' ') {
      var i :| 0 <= i < |lines| && lines[i] == line;
      assert MarksOf(lines)[i] == Some(' ');
    }
  }

  lemma MarkIsMark(line: string)
    ensures MarkOf(line).Some? ==> Mark(MarkOf(line).value)
  {
  }

  method CountTaskAcceptanceResolution(body: string) returns (resolved: nat, total: nat)
    ensures (resolved, total) == Tally(MarksOf(Lines(body)))
    ensures resolved <= total
    ensures resolved < total <==> !AllResolved(body)
  {
    var lines := Lines(body);
    ghost var marks := MarksOf(lines);
    resolved, total := 0, 0;
    for i := 0 to |lines|
      invariant (resolved, total) == Tally(marks[..i])
    {
      assert marks[..i + 1][..i] == marks[..i];
      var mark := MarkOf(lines[i]);
      if mark.None? {
        continue;
      }
      total := total + 1;
      if Resolving(mark.value) {
        resolved := resolved + 1;
      }
    }
    assert marks[..|lines|] == marks;
    GateTally(body);
  }

  // ----- the other scanner: internal/pindoc/mcp/tools/checkbox.go ------------------

  predicate SpaceOrTab(c: char) {
    c == ' ' || c == '\t'
  }

  function SkipSpaceOrTab(s: string): string {
    if s != "" && SpaceOrTab(s[0]) then SkipSpaceOrTab(s[1..]) else s
  }

  /** One line of iterateCheckboxes: white space is spaces and tabs, none is needed after
      the bullet, and nothing after the bracket. */
  function Box(line: string): Option<char> {
    var item := SkipSpaceOrTab(line);
    if item == "" || !Bullet(item[0]) then None
    else
      var box := SkipSpaceOrTab(item[1..]);
      if |box| >= 3 && box[0] == '[' && box[2] == ']' && Mark(box[1]) then Some(box[1]) else None
  }

  function BoxOf(line: string): Option<char> {
    Box(TrimCr(line))
  }

  predicate AllBoxesResolved(body: string) {
    forall line :: line in Lines(body) ==> BoxOf(line) != Some(' ')
  }

  function BoxesOf(lines: seq<string>): (marks: seq<Option<char>>)
    ensures |marks| == |lines| && forall i :: 0 <= i < |lines| ==> marks[i] == BoxOf(lines[i])
  {
    seq(|lines|, i requires 0 <= i < |lines| => BoxOf(lines[i]))
  }

  lemma BoxTally(body: string)
    ensures var counts := Tally(BoxesOf(Lines(body))); counts.0 == counts.1 <==> AllBoxesResolved(body)
  {
    var lines := Lines(body);
    forall i | 0 <= i < |lines| ensures BoxesOf(lines)[i].Some? ==> Mark(BoxesOf(lines)[i].value) {
      BoxIsMark(lines[i]);
    }
    TallyComplete(BoxesOf(lines));
    if line :| line in lines && BoxOf(line) == Some(' ') {
      var i :| 0 <= i < |lines| && lines[i] == line;
      assert BoxesOf(lines)[i] == Some(' ');
    }
  }

  lemma BoxIsMark(line: string)
    ensures BoxOf(line).Some? ==> Mark(BoxOf(line).value)
  {
  }

  method CountAcceptanceResolution(body: string) returns (resolved: nat, total: nat)
    ensures (resolved, total) == Tally(BoxesOf(Lines(body)))
    ensures resolved == total <==> AllBoxesResolved(body)
  {
    var lines := Lines(body);
    ghost var marks := BoxesOf(lines);
    resolved, total := 0, 0;
    for i := 0 to |lines|
      invariant (resolved, total) == Tally(marks[..i])
    {
      assert marks[..i + 1][..i] == marks[..i];
      var mark := BoxOf(lines[i]);
      if mark.None? {
        continue;
      }
      total := total + 1;
      if Resolving(mark.value) {
        resolved := resolved + 1;
      }
    }
    assert marks[..|lines|] == marks;
    BoxTally(body);
  }

  /** No other white space than spaces and tabs. */
  ghost predicate PlainSpaces(s: string) {
    forall i :: 0 <= i < |s| && ReSpace(s[i]) ==> SpaceOrTab(s[i])
  }

  lemma {:induction false} SkipsAlike(s: string)
    requires PlainSpaces(s)
    ensures SkipSpaceOrTab(s) == SkipSpace(s) && PlainSpaces(SkipSpace(s))
  {
    if s != "" && ReSpace(s[0]) {
      SkipsAlike(s[1..]);
    }
  }

  /** On such a line what the gate reads as a checkbox is one for the other scanner too, with the same mark. */
  lemma GateReadsLess(line: string)
    requires PlainSpaces(line) && Checkbox(line).Some?
    ensures Box(line) == Checkbox(line)
  {
    SkipsAlike(line);
    SkipsAlike(SkipSpace(line)[1..]);
  }

  lemma {:induction false} LinesWithin(body: string, line: string, i: nat)
    requires line in Lines(body) && i < |line|
    ensures line[i] in body && line[i] != '\n'
  {
    var front := body[..|body| - 1];
    var lines := Lines(front);
    assert body == front + [body[|body| - 1]];
    if line in lines {
      LinesWithin(front, line, i);
    } else if i < |lines[|lines| - 1]| {
      LinesWithin(front, lines[|lines| - 1], i);
    }
  }

  lemma {:induction false} TrimCrPrefix(line: string)
    ensures TrimCr(line) <= line
  {
    if line != "" && line[|line| - 1] == '\r' {
      TrimCrPrefix(line[..|line| - 1]);
    }
  }

  /** So a body without form feeds or carriage returns whose boxes are all resolved passes the gate. */
  lemma BoxesPassGate(body: string)
    requires AllBoxesResolved(body) && forall c :: c in body && ReSpace(c) ==> SpaceOrTab(c) || c == '\n'
    ensures AllResolved(body)
  {
    forall line | line in Lines(body) ensures MarkOf(line) != Some(' ') {
      TrimCrPrefix(line);
      forall i | 0 <= i < |TrimCr(line)| && ReSpace(TrimCr(line)[i]) ensures SpaceOrTab(TrimCr(line)[i]) {
        LinesWithin(body, line, i);
      }
      if MarkOf(line).Some? {
        GateReadsLess(TrimCr(line));
      }
    }
  }

  // ----- exactly where the two scanners part -------------------------------------------

  /** The text of a checkbox line before its bracket. */
  function BeforeBracket(line: string): string {
    var item := SkipSpace(line);
    if item == "" then ""
    else
      SkipSpaceSplits(line);
      SkipSpaceSplits(item[1..]);
      line[..|line| - |SkipSpace(item[1..])|]
  }

  /** An open checkbox to the gate, with a form feed or carriage return before its bracket. */
  predicate HidesOpenBox(line: string) {
    Checkbox(line) == Some(' ') && ('\U{000C}' in BeforeBracket(line) || '\r' in BeforeBracket(line))
  }

  predicate HasHiddenBox(body: string) {
    exists line :: line in Lines(body) && HidesOpenBox(TrimCr(line))
  }

  lemma {:induction false} SkipsAlikeBefore(s: string)
    requires |SkipSpace(s)| <= |s| && forall i :: 0 <= i < |s| - |SkipSpace(s)| ==> SpaceOrTab(s[i])
    ensures SkipSpaceOrTab(s) == SkipSpace(s)
  {
    if s != "" && ReSpace(s[0]) {
      SkipSpaceSplits(s[1..]);
      SkipsAlikeBefore(s[1..]);
    }
  }

  /** Only the white space before the bracket matters. */
  lemma GateBoxIsBox(line: string)
    requires Checkbox(line).Some? && '\n' !in line
    requires '\U{000C}' !in BeforeBracket(line) && '\r' !in BeforeBracket(line)
    ensures Box(line) == Checkbox(line)
  {
    var item, lead := SkipSpace(line), BeforeBracket(line);
    SkipSpaceSplits(line);
    SkipSpaceSplits(item[1..]);
    var box := SkipSpace(item[1..]);
    forall i | 0 <= i < |line| - |item| ensures SpaceOrTab(line[i]) {
      assert ReSpace(line[..|line| - |item|][i]) && lead[i] in lead;
    }
    forall i | 0 <= i < |item| - 1 - |box| ensures SpaceOrTab(item[1..][i]) {
      assert ReSpace(item[1..][..|item| - 1 - |box|][i]) && lead[|line| - |item| + 1 + i] in lead;
      assert item == line[|line| - |item|..];
    }
    SkipsAlikeBefore(line);
    SkipsAlikeBefore(item[1..]);
  }

  /** A body whose boxes are all resolved passes the gate exactly when it hides no open one. */
  lemma ResolvedUnlessHidden(body: string)
    ensures AllResolved(body) ==> !HasHiddenBox(body)
    ensures AllBoxesResolved(body) && !HasHiddenBox(body) ==> AllResolved(body)
  {
    if AllBoxesResolved(body) && !HasHiddenBox(body) {
      forall line | line in Lines(body) ensures MarkOf(line) != Some(' ') {
        if MarkOf(line) == Some(' ') {
          TrimCrPrefix(line);
          forall i | 0 <= i < |TrimCr(line)| ensures TrimCr(line)[i] != '\n' {
            LinesWithin(body, line, i);
          }
          GateBoxIsBox(TrimCr(line));
        }
      }
    }
  }

  lemma {:induction false} LinesAppend(front: string, line: string)
    requires '\n' !in line
    ensures Lines(front + line) == Lines(front)[..|Lines(front)| - 1] + [Lines(front)[|Lines(front)| - 1] + line]
  {
    var lines := Lines(front);
    var tail := lines[|lines| - 1];
    if line == "" {
      assert front + line == front && tail + line == tail;
      assert lines == lines[..|lines| - 1] + [tail];
    } else {
      var rest, last := line[..|line| - 1], line[|line| - 1];
      assert (front + line)[..|front + line| - 1] == front + rest;
      assert last in line;
      LinesAppend(front, rest);
      assert (tail + rest) + [last] == tail + line;
    }
  }

  /** Two lines, joined. */
  lemma TwoLines(a: string, b: string)
    requires '\n' !in a && '\n' !in b
    ensures Lines(a + "\n" + b) == [a, b]
  {
    assert Lines("") == [""] && "" + a == a;
    LinesAppend("", a);
    assert (a + "\n")[..|a|] == a;
    assert Lines(a + "\n") == [a, ""];
    LinesAppend(a + "\n", b);
    assert [a, ""][..1] == [a] && "" + b == b;
  }

  const CHECKED := ['-', ' ', '[', 'x', ']', ' ', 'a']
  const HIDDEN := ['\U{000C}', '-', ' ', '[', ' ', ']', ' ', 'b']

  lemma CheckedLine()
    ensures TrimCr(CHECKED) == CHECKED && Checkbox(CHECKED) == Some('x') && Box(CHECKED) == Some('x')
  {
    var box := ['[', 'x', ']', ' ', 'a'];
    assert CHECKED[1..] == [' '] + box;
    assert CHECKED[1..][1..] == box;
    assert SkipSpace(box) == box && SkipSpaceOrTab(box) == box;
    assert SkipSpace(CHECKED[1..]) == box;
    assert SkipSpaceOrTab(CHECKED[1..]) == box;
    assert SkipSpace(CHECKED) == CHECKED && SkipSpaceOrTab(CHECKED) == CHECKED;
  }

  lemma HiddenLine()
    ensures TrimCr(HIDDEN) == HIDDEN && Box(HIDDEN) == None && HidesOpenBox(HIDDEN)
  {
    var item, box := ['-', ' ', '[', ' ', ']', ' ', 'b'], ['[', ' ', ']', ' ', 'b'];
    assert HIDDEN[1..] == item;
    assert item[1..] == [' '] + box;
    assert item[1..][1..] == box;
    assert SkipSpace(box) == box;
    assert SkipSpace(item[1..]) == box;
    assert SkipSpace(item) == item;
    assert SkipSpace(HIDDEN) == item;
    assert BeforeBracket(HIDDEN) == ['\U{000C}', '-', ' '];
  }

  /** There is a body with all of its boxes resolved that the gate would refuse. */
  lemma HiddenBoxExists()
    ensures var body := CHECKED + "\n" + HIDDEN;
            Tally(BoxesOf(Lines(body))) == (1, 1) && HasHiddenBox(body) && !AllResolved(body)
  {
    var body := CHECKED + "\n" + HIDDEN;
    TwoLines(CHECKED, HIDDEN);
    CheckedLine();
    HiddenLine();
    assert BoxesOf(Lines(body)) == [Some('x'), None];
    OneResolved();
    assert HIDDEN in Lines(body);
    ResolvedUnlessHidden(body);
  }

  lemma OneResolved()
    ensures Tally([Some('x'), None]) == (1, 1)
  {
    var first, both: seq<Option<char>> := [Some('x')], [Some('x'), None];
    assert both[..1] == first && first[..0] == [];
    assert Tally(first) == (1, 1);
  }
}
