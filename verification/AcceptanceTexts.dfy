/** Acceptance checkboxes by their text: which lines are boxes, which marks count as resolved,
    and which bodies the gate turns away. */
module AcceptanceTexts {
  import opened Wrappers
  import opened Acceptance

  // ----- one line ---------------------------------------------------------------------------

  /** `- [x] words`, for any bullet and mark. */
  function BoxLine(bullet: char, mark: char, words: string): string {
    [bullet] + " [" + [mark] + "] " + words
  }

  lemma BoxLineParts(bullet: char, mark: char, words: string)
    ensures var line := BoxLine(bullet, mark, words);
            && line[1..] == [' '] + (['[', mark, ']'] + ([' '] + words)) && line[0] == bullet
            && SkipSpace(line[1..]) == ['[', mark, ']', ' '] + words == SkipSpaceOrTab(line[1..])
  {
    var line, box := BoxLine(bullet, mark, words), ['[', mark, ']', ' '] + words;
    assert line[1..] == [' '] + box;
    assert (['[', mark, ']'] + ([' '] + words)) == box;
    assert line[1..][1..] == box;
    assert SkipSpace(box) == box && SkipSpaceOrTab(box) == box;
  }

  /** Such a line is a checkbox, for the gate and for the other scanner, exactly under one of three
      bullets and with one of five marks. */
  lemma BoxLineIs(bullet: char, mark: char, words: string)
    requires bullet !in {'\t', '\n', '\U{000C}', '\r', ' '}
    ensures var line, box := BoxLine(bullet, mark, words), bullet in {'-', '*', '+'}
            && mark in {' ', 'x', 'X', '~', '-'};
            && Checkbox(line) == (if box then Some(mark) else None)
            && Box(line) == (if box then Some(mark) else None)
  {
    var line := BoxLine(bullet, mark, words);
    BoxLineParts(bullet, mark, words);
    assert SkipSpace(line) == line && SkipSpaceOrTab(line) == line;
  }

  /** Any of five characters, or of two, may come before it. */
  lemma SpaceBefore(c: char, words: string)
    requires c !in {'-', '*', '+'}
    ensures Checkbox([c] + BoxLine('-', ' ', words)) == Some(' ') <==> c in {'\t', '\n', '\U{000C}', '\r', ' '}
    ensures Box([c] + BoxLine('-', ' ', words)) == Some(' ') <==> c in {'\t', ' '}
  {
    var line := BoxLine('-', ' ', words);
    BoxLineIs('-', ' ', words);
    assert ([c] + line)[1..] == line;
    assert SkipSpace(line) == line && SkipSpaceOrTab(line) == line;
  }

  /** For the gate white space must follow the bullet and the bracket; for the other scanner it need not. */
  lemma TightBoxes(mark: char, words: string)
    requires mark in {' ', 'x', 'X', '~', '-'} && words != "" && !ReSpace(words[0])
    ensures Checkbox(['-', ' ', '[', mark, ']'] + words) == None && Checkbox(['-', '[', mark, ']', ' '] + words) == None
    ensures Box(['-', ' ', '[', mark, ']'] + words) == Some(mark) == Box(['-', '[', mark, ']', ' '] + words)
  {
    var late, early := ['[', mark, ']'] + words, ['[', mark, ']', ' '] + words;
    var a, b := ['-', ' ', '[', mark, ']'] + words, ['-', '[', mark, ']', ' '] + words;
    assert a[1..] == [' '] + late && b[1..] == early;
    assert a[1..][1..] == late;
    assert SkipSpace(late) == late && SkipSpaceOrTab(late) == late;
    assert SkipSpace(early) == early && SkipSpaceOrTab(early) == early;
    assert SkipSpace(a) == a && SkipSpace(b) == b && SkipSpaceOrTab(a) == a && SkipSpaceOrTab(b) == b;
  }

  // ----- whole bodies ---------------------------------------------------------------------------

  /** One more character ends the last line or makes it longer. */
  function Grown(lines: seq<string>, c: char): seq<string>
    requires lines != []
  {
    if c == '\n' then lines + [""] else lines[..|lines| - 1] + [lines[|lines| - 1] + [c]]
  }

  lemma LinesSnoc(s: string, c: char)
    ensures Lines(s + [c]) == Grown(Lines(s), c)
  {
    assert (s + [c])[..|s|] == s;
  }

  lemma GrownJoined(x: seq<string>, y: seq<string>, c: char)
    requires y != []
    ensures Grown(x + y, c) == x + Grown(y, c)
  {
    assert (x + y)[..|x + y| - 1] == x + y[..|y| - 1];
  }

  /** Lines are cut at newlines and nowhere else. */
  lemma {:induction false} LinesJoined(a: string, b: string)
    ensures Lines(a + "\n" + b) == Lines(a) + Lines(b)
  {
    if b == "" {
      LinesSnoc(a, '\n');
      assert a + "\n" + b == a + ['\n'];
    } else {
      var front, last := b[..|b| - 1], b[|b| - 1];
      LinesJoined(a, front);
      assert a + "\n" + b == (a + "\n" + front) + [last] && b == front + [last];
      LinesSnoc(a + "\n" + front, last);
      LinesSnoc(front, last);
      GrownJoined(Lines(a), Lines(front), last);
    }
  }

  lemma {:induction false} OneLine(line: string)
    requires '\n' !in line
    ensures Lines(line) == [line]
  {
    if line != "" {
      var front, last := line[..|line| - 1], line[|line| - 1];
      assert last in line;
      OneLine(front);
      assert front + [last] == line;
    }
  }

  /** Carriage returns at a line's end are dropped, all of them. */
  lemma {:induction false} TrimCrIs(line: string, crs: string)
    requires line != "" && line[|line| - 1] != '\r' && forall i :: 0 <= i < |crs| ==> crs[i] == '\r'
    ensures TrimCr(line + crs) == line
  {
    if crs == "" {
      assert line + crs == line;
    } else {
      assert (line + crs)[..|line + crs| - 1] == line + crs[..|crs| - 1];
      TrimCrIs(line, crs[..|crs| - 1]);
    }
  }

  /** A body between whose newlines an open box stands. */
  ghost predicate HasLine(body: string, front: string, line: string, back: string) {
    && '\n' !in line
    && (body == line || body == front + "\n" + line || body == line + "\n" + back
        || body == front + "\n" + line + "\n" + back)
  }

  lemma LineIsThere(body: string, front: string, line: string, back: string)
    requires HasLine(body, front, line, back)
    ensures line in Lines(body)
  {
    OneLine(line);
    LinesJoined(front, line);
    LinesJoined(line, back);
    LinesJoined(front + "\n" + line, back);
  }

  /** One open box on a line of its own, whatever the rest says, and the gate is shut; so it is for the
      other scanner. */
  lemma OpenBoxBlocks(body: string, front: string, words: string, back: string)
    requires HasLine(body, front, BoxLine('-', ' ', words), back) && (words == "" || words[|words| - 1] != '\r')
    ensures !AllResolved(body) && !AllBoxesResolved(body)
  {
    var line := BoxLine('-', ' ', words);
    LineIsThere(body, front, line, back);
    BoxLineIs('-', ' ', words);
    assert line[|line| - 1] == if words == "" then ' ' else words[|words| - 1];
    TrimCrIs(line, "");
    assert line + "" == line;
  }

  /** Where the marks of a body that are boxes stand, and where those that are resolved do. */
  ghost function BoxPlaces(marks: seq<Option<char>>): set<int> {
    set i | 0 <= i < |marks| && marks[i].Some?
  }

  ghost function ResolvedPlaces(marks: seq<Option<char>>): set<int> {
    set i | 0 <= i < |marks| && marks[i] in {Some('x'), Some('X'), Some('~'), Some('-')}
  }

  lemma PlacesSnoc(front: seq<Option<char>>, mark: Option<char>)
    ensures |BoxPlaces(front + [mark])| == |BoxPlaces(front)| + (if mark.Some? then 1 else 0)
    ensures |ResolvedPlaces(front + [mark])| ==
            |ResolvedPlaces(front)| + (if mark in {Some('x'), Some('X'), Some('~'), Some('-')} then 1 else 0)
  {
    var marks, boxes, resolved := front + [mark], BoxPlaces(front), ResolvedPlaces(front);
    assert forall i :: 0 <= i < |front| ==> marks[i] == front[i];
    assert |front| !in boxes && |front| !in resolved;
    assert BoxPlaces(marks) == if mark.Some? then boxes + {|front|} else boxes;
    assert ResolvedPlaces(marks) ==
           if mark in {Some('x'), Some('X'), Some('~'), Some('-')} then resolved + {|front|} else resolved;
  }

  lemma TallySnoc(front: seq<Option<char>>, mark: Option<char>)
    ensures Tally(front + [mark]) ==
            (Tally(front).0 + (if mark in {Some('x'), Some('X'), Some('~'), Some('-')} then 1 else 0),
             Tally(front).1 + (if mark.Some? then 1 else 0))
  {
    assert (front + [mark])[..|front|] == front;
  }

  /** The counts are of the boxes, and of those marked x, X, ~ or -. */
  lemma {:induction false} TallyMeans(marks: seq<Option<char>>)
    ensures Tally(marks) == (|ResolvedPlaces(marks)|, |BoxPlaces(marks)|)
  {
    if marks == [] {
      assert BoxPlaces(marks) == {} && ResolvedPlaces(marks) == {};
    } else {
      var front, mark := marks[..|marks| - 1], marks[|marks| - 1];
      assert marks == front + [mark];
      TallyMeans(front);
      TallyOneMore(front, mark);
    }
  }

  lemma TallyOneMore(front: seq<Option<char>>, mark: Option<char>)
    requires Tally(front) == (|ResolvedPlaces(front)|, |BoxPlaces(front)|)
    ensures Tally(front + [mark]) == (|ResolvedPlaces(front + [mark])|, |BoxPlaces(front + [mark])|)
  {
    PlacesSnoc(front, mark);
    TallySnoc(front, mark);
  }
}
