/** What change groups say, by the rows: which rows share a group, what each group reports,
    and the order groups come in. */
module ChangeGroupLaws {
  import opened Wrappers
  import opened Strings
  import opened Sorting
  import opened ChangeGroups
  import opened ChangeGroupRuns

  // ----- which rows share a group ---------------------------------------------------------------

  /** The first of two texts that is not blank, without the white space around it. */
  lemma FirstNonEmptyMeans(a: string, b: string)
    ensures !Blank(a) ==> FirstNonEmpty(a, b) == TrimSpace(a)
    ensures Blank(a) ==> FirstNonEmpty(a, b) == TrimSpace(b)
    ensures FirstNonEmpty(a, b) == "" <==> Blank(a) && Blank(b)
  {
    TrimSpaceBlank(a);
    TrimSpaceBlank(b);
  }

  predicate HasTurn(row: Row) {
    row.session.source != "" && (row.session.turn != "" || row.session.run != "")
  }

  predicate HasTask(row: Row) {
    row.session.task != "" || row.session.agentRun != ""
  }

  /** The part of the session a row is filed under, in the order the parts are tried. */
  predicate FiledAs(row: Row, kind: KeyKind) {
    match kind
    case BulkOp => row.session.bulkOp != ""
    case SessionTurn => row.session.bulkOp == "" && HasTurn(row)
    case TaskOrRun => row.session.bulkOp == "" && !HasTurn(row) && HasTask(row)
    case SessionWindow => row.session.bulkOp == "" && !HasTurn(row) && !HasTask(row) && row.session.source != ""
    case AuthorWindow => row.session.bulkOp == "" && !HasTask(row) && row.session.source == ""
  }

  predicate SameSecond(a: Row, b: Row, window: int)
    requires window > 0
  {
    (a.createdAt - a.createdAt % window) / 1_000_000_000 == (b.createdAt - b.createdAt % window) / 1_000_000_000
  }

  predicate SameAuthor(a: Row, b: Row) {
    || a.author == b.author
    || (a.author in {"", "unknown"} && b.author in {"", "unknown"})
  }

  /** Filed alike, under the same value, and, but for bulk operations and turns, in the same window. */
  predicate Together(a: Row, b: Row, kind: KeyKind, window: int)
    requires window > 0
  {
    var s, t := a.session, b.session;
    && a.project == b.project && FiledAs(a, kind) && FiledAs(b, kind)
    && match kind
       case BulkOp => s.bulkOp == t.bulkOp
       case SessionTurn =>
         s.source + ":" + FirstNonEmpty(s.turn, s.run) == t.source + ":" + FirstNonEmpty(t.turn, t.run)
       case TaskOrRun =>
         FirstNonEmpty(s.task, s.agentRun) == FirstNonEmpty(t.task, t.agentRun) && SameSecond(a, b, window)
       case SessionWindow => s.source == t.source && SameSecond(a, b, window)
       case AuthorWindow => SameAuthor(a, b) && SameSecond(a, b, window)
  }

  lemma FiledOnce(row: Row, window: int)
    requires window > 0
    ensures forall kind :: FiledAs(row, kind) <==> IdOf(row, window).keyKind == kind
  {
  }

  lemma SharesValue(a: Row, b: Row, kind: KeyKind, window: int)
    requires window > 0 && IdOf(a, window).keyKind == kind == IdOf(b, window).keyKind
    ensures IdOf(a, window) == IdOf(b, window) <==> Together(a, b, kind, window)
  {
    FiledOnce(a, window);
    FiledOnce(b, window);
  }

  /** Rows share a group exactly when they are filed together. */
  lemma SharesGroup(a: Row, b: Row, window: int)
    requires window > 0
    ensures IdOf(a, window) == IdOf(b, window) <==> exists kind :: Together(a, b, kind, window)
  {
    FiledOnce(a, window);
    FiledOnce(b, window);
    if IdOf(a, window).keyKind == IdOf(b, window).keyKind {
      SharesValue(a, b, IdOf(a, window).keyKind, window);
    }
  }

  lemma FirstColon(a: string, x: string, s: string)
    requires ':' !in a && s == a + ":" + x
    ensures |a| < |s| && s[|a|] == ':' && (forall i :: 0 <= i < |a| ==> s[i] != ':')
    ensures s[..|a|] == a && s[|a| + 1..] == x
  {
    assert forall i :: 0 <= i < |a| ==> s[i] == a[i] && a[i] in a;
  }

  /** Two texts around a colon, the first without one, are told apart. */
  lemma AroundColon(a: string, x: string, b: string, y: string)
    requires ':' !in a && ':' !in b
    ensures a + ":" + x == b + ":" + y <==> a == b && x == y
  {
    var s, t := a + ":" + x, b + ":" + y;
    FirstColon(a, x, s);
    FirstColon(b, y, t);
    if s == t {
      assert !(|a| < |b|) && !(|b| < |a|);
    }
  }

  /** Sessions without a colon in their name are grouped by session and turn. */
  lemma TurnsApart(a: Row, b: Row, window: int)
    requires window > 0 && FiledAs(a, SessionTurn) && FiledAs(b, SessionTurn)
    requires ':' !in a.session.source && ':' !in b.session.source
    ensures var s, t := a.session, b.session;
            Together(a, b, SessionTurn, window) <==>
              a.project == b.project && s.source == t.source
                && FirstNonEmpty(s.turn, s.run) == FirstNonEmpty(t.turn, t.run)
  {
    var s, t := a.session, b.session;
    AroundColon(s.source, FirstNonEmpty(s.turn, s.run), t.source, FirstNonEmpty(t.turn, t.run));
  }

  /** A colon in a session's name can make it share a group with another session. */
  lemma ColonsMeet(a: Row, b: Row, window: int)
    requires window > 0 && a.project == b.project
    requires a.session == Session("s", "", "t:u", "", "", "") && b.session == Session("s:t", "", "u", "", "", "")
    ensures IdOf(a, window) == IdOf(b, window)
  {
    TrimSpaceFixed("t:u");
    TrimSpaceFixed("u");
    assert "s" + ":" + "t:u" == "s:t" + ":" + "u";
  }

  /** Under the default window an author's rows without a session share a group by the quarter of an hour. */
  lemma QuarterHours(a: Row, b: Row)
    requires FiledAs(a, AuthorWindow) && FiledAs(b, AuthorWindow) && a.project == b.project && a.author == b.author
    ensures IdOf(a, DEFAULT_WINDOW) == IdOf(b, DEFAULT_WINDOW) <==>
            a.createdAt / 900_000_000_000 == b.createdAt / 900_000_000_000
  {
    var window := 900_000_000_000;
    Multiple(a.createdAt, window);
    Multiple(b.createdAt, window);
    if IdOf(a, window) == IdOf(b, window) {
      WindowStarts(a.createdAt, b.createdAt, window);
    }
  }

  // ----- what a group reports ----------------------------------------------------------------------

  /** The artifact of a row: its id, or its slug where it has none. */
  lemma {:induction false} FirstsMean(rows: seq<Row>)
    ensures forall r :: r in Firsts(rows) ==> r in rows && ArtifactKey(r) != ""
    ensures forall r :: r in rows && ArtifactKey(r) != "" ==> ArtifactKey(r) in Keys(Firsts(rows))
    ensures NoDup(Keys(Firsts(rows)))
  {
    if rows != [] {
      var n := |rows| - 1;
      var front := Firsts(rows[..n]);
      FirstsMean(rows[..n]);
      assert rows == rows[..n] + [rows[n]];
      assert Keys(front + [rows[n]]) == Keys(front) + [ArtifactKey(rows[n])];
    }
  }

  /** The artifacts with a name, each counted once. */
  ghost function Artifacts(rows: seq<Row>): set<string> {
    set i | 0 <= i < |rows| && (rows[i].artifactId != "" || rows[i].slug != "") ::
      if rows[i].artifactId != "" then rows[i].artifactId else rows[i].slug
  }

  lemma ArtifactsAreKeys(rows: seq<Row>, x: string)
    ensures x in Artifacts(rows) <==> x in Keys(Firsts(rows))
  {
    FirstsMean(rows);
    if x in Artifacts(rows) {
      var i :| 0 <= i < |rows| && ArtifactKey(rows[i]) == x && x != "";
      assert rows[i] in rows;
    }
    if x in Keys(Firsts(rows)) {
      var j :| 0 <= j < |Firsts(rows)| && ArtifactKey(Firsts(rows)[j]) == x;
      assert Firsts(rows)[j] in Firsts(rows);
      var i :| 0 <= i < |rows| && rows[i] == Firsts(rows)[j];
    }
  }

  lemma CountsArtifacts(id: GroupId, rows: seq<Row>)
    ensures GroupOf(id, rows).artifactCount == |Artifacts(rows)| == |GroupOf(id, rows).artifacts|
  {
    forall x ensures x in Artifacts(rows) <==> x in Keys(Firsts(rows)) {
      ArtifactsAreKeys(rows, x);
    }
    FirstsMean(rows);
    NoDupSize(Keys(Firsts(rows)), Artifacts(rows));
  }

  /** Each artifact is shown as the first row that has it does, under its type or "Artifact". */
  lemma ShownAs(id: GroupId, rows: seq<Row>, ref: ArtifactRef)
    requires ref in GroupOf(id, rows).artifacts
    ensures exists r :: r in rows && ref.id == r.artifactId && ref.slug == r.slug && ref.title == r.title
                        && ref.area == r.area && (r.artifactId != "" || r.slug != "")
                        && ref.artifactType == if Blank(r.artifactType) then "Artifact" else TrimSpace(r.artifactType)
  {
    var firsts := Firsts(rows);
    var i :| 0 <= i < |firsts| && RefOf(firsts[i]) == ref;
    FirstsMean(rows);
    var r := firsts[i];
    assert r in firsts;
    FirstNonEmptyMeans(r.artifactType, "Artifact");
    ArtifactTrimmed();
  }

  lemma ArtifactTrimmed()
    ensures TrimSpace("Artifact") == "Artifact"
  {
    var artifact := "Artifact";
    assert artifact[0] == 'A' && artifact[7] == 't';
    TrimSpaceFixed(artifact);
  }

  lemma UnseenKey(front: seq<Row>, key: string)
    requires forall j :: 0 <= j < |front| ==> ArtifactKey(front[j]) != key
    ensures key !in Keys(Firsts(front))
  {
    var firsts := Firsts(front);
    FirstsMean(front);
    forall k | 0 <= k < |firsts| ensures Keys(firsts)[k] != key {
      assert firsts[k] in firsts;
    }
  }

  /** And as its first row does. */
  lemma {:induction false} FirstOfItsKey(rows: seq<Row>, i: nat)
    requires i < |rows| && ArtifactKey(rows[i]) != ""
    requires forall j :: 0 <= j < i ==> ArtifactKey(rows[j]) != ArtifactKey(rows[i])
    ensures rows[i] in Firsts(rows)
  {
    var n := |rows| - 1;
    if i < n {
      FirstOfItsKey(rows[..n], i);
    } else {
      UnseenKey(rows[..n], ArtifactKey(rows[n]));
    }
  }

  /** Areas and authors: those of the rows, without the empty one, in order. */
  lemma NamesSorted(names: seq<string>)
    ensures var out := Sort(Leq, Distinct(names));
            && (forall x :: x in out <==> x in names && x != "")
            && (forall i, j :: 0 <= i < j < |out| ==> Less(out[i], out[j]))
  {
    var distinct := Distinct(names);
    var out := Sort(Leq, distinct);
    DistinctMembers(names);
    SortMembers(Leq, distinct);
    LeqIsOrder();
    SortSorts(Leq, distinct);
    SortNoDup(Leq, distinct);
    forall i, j | 0 <= i < j < |out| ensures Less(out[i], out[j]) {
      assert Leq(out[i], out[j]) && out[i] != out[j];
    }
  }

  lemma AreasAndAuthors(id: GroupId, rows: seq<Row>, x: string)
    ensures x in GroupOf(id, rows).areas <==> x != "" && exists r :: r in rows && r.area == x
    ensures x in GroupOf(id, rows).authors <==> x != "" && exists r :: r in rows && r.author == x
  {
    NamesSorted(AreasIn(rows));
    NamesSorted(AuthorsIn(rows));
    if r :| r in rows && r.area == x {
      var i :| 0 <= i < |rows| && rows[i] == r;
      assert AreasIn(rows)[i] == x;
    }
    if r :| r in rows && r.author == x {
      var i :| 0 <= i < |rows| && rows[i] == r;
      assert AuthorsIn(rows)[i] == x;
    }
    if x in AreasIn(rows) {
      var i :| 0 <= i < |rows| && AreasIn(rows)[i] == x;
      assert rows[i] in rows;
    }
    if x in AuthorsIn(rows) {
      var i :| 0 <= i < |rows| && AuthorsIn(rows)[i] == x;
      assert rows[i] in rows;
    }
  }

  /** How often each type occurs: every type once, the more frequent first, then by name. */
  lemma TypeCountsMean(types: seq<string>)
    ensures var out := TypeCountsOf(types);
            && (forall tc :: tc in out <==> tc.artifactType in types && tc.artifactType != ""
                                            && tc.count == multiset(types)[tc.artifactType])
            && (forall i, j :: 0 <= i < j < |out| ==>
                  out[i].count > out[j].count
                    || (out[i].count == out[j].count && Leq(out[i].artifactType, out[j].artifactType)))
  {
    var f := t => TypeCount(t, multiset(types)[t]);
    var entries := Map(f, Distinct(types));
    assert Map(t => TypeCount(t, multiset(types)[t]), Distinct(types)) == entries;
    DistinctMembers(types);
    SortMembers(TypeLeq, entries);
    TypeOrder();
    SortSorts(TypeLeq, entries);
    forall tc ensures tc in entries <==> tc.artifactType in types && tc.artifactType != ""
                                         && tc.count == multiset(types)[tc.artifactType] {
      EntryOf(types, tc, f);
    }
  }

  lemma EntryOf(types: seq<string>, tc: TypeCount, f: string -> TypeCount)
    requires forall t :: f(t) == TypeCount(t, multiset(types)[t])
    ensures tc in Map(f, Distinct(types)) <==> tc.artifactType in types && tc.artifactType != ""
                                               && tc.count == multiset(types)[tc.artifactType]
  {
    var distinct := Distinct(types);
    DistinctMembers(types);
    if tc.artifactType in distinct && tc.count == multiset(types)[tc.artifactType] {
      var i :| 0 <= i < |distinct| && distinct[i] == tc.artifactType;
      assert Map(f, distinct)[i] == tc;
    }
    if tc in Map(f, distinct) {
      var i :| 0 <= i < |distinct| && Map(f, distinct)[i] == tc;
      assert distinct[i] in distinct;
    }
  }

  ghost function Places(rows: seq<Row>, kind: Kind): set<int> {
    set i | 0 <= i < |rows| && rows[i].kind == kind
  }

  lemma PlacesSnoc(front: seq<Row>, row: Row, kind: Kind)
    ensures Places(front + [row], kind) == Places(front, kind) + (if row.kind == kind then {|front|} else {})
  {
    var rows := front + [row];
    forall i ensures i in Places(rows, kind) <==> i in Places(front, kind) || (i == |front| && row.kind == kind) {
      assert 0 <= i < |front| ==> rows[i] == front[i];
    }
  }

  lemma {:induction false} CountKindMeans(rows: seq<Row>, kind: Kind)
    ensures CountKind(rows, kind) == |Places(rows, kind)|
  {
    if rows != [] {
      var n := |rows| - 1;
      CountKindMeans(rows[..n], kind);
      PlacesSnoc(rows[..n], rows[n], kind);
      assert rows == rows[..n] + [rows[n]];
      assert n !in Places(rows[..n], kind);
    }
  }

  /** The verification is the worst that occurs. */
  lemma WorstState(rows: seq<Row>)
    ensures var v := VerificationOf(rows);
            && (v == Unverified <==> exists r :: r in rows && r.verification == "unverified")
            && (v == PartiallyVerified <==>
                 (exists r :: r in rows && r.verification == "partially_verified")
                   && forall r :: r in rows ==> r.verification != "unverified")
            && (v == Verified <==>
                 (exists r :: r in rows && r.verification == "verified")
                   && forall r :: r in rows ==> r.verification !in {"unverified", "partially_verified"})
  {
    StateIn(rows, "unverified");
    StateIn(rows, "partially_verified");
    StateIn(rows, "verified");
  }

  lemma StateIn(rows: seq<Row>, state: string)
    ensures SomeState(rows, state) <==> exists r :: r in rows && r.verification == state
  {
    if i :| 0 <= i < |rows| && rows[i].verification == state {
      assert rows[i] in rows;
    }
  }

  ghost predicate NeedsChecking(rows: seq<Row>) {
    exists r :: r in rows && r.verification in {"unverified", "partially_verified"}
  }

  lemma ChecksWhen(rows: seq<Row>)
    ensures NeedsChecking(rows) <==> VerificationOf(rows) in {Unverified, PartiallyVerified}
  {
    WorstState(rows);
    if VerificationOf(rows) == Unverified {
      var r :| r in rows && r.verification == "unverified";
      assert r.verification in {"unverified", "partially_verified"};
    }
    if VerificationOf(rows) == PartiallyVerified {
      var r :| r in rows && r.verification == "partially_verified";
      assert r.verification in {"unverified", "partially_verified"};
    }
  }

  /** Of a human's work, more than one artifact and something not verified, none makes a group's importance
      low, one medium, and two or three high. */
  lemma ImportanceIs(id: GroupId, rows: seq<Row>)
    ensures var g := GroupOf(id, rows);
            var human, several, open := KindOf(rows) == HumanTrigger, |Artifacts(rows)| >= 2, NeedsChecking(rows);
            && g.score == (if human then 1 else 0) + (if several then 1 else 0) + (if open then 1 else 0)
            && (g.level == Low <==> !human && !several && !open)
            && (g.level == High <==> (human && several) || (human && open) || (several && open))
  {
    CountsArtifacts(id, rows);
    ChecksWhen(rows);
  }

  // ----- the order of the result ---------------------------------------------------------------------

  /** The more important group first; then the one that ended later; then by the text of its id. */
  lemma ResultOrder(rows: seq<Row>, kind: Option<Kind>, limit: int, window: int, hex: GroupId -> string,
      i: nat, j: nat)
    requires window > 0 && Injective(hex) && i < j < |Grouped(rows, kind, limit, window, hex)|
    ensures var out := Grouped(rows, kind, limit, window, hex);
            var a, b := out[i], out[j];
            || a.score > b.score
            || (a.score == b.score && a.timeEnd > b.timeEnd)
            || (a.score == b.score && a.timeEnd == b.timeEnd && (a == b || Less(hex(a.id), hex(b.id))))
  {
    var all, leq := Ranked(rows, kind, window, hex), Ranking(hex);
    var groups := OfKind(AllGroups(Sort(ByTime, rows), window), kind);
    RankingIsOrder(hex);
    SortSorts(leq, groups);
    GroupsDistinct(Sort(ByTime, rows), window);
    KindDistinct(AllGroups(Sort(ByTime, rows), window), kind);
    SortMembers(leq, groups);
    assert leq(all[i], all[j]);
    assert all[i] in all && all[j] in all;
  }

  lemma {:induction false} OfKindIs(groups: seq<Group>, kind: Option<Kind>, g: Group)
    ensures g in OfKind(groups, kind) <==> g in groups && (kind.None? || g.kind == kind.value)
  {
    if groups != [] {
      var n := |groups| - 1;
      OfKindIs(groups[..n], kind, g);
      assert groups == groups[..n] + [groups[n]];
    }
  }

  /** Asked for a kind, the result holds exactly the groups of that kind; asked for so many, the first of them. */
  lemma KindAndLimit(rows: seq<Row>, kind: Option<Kind>, limit: int, window: int, hex: GroupId -> string, g: Group)
    requires window > 0 && Injective(hex)
    ensures g in Grouped(rows, kind, 0, window, hex) <==>
            g in Grouped(rows, None, 0, window, hex) && (kind.None? || g.kind == kind.value)
    ensures var all, some := Grouped(rows, kind, 0, window, hex), Grouped(rows, kind, limit, window, hex);
            some == if 0 < limit < |all| then all[..limit] else all
  {
    KindAndLimitOnlySelect(rows, kind, 0, window, hex);
    OfKindIs(Grouped(rows, None, 0, window, hex), kind, g);
  }
}
