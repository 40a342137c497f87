/** internal/pindoc/changegroup/changegroup.go: folding revisions into ranked groups.
    Times are nanoseconds since Go's zero time. */
module ChangeGroups {
  import opened Strings
  import opened Sorting

  /** What classifyGroupKind's substring tests give. */
  datatype Kind = HumanTrigger | AutoSync | Maintenance | System

  /** parseSourceSession's result. */
  datatype Session = Session(source: string, bulkOp: string, turn: string, run: string, task: string, agentRun: string)

  datatype Row = Row(
    project: string, artifactId: string, slug: string, title: string, artifactType: string, area: string,
    author: string, kind: Kind, session: Session, verification: string, createdAt: int)

  const SECOND := 1_000_000_000
  const DEFAULT_WINDOW := 15 * 60 * 1_000_000_000

  // ----- which group a row belongs to -----------------------------------------------------

  datatype KeyKind = BulkOp | SessionTurn | TaskOrRun | SessionWindow | AuthorWindow

  /** syntheticGroupID's inputs: RFC 3339 writes the window start to the second. The
      digest itself is taken to be injective. */
  datatype GroupId = GroupId(scope: string, keyKind: KeyKind, keyValue: string, second: int)

  function FirstNonEmpty(a: string, b: string): string {
    if TrimSpace(a) != "" then TrimSpace(a) else TrimSpace(b)
  }

  function Truncate(t: int, window: int): int
    requires window > 0
  {
    t - t % window
  }

  function IdOf(row: Row, window: int): GroupId
    requires window > 0
  {
    var s, second := row.session, Truncate(row.createdAt, window) / SECOND;
    if s.bulkOp != "" then GroupId(row.project, BulkOp, s.bulkOp, 0)
    else if s.source != "" && (s.turn != "" || s.run != "") then
      GroupId(row.project, SessionTurn, s.source + ":" + FirstNonEmpty(s.turn, s.run), 0)
    else if s.task != "" || s.agentRun != "" then
      GroupId(row.project, TaskOrRun, FirstNonEmpty(s.task, s.agentRun), second)
    else if s.source != "" then GroupId(row.project, SessionWindow, s.source, second)
    else GroupId(row.project, AuthorWindow, if row.author == "" then "unknown" else row.author, second)
  }

  predicate Windowed(id: GroupId) {
    id.keyKind == TaskOrRun || id.keyKind == SessionWindow || id.keyKind == AuthorWindow
  }

  /** Windowed groups span less than one window, exactly when the window is at least a
      second: group ids do not see anything finer. */
  ghost predicate SpansFit(window: int)
    requires window > 0
  {
    forall a: Row, b: Row :: IdOf(a, window) == IdOf(b, window) && Windowed(IdOf(a, window)) ==>
      b.createdAt - a.createdAt < window
  }

  lemma WindowStarts(a: int, b: int, window: int)
    requires window >= SECOND && Truncate(a, window) / SECOND == Truncate(b, window) / SECOND
    ensures Truncate(a, window) == Truncate(b, window)
  {
    var x, y := Truncate(a, window), Truncate(b, window);
    Multiple(a, window);
    Multiple(b, window);
    var m, n := a / window, b / window;
    if m < n {
      Grows(window, m, n);
    } else if n < m {
      Grows(window, n, m);
    }
  }

  lemma Multiple(t: int, window: int)
    requires window > 0
    ensures Truncate(t, window) == window * (t / window)
  {
  }

  lemma {:induction false} Grows(window: int, m: int, n: int)
    requires window >= SECOND && m < n
    ensures window * n >= window * m + SECOND
    decreases n - m
  {
    assert window * n == window * (n - 1) + window;
    if m + 1 < n {
      Grows(window, m, n - 1);
    }
  }

  lemma SpansFitFromASecond(window: int)
    requires window > 0
    ensures SpansFit(window) <==> window >= SECOND
  {
    if window >= SECOND {
      forall a: Row, b: Row | IdOf(a, window) == IdOf(b, window) && Windowed(IdOf(a, window))
        ensures b.createdAt - a.createdAt < window {
        WindowStarts(a.createdAt, b.createdAt, window);
      }
    } else {
      SubSecondWindow(window);
    }
  }

  /** Below a second, the first and the last nanosecond of a second share a group. */
  lemma SubSecondWindow(window: int)
    requires 0 < window < SECOND
    ensures !SpansFit(window)
  {
    var none := Session("", "", "", "", "", "");
    var a := Row("", "", "", "", "", "", "", System, none, "", 0);
    var b := a.(createdAt := SECOND - 1);
    assert 0 <= Truncate(SECOND - 1, window) <= SECOND - 1;
    assert IdOf(a, window) == IdOf(b, window);
  }

  // ----- what a group says ----------------------------------------------------------------

  datatype ArtifactRef = ArtifactRef(id: string, slug: string, title: string, artifactType: string, area: string)

  datatype TypeCount = TypeCount(artifactType: string, count: nat)

  datatype Level = Low | Medium | High

  datatype Verification = Unverified | PartiallyVerified | Verified | Unclassified

  datatype Group = Group(
    id: GroupId, kind: Kind, revisionCount: nat, artifactCount: nat, typeCounts: seq<TypeCount>,
    artifacts: seq<ArtifactRef>, areas: seq<string>, authors: seq<string>, timeStart: int, timeEnd: int,
    score: nat, level: Level, verification: Verification)

  function ArtifactKey(row: Row): string {
    if row.artifactId == "" then row.slug else row.artifactId
  }

  function RefOf(row: Row): ArtifactRef {
    ArtifactRef(row.artifactId, row.slug, row.title, FirstNonEmpty(row.artifactType, "Artifact"), row.area)
  }

  /** The rows that show an artifact for the first time. */
  function Firsts(rows: seq<Row>): seq<Row> {
    if rows == [] then []
    else
      var n := |rows| - 1;
      var front := Firsts(rows[..n]);
      if ArtifactKey(rows[n]) == "" || ArtifactKey(rows[n]) in Keys(front) then front else front + [rows[n]]
  }

  function Keys(rows: seq<Row>): seq<string> {
    seq(|rows|, i requires 0 <= i < |rows| => ArtifactKey(rows[i]))
  }

  function Types(rows: seq<Row>): (r: seq<string>)
    ensures |r| == |rows|
  {
    seq(|rows|, i requires 0 <= i < |rows| => RefOf(rows[i]).artifactType)
  }

  function RefsOf(rows: seq<Row>): (r: seq<ArtifactRef>)
    ensures |r| == |rows|
  {
    seq(|rows|, i requires 0 <= i < |rows| => RefOf(rows[i]))
  }

  /** The distinct nonempty strings, by first appearance. */
  function Distinct(s: seq<string>): seq<string> {
    if s == [] then []
    else
      var n := |s| - 1;
      var front := Distinct(s[..n]);
      if s[n] == "" || s[n] in front then front else front + [s[n]]
  }

  function AreasIn(rows: seq<Row>): seq<string> {
    seq(|rows|, i requires 0 <= i < |rows| => rows[i].area)
  }

  function AuthorsIn(rows: seq<Row>): seq<string> {
    seq(|rows|, i requires 0 <= i < |rows| => rows[i].author)
  }

  function TypeLeq(a: TypeCount, b: TypeCount): bool {
    a.count > b.count || (a.count == b.count && Leq(a.artifactType, b.artifactType))
  }

  /** typeCounts: how often each type occurs, most frequent first. */
  function TypeCountsOf(types: seq<string>): seq<TypeCount> {
    Sort(TypeLeq, Map(t => TypeCount(t, multiset(types)[t]), Distinct(types)))
  }

  function CountKind(rows: seq<Row>, kind: Kind): nat {
    if rows == [] then 0 else CountKind(rows[..|rows| - 1], kind) + (if rows[|rows| - 1].kind == kind then 1 else 0)
  }

  /** dominantKind: the most frequent kind; earlier in the fixed order wins ties. */
  function Dominant(human: nat, sync: nat, maintenance: nat, system: nat): Kind {
    var a := if sync > human then AutoSync else HumanTrigger;
    var countA := if sync > human then sync else human;
    var b := if maintenance > countA then Maintenance else a;
    var countB := if maintenance > countA then maintenance else countA;
    if system > countB then System else b
  }

  function KindOf(rows: seq<Row>): Kind {
    Dominant(CountKind(rows, HumanTrigger), CountKind(rows, AutoSync), CountKind(rows, Maintenance),
      CountKind(rows, System))
  }

  function Order(kind: Kind): nat {
    match kind case HumanTrigger => 0 case AutoSync => 1 case Maintenance => 2 case System => 3
  }

  lemma DominantIsMost(rows: seq<Row>, kind: Kind)
    ensures CountKind(rows, kind) <= CountKind(rows, KindOf(rows))
    ensures CountKind(rows, kind) == CountKind(rows, KindOf(rows)) ==> Order(KindOf(rows)) <= Order(kind)
  {
  }

  predicate SomeState(rows: seq<Row>, state: string) {
    exists i :: 0 <= i < |rows| && rows[i].verification == state
  }

  /** aggregateVerification: the worst state that occurs. */
  function VerificationOf(rows: seq<Row>): Verification {
    if SomeState(rows, "unverified") then Unverified
    else if SomeState(rows, "partially_verified") then PartiallyVerified
    else if SomeState(rows, "verified") then Verified
    else Unclassified
  }

  function Score(kind: Kind, artifactCount: nat, verification: Verification): nat {
    (if kind == HumanTrigger then 1 else 0) + (if artifactCount >= 2 then 1 else 0)
    + (if verification == Unverified || verification == PartiallyVerified then 1 else 0)
  }

  function LevelOf(score: nat): Level {
    if score >= 2 then High else if score == 1 then Medium else Low
  }

  function MinTime(rows: seq<Row>): int
    requires rows != []
  {
    var last := rows[|rows| - 1].createdAt;
    if |rows| == 1 then last
    else
      var front := MinTime(rows[..|rows| - 1]);
      if last < front then last else front
  }

  function MaxTime(rows: seq<Row>): int
    requires rows != []
  {
    var last := rows[|rows| - 1].createdAt;
    if |rows| == 1 then last
    else
      var front := MaxTime(rows[..|rows| - 1]);
      if last > front then last else front
  }

  /** The group that finish makes of the rows added to it. */
  function GroupOf(id: GroupId, rows: seq<Row>): Group {
    var firsts := Firsts(rows);
    var kind, verification := KindOf(rows), VerificationOf(rows);
    var score := Score(kind, |firsts|, verification);
    Group(id, kind, |rows|, |firsts|, TypeCountsOf(Types(firsts)), RefsOf(firsts),
          Sort(Leq, Distinct(AreasIn(rows))), Sort(Leq, Distinct(AuthorsIn(rows))),
          if rows == [] then 0 else MinTime(rows), if rows == [] then 0 else MaxTime(rows),
          score, LevelOf(score), verification)
  }

  /** Start and end are the earliest and the latest member's time. */
  lemma {:induction false} TimesAreMembers(rows: seq<Row>)
    requires rows != []
    ensures exists i :: 0 <= i < |rows| && rows[i].createdAt == MinTime(rows)
    ensures exists i :: 0 <= i < |rows| && rows[i].createdAt == MaxTime(rows)
    ensures forall i :: 0 <= i < |rows| ==> MinTime(rows) <= rows[i].createdAt <= MaxTime(rows)
  {
    var n := |rows| - 1;
    assert rows[n].createdAt == rows[n].createdAt;
    if n > 0 {
      var front := rows[..n];
      TimesAreMembers(front);
      var i :| 0 <= i < n && front[i].createdAt == MinTime(front);
      var j :| 0 <= j < n && front[j].createdAt == MaxTime(front);
      assert rows[i] == front[i] && rows[j] == front[j];
      assert forall k :: 0 <= k < n ==> rows[k] == front[k];
    }
  }

  function SumCounts(counts: seq<TypeCount>): nat {
    if counts == [] then 0 else SumCounts(counts[..|counts| - 1]) + counts[|counts| - 1].count
  }

  // ----- type counts ------------------------------------------------------------------------

  lemma {:induction false} DistinctMembers(s: seq<string>)
    ensures NoDup(Distinct(s)) && forall x :: x in Distinct(s) <==> x in s && x != ""
  {
    if s != [] {
      DistinctMembers(s[..|s| - 1]);
      assert s == s[..|s| - 1] + [s[|s| - 1]];
    }
  }

  lemma TypeOrder()
    ensures TotalPreorder(TypeLeq)
  {
    forall a, b ensures TypeLeq(a, b) || TypeLeq(b, a) {
      LessTrichotomy(a.artifactType, b.artifactType);
    }
    forall a, b, c | TypeLeq(a, b) && TypeLeq(b, c) ensures TypeLeq(a, c) {
      if a.artifactType != b.artifactType && b.artifactType != c.artifactType && a.count == b.count == c.count {
        LessTransitive(a.artifactType, b.artifactType, c.artifactType);
      }
    }
  }

  lemma TypesUntied(s: seq<TypeCount>)
    ensures Untied(TypeLeq, s)
  {
    forall a, b | a in s && b in s && TypeLeq(a, b) && TypeLeq(b, a) ensures a == b {
      LessTrichotomy(a.artifactType, b.artifactType);
    }
  }

  /** Type counts depend on how often each type occurs, not on the order. */
  lemma TypeCountsForgetOrder(a: seq<string>, b: seq<string>)
    requires multiset(a) == multiset(b)
    ensures TypeCountsOf(a) == TypeCountsOf(b)
  {
    DistinctMembers(a);
    DistinctMembers(b);
    forall x ensures x in a <==> x in b {
      assert x in multiset(a) <==> x in a;
      assert x in multiset(b) <==> x in b;
    }
    SameMembers(Distinct(a), Distinct(b));
    var f := t => TypeCount(t, multiset(a)[t]);
    MapKeeps(f, Distinct(a), Distinct(b));
    assert Map(t => TypeCount(t, multiset(a)[t]), Distinct(a)) == Map(f, Distinct(a));
    assert Map(t => TypeCount(t, multiset(b)[t]), Distinct(b)) == Map(f, Distinct(b));
    TypeOrder();
    TypesUntied(Map(f, Distinct(a)));
    SortForgetsOrder(TypeLeq, Map(f, Distinct(a)), Map(f, Distinct(b)));
  }

  lemma {:induction false} SumJoined(a: seq<TypeCount>, b: seq<TypeCount>)
    ensures SumCounts(a + b) == SumCounts(a) + SumCounts(b)
  {
    if b == [] {
      assert a + b == a;
    } else {
      assert (a + b)[..|a + b| - 1] == a + b[..|b| - 1];
      SumJoined(a, b[..|b| - 1]);
    }
  }

  lemma {:induction false} SumForgetsOrder(a: seq<TypeCount>, b: seq<TypeCount>)
    requires multiset(a) == multiset(b)
    ensures SumCounts(a) == SumCounts(b)
    decreases |a|
  {
    if a == [] {
      assert |multiset(b)| == 0;
    } else {
      var i := Find(a, b);
      Without(a, b, 0, i);
      SumForgetsOrder(a[..0] + a[1..], b[..i] + b[i + 1..]);
      SumWithout(a, 0);
      SumWithout(b, i);
    }
  }

  lemma SumOne(x: TypeCount)
    ensures SumCounts([x]) == x.count
  {
    assert [x][..0] == [];
  }

  lemma SumWithout(s: seq<TypeCount>, i: nat)
    requires i < |s|
    ensures SumCounts(s) == SumCounts(s[..i] + s[i + 1..]) + s[i].count
  {
    var low, x, high := s[..i], [s[i]], s[i + 1..];
    assert s == low + x + high;
    SumJoined(low + x, high);
    SumJoined(low, x);
    SumJoined(low, high);
    SumOne(s[i]);
  }

  /** How many members of s are in ts. */
  function CountAmong(s: seq<string>, ts: seq<string>): nat {
    if s == [] then 0 else CountAmong(s[..|s| - 1], ts) + (if s[|s| - 1] in ts then 1 else 0)
  }

  lemma {:induction false} OneMoreType(s: seq<string>, ts: seq<string>, t: string)
    requires t !in ts
    ensures CountAmong(s, ts + [t]) == CountAmong(s, ts) + multiset(s)[t]
  {
    if s != [] {
      OneMoreType(s[..|s| - 1], ts, t);
      assert s == s[..|s| - 1] + [s[|s| - 1]];
    }
  }

  lemma {:induction false} SumOverTypes(s: seq<string>, ts: seq<string>)
    requires NoDup(ts)
    ensures SumCounts(Map(t => TypeCount(t, multiset(s)[t]), ts)) == CountAmong(s, ts)
  {
    var f := t => TypeCount(t, multiset(s)[t]);
    assert Map(t => TypeCount(t, multiset(s)[t]), ts) == Map(f, ts);
    if ts == [] {
      NoneAmong(s);
    } else {
      var front, t := ts[..|ts| - 1], ts[|ts| - 1];
      SumOverTypes(s, front);
      assert Map(t => TypeCount(t, multiset(s)[t]), front) == Map(f, front);
      assert Map(f, ts)[..|ts| - 1] == Map(f, front);
      assert ts == front + [t];
      OneMoreType(s, front, t);
    }
  }

  lemma {:induction false} NoneAmong(s: seq<string>)
    ensures CountAmong(s, []) == 0
  {
    if s != [] {
      NoneAmong(s[..|s| - 1]);
    }
  }

  lemma {:induction false} AllAmong(s: seq<string>, ts: seq<string>)
    requires forall x :: x in s ==> x in ts
    ensures CountAmong(s, ts) == |s|
  {
    if s != [] {
      AllAmong(s[..|s| - 1], ts);
    }
  }

  /** The type counts add up to the number of types counted. */
  lemma TypeCountsSum(types: seq<string>)
    requires "" !in types
    ensures SumCounts(TypeCountsOf(types)) == |types|
  {
    var f := t => TypeCount(t, multiset(types)[t]);
    var entries := Map(t => TypeCount(t, multiset(types)[t]), Distinct(types));
    DistinctMembers(types);
    SortKeeps(TypeLeq, entries);
    SumForgetsOrder(Sort(TypeLeq, entries), entries);
    SumOverTypes(types, Distinct(types));
    AllAmong(types, Distinct(types));
  }

  lemma TypeNonempty(t: string)
    ensures FirstNonEmpty(t, "Artifact") != ""
  {
    var artifact := "Artifact";
    assert artifact[0] == 'A' && artifact[7] == 't';
    TrimSpaceFixed(artifact);
  }

  lemma TypesNonempty(rows: seq<Row>)
    ensures "" !in Types(rows)
  {
    forall i | 0 <= i < |rows| ensures Types(rows)[i] != "" {
      TypeNonempty(rows[i].artifactType);
    }
  }

  /** In every group the type counts sum to the artifact count. */
  lemma TypeCountsSumToArtifacts(id: GroupId, rows: seq<Row>)
    ensures SumCounts(GroupOf(id, rows).typeCounts) == GroupOf(id, rows).artifactCount
  {
    TypesNonempty(Firsts(rows));
    TypeCountsSum(Types(Firsts(rows)));
  }
}
