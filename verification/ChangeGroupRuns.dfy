/** GroupRows itself: accumulators in a map, iterated in any order, and a ranking that
    hides that order. */
module ChangeGroupRuns {
  import opened Wrappers
  import opened Strings
  import opened Sorting
  import opened ChangeGroups

  // ----- the grouping, without accumulators ---------------------------------------------------

  function Members(rows: seq<Row>, id: GroupId, window: int): seq<Row>
    requires window > 0
  {
    if rows == [] then []
    else
      var n := |rows| - 1;
      if IdOf(rows[n], window) == id then Members(rows[..n], id, window) + [rows[n]] else Members(rows[..n], id, window)
  }

  /** The group ids by first appearance. */
  function FirstIds(rows: seq<Row>, window: int): seq<GroupId>
    requires window > 0
  {
    if rows == [] then []
    else
      var n := |rows| - 1;
      var front := FirstIds(rows[..n], window);
      if IdOf(rows[n], window) in front then front else front + [IdOf(rows[n], window)]
  }

  function GroupFor(rows: seq<Row>, id: GroupId, window: int): Group
    requires window > 0
  {
    GroupOf(id, Members(rows, id, window))
  }

  function GroupsFor(rows: seq<Row>, ids: seq<GroupId>, window: int): (r: seq<Group>)
    requires window > 0
    ensures |r| == |ids| && forall i :: 0 <= i < |ids| ==> r[i] == GroupFor(rows, ids[i], window)
  {
    Map(id => GroupFor(rows, id, window), ids)
  }

  function AllGroups(rows: seq<Row>, window: int): seq<Group>
    requires window > 0
  {
    GroupsFor(rows, FirstIds(rows, window), window)
  }

  function OfKind(groups: seq<Group>, kind: Option<Kind>): seq<Group> {
    if groups == [] then []
    else
      var n := |groups| - 1;
      if Fits(groups[n], kind) then OfKind(groups[..n], kind) + [groups[n]] else OfKind(groups[..n], kind)
  }

  predicate ByTime(a: Row, b: Row) {
    a.createdAt <= b.createdAt
  }

  /** Score, then end, both descending, then the id's text. */
  function Ranking(hex: GroupId -> string): (Group, Group) -> bool {
    (a: Group, b: Group) =>
      a.score > b.score
        || (a.score == b.score && (a.timeEnd > b.timeEnd || (a.timeEnd == b.timeEnd && Leq(hex(a.id), hex(b.id)))))
  }

  function Ranked(rows: seq<Row>, kind: Option<Kind>, window: int, hex: GroupId -> string): seq<Group>
    requires window > 0
  {
    Sort(Ranking(hex), OfKind(AllGroups(Sort(ByTime, rows), window), kind))
  }

  function Grouped(rows: seq<Row>, kind: Option<Kind>, limit: int, window: int, hex: GroupId -> string): seq<Group>
    requires window > 0
  {
    var all := Ranked(rows, kind, window, hex);
    if limit > 0 then Take(all, limit) else all
  }

  ghost predicate Injective(hex: GroupId -> string) {
    forall a, b :: hex(a) == hex(b) ==> a == b
  }

  // ----- ids and members ------------------------------------------------------------------------

  lemma {:induction false} FirstIdsMean(rows: seq<Row>, window: int)
    requires window > 0
    ensures NoDup(FirstIds(rows, window))
    ensures forall id :: id in FirstIds(rows, window) <==> Members(rows, id, window) != []
  {
    if rows != [] {
      FirstIdsMean(rows[..|rows| - 1], window);
    }
  }

  lemma {:induction false} MembersBelong(rows: seq<Row>, id: GroupId, window: int)
    requires window > 0
    ensures forall r :: r in Members(rows, id, window) <==> r in rows && IdOf(r, window) == id
  {
    if rows != [] {
      MembersBelong(rows[..|rows| - 1], id, window);
      assert rows == rows[..|rows| - 1] + [rows[|rows| - 1]];
    }
  }

  /** How many rows have their id among ids. */
  function CountAmongIds(rows: seq<Row>, ids: seq<GroupId>, window: int): nat
    requires window > 0
  {
    if rows == [] then 0
    else CountAmongIds(rows[..|rows| - 1], ids, window) + (if IdOf(rows[|rows| - 1], window) in ids then 1 else 0)
  }

  function SumRevisions(groups: seq<Group>): nat {
    if groups == [] then 0 else SumRevisions(groups[..|groups| - 1]) + groups[|groups| - 1].revisionCount
  }

  lemma {:induction false} OneMoreId(rows: seq<Row>, ids: seq<GroupId>, window: int)
    requires window > 0 && ids != [] && NoDup(ids)
    ensures var n := |ids| - 1;
            CountAmongIds(rows, ids, window) == CountAmongIds(rows, ids[..n], window) + |Members(rows, ids[n], window)|
  {
    if rows != [] {
      OneMoreId(rows[..|rows| - 1], ids, window);
      var n, x := |ids| - 1, IdOf(rows[|rows| - 1], window);
      assert x in ids <==> x in ids[..n] || x == ids[n];
    }
  }

  lemma {:induction false} NoIds(rows: seq<Row>, window: int)
    requires window > 0
    ensures CountAmongIds(rows, [], window) == 0
  {
    if rows != [] {
      NoIds(rows[..|rows| - 1], window);
    }
  }

  lemma {:induction false} AllIds(rows: seq<Row>, ids: seq<GroupId>, window: int)
    requires window > 0 && forall r :: r in rows ==> IdOf(r, window) in ids
    ensures CountAmongIds(rows, ids, window) == |rows|
  {
    if rows != [] {
      AllIds(rows[..|rows| - 1], ids, window);
    }
  }

  lemma {:induction false} SumOverIds(rows: seq<Row>, ids: seq<GroupId>, window: int)
    requires window > 0 && NoDup(ids)
    ensures SumRevisions(GroupsFor(rows, ids, window)) == CountAmongIds(rows, ids, window)
  {
    if ids == [] {
      NoIds(rows, window);
    } else {
      SumOverIds(rows, ids[..|ids| - 1], window);
      SumFront(rows, ids, window);
      OneMoreId(rows, ids, window);
    }
  }

  lemma SumFront(rows: seq<Row>, ids: seq<GroupId>, window: int)
    requires window > 0 && ids != []
    ensures var n := |ids| - 1;
            SumRevisions(GroupsFor(rows, ids, window)) ==
              SumRevisions(GroupsFor(rows, ids[..n], window)) + |Members(rows, ids[n], window)|
  {
    var n := |ids| - 1;
    var groups := GroupsFor(rows, ids, window);
    assert groups[..n] == GroupsFor(rows, ids[..n], window);
    assert groups[n].revisionCount == |Members(rows, ids[n], window)|;
  }

  /** The groups partition the rows: every row is counted once. */
  lemma GroupsPartitionRows(rows: seq<Row>, window: int)
    requires window > 0
    ensures SumRevisions(AllGroups(rows, window)) == |rows|
  {
    FirstIdsMean(rows, window);
    SumOverIds(rows, FirstIds(rows, window), window);
    forall r | r in rows ensures IdOf(r, window) in FirstIds(rows, window) {
      MembersBelong(rows, IdOf(r, window), window);
      assert r in Members(rows, IdOf(r, window), window);
    }
    AllIds(rows, FirstIds(rows, window), window);
  }

  // ----- the ranking ----------------------------------------------------------------------------

  lemma RankingIsOrder(hex: GroupId -> string)
    ensures TotalPreorder(Ranking(hex))
  {
    var leq := Ranking(hex);
    forall a, b ensures leq(a, b) || leq(b, a) {
      LessTrichotomy(hex(a.id), hex(b.id));
    }
    forall a, b, c | leq(a, b) && leq(b, c) ensures leq(a, c) {
      var x, y, z := hex(a.id), hex(b.id), hex(c.id);
      if Less(x, y) && Less(y, z) {
        LessTransitive(x, y, z);
      }
    }
  }

  ghost predicate DistinctIds(groups: seq<Group>) {
    forall a, b :: a in groups && b in groups && a.id == b.id ==> a == b
  }

  lemma RankingUntied(hex: GroupId -> string, groups: seq<Group>)
    requires Injective(hex) && DistinctIds(groups)
    ensures Untied(Ranking(hex), groups)
  {
    var leq := Ranking(hex);
    forall a, b | a in groups && b in groups && leq(a, b) && leq(b, a) ensures a == b {
      LessTrichotomy(hex(a.id), hex(b.id));
      assert hex(a.id) == hex(b.id);
    }
  }

  predicate Fits(g: Group, kind: Option<Kind>) {
    kind == None || g.kind == kind.value
  }

  lemma {:induction false} OfKindMembers(groups: seq<Group>, kind: Option<Kind>, x: Group)
    ensures multiset(OfKind(groups, kind))[x] == if Fits(x, kind) then multiset(groups)[x] else 0
  {
    if groups != [] {
      var front, last := groups[..|groups| - 1], groups[|groups| - 1];
      OfKindMembers(front, kind, x);
      assert groups == front + [last];
      CountSnoc(front, last, x);
      CountSnoc(OfKind(front, kind), last, x);
    }
  }

  lemma OfKindForgetsOrder(a: seq<Group>, b: seq<Group>, kind: Option<Kind>)
    requires multiset(a) == multiset(b)
    ensures multiset(OfKind(a, kind)) == multiset(OfKind(b, kind))
  {
    forall x ensures multiset(OfKind(a, kind))[x] == multiset(OfKind(b, kind))[x] {
      OfKindMembers(a, kind, x);
      OfKindMembers(b, kind, x);
    }
  }

  lemma GroupsDistinct(rows: seq<Row>, window: int)
    requires window > 0
    ensures DistinctIds(AllGroups(rows, window))
    ensures forall g :: g in AllGroups(rows, window) ==> g == GroupFor(rows, g.id, window)
  {
  }

  lemma GroupsPermute(rows: seq<Row>, a: seq<GroupId>, b: seq<GroupId>, window: int)
    requires window > 0 && multiset(a) == multiset(b)
    ensures multiset(GroupsFor(rows, a, window)) == multiset(GroupsFor(rows, b, window))
  {
    var f := id => GroupFor(rows, id, window);
    MapKeeps(f, a, b);
    assert GroupsFor(rows, a, window) == Map(f, a) && GroupsFor(rows, b, window) == Map(f, b);
  }

  /** Whatever order the accumulators come in, the ranked list is the same. */
  lemma AnyOrderRanksAlike(rows: seq<Row>, ids: seq<GroupId>, kind: Option<Kind>, window: int, hex: GroupId -> string)
    requires window > 0 && Injective(hex) && NoDup(ids) && forall id :: id in ids <==> id in FirstIds(rows, window)
    ensures Sort(Ranking(hex), OfKind(GroupsFor(rows, ids, window), kind)) ==
            Sort(Ranking(hex), OfKind(AllGroups(rows, window), kind))
  {
    var groups := GroupsFor(rows, ids, window);
    FirstIdsMean(rows, window);
    SameMembers(ids, FirstIds(rows, window));
    GroupsPermute(rows, ids, FirstIds(rows, window), window);
    OfKindForgetsOrder(groups, AllGroups(rows, window), kind);
    KindDistinct(groups, kind);
    RankingIsOrder(hex);
    RankingUntied(hex, OfKind(groups, kind));
    SortForgetsOrder(Ranking(hex), OfKind(groups, kind), OfKind(AllGroups(rows, window), kind));
  }

  lemma KindDistinct(groups: seq<Group>, kind: Option<Kind>)
    requires DistinctIds(groups)
    ensures DistinctIds(OfKind(groups, kind))
  {
    forall a, b | a in OfKind(groups, kind) && b in OfKind(groups, kind) && a.id == b.id ensures a == b {
      OfKindMembers(groups, kind, a);
      OfKindMembers(groups, kind, b);
    }
  }

  // ----- what the result depends on -------------------------------------------------------------

  lemma TimeOrder()
    ensures TotalPreorder(ByTime)
  {
  }

  /** With distinct times the order the rows come in does not matter. */
  lemma InputOrderIrrelevant(a: seq<Row>, b: seq<Row>, kind: Option<Kind>, limit: int, window: int,
      hex: GroupId -> string)
    requires window > 0 && multiset(a) == multiset(b)
    requires forall x, y :: x in a && y in a && x.createdAt == y.createdAt ==> x == y
    ensures Grouped(a, kind, limit, window, hex) == Grouped(b, kind, limit, window, hex)
  {
    TimeOrder();
    SortForgetsOrder(ByTime, a, b);
  }

  lemma {:induction false} OfKindSorted(leq: (Group, Group) -> bool, groups: seq<Group>, kind: Option<Kind>)
    requires Sorted(leq, groups)
    ensures Sorted(leq, OfKind(groups, kind))
  {
    if groups != [] {
      var n := |groups| - 1;
      var front := OfKind(groups[..n], kind);
      OfKindSorted(leq, groups[..n], kind);
      forall i | 0 <= i < |front| ensures leq(front[i], groups[n]) {
        OfKindMembers(groups[..n], kind, front[i]);
        assert front[i] in groups[..n];
      }
    }
  }

  /** Kind and Limit only filter the full ranking, then take a prefix. */
  lemma KindAndLimitOnlySelect(rows: seq<Row>, kind: Option<Kind>, limit: int, window: int, hex: GroupId -> string)
    requires window > 0 && Injective(hex)
    ensures var selected := OfKind(Grouped(rows, None, 0, window, hex), kind);
            Grouped(rows, kind, limit, window, hex) == if limit > 0 then Take(selected, limit) else selected
  {
    var leq, groups := Ranking(hex), AllGroups(Sort(ByTime, rows), window);
    EveryKind(groups);
    SelectThenSort(leq, groups, kind, hex, rows, window);
  }

  lemma {:induction false} EveryKind(groups: seq<Group>)
    ensures OfKind(groups, None) == groups
  {
    if groups != [] {
      EveryKind(groups[..|groups| - 1]);
      assert groups == groups[..|groups| - 1] + [groups[|groups| - 1]];
    }
  }

  lemma SelectThenSort(leq: (Group, Group) -> bool, groups: seq<Group>, kind: Option<Kind>, hex: GroupId -> string,
      rows: seq<Row>, window: int)
    requires window > 0 && Injective(hex) && leq == Ranking(hex) && groups == AllGroups(Sort(ByTime, rows), window)
    ensures Sort(leq, OfKind(groups, kind)) == OfKind(Sort(leq, groups), kind)
  {
    GroupsDistinct(Sort(ByTime, rows), window);
    KindDistinct(groups, kind);
    RankingIsOrder(hex);
    RankingUntied(hex, OfKind(groups, kind));
    SortKeeps(leq, groups);
    OfKindForgetsOrder(groups, Sort(leq, groups), kind);
    SortForgetsOrder(leq, OfKind(groups, kind), OfKind(Sort(leq, groups), kind));
    SortSorts(leq, groups);
    OfKindSorted(leq, Sort(leq, groups), kind);
    SortFixes(leq, OfKind(Sort(leq, groups), kind));
  }

  lemma {:induction false} SumForgets(a: seq<Group>, b: seq<Group>)
    requires multiset(a) == multiset(b)
    ensures SumRevisions(a) == SumRevisions(b)
    decreases |a|
  {
    if a == [] {
      assert |multiset(b)| == 0;
    } else {
      var i := Find(a, b);
      Without(a, b, 0, i);
      SumForgets(a[..0] + a[1..], b[..i] + b[i + 1..]);
      SumLess(a, 0);
      SumLess(b, i);
    }
  }

  lemma {:induction false} SumAdds(a: seq<Group>, b: seq<Group>)
    ensures SumRevisions(a + b) == SumRevisions(a) + SumRevisions(b)
  {
    if b == [] {
      assert a + b == a;
    } else {
      assert (a + b)[..|a + b| - 1] == a + b[..|b| - 1];
      SumAdds(a, b[..|b| - 1]);
    }
  }

  lemma SumOne(g: Group)
    ensures SumRevisions([g]) == g.revisionCount
  {
    assert [g][..0] == [];
  }

  lemma SumLess(s: seq<Group>, i: nat)
    requires i < |s|
    ensures SumRevisions(s) == SumRevisions(s[..i] + s[i + 1..]) + s[i].revisionCount
  {
    Around(s, i);
    SumThree(s, s[..i], s[i], s[i + 1..]);
  }

  lemma SumThree(s: seq<Group>, low: seq<Group>, g: Group, high: seq<Group>)
    requires s == low + [g] + high
    ensures SumRevisions(s) == SumRevisions(low + high) + g.revisionCount
  {
    SumAdds(low + [g], high);
    SumAdds(low, [g]);
    SumAdds(low, high);
    SumOne(g);
  }

  /** Unfiltered, the revision counts of the result sum to the number of rows. */
  lemma RevisionsSumToRows(rows: seq<Row>, window: int, hex: GroupId -> string)
    requires window > 0
    ensures SumRevisions(Grouped(rows, None, 0, window, hex)) == |rows|
  {
    var sorted := Sort(ByTime, rows);
    EveryKind(AllGroups(sorted, window));
    SortKeeps(Ranking(hex), AllGroups(sorted, window));
    SumForgets(Grouped(rows, None, 0, window, hex), AllGroups(sorted, window));
    GroupsPartitionRows(sorted, window);
  }

  /** Every group of the result is some rows' group: its members are exactly the rows with
      its id, it starts and ends with them, and spans less than a window of a second or more. */
  lemma GroupsAreTheirMembers(rows: seq<Row>, window: int, hex: GroupId -> string, g: Group)
    requires window > 0 && g in Grouped(rows, None, 0, window, hex)
    ensures var members := Members(Sort(ByTime, rows), g.id, window);
            && members != [] && g == GroupOf(g.id, members)
            && (forall r :: r in members <==> r in rows && IdOf(r, window) == g.id)
            && (forall r :: r in members ==> g.timeStart <= r.createdAt <= g.timeEnd)
            && (Windowed(g.id) && window >= SECOND ==> g.timeEnd - g.timeStart < window)
  {
    var sorted := Sort(ByTime, rows);
    var members := Members(sorted, g.id, window);
    EveryKind(AllGroups(sorted, window));
    SortMembers(Ranking(hex), AllGroups(sorted, window));
    GroupIsItsMembers(sorted, window, g);
    MembersBelong(sorted, g.id, window);
    SortMembers(ByTime, rows);
    BoundsOf(members);
    if Windowed(g.id) && window >= SECOND {
      MembersSpan(members, g.id, window);
    }
  }

  lemma GroupIsItsMembers(rows: seq<Row>, window: int, g: Group)
    requires window > 0 && g in AllGroups(rows, window)
    ensures Members(rows, g.id, window) != [] && g == GroupOf(g.id, Members(rows, g.id, window))
  {
    GroupsDistinct(rows, window);
    FirstIdsMean(rows, window);
  }

  lemma BoundsOf(members: seq<Row>)
    requires members != []
    ensures forall r :: r in members ==> MinTime(members) <= r.createdAt <= MaxTime(members)
  {
    TimesAreMembers(members);
  }

  lemma MembersSpan(members: seq<Row>, id: GroupId, window: int)
    requires members != [] && Windowed(id) && window >= SECOND && forall r :: r in members ==> IdOf(r, window) == id
    ensures MaxTime(members) - MinTime(members) < window
  {
    SpansFitFromASecond(window);
    TimesAreMembers(members);
    var i :| 0 <= i < |members| && members[i].createdAt == MinTime(members);
    var j :| 0 <= j < |members| && members[j].createdAt == MaxTime(members);
    assert members[i] in members && members[j] in members;
  }
}
