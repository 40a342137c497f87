/** The accumulators of GroupRows as the program keeps them: sets and maps updated row
    by row, read out in whatever order a map gives. */
module ChangeGroupTables {
  import opened Wrappers
  import opened Strings
  import opened Sorting
  import opened ChangeGroups
  import opened ChangeGroupRuns

  // ----- reading maps and sets in any order ------------------------------------------------------

  ghost predicate Lists<T(!new)>(list: seq<T>, members: set<T>) {
    NoDup(list) && forall x :: x in list <==> x in members
  }

  /** Taking one more member from what is left to list. */
  lemma ListMore<T(!new)>(list: seq<T>, all: set<T>, todo: set<T>, x: T)
    requires todo <= all && x in todo && Lists(list, all - todo)
    ensures Lists(list + [x], all - (todo - {x})) && todo - {x} <= all && todo - {x} < todo
  {
    forall y ensures y in list + [x] <==> y in all - (todo - {x}) {
      assert y in list + [x] <==> y in list || y == x;
    }
  }

  /** sortedKeys. */
  method SortedKeys(m: set<string>, ghost list: seq<string>) returns (out: seq<string>)
    requires Lists(list, m)
    ensures out == Sort(Leq, list)
  {
    out := [];
    var todo := m;
    while todo != {}
      invariant todo <= m && Lists(out, m - todo)
      decreases todo
    {
      var k :| k in todo;
      ListMore(out, m, todo, k);
      todo := todo - {k};
      out := out + [k];
    }
    SameMembers(out, list);
    LeqIsOrder();
    LeqUntied(out);
    SortForgetsOrder(Leq, out, list);
    out := Sort(Leq, out);
  }

  function TypeAt(types: map<string, string>, key: string): string {
    if key in types then FirstNonEmpty(types[key], "Artifact") else ""
  }

  function TypesAt(types: map<string, string>, keys: seq<string>): (r: seq<string>)
    ensures |r| == |keys| && forall i :: 0 <= i < |keys| ==> r[i] == TypeAt(types, keys[i])
  {
    Map(k => TypeAt(types, k), keys)
  }

  function Count(counts: map<string, nat>, t: string): nat {
    if t in counts then counts[t] else 0
  }

  ghost predicate Tallies(counts: map<string, nat>, types: seq<string>) {
    forall t :: Count(counts, t) == multiset(types)[t] && (t in counts <==> t in types)
  }

  lemma TallyOne(counts: map<string, nat>, types: seq<string>, t: string)
    requires Tallies(counts, types)
    ensures Tallies(counts[t := Count(counts, t) + 1], types + [t])
  {
    forall x ensures x in types + [t] <==> x in types || x == t {
    }
  }

  /** The tally loop of typeCounts. */
  method Tally(types: map<string, string>) returns (counts: map<string, nat>, ghost order: seq<string>)
    ensures Lists(order, types.Keys) && Tallies(counts, TypesAt(types, order))
  {
    counts, order := map[], [];
    var todo := types.Keys;
    while todo != {}
      invariant todo <= types.Keys && Lists(order, types.Keys - todo) && Tallies(counts, TypesAt(types, order))
      decreases todo
    {
      var k :| k in todo;
      ListMore(order, types.Keys, todo, k);
      todo := todo - {k};
      var t := FirstNonEmpty(types[k], "Artifact");
      TallyOne(counts, TypesAt(types, order), t);
      assert TypesAt(types, order + [k]) == TypesAt(types, order) + [t];
      counts := counts[t := Count(counts, t) + 1];
      order := order + [k];
    }
  }

  lemma SameTypes(types: map<string, string>, order: seq<string>, keys: seq<string>)
    requires Lists(order, types.Keys) && Lists(keys, types.Keys)
    ensures TypeCountsOf(TypesAt(types, order)) == TypeCountsOf(TypesAt(types, keys))
    ensures "" !in TypesAt(types, order)
  {
    var f := k => TypeAt(types, k);
    SameMembers(order, keys);
    MapKeeps(f, order, keys);
    assert TypesAt(types, order) == Map(f, order) && TypesAt(types, keys) == Map(f, keys);
    TypeCountsForgetOrder(TypesAt(types, order), TypesAt(types, keys));
    forall i | 0 <= i < |order| ensures TypesAt(types, order)[i] != "" {
      assert order[i] in order;
      TypeNonempty(types[order[i]]);
    }
  }

  /** typeCounts: keys is any listing of the artifacts. */
  method TypeCounts(types: map<string, string>, ghost keys: seq<string>) returns (out: seq<TypeCount>)
    requires Lists(keys, types.Keys)
    ensures out == TypeCountsOf(TypesAt(types, keys))
  {
    var counts, order := Tally(types);
    SameTypes(types, order, keys);
    out := ListCounts(counts, TypesAt(types, order));
  }

  method ListCounts(counts: map<string, nat>, ghost types: seq<string>) returns (out: seq<TypeCount>)
    requires Tallies(counts, types) && "" !in types
    ensures out == TypeCountsOf(types)
  {
    out := [];
    ghost var order: seq<string> := [];
    ghost var f := t => TypeCount(t, multiset(types)[t]);
    var todo := counts.Keys;
    while todo != {}
      invariant todo <= counts.Keys && Lists(order, counts.Keys - todo) && out == Map(f, order)
      decreases todo
    {
      var t :| t in todo;
      ListMore(order, counts.Keys, todo, t);
      todo := todo - {t};
      assert counts[t] == Count(counts, t);
      out := out + [TypeCount(t, counts[t])];
      order := order + [t];
    }
    DistinctMembers(types);
    SameMembers(order, Distinct(types));
    MapKeeps(f, order, Distinct(types));
    assert Map(t => TypeCount(t, multiset(types)[t]), Distinct(types)) == Map(f, Distinct(types));
    TypeOrder();
    TypesUntied(out);
    SortForgetsOrder(TypeLeq, out, Map(f, Distinct(types)));
    out := Sort(TypeLeq, out);
  }

  // ----- one more row -----------------------------------------------------------------------------

  lemma TimesSnoc(rows: seq<Row>, row: Row)
    ensures rows == [] ==> MinTime(rows + [row]) == row.createdAt == MaxTime(rows + [row])
    ensures rows != [] ==>
              && MinTime(rows + [row]) == (if row.createdAt < MinTime(rows) then row.createdAt else MinTime(rows))
              && MaxTime(rows + [row]) == (if row.createdAt > MaxTime(rows) then row.createdAt else MaxTime(rows))
  {
    assert (rows + [row])[..|rows|] == rows;
  }

  lemma FirstsSnoc(rows: seq<Row>, row: Row)
    ensures Firsts(rows + [row]) ==
              if ArtifactKey(row) == "" || ArtifactKey(row) in Keys(Firsts(rows)) then Firsts(rows)
                else Firsts(rows) + [row]
  {
    assert (rows + [row])[..|rows|] == rows;
  }

  lemma DistinctSnoc(s: seq<string>, x: string)
    ensures Distinct(s + [x]) == if x == "" || x in Distinct(s) then Distinct(s) else Distinct(s) + [x]
  {
    assert (s + [x])[..|s|] == s;
  }

  lemma CountKindSnoc(rows: seq<Row>, row: Row, kind: Kind)
    ensures CountKind(rows + [row], kind) == CountKind(rows, kind) + (if row.kind == kind then 1 else 0)
  {
    assert (rows + [row])[..|rows|] == rows;
  }

  lemma StateSnoc(rows: seq<Row>, row: Row, state: string)
    ensures SomeState(rows + [row], state) <==> SomeState(rows, state) || row.verification == state
  {
    var all := rows + [row];
    if SomeState(rows, state) {
      var i :| 0 <= i < |rows| && rows[i].verification == state;
      assert all[i].verification == state;
    }
    assert all[|rows|] == row;
    if SomeState(all, state) {
      var i :| 0 <= i < |all| && all[i].verification == state;
      assert i < |rows| ==> rows[i].verification == state;
    }
  }

  function KindCount(counts: map<Kind, nat>, kind: Kind): nat {
    if kind in counts then counts[kind] else 0
  }

  ghost predicate Times(count: nat, start: int, end: int, rs: seq<Row>) {
    count == |rs| && (if rs == [] then start == end else start == MinTime(rs) && end == MaxTime(rs))
  }

  ghost predicate TypesKnown(typeByKey: map<string, string>, firsts: seq<Row>) {
    forall i :: 0 <= i < |firsts| ==>
      ArtifactKey(firsts[i]) in typeByKey && typeByKey[ArtifactKey(firsts[i])] == RefOf(firsts[i]).artifactType
  }

  ghost predicate Artifacts(artifactSet: set<string>, typeByKey: map<string, string>, refs: seq<ArtifactRef>,
      firsts: seq<Row>) {
    Lists(Keys(firsts), artifactSet) && typeByKey.Keys == artifactSet && refs == RefsOf(firsts)
      && TypesKnown(typeByKey, firsts)
  }

  ghost predicate Names(areaSet: set<string>, authorSet: set<string>, rs: seq<Row>) {
    Lists(Distinct(AreasIn(rs)), areaSet) && Lists(Distinct(AuthorsIn(rs)), authorSet)
  }

  ghost predicate Counts(kindCounts: map<Kind, nat>, verifySet: map<string, nat>, rs: seq<Row>) {
    && (forall kind :: KindCount(kindCounts, kind) == CountKind(rs, kind))
    && (forall state :: state in verifySet <==> state != "" && SomeState(rs, state))
    && (forall state :: state in verifySet ==> verifySet[state] > 0)
  }

  lemma NewArtifact(artifactSet: set<string>, typeByKey: map<string, string>, refs: seq<ArtifactRef>, firsts: seq<Row>,
      row: Row, key: string)
    requires Artifacts(artifactSet, typeByKey, refs, firsts) && key == ArtifactKey(row) && key !in artifactSet
    ensures Artifacts(artifactSet + {key}, typeByKey[key := RefOf(row).artifactType], refs + [RefOf(row)],
            firsts + [row])
  {
    var more := firsts + [row];
    assert Keys(more) == Keys(firsts) + [key] && RefsOf(more) == RefsOf(firsts) + [RefOf(row)];
    forall i | 0 <= i < |firsts| ensures ArtifactKey(more[i]) != key {
      assert Keys(firsts)[i] in Keys(firsts);
    }
  }

  /** groupAcc: every field a fact about the rows added so far. */
  class GroupAcc {
    const id: GroupId
    var revisionCount: nat
    var timeStart: int
    var timeEnd: int
    var artifactSet: set<string>
    var typeByKey: map<string, string>
    var refs: seq<ArtifactRef>
    var areaSet: set<string>
    var authorSet: set<string>
    var kindCounts: map<Kind, nat>
    var verifySet: map<string, nat>
    ghost var rows: seq<Row>

    ghost predicate Sizes(rs: seq<Row>)
      reads this`revisionCount, this`timeStart, this`timeEnd, this`artifactSet, this`typeByKey, this`refs
    {
      Times(revisionCount, timeStart, timeEnd, rs) && Artifacts(artifactSet, typeByKey, refs, Firsts(rs))
    }

    ghost predicate Labels(rs: seq<Row>)
      reads this`areaSet, this`authorSet, this`kindCounts, this`verifySet
    {
      Names(areaSet, authorSet, rs) && Counts(kindCounts, verifySet, rs)
    }

    ghost predicate Valid()
      reads this
    {
      Sizes(rows) && Labels(rows)
    }

    constructor (id: GroupId, createdAt: int)
      ensures Valid() && rows == [] && this.id == id && timeStart == createdAt
    {
      this.id := id;
      revisionCount, timeStart, timeEnd := 0, createdAt, createdAt;
      artifactSet, typeByKey, refs := {}, map[], [];
      areaSet, authorSet, kindCounts, verifySet := {}, {}, map[], map[];
      rows := [];
    }

    method AddTimes(row: Row, ghost rs: seq<Row>)
      requires Times(revisionCount, timeStart, timeEnd, rs) && (rs == [] ==> timeStart == row.createdAt)
      modifies this`revisionCount, this`timeStart, this`timeEnd
      ensures Times(revisionCount, timeStart, timeEnd, rs + [row])
    {
      TimesSnoc(rs, row);
      revisionCount := revisionCount + 1;
      if row.createdAt < timeStart {
        timeStart := row.createdAt;
      }
      if row.createdAt > timeEnd {
        timeEnd := row.createdAt;
      }
    }

    method AddArtifact(row: Row, ghost rs: seq<Row>)
      requires Artifacts(artifactSet, typeByKey, refs, Firsts(rs))
      modifies this`artifactSet, this`typeByKey, this`refs
      ensures Artifacts(artifactSet, typeByKey, refs, Firsts(rs + [row]))
    {
      FirstsSnoc(rs, row);
      var key := ArtifactKey(row);
      if key != "" {
        var seen := key in artifactSet;
        if !seen {
          NewArtifact(artifactSet, typeByKey, refs, Firsts(rs), row, key);
        }
        artifactSet := artifactSet + {key};
        assert seen ==> artifactSet == old(artifactSet);
        if !seen {
          refs := refs + [RefOf(row)];
        }
        if key !in typeByKey {
          typeByKey := typeByKey[key := FirstNonEmpty(row.artifactType, "Artifact")];
        }
      }
    }

    method AddNames(row: Row, ghost rs: seq<Row>)
      requires Names(areaSet, authorSet, rs)
      modifies this`areaSet, this`authorSet
      ensures Names(areaSet, authorSet, rs + [row])
    {
      DistinctSnoc(AreasIn(rs), row.area);
      DistinctSnoc(AuthorsIn(rs), row.author);
      assert AreasIn(rs + [row]) == AreasIn(rs) + [row.area] && AuthorsIn(rs + [row]) == AuthorsIn(rs) + [row.author];
      if row.area != "" {
        areaSet := areaSet + {row.area};
      }
      if row.author != "" {
        authorSet := authorSet + {row.author};
      }
    }

    method AddCounts(row: Row, ghost rs: seq<Row>)
      requires Counts(kindCounts, verifySet, rs)
      modifies this`kindCounts, this`verifySet
      ensures Counts(kindCounts, verifySet, rs + [row])
    {
      kindCounts := kindCounts[row.kind := KindCount(kindCounts, row.kind) + 1];
      var state := row.verification;
      if state != "" {
        verifySet := verifySet[state := (if state in verifySet then verifySet[state] else 0) + 1];
      }
      forall kind ensures KindCount(kindCounts, kind) == CountKind(rs + [row], kind) {
        CountKindSnoc(rs, row, kind);
      }
      forall s ensures s in verifySet <==> s != "" && SomeState(rs + [row], s) {
        StateSnoc(rs, row, s);
      }
    }

    method AddSizes(row: Row, ghost rs: seq<Row>)
      requires Sizes(rs) && (rs == [] ==> timeStart == row.createdAt)
      modifies this`revisionCount, this`timeStart, this`timeEnd, this`artifactSet, this`typeByKey, this`refs
      ensures Sizes(rs + [row])
    {
      AddTimes(row, rs);
      AddArtifact(row, rs);
    }

    method AddLabels(row: Row, ghost rs: seq<Row>)
      requires Labels(rs)
      modifies this`areaSet, this`authorSet, this`kindCounts, this`verifySet
      ensures Labels(rs + [row])
    {
      AddNames(row, rs);
      AddCounts(row, rs);
    }

    method Add(row: Row)
      requires Valid() && (rows == [] ==> timeStart == row.createdAt)
      modifies this
      ensures Valid() && rows == old(rows) + [row]
    {
      AddSizes(row, rows);
      AddLabels(row, rows);
      rows := rows + [row];
    }

    /** finish. */
    method Finish() returns (g: Group)
      requires Valid()
      ensures rows != [] ==> g == GroupOf(id, rows)
    {
      var areas := SortedKeys(areaSet, Distinct(AreasIn(rows)));
      var authors := SortedKeys(authorSet, Distinct(AuthorsIn(rows)));
      var artifactCount := |artifactSet|;
      ListsSize(Keys(Firsts(rows)), artifactSet);
      var typeCounts := TypeCounts(typeByKey, Keys(Firsts(rows)));
      TypesFromMap(typeByKey, Firsts(rows));
      var kind := DominantKind(kindCounts, rows);
      var verification := AggregateVerification(verifySet, rows);
      var score := Score(kind, artifactCount, verification);
      g := Group(id, kind, revisionCount, artifactCount, typeCounts, refs, areas, authors, timeStart, timeEnd, score,
        LevelOf(score), verification);
    }
  }

  lemma ListsSize(list: seq<string>, members: set<string>)
    requires Lists(list, members)
    ensures |members| == |list|
  {
    assert members == set x | x in list;
    NoDupSize(list, members);
  }

  /** The map's values, read along the artifacts, are their types. */
  lemma TypesFromMap(typeByKey: map<string, string>, firsts: seq<Row>)
    requires TypesKnown(typeByKey, firsts)
    ensures TypesAt(typeByKey, Keys(firsts)) == Types(firsts)
  {
    forall i | 0 <= i < |firsts| ensures TypeAt(typeByKey, Keys(firsts)[i]) == Types(firsts)[i] {
      var t := firsts[i].artifactType;
      TypeNonempty(t);
      var artifact := "Artifact";
      TrimSpaceIdempotent(t);
      TrimSpaceIdempotent(artifact);
    }
  }

  /** The loop of dominantKind over its fixed order. */
  method DominantKind(counts: map<Kind, nat>, ghost rows: seq<Row>) returns (best: Kind)
    requires forall kind :: KindCount(counts, kind) == CountKind(rows, kind)
    ensures best == KindOf(rows)
  {
    var order := [HumanTrigger, AutoSync, Maintenance, System];
    best := HumanTrigger;
    var bestCount: int := -1;
    for i := 0 to |order|
      invariant i == 0 ==> best == HumanTrigger && bestCount == -1
      invariant i > 0 ==> bestCount == CountKind(rows, best) && best in order[..i]
      invariant forall j :: 0 <= j < i ==>
                  CountKind(rows, order[j]) <= bestCount
                    && (CountKind(rows, order[j]) == bestCount ==> Order(best) <= j)
    {
      if KindCount(counts, order[i]) > bestCount {
        best, bestCount := order[i], KindCount(counts, order[i]);
      }
    }
    OnlyDominant(rows, best, order);
  }

  lemma OnlyDominant(rows: seq<Row>, best: Kind, order: seq<Kind>)
    requires order == [HumanTrigger, AutoSync, Maintenance, System]
    requires forall j :: 0 <= j < 4 ==>
               CountKind(rows, order[j]) <= CountKind(rows, best)
                 && (CountKind(rows, order[j]) == CountKind(rows, best) ==> Order(best) <= j)
    ensures best == KindOf(rows)
  {
    assert order[Order(KindOf(rows))] == KindOf(rows) && order[Order(best)] == best;
    DominantIsMost(rows, best);
  }

  method AggregateVerification(counts: map<string, nat>, ghost rows: seq<Row>) returns (v: Verification)
    requires forall state :: state in counts <==> state != "" && SomeState(rows, state)
    requires forall state :: state in counts ==> counts[state] > 0
    ensures v == VerificationOf(rows)
  {
    var unverified, partially, verified := "unverified", "partially_verified", "verified";
    assert unverified[0] == 'u' && partially[0] == 'p' && verified[0] == 'v';
    if |counts| == 0 {
      assert counts.Keys == {};
      return Unclassified;
    }
    if Count(counts, unverified) > 0 {
      return Unverified;
    }
    if Count(counts, partially) > 0 {
      return PartiallyVerified;
    }
    if Count(counts, verified) > 0 {
      return Verified;
    }
    return Unclassified;
  }

  // ----- GroupRows ------------------------------------------------------------------------------------

  /** The accumulator of a group over these members. */
  ghost predicate Collects(acc: GroupAcc, id: GroupId, members: seq<Row>)
    reads acc
  {
    acc.Valid() && acc.id == id && acc.rows == members
  }

  /** Every id has its own accumulator. */
  ghost predicate Apart(accs: map<GroupId, GroupAcc>) {
    forall a, b :: a in accs && b in accs && a != b ==> accs[a] != accs[b]
  }

  /** The accumulators, each the group of its id over the rows seen so far. */
  ghost predicate Accumulated(accs: map<GroupId, GroupAcc>, seen: seq<Row>, window: int)
    requires window > 0
    reads accs.Values
  {
    && (forall id :: id in accs <==> id in FirstIds(seen, window))
    && Apart(accs)
       && (forall id :: id in accs ==> accs[id] in accs.Values && Collects(accs[id], id, Members(seen, id, window)))
  }

  lemma MembersSnoc(seen: seq<Row>, row: Row, id: GroupId, window: int)
    requires window > 0
    ensures Members(seen + [row], id, window) == if IdOf(row, window) == id then Members(seen, id, window) + [row]
            else Members(seen, id, window)
    ensures id in FirstIds(seen + [row], window) <==> id in FirstIds(seen, window) || id == IdOf(row, window)
  {
    assert (seen + [row])[..|seen|] == seen;
  }

  /** The accumulation loop. */
  method Accumulate(rows: seq<Row>, window: int) returns (accs: map<GroupId, GroupAcc>)
    requires window > 0
    ensures Accumulated(accs, rows, window) && fresh(accs.Values)
  {
    accs := map[];
    for i := 0 to |rows|
      invariant Accumulated(accs, rows[..i], window)
      invariant fresh(accs.Values)
    {
      assert rows[..i + 1] == rows[..i] + [rows[i]];
      accs := AddRow(accs, rows[..i], rows[i], window);
    }
    assert rows[..|rows|] == rows;
  }

  /** The accumulator of the row's group, made if it is not there. */
  method AccFor(accs: map<GroupId, GroupAcc>, id: GroupId, createdAt: int) returns (next: map<GroupId, GroupAcc>)
    requires Apart(accs)
    ensures Apart(next) && next.Keys == accs.Keys + {id} && forall other :: other in accs ==> next[other] == accs[other]
    ensures id !in accs ==> fresh(next[id]) && Collects(next[id], id, []) && next[id].timeStart == createdAt
    ensures fresh(next.Values - accs.Values)
  {
    next := accs;
    if id !in accs {
      var acc := new GroupAcc(id, createdAt);
      next := next[id := acc];
    }
  }

  method AddRow(accs: map<GroupId, GroupAcc>, ghost seen: seq<Row>, row: Row, window: int)
      returns (next: map<GroupId, GroupAcc>)
    requires window > 0 && Accumulated(accs, seen, window)
    modifies accs.Values
    ensures Accumulated(next, seen + [row], window)
    ensures fresh(next.Values - accs.Values)
  {
    var id := IdOf(row, window);
    FirstIdsMean(seen, window);
    next := AccFor(accs, id, row.createdAt);
    var acc := next[id];
    assert Collects(acc, id, Members(seen, id, window));
    assert acc.rows == [] ==> acc.timeStart == row.createdAt;
    assert acc in accs.Values || fresh(acc);
    label before:
    acc.Add(row);
    MembersSnoc(seen, row, id, window);
    forall other | other in next
      ensures next[other] in next.Values && Collects(next[other], other, Members(seen + [row], other, window))
    {
      MembersSnoc(seen, row, other, window);
      if other != id {
        assert next[other] != acc;
        assert old@before(Collects(next[other], other, Members(seen, other, window)));
      }
    }
    forall other ensures other in next <==> other in FirstIds(seen + [row], window) {
      MembersSnoc(seen, row, other, window);
    }
  }

  lemma OfKindSnoc(groups: seq<Group>, g: Group, kind: Option<Kind>)
    ensures OfKind(groups + [g], kind) == if Fits(g, kind) then OfKind(groups, kind) + [g] else OfKind(groups, kind)
  {
    assert (groups + [g])[..|groups|] == groups;
  }

  method FinishOne(acc: GroupAcc, id: GroupId, ghost members: seq<Row>) returns (g: Group)
    requires Collects(acc, id, members) && members != []
    ensures g == GroupOf(id, members)
  {
    g := acc.Finish();
  }

  lemma NextGroup(rows: seq<Row>, order: seq<GroupId>, id: GroupId, kind: Option<Kind>, window: int)
    requires window > 0
    ensures var before, g := OfKind(GroupsFor(rows, order, window), kind), GroupFor(rows, id, window);
            OfKind(GroupsFor(rows, order + [id], window), kind) == if Fits(g, kind) then before + [g] else before
  {
    assert GroupsFor(rows, order + [id], window) == GroupsFor(rows, order, window) + [GroupFor(rows, id, window)];
    OfKindSnoc(GroupsFor(rows, order, window), GroupFor(rows, id, window), kind);
  }

  /** Go finishes the accumulators in the map's order, whatever it is. */
  method FinishAll(accs: map<GroupId, GroupAcc>, ghost rows: seq<Row>, kind: Option<Kind>, window: int)
    returns (out: seq<Group>, ghost order: seq<GroupId>)
    requires window > 0 && Accumulated(accs, rows, window)
    ensures Lists(order, accs.Keys) && out == OfKind(GroupsFor(rows, order, window), kind)
  {
    out, order := [], [];
    FirstIdsMean(rows, window);
    var todo := accs.Keys;
    while todo != {}
      invariant todo <= accs.Keys && Lists(order, accs.Keys - todo)
      invariant out == OfKind(GroupsFor(rows, order, window), kind)
      decreases todo
    {
      var id :| id in todo;
      ListMore(order, accs.Keys, todo, id);
      todo := todo - {id};
      var g := FinishOne(accs[id], id, Members(rows, id, window));
      NextGroup(rows, order, id, kind, window);
      order := order + [id];
      if kind != None && g.kind != kind.value {
        continue;
      }
      out := out + [g];
    }
  }

  /** GroupRows: sorts the rows it is given by time, and returns the ranking. */
  method GroupRows(rows: array<Row>, kind: Option<Kind>, limit: int, requested: int, hex: GroupId -> string)
      returns (out: seq<Group>)
    requires Injective(hex)
    modifies rows
    ensures rows[..] == Sort(ByTime, old(rows[..]))
    ensures out == Grouped(old(rows[..]), kind, limit, if requested <= 0 then DEFAULT_WINDOW else requested, hex)
  {
    var window := requested;
    if window <= 0 {
      window := DEFAULT_WINDOW;
    }
    SortInPlace(rows, ByTime);
    var accs := Accumulate(rows[..], window);
    ghost var order;
    out, order := FinishAll(accs, rows[..], kind, window);
    AnyOrderRanksAlike(rows[..], order, kind, window, hex);
    out := Sort(Ranking(hex), out);
    if limit > 0 && |out| > limit {
      out := out[..limit];
    }
  }
}
