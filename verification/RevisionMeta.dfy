/** internal/pindoc/diff/meta.go: metadata states folded from the revision log,
    and the single-pass delta between two of them. */
module RevisionMeta {
  import opened Wrappers
  import opened Strings
  import opened Sorting

  /** A decoded JSON value. Two values marshal to the same text exactly when
      they are equal, so valueEqual is equality. */
  datatype Json =
    | JNull
    | JBool(b: bool)
    | JNumber(literal: string)
    | JString(s: string)
    | JArray(items: seq<Json>)
    | JObject(fields: map<string, Json>)

  /** A shape_payload column: NULL, text that is not a JSON object, or an object. */
  datatype RawPayload = NoPayload | Malformed | Object(fields: map<string, Json>)

  datatype Snapshot = Snapshot(
    number: int, tags: seq<string>, completeness: string, shape: string, payload: RawPayload)

  datatype DeltaEntry = DeltaEntry(key: string, before: Json, after: Json)

  type MetaState = map<string, Json>

  /** An absent key reads as null. */
  function Value(state: MetaState, key: string): Json {
    if key in state then state[key] else JNull
  }

  function TagsJson(tags: seq<string>): Json {
    JArray(seq(|tags|, i requires 0 <= i < |tags| => JString(tags[i])))
  }

  function Dotted(group: string, field: string): string {
    group + "." + field
  }

  /** The fields of one nested group, under dotted keys. */
  function Grouped(group: string, fields: map<string, Json>): (r: map<string, Json>)
    ensures forall f :: f in GroupFields(group, fields) ==>
            Dotted(group, f) in r && r[Dotted(group, f)] == GroupFields(group, fields)[f]
    ensures forall k :: k in r ==> group + "." <= k && k[|group| + 1..] in GroupFields(group, fields)
  {
    var inner := GroupFields(group, fields);
    assert forall f :: Dotted(group, f)[|group| + 1..] == f;
    map f | f in inner :: Dotted(group, f) := inner[f]
  }

  /** A dotted task_meta key is neither a column key nor an artifact_meta key. */
  lemma TaskKeyApart(field: string)
    ensures Dotted("task_meta", field) != "tags" && Dotted("task_meta", field) != "completeness"
    ensures !("artifact_meta" + "." <= Dotted("task_meta", field))
    ensures Dotted("task_meta", field)[|"task_meta"| + 1..] == field
  {
    assert Dotted("task_meta", field)[2] == 's' && "tags"[2] == 'g';
    assert Dotted("task_meta", field)[0] == 't' && "completeness"[0] == 'c' && ("artifact_meta" + ".")[0] == 'a';
  }

  /** The payload's task_meta cells appear under their dotted keys, and nothing else does. */
  lemma FlattenTaskCell(fields: map<string, Json>, field: string)
    ensures var cells, key := GroupFields("task_meta", fields), Dotted("task_meta", field);
            if field in cells then key in Flatten(Object(fields)) && Flatten(Object(fields))[key] == cells[field]
            else key !in Flatten(Object(fields))
  {
    TaskKeyApart(field);
  }

  /** A dotted artifact_meta key is neither a column key nor a task_meta key. */
  lemma ArtifactKeyApart(field: string)
    ensures Dotted("artifact_meta", field) != "tags" && Dotted("artifact_meta", field) != "completeness"
    ensures !("task_meta" + "." <= Dotted("artifact_meta", field))
    ensures Dotted("artifact_meta", field)[|"artifact_meta"| + 1..] == field
  {
    assert Dotted("artifact_meta", field)[0] == 'a' && "tags"[0] == 't' && "completeness"[0] == 'c';
    assert ("task_meta" + ".")[0] == 't';
  }

  /** So do the payload's artifact_meta cells. */
  lemma FlattenArtifactCell(fields: map<string, Json>, field: string)
    ensures var cells, key := GroupFields("artifact_meta", fields), Dotted("artifact_meta", field);
            if field in cells then key in Flatten(Object(fields)) && Flatten(Object(fields))[key] == cells[field]
            else key !in Flatten(Object(fields))
  {
    ArtifactKeyApart(field);
  }

  /** A cell of one of the payload's nested objects. */
  predicate HasCell(fields: map<string, Json>, group: string, field: string) {
    group in fields && fields[group].JObject? && field in fields[group].fields
  }

  /** What readers take from a payload: its tags and completeness, the cells of its task_meta
      and artifact_meta objects under dotted keys, and nothing else. */
  lemma FlattenHas(fields: map<string, Json>, field: string)
    ensures var flat := Flatten(Object(fields));
            && ("task_meta." + field in flat <==> HasCell(fields, "task_meta", field))
            && (HasCell(fields, "task_meta", field) ==> flat["task_meta." + field] == fields["task_meta"].fields[field])
            && ("artifact_meta." + field in flat <==> HasCell(fields, "artifact_meta", field))
            && (HasCell(fields, "artifact_meta", field) ==>
                  flat["artifact_meta." + field] == fields["artifact_meta"].fields[field])
  {
    FlattenTaskCell(fields, field);
    FlattenArtifactCell(fields, field);
    FlattenHasAt(fields, "task_meta", field, Dotted("task_meta", field));
    FlattenHasAt(fields, "artifact_meta", field, Dotted("artifact_meta", field));
    DottedNames(field);
  }

  lemma FlattenHasAt(fields: map<string, Json>, group: string, field: string, key: string)
    requires var cells, flat := GroupFields(group, fields), Flatten(Object(fields));
             if field in cells then key in flat && flat[key] == cells[field] else key !in flat
    ensures var flat := Flatten(Object(fields));
            && (key in flat <==> HasCell(fields, group, field))
            && (HasCell(fields, group, field) ==> flat[key] == fields[group].fields[field])
  {
  }

  lemma DottedNames(field: string)
    ensures Dotted("task_meta", field) == "task_meta." + field
    ensures Dotted("artifact_meta", field) == "artifact_meta." + field
  {
  }

  lemma FlattenOnly(raw: RawPayload, key: string)
    requires key in Flatten(raw)
    ensures raw.Object?
    ensures key == "tags" || key == "completeness" || "task_meta" + "." <= key || "artifact_meta" + "." <= key
  {
    if raw.Object? {
      assert key in Grouped("task_meta", raw.fields) ==> "task_meta" + "." <= key;
      assert key in Grouped("artifact_meta", raw.fields) ==> "artifact_meta" + "." <= key;
    }
  }

  /** The tags read back: each in its place, and no two lists alike. */
  lemma TagsRead(a: seq<string>, b: seq<string>)
    ensures TagsJson(a).JArray? && |TagsJson(a).items| == |a|
    ensures forall i :: 0 <= i < |a| ==> TagsJson(a).items[i] == JString(a[i])
    ensures TagsJson(a) == TagsJson(b) <==> a == b
  {
    if TagsJson(a) == TagsJson(b) {
      forall i | 0 <= i < |a| ensures a[i] == b[i] {
        assert TagsJson(a).items[i] == TagsJson(b).items[i];
      }
    }
  }

  function GroupFields(group: string, fields: map<string, Json>): map<string, Json> {
    if group in fields && fields[group].JObject? then fields[group].fields else map[]
  }

  function Flatten(raw: RawPayload): map<string, Json> {
    match raw
    case Object(fields) =>
      (map k | k in fields && k in {"tags", "completeness"} :: fields[k])
      + Grouped("task_meta", fields) + Grouped("artifact_meta", fields)
    case _ => map[]
  }

  /** One revision applied to a state: the tags column, a non-empty
      completeness column, then the payload, each overriding the last. */
  function Absorb(state: MetaState, snap: Snapshot): MetaState {
    var tagged := state["tags" := TagsJson(snap.tags)];
    var completed := if snap.completeness == "" then tagged
                     else tagged["completeness" := JString(snap.completeness)];
    completed + Flatten(snap.payload)
  }

  function Fold(snaps: seq<Snapshot>): MetaState {
    if snaps == [] then map[] else Absorb(Fold(snaps[..|snaps| - 1]), snaps[|snaps| - 1])
  }

  predicate ByNumber(a: Snapshot, b: Snapshot) {
    a.number <= b.number
  }

  /** The revisions numbered at most rev. */
  function UpTo(snaps: seq<Snapshot>, rev: int): seq<Snapshot> {
    if snaps == [] then []
    else
      var n := |snaps| - 1;
      UpTo(snaps[..n], rev) + (if snaps[n].number <= rev then [snaps[n]] else [])
  }

  /** The metadata state at revision rev. */
  function MetaAt(snaps: seq<Snapshot>, rev: int): MetaState {
    Fold(UpTo(Sort(ByNumber, snaps), rev))
  }

  /** out is the key-wise difference of two states: one entry for each key
      whose value differs, in key order. */
  ghost predicate IsDelta(out: seq<DeltaEntry>, before: MetaState, after: MetaState) {
    && (forall i, j :: 0 <= i < j < |out| ==> Less(out[i].key, out[j].key))
    && (forall e :: e in out ==>
       e.before == Value(before, e.key) && e.after == Value(after, e.key) && e.before != e.after)
    && (forall k :: Value(before, k) != Value(after, k) ==> exists e :: e in out && e.key == k)
  }

  lemma {:induction false} UpToAll(snaps: seq<Snapshot>, rev: int)
    requires forall i :: 0 <= i < |snaps| ==> snaps[i].number <= rev
    ensures UpTo(snaps, rev) == snaps
  {
    if snaps != [] {
      var front, last := snaps[..|snaps| - 1], snaps[|snaps| - 1];
      UpToAll(front, rev);
      assert snaps == front + [last];
    }
  }

  lemma {:induction false} UpToStops(snaps: seq<Snapshot>, i: nat, rev: int)
    requires i <= |snaps| && forall k :: i <= k < |snaps| ==> snaps[k].number > rev
    ensures UpTo(snaps, rev) == UpTo(snaps[..i], rev)
  {
    if i < |snaps| {
      UpToStops(snaps[..|snaps| - 1], i, rev);
      assert snaps[..|snaps| - 1][..i] == snaps[..i];
    } else {
      assert snaps[..i] == snaps;
    }
  }

  lemma FoldSnoc(snaps: seq<Snapshot>, snap: Snapshot)
    ensures Fold(snaps + [snap]) == Absorb(Fold(snaps), snap)
  {
    assert (snaps + [snap])[..|snaps|] == snaps;
  }

  lemma UpToSnoc(snaps: seq<Snapshot>, snap: Snapshot, rev: int)
    ensures UpTo(snaps + [snap], rev) == UpTo(snaps, rev) + (if snap.number <= rev then [snap] else [])
  {
    assert (snaps + [snap])[..|snaps|] == snaps;
  }

  /** What the running `changes` map says about the fields that moved since base. */
  ghost predicate Tracks(base: MetaState, state: MetaState, changes: map<string, DeltaEntry>) {
    forall k {:trigger k in changes} {:trigger Value(state, k)} ::
      if k in changes then changes[k] == DeltaEntry(k, Value(base, k), Value(state, k))
      else Value(state, k) == Value(base, k)
  }

  /** The `apply` closure: one field of one revision. */
  method ApplyField(state: MetaState, changes: map<string, DeltaEntry>, key: string, next: Json, inRange: bool,
      ghost base: MetaState)
    returns (state': MetaState, changes': map<string, DeltaEntry>)
    requires inRange ==> Tracks(base, state, changes)
    ensures state' == state[key := next]
    ensures if inRange then Tracks(base, state', changes') else changes' == changes
  {
    changes' := changes;
    var prev := Value(state, key);
    if prev != next && inRange {
      if key in changes {
        changes' := changes[key := changes[key].(after := next)];
      } else {
        changes' := changes[key := DeltaEntry(key, prev, next)];
      }
    }
    state' := state[key := next];
    if inRange {
      forall k ensures if k in changes' then changes'[k] == DeltaEntry(k, Value(base, k), Value(state', k))
        else Value(state', k) == Value(base, k) {
        assert k in changes ==> changes[k] == DeltaEntry(k, Value(base, k), Value(state, k));
        assert Value(state, k) == Value(state, k);
      }
    }
  }

  /** The payload's fields, in any order. */
  method ApplyFields(state: MetaState, changes: map<string, DeltaEntry>, fields: map<string, Json>, inRange: bool,
      ghost base: MetaState)
    returns (state': MetaState, changes': map<string, DeltaEntry>)
    requires inRange ==> Tracks(base, state, changes)
    ensures state' == state + fields
    ensures if inRange then Tracks(base, state', changes') else changes' == changes
  {
    state', changes' := state, changes;
    var todo := fields.Keys;
    while todo != {}
      invariant todo <= fields.Keys
      invariant state' == state + (fields - todo)
      invariant if inRange then Tracks(base, state', changes') else changes' == changes
      decreases todo
    {
      var key :| key in todo;
      state', changes' := ApplyField(state', changes', key, fields[key], inRange, base);
      todo := todo - {key};
    }
    assert fields - todo == fields;
  }

  /** All fields of one revision. */
  method ApplySnapshot(state: MetaState, changes: map<string, DeltaEntry>, snap: Snapshot, inRange: bool,
      ghost base: MetaState)
    returns (state': MetaState, changes': map<string, DeltaEntry>)
    requires inRange ==> Tracks(base, state, changes)
    ensures state' == Absorb(state, snap)
    ensures if inRange then Tracks(base, state', changes') else changes' == changes
  {
    state', changes' := ApplyField(state, changes, "tags", TagsJson(snap.tags), inRange, base);
    if snap.completeness != "" {
      state', changes' := ApplyField(state', changes', "completeness", JString(snap.completeness), inRange, base);
    }
    state', changes' := ApplyFields(state', changes', Flatten(snap.payload), inRange, base);
  }

  /** What the main loop knows after i revisions. */
  ghost predicate Scanned(sorted: seq<Snapshot>, i: nat, fromRev: int, state: MetaState,
      changes: map<string, DeltaEntry>)
    requires i <= |sorted|
  {
    && state == Fold(sorted[..i])
    && Tracks(Fold(UpTo(sorted[..i], fromRev)), state, changes)
    && (i < |sorted| && sorted[i].number <= fromRev ==> changes == map[])
  }

  /** A revision at or before fromRev only moves the base state along. */
  lemma ScanBase(sorted: seq<Snapshot>, i: nat, fromRev: int)
    requires Sorted(ByNumber, sorted) && i < |sorted| && sorted[i].number <= fromRev
    ensures UpTo(sorted[..i + 1], fromRev) == sorted[..i + 1]
  {
    forall k | 0 <= k < i + 1 ensures sorted[k].number <= fromRev {
      assert k < i ==> ByNumber(sorted[k], sorted[i]);
    }
    UpToAll(sorted[..i + 1], fromRev);
  }

  lemma BaseStays(sorted: seq<Snapshot>, i: nat, fromRev: int)
    requires i < |sorted| && sorted[i].number > fromRev
    ensures UpTo(sorted[..i + 1], fromRev) == UpTo(sorted[..i], fromRev)
  {
    assert sorted[..i + 1] == sorted[..i] + [sorted[i]];
    UpToSnoc(sorted[..i], sorted[i], fromRev);
  }

  lemma ScanStep(sorted: seq<Snapshot>, i: nat, fromRev: int, state: MetaState, changes: map<string, DeltaEntry>,
      state': MetaState, changes': map<string, DeltaEntry>)
    requires Sorted(ByNumber, sorted) && i < |sorted| && Scanned(sorted, i, fromRev, state, changes)
    requires state' == Fold(sorted[..i + 1])
    requires if sorted[i].number > fromRev then Tracks(Fold(UpTo(sorted[..i], fromRev)), state', changes')
             else changes' == changes
    ensures Scanned(sorted, i + 1, fromRev, state', changes')
  {
    if sorted[i].number <= fromRev {
      ScanBase(sorted, i, fromRev);
    } else {
      BaseStays(sorted, i, fromRev);
      assert i + 1 < |sorted| ==> ByNumber(sorted[i], sorted[i + 1]);
    }
  }

  /** MetaDeltaForRange: one pass over the sorted log equals the difference of
      the two folded states. The caller's slice is left sorted. */
  method MetaDeltaForRange(fromRev: int, toRev: int, snapshots: array<Snapshot>) returns (out: seq<DeltaEntry>)
    modifies snapshots
    ensures snapshots[..] == if toRev < fromRev then old(snapshots[..]) else Sort(ByNumber, old(snapshots[..]))
    ensures toRev < fromRev ==> out == []
    ensures fromRev <= toRev ==> IsDelta(out, MetaAt(old(snapshots[..]), fromRev), MetaAt(old(snapshots[..]), toRev))
  {
    if snapshots.Length == 0 || toRev < fromRev {
      return [];
    }
    SortSorts(ByNumber, snapshots[..]);
    SortInPlace(snapshots, ByNumber);
    ghost var sorted := snapshots[..];

    var state: MetaState, changes: map<string, DeltaEntry> := map[], map[];
    var i := 0;
    while i < snapshots.Length && snapshots[i].number <= toRev
      invariant 0 <= i <= snapshots.Length && snapshots[..] == sorted
      invariant forall k :: 0 <= k < i ==> sorted[k].number <= toRev
      invariant Scanned(sorted, i, fromRev, state, changes)
    {
      ghost var before, earlier := state, changes;
      state, changes :=
        ApplySnapshot(state, changes, snapshots[i], snapshots[i].number > fromRev, Fold(UpTo(sorted[..i], fromRev)));
      FoldSnoc(sorted[..i], sorted[i]);
      assert sorted[..i + 1] == sorted[..i] + [sorted[i]];
      ScanStep(sorted, i, fromRev, before, earlier, state, changes);
      i := i + 1;
    }
    EndOfRange(sorted, i, fromRev, toRev);
    out := CollectChanges(changes, Fold(UpTo(sorted[..i], fromRev)), state);
  }

  lemma EndOfRange(sorted: seq<Snapshot>, i: nat, fromRev: int, toRev: int)
    requires Sorted(ByNumber, sorted) && fromRev <= toRev && i <= |sorted|
    requires forall k :: 0 <= k < i ==> sorted[k].number <= toRev
    requires i < |sorted| ==> sorted[i].number > toRev
    ensures UpTo(sorted, fromRev) == UpTo(sorted[..i], fromRev) && UpTo(sorted, toRev) == sorted[..i]
  {
    forall k | i <= k < |sorted| ensures sorted[k].number > toRev {
      assert i < k ==> ByNumber(sorted[i], sorted[k]);
    }
    UpToStops(sorted, i, fromRev);
    UpToStops(sorted, i, toRev);
    UpToAll(sorted[..i], toRev);
  }

  predicate ByKey(a: DeltaEntry, b: DeltaEntry) {
    Leq(a.key, b.key)
  }

  lemma ByKeyOrders()
    ensures TotalPreorder(ByKey)
  {
    LeqIsOrder();
  }

  /** The closing loop over the changes map, in any order, then the sort. */
  method CollectChanges(changes: map<string, DeltaEntry>, ghost base: MetaState, ghost state: MetaState)
      returns (out: seq<DeltaEntry>)
    requires Tracks(base, state, changes)
    ensures IsDelta(out, base, state)
  {
    out := [];
    var todo := changes.Keys;
    while todo != {}
      invariant todo <= changes.Keys
      invariant forall e :: e in out <==>
                e.key in changes && e.key !in todo && e == changes[e.key] && e.before != e.after
      invariant forall i, j :: 0 <= i < j < |out| ==> out[i].key != out[j].key
      decreases todo
    {
      var key :| key in todo;
      if changes[key].before != changes[key].after {
        assert forall i :: 0 <= i < |out| ==> out[i] in out;
        out := out + [changes[key]];
      }
      todo := todo - {key};
    }
    ghost var unsorted := out;
    out := Sort(ByKey, out);
    SortedChanges(unsorted, out);
    SortMembers(ByKey, unsorted);
    forall k | Value(base, k) != Value(state, k) ensures exists e :: e in out && e.key == k {
      assert k in changes;
      assert changes[k] in unsorted;
    }
  }

  /** Entries with distinct keys sort into strictly ascending keys. */
  lemma SortedChanges(unsorted: seq<DeltaEntry>, out: seq<DeltaEntry>)
    requires out == Sort(ByKey, unsorted)
    requires forall i, j :: 0 <= i < j < |unsorted| ==> unsorted[i].key != unsorted[j].key
    ensures forall i, j :: 0 <= i < j < |out| ==> Less(out[i].key, out[j].key)
  {
    ByKeyOrders();
    SortSorts(ByKey, unsorted);
    SortMembers(ByKey, unsorted);
    SortNoDup(ByKey, unsorted);
    forall i, j | 0 <= i < j < |out| ensures Less(out[i].key, out[j].key) {
      assert ByKey(out[i], out[j]) && out[i] in out && out[j] in out;
    }
  }

  function Find(delta: seq<DeltaEntry>, key: string): (r: Option<DeltaEntry>)
    ensures r.None? <==> forall e :: e in delta ==> e.key != key
    ensures r.Some? ==> r.value in delta && r.value.key == key
  {
    if delta == [] then None
    else if delta[0].key == key then Some(delta[0])
    else Find(delta[1..], key)
  }

  /** A delta answers, for each key, how that key moved. */
  lemma FindInDelta(delta: seq<DeltaEntry>, before: MetaState, after: MetaState, key: string)
    requires IsDelta(delta, before, after)
    ensures Find(delta, key) == if Value(before, key) == Value(after, key) then None
                                else Some(DeltaEntry(key, Value(before, key), Value(after, key)))
  {
    var _ := Find(delta, key);
  }

  /** Two states have one difference: a second list meeting the description is the same list. */
  lemma {:induction false} DeltaUnique(a: seq<DeltaEntry>, b: seq<DeltaEntry>, before: MetaState, after: MetaState)
    requires IsDelta(a, before, after) && IsDelta(b, before, after)
    ensures a == b
  {
    ByKeyOrders();
    forall e ensures e in a <==> e in b {
      FindInDelta(a, before, after, e.key);
      FindInDelta(b, before, after, e.key);
      if e in a {
        var e' :| e' in b && e'.key == e.key;
      }
      if e in b {
        var e' :| e' in a && e'.key == e.key;
      }
    }
    StrictKeysFixOrder(a, b);
  }

  lemma {:induction false} StrictKeysFixOrder(a: seq<DeltaEntry>, b: seq<DeltaEntry>)
    requires forall i, j :: 0 <= i < j < |a| ==> Less(a[i].key, a[j].key)
    requires forall i, j :: 0 <= i < j < |b| ==> Less(b[i].key, b[j].key)
    requires forall e :: e in a <==> e in b
    ensures a == b
    decreases |a|
  {
    assert a != [] ==> a[0] in b;
    assert b != [] ==> b[0] in a;
    if a != [] {
      var i :| 0 <= i < |b| && b[i] == a[0];
      var j :| 0 <= j < |a| && a[j] == b[0];
      LessTrichotomy(a[0].key, b[0].key);
      assert a[0] == b[0];
      forall e ensures e in a[1..] <==> e in b[1..] {
        assert e in a[1..] ==> e in a && e != a[0] by { if e in a[1..] { LessTrichotomy(e.key, a[0].key); } }
        assert e in b[1..] ==> e in b && e != b[0] by { if e in b[1..] { LessTrichotomy(e.key, b[0].key); } }
        assert e in a && e != a[0] ==> e in a[1..];
        assert e in b && e != b[0] ==> e in b[1..];
      }
      StrictKeysFixOrder(a[1..], b[1..]);
    }
  }

  /** With distinct revision numbers the order of the input does not matter. */
  lemma InputOrderIrrelevant(a: seq<Snapshot>, b: seq<Snapshot>, rev: int)
    requires multiset(a) == multiset(b)
    requires forall x, y :: x in a && y in a && x.number == y.number ==> x == y
    ensures MetaAt(a, rev) == MetaAt(b, rev)
  {
    SortForgetsOrder(ByNumber, a, b);
  }

  /** One step of the normalised composition of two deltas. */
  function ComposeAt(first: seq<DeltaEntry>, second: seq<DeltaEntry>, key: string): Option<DeltaEntry> {
    match (Find(first, key), Find(second, key))
    case (Some(e), Some(e')) => if e.before == e'.after then None else Some(DeltaEntry(key, e.before, e'.after))
    case (Some(e), None) => Some(e)
    case (None, second) => second
  }

  /** delta(a, c) is delta(a, b) followed by delta(b, c), dropping fields that came back. */
  lemma DeltasCompose(snaps: seq<Snapshot>, a: int, b: int, c: int, ab: seq<DeltaEntry>, bc: seq<DeltaEntry>,
      ac: seq<DeltaEntry>, key: string)
    requires IsDelta(ab, MetaAt(snaps, a), MetaAt(snaps, b))
    requires IsDelta(bc, MetaAt(snaps, b), MetaAt(snaps, c))
    requires IsDelta(ac, MetaAt(snaps, a), MetaAt(snaps, c))
    ensures Find(ac, key) == ComposeAt(ab, bc, key)
  {
    FindInDelta(ab, MetaAt(snaps, a), MetaAt(snaps, b), key);
    FindInDelta(bc, MetaAt(snaps, b), MetaAt(snaps, c), key);
    FindInDelta(ac, MetaAt(snaps, a), MetaAt(snaps, c), key);
  }

  predicate MetaChangedBetween(previous: Snapshot, current: Snapshot) {
    || (previous.number > 0 && (previous.tags != current.tags || previous.completeness != current.completeness))
    || |Flatten(current.payload)| > 0
    || TrimSpace(current.shape) == "meta_patch"
  }

  /** When a row is shown with a metadata change: a column moved since the row before it,
      its payload says something of the metadata, or it is a metadata row. */
  lemma BadgedWhen(previous: Snapshot, current: Snapshot)
    ensures MetaChangedBetween(previous, current) <==>
            || (previous.number > 0 && previous.tags != current.tags)
            || (previous.number > 0 && previous.completeness != current.completeness)
            || (exists key :: key in Flatten(current.payload))
            || TrimSpace(current.shape) == "meta_patch"
  {
    assert |Flatten(current.payload)| > 0 <==> Flatten(current.payload) != map[];
    if |Flatten(current.payload)| > 0 {
      var key :| key in Flatten(current.payload);
    }
  }

  /** The columns win over the earlier state, and lose to the payload. */
  lemma AbsorbColumns(state: MetaState, snap: Snapshot)
    ensures forall k :: k !in Flatten(snap.payload) ==>
      Value(Absorb(state, snap), k) ==
        if k == "tags" then TagsJson(snap.tags)
        else if k == "completeness" && snap.completeness != "" then JString(snap.completeness)
        else Value(state, k)
  {
  }

  /** The predecessor's payload did not override one of its own columns. */
  predicate KeepsColumns(snap: Snapshot) {
    var fields := Flatten(snap.payload);
    && ("tags" in fields ==> fields["tags"] == TagsJson(snap.tags))
    && ("completeness" in fields && snap.completeness != "" ==> fields["completeness"] == JString(snap.completeness))
  }

  /** A row the history view badges as "no metadata change" has an empty delta
      against its predecessor exactly when the predecessor keeps its columns. */
  lemma UnbadgedMeansEmptyDelta(earlier: seq<Snapshot>, previous: Snapshot, current: Snapshot)
    requires previous.number > 0 && !MetaChangedBetween(previous, current)
    ensures IsDelta([], Fold(earlier + [previous]), Fold(earlier + [previous] + [current])) <==> KeepsColumns(previous)
  {
    FoldSnoc(earlier, previous);
    FoldSnoc(earlier + [previous], current);
    UnbadgedStates(Fold(earlier), previous, current);
  }

  lemma UnbadgedStates(state: MetaState, previous: Snapshot, current: Snapshot)
    requires previous.number > 0 && !MetaChangedBetween(previous, current)
    ensures IsDelta([], Absorb(state, previous), Absorb(Absorb(state, previous), current)) <==> KeepsColumns(previous)
  {
    assert Flatten(current.payload) == map[];
    EmptyDelta(Absorb(state, previous), Absorb(Absorb(state, previous), current));
    QuietAbsorb(state, previous, current);
  }

  lemma EmptyDelta(before: MetaState, after: MetaState)
    ensures IsDelta([], before, after) <==> forall k :: Value(before, k) == Value(after, k)
  {
  }

  lemma AbsorbPayload(state: MetaState, snap: Snapshot, k: string)
    requires k in Flatten(snap.payload)
    ensures Value(Absorb(state, snap), k) == Flatten(snap.payload)[k]
  {
  }

  /** A second row that repeats the columns and logs nothing changes only what the first overrode. */
  lemma QuietKey(state: MetaState, previous: Snapshot, current: Snapshot, k: string)
    requires previous.tags == current.tags && previous.completeness == current.completeness
             && Flatten(current.payload) == map[]
    ensures var mid, fields := Absorb(state, previous), Flatten(previous.payload);
            var same := Value(mid, k) == Value(Absorb(mid, current), k);
            && (k != "tags" && k != "completeness" ==> same)
            && (k == "tags" ==> (same <==> ("tags" in fields ==> fields["tags"] == TagsJson(previous.tags))))
            && (k == "completeness" ==> (same <==> ("completeness" in fields && previous.completeness != "" ==>
               fields["completeness"] == JString(previous.completeness))))
  {
    var mid := Absorb(state, previous);
    AbsorbColumns(mid, current);
    if k in Flatten(previous.payload) {
      AbsorbPayload(state, previous, k);
    } else {
      AbsorbColumns(state, previous);
    }
  }

  lemma QuietAbsorb(state: MetaState, previous: Snapshot, current: Snapshot)
    requires previous.tags == current.tags && previous.completeness == current.completeness
             && Flatten(current.payload) == map[]
    ensures (forall k :: Value(Absorb(state, previous), k) == Value(Absorb(Absorb(state, previous), current), k))
            <==> KeepsColumns(previous)
  {
    var mid := Absorb(state, previous);
    forall k ensures KeepsColumns(previous) ==> Value(mid, k) == Value(Absorb(mid, current), k) {
      QuietKey(state, previous, current, k);
    }
    QuietKey(state, previous, current, "tags");
    QuietKey(state, previous, current, "completeness");
  }

  /** A column key of the flattened payload is that key of the payload. */
  lemma FlattenColumn(fields: map<string, Json>, column: string)
    requires column == "tags" || column == "completeness"
    ensures column in Flatten(Object(fields)) <==> column in fields
    ensures column in fields ==> Flatten(Object(fields))[column] == fields[column]
  {
    assert ("task_meta" + ".")[2] == 's' && ("artifact_meta" + ".")[0] == 'a' && ("task_meta" + ".")[0] == 't';
    assert "tags"[2] == 'g' && "tags"[0] == 't' && "completeness"[0] == 'c';
    assert column !in Grouped("task_meta", fields) && column !in Grouped("artifact_meta", fields);
  }

  lemma FieldsKeepColumns(snap: Snapshot, fields: map<string, Json>)
    requires snap.payload == Object(fields)
    requires "tags" in fields ==> fields["tags"] == TagsJson(snap.tags)
    requires "completeness" in fields && snap.completeness != "" ==>
             fields["completeness"] == JString(snap.completeness)
    ensures KeepsColumns(snap)
  {
    FlattenColumn(fields, "tags");
    FlattenColumn(fields, "completeness");
  }

  /** Row by row: what follows a row that keeps its columns, and shows no change, changes nothing. */
  lemma UnbadgedAt(snaps: seq<Snapshot>, rev: nat)
    requires 1 <= rev < |snaps| && snaps[rev - 1].number > 0 && !MetaChangedBetween(snaps[rev - 1], snaps[rev])
    ensures IsDelta([], Fold(snaps[..rev]), Fold(snaps[..rev + 1])) <==> KeepsColumns(snaps[rev - 1])
  {
    FoldNext(snaps, rev - 1);
    FoldNext(snaps, rev);
    UnbadgedStates(Fold(snaps[..rev - 1]), snaps[rev - 1], snaps[rev]);
  }

  lemma FoldNext(snaps: seq<Snapshot>, n: nat)
    requires n < |snaps|
    ensures Fold(snaps[..n + 1]) == Absorb(Fold(snaps[..n]), snaps[n])
  {
    assert snaps[..n + 1][..n] == snaps[..n];
  }

  /** The condition can fail: on a row whose payload clears tags its column still lists. */
  lemma ColumnsCanBeOverridden(snap: Snapshot)
    requires snap.payload.Object? && "tags" in snap.payload.fields && snap.payload.fields["tags"] == JNull
    ensures !KeepsColumns(snap)
  {
    FlattenColumn(snap.payload.fields, "tags");
  }

  datatype RevisionType = TextEdit | AcceptanceToggle | MetaChange | SystemAuto | Mixed

  predicate HasSystemCommitPrefix(commitMsg: string) {
    "Repair:" <= TrimSpace(commitMsg) || "Auto:" <= TrimSpace(commitMsg)
  }

  function ClassifyRevisionType(shape: string, commitMsg: string, bodyChanged: bool, metaChanged: bool): RevisionType {
    if TrimSpace(shape) in {"acceptance_transition", "scope_defer"} then AcceptanceToggle
    else if bodyChanged && metaChanged then Mixed
    else if metaChanged then (if HasSystemCommitPrefix(commitMsg) then SystemAuto else MetaChange)
    else TextEdit
  }

  /** The history view's words for a row. */
  lemma ClassifiedAs(shape: string, commitMsg: string, bodyChanged: bool, metaChanged: bool)
    ensures var r, toggle := ClassifyRevisionType(shape, commitMsg, bodyChanged, metaChanged),
                             TrimSpace(shape) == "acceptance_transition" || TrimSpace(shape) == "scope_defer";
            && (r == AcceptanceToggle <==> toggle)
            && (r == Mixed <==> !toggle && bodyChanged && metaChanged)
            && (r == TextEdit <==> !toggle && !metaChanged)
            && (r == SystemAuto <==> !toggle && !bodyChanged && metaChanged
                                     && ("Repair:" <= TrimSpace(commitMsg) || "Auto:" <= TrimSpace(commitMsg)))
  {
  }
}
