/** The index over whole runs: edits, refreshes from current or stale plans, failures
    and provider switches; and pindoc-reembed as its repair loop. */
module IndexRuns {
  import opened Wrappers
  import opened SearchIndex
  import Chunks = BodyChunks

  datatype Content = Content(title: string, body: string)

  /** Artifact contents and index rows. */
  datatype World = World(heads: map<string, Content>, entries: map<string, Entry>)

  /** A Refresh transaction commits either the rows of its input (error None) or a
      failed attempt. A transaction that rolls back is no event. */
  datatype Event =
    | EditContent(id: string, content: Content)
    | RefreshCommitted(id: string, info: Info, input: Input, error: Option<PrepareError>)
    | UnknownMarked(id: string, input: Input)

  function EntryAt(entries: map<string, Entry>, id: string): Entry {
    if id in entries then entries[id] else Entry([], None)
  }

  /** embeds says what each named model computes. */
  function Next(embeds: Info -> string -> Vector, w: World, e: Event): World {
    match e
    case EditContent(id, content) => World(w.heads[id := content], w.entries)
    case RefreshCommitted(id, info, input, error) =>
      World(w.heads, w.entries[id := Attempted(embeds, EntryAt(w.entries, id), info, input, error)])
    case UnknownMarked(id, input) =>
      World(w.heads, w.entries[id := MarkedUnknown(EntryAt(w.entries, id), input)])
  }

  function Attempted(embeds: Info -> string -> Vector, e: Entry, info: Info, input: Input,
      error: Option<PrepareError>): Entry {
    match error
    case None => Refreshed(e, info, input, Ok(OneByOne(embeds(info), input.title, input.body)))
    case Some(problem) => Refreshed(e, info, input, Err(problem))
  }

  function Run(embeds: Info -> string -> Vector, w: World, events: seq<Event>): World {
    if events == [] then w else Next(embeds, Run(embeds, w, events[..|events| - 1]), events[|events| - 1])
  }

  /** The rows that belong in the table for a content and a provider. */
  function RowsFor(embeds: Info -> string -> Vector, info: Info, title: string, body: string): seq<StoredChunk> {
    StoreRows(info, OneByOne(embeds(info), title, body))
  }

  /** An indexed entry holds the rows of the content and provider its state names. */
  ghost predicate EntryOk(embeds: Info -> string -> Vector, e: Entry) {
    e.state.Some? && e.state.value.status == Indexed ==>
      var s := e.state.value;
      e.chunks == RowsFor(embeds, Info(s.modelName, s.modelId, s.modelDim), s.titleHash.text, s.bodyHash.text)
  }

  lemma AttemptedOk(embeds: Info -> string -> Vector, e: Entry, info: Info, input: Input, error: Option<PrepareError>)
    ensures EntryOk(embeds, Attempted(embeds, e, info, input, error))
  {
    assert Info(info.name, info.modelId, info.dimension) == info;
  }

  /** Among others, of tables from before there were index states. */
  ghost predicate AllOk(embeds: Info -> string -> Vector, w: World) {
    forall id :: id in w.entries ==> EntryOk(embeds, w.entries[id])
  }

  lemma StepKeeps(embeds: Info -> string -> Vector, w: World, e: Event)
    requires AllOk(embeds, w)
    ensures AllOk(embeds, Next(embeds, w, e))
  {
    match e
    case EditContent(_, _) =>
    case RefreshCommitted(id, info, input, error) => AttemptedOk(embeds, EntryAt(w.entries, id), info, input, error);
    case UnknownMarked(id, input) => assert EntryOk(embeds, MarkedUnknown(EntryAt(w.entries, id), input));
  }

  lemma {:induction false} RunKeeps(embeds: Info -> string -> Vector, w: World, events: seq<Event>)
    requires AllOk(embeds, w)
    ensures AllOk(embeds, Run(embeds, w, events))
  {
    if events != [] {
      RunKeeps(embeds, w, events[..|events| - 1]);
      StepKeeps(embeds, Run(embeds, w, events[..|events| - 1]), events[|events| - 1]);
    }
  }

  /** Whenever Classify answers indexed, the stored chunks are exactly what preparing
      the current title and body with the current provider yields. */
  lemma IndexedMeansCurrent(embeds: Info -> string -> Vector, w: World, events: seq<Event>, id: string, provider: Info)
    requires AllOk(embeds, w)
    ensures var w' := Run(embeds, w, events);
            id in w'.heads && Classify(w'.heads[id].title, w'.heads[id].body, EntryAt(w'.entries, id).state,
              provider) == EffIndexed ==>
              EntryAt(w'.entries, id).chunks == RowsFor(embeds, provider, w'.heads[id].title, w'.heads[id].body)
  {
    RunKeeps(embeds, w, events);
  }

  /** No event replaces the artifact's chunks: its refreshes all fail. */
  predicate OnlyFails(e: Event, id: string) {
    e.RefreshCommitted? && e.id == id ==> e.error.Some?
  }

  function AttemptsAt(events: seq<Event>, id: string): nat {
    if events == [] then 0
    else
      var e := events[|events| - 1];
      AttemptsAt(events[..|events| - 1], id) + (if e.RefreshCommitted? && e.id == id then 1 else 0)
  }

  lemma FailureStep(embeds: Info -> string -> Vector, w: World, e: Event, id: string)
    requires OnlyFails(e, id)
    ensures var before, after := EntryAt(w.entries, id), EntryAt(Next(embeds, w, e).entries, id);
            && after.chunks == before.chunks
            && Attempts(after) == Attempts(before) + AttemptsAt([e], id)
            && (e.RefreshCommitted? && e.id == id ==>
                  forall title, body, provider :: Classify(title, body, after.state, provider) == EffFailed)
  {
    assert [e][..0] == [];
  }

  /** Over any run in which every refresh of an artifact fails, whatever is edited or marked
      in between, its chunks stay, its attempts are counted one by one, and from a failure
      on it reads as failed for every content until it is marked. */
  lemma {:induction false} FailuresKeepChunks(embeds: Info -> string -> Vector, w: World, events: seq<Event>,
      id: string)
    requires forall k :: 0 <= k < |events| ==> OnlyFails(events[k], id)
    ensures var before, after := EntryAt(w.entries, id), EntryAt(Run(embeds, w, events).entries, id);
            && after.chunks == before.chunks
            && Attempts(after) == Attempts(before) + AttemptsAt(events, id)
            && (FailedLast(events, id) ==>
                  forall title, body, provider :: Classify(title, body, after.state, provider) == EffFailed)
  {
    if events != [] {
      var n := |events| - 1;
      FailuresKeepChunks(embeds, w, events[..n], id);
      FailureStep(embeds, Run(embeds, w, events[..n]), events[n], id);
      assert [events[n]][..0] == [];
    }
  }

  /** The latest event about the artifact's index rows is a refresh. */
  predicate FailedLast(events: seq<Event>, id: string) {
    events != [] &&
    var e := events[|events| - 1];
    if e.EditContent? || e.id != id then FailedLast(events[..|events| - 1], id) else e.RefreshCommitted?
  }

  // ----- pindoc-reembed ------------------------------------------------------------

  datatype ArtifactRow = ArtifactRow(id: string, slug: string, title: string, body: string, revision: int)

  datatype Mode = All | NeedsRefresh | Exactly(state: Effective)

  predicate MatchesStateMode(mode: Mode, effective: Effective) {
    match mode
    case All => true
    case NeedsRefresh => effective != EffIndexed
    case Exactly(state) => effective == state
  }

  function EffectiveState(row: ArtifactRow, entries: map<string, Entry>, provider: Info): Effective {
    Classify(row.title, row.body, EntryAt(entries, row.id).state, provider)
  }

  predicate Selected(row: ArtifactRow, entries: map<string, Entry>, provider: Info, only: set<string>, mode: Mode) {
    (only == {} || row.slug in only) && MatchesStateMode(mode, EffectiveState(row, entries, provider))
  }

  function LoadPlans(rows: seq<ArtifactRow>, entries: map<string, Entry>, provider: Info, only: set<string>,
      mode: Mode): seq<ArtifactRow> {
    if rows == [] then []
    else
      var n := |rows| - 1;
      var front := LoadPlans(rows[..n], entries, provider, only, mode);
      if Selected(rows[n], entries, provider, only, mode) then front + [rows[n]] else front
  }

  /** loadPlans' row loop. */
  method CollectPlans(rows: seq<ArtifactRow>, entries: map<string, Entry>, provider: Info, only: set<string>,
      mode: Mode)
    returns (plans: seq<ArtifactRow>)
    ensures plans == LoadPlans(rows, entries, provider, only, mode)
  {
    plans := [];
    for i := 0 to |rows|
      invariant plans == LoadPlans(rows[..i], entries, provider, only, mode)
    {
      assert rows[..i + 1][..i] == rows[..i];
      if only != {} && rows[i].slug !in only {
        continue;
      }
      var effective := EffectiveState(rows[i], entries, provider);
      if MatchesStateMode(mode, effective) {
        plans := plans + [rows[i]];
      }
    }
    assert rows[..|rows|] == rows;
  }

  /** How one artifact's transaction ended. */
  datatype Outcome = Stored | Retryable(error: PrepareError) | RolledBack

  function InputOf(plan: ArtifactRow): Input {
    Input(plan.revision, plan.title, plan.body)
  }

  function AfterOne(embed: string -> Vector, entries: map<string, Entry>, plan: ArtifactRow, info: Info,
      outcome: Outcome): map<string, Entry> {
    match outcome
    case Stored => entries[plan.id := Refreshed(EntryAt(entries, plan.id), info, InputOf(plan),
      Ok(OneByOne(embed, plan.title, plan.body)))]
    case Retryable(error) => entries[plan.id := Refreshed(EntryAt(entries, plan.id), info, InputOf(plan), Err(error))]
    case RolledBack => entries
  }

  function AfterAll(embed: string -> Vector, entries: map<string, Entry>, plans: seq<ArtifactRow>, info: Info,
      outcomes: seq<Outcome>): map<string, Entry>
    requires |outcomes| == |plans|
  {
    if plans == [] then entries
    else
      var n := |plans| - 1;
      AfterOne(embed, AfterAll(embed, entries, plans[..n], info, outcomes[..n]), plans[n], info, outcomes[n])
  }

  /** The provider's answers for one artifact, and whether storage went through. */
  datatype Attempt = Attempt(reply: Reply, storageOk: bool)

  predicate Worked(outcome: Outcome) {
    outcome.Stored?
  }

  function CountWorked(outcomes: seq<Outcome>): nat {
    if outcomes == [] then 0
      else CountWorked(outcomes[..|outcomes| - 1]) + (if Worked(outcomes[|outcomes| - 1]) then 1 else 0)
  }

  ghost predicate PrepareWorks(info: Info, reply: Reply, plan: ArtifactRow) {
    info.dimension > 0
      && AllAcceptable(info, reply, plan.title, Chunks.ChunksOf(plan.title, plan.body, BODY_CHUNK_SIZE))
  }

  /** reembedOne: a provider failure commits, a storage failure rolls back. */
  method ReembedOne(tables: IndexTables, plan: ArtifactRow, info: Info, attempt: Attempt, ghost embed: string -> Vector)
      returns (outcome: Outcome)
    requires TextByText(info, embed, attempt.reply)
    modifies tables
    ensures tables.entries == AfterOne(embed, old(tables.entries), plan, info, outcome)
    ensures outcome == RolledBack <==> !attempt.storageOk
    ensures attempt.storageOk ==> outcome.Stored? == PrepareWorks(info, attempt.reply, plan)
  {
    var before := tables.entries;
    var refreshed := tables.Refresh(plan.id, info, attempt.reply, InputOf(plan), embed);
    if !attempt.storageOk {
      tables.entries := before;
      return RolledBack;
    }
    match refreshed
    case Ok(_) => outcome := Stored;
    case Err(error) => outcome := Retryable(error);
  }

  /** The repair loop and its two counters. */
  method RepairLoop(tables: IndexTables, plans: seq<ArtifactRow>, info: Info, attempts: seq<Attempt>,
      ghost embed: string -> Vector)
    returns (ok: nat, fail: nat, outcomes: seq<Outcome>)
    requires |attempts| == |plans| && forall i :: 0 <= i < |attempts| ==> TextByText(info, embed, attempts[i].reply)
    modifies tables
    ensures |outcomes| == |plans| && tables.entries == AfterAll(embed, old(tables.entries), plans, info, outcomes)
    ensures ok == CountWorked(outcomes) && ok + fail == |plans|
  {
    ok, fail, outcomes := 0, 0, [];
    for i := 0 to |plans|
      invariant |outcomes| == i && tables.entries == AfterAll(embed, old(tables.entries), plans[..i], info, outcomes)
      invariant ok == CountWorked(outcomes) && ok + fail == i
    {
      var outcome := ReembedOne(tables, plans[i], info, attempts[i], embed);
      assert plans[..i + 1][..i] == plans[..i] && (outcomes + [outcome])[..i] == outcomes;
      outcomes := outcomes + [outcome];
      if outcome.Stored? {
        ok := ok + 1;
      } else {
        fail := fail + 1;
      }
    }
    assert plans[..|plans|] == plans;
  }

  /** The plans whose re-embed returned an error, in plan order. */
  function Failures(plans: seq<ArtifactRow>, outcomes: seq<Outcome>): seq<ArtifactRow>
    requires |outcomes| == |plans|
  {
    if plans == [] then []
    else
      var n := |plans| - 1;
      if Worked(outcomes[n]) then Failures(plans[..n], outcomes[..n])
        else Failures(plans[..n], outcomes[..n]) + [plans[n]]
  }

  ghost predicate DistinctIds(rows: seq<ArtifactRow>) {
    forall i, j :: 0 <= i < j < |rows| ==> rows[i].id != rows[j].id
  }

  lemma {:induction false} PlansComeFromRows(rows: seq<ArtifactRow>, entries: map<string, Entry>, provider: Info,
      only: set<string>, mode: Mode)
    requires DistinctIds(rows)
    ensures var plans := LoadPlans(rows, entries, provider, only, mode);
            && DistinctIds(plans)
            && (forall p :: p in plans <==> p in rows && Selected(p, entries, provider, only, mode))
  {
    if rows != [] {
      var n := |rows| - 1;
      PlansComeFromRows(rows[..n], entries, provider, only, mode);
      assert rows == rows[..n] + [rows[n]];
      var plans := LoadPlans(rows[..n], entries, provider, only, mode);
      forall i | 0 <= i < |plans| ensures plans[i].id != rows[n].id {
        assert plans[i] in plans;
      }
    }
  }

  /** A transaction touches its own entry only, and what it writes depends on that entry only. */
  lemma AfterOneLocal(embed: string -> Vector, e1: map<string, Entry>, e2: map<string, Entry>, plan: ArtifactRow,
      info: Info, outcome: Outcome)
    ensures forall id :: id != plan.id ==> EntryAt(AfterOne(embed, e1, plan, info, outcome), id) == EntryAt(e1, id)
    ensures EntryAt(e1, plan.id) == EntryAt(e2, plan.id) ==>
              EntryAt(AfterOne(embed, e1, plan, info, outcome), plan.id) ==
                EntryAt(AfterOne(embed, e2, plan, info, outcome), plan.id)
  {
  }

  lemma {:induction false} AfterAllElsewhere(embed: string -> Vector, entries: map<string, Entry>,
      plans: seq<ArtifactRow>, info: Info, outcomes: seq<Outcome>, id: string)
    requires |outcomes| == |plans| && forall i :: 0 <= i < |plans| ==> plans[i].id != id
    ensures EntryAt(AfterAll(embed, entries, plans, info, outcomes), id) == EntryAt(entries, id)
  {
    if plans != [] {
      var n := |plans| - 1;
      AfterAllElsewhere(embed, entries, plans[..n], info, outcomes[..n], id);
      AfterOneLocal(embed, AfterAll(embed, entries, plans[..n], info, outcomes[..n]), entries, plans[n], info,
        outcomes[n]);
    }
  }

  /** Each plan's own transaction decides its entry; nobody else's touches it. */
  lemma {:induction false} AfterAllAt(embed: string -> Vector, entries: map<string, Entry>, plans: seq<ArtifactRow>,
      info: Info, outcomes: seq<Outcome>, i: nat)
    requires |outcomes| == |plans| && DistinctIds(plans) && i < |plans|
    ensures EntryAt(AfterAll(embed, entries, plans, info, outcomes), plans[i].id)
         == EntryAt(AfterOne(embed, entries, plans[i], info, outcomes[i]), plans[i].id)
  {
    var n := |plans| - 1;
    if i == n {
      AfterAllElsewhere(embed, entries, plans[..n], info, outcomes[..n], plans[n].id);
    } else {
      AfterAllAt(embed, entries, plans[..n], info, outcomes[..n], i);
    }
    AfterOneLocal(embed, AfterAll(embed, entries, plans[..n], info, outcomes[..n]), entries, plans[n], info,
      outcomes[n]);
  }

  /** A stored refresh of the current content reads as indexed, a retryable failure as failed. */
  lemma OutcomeClassifies(embed: string -> Vector, entries: map<string, Entry>, plan: ArtifactRow, info: Info,
      outcome: Outcome)
    requires EffectiveState(plan, entries, info) != EffIndexed
    ensures EffectiveState(plan, AfterOne(embed, entries, plan, info, outcome), info) == EffIndexed <==> Worked(outcome)
  {
  }

  /** One row of the second plan: it is selected again exactly when its re-embed failed. */
  ghost predicate Settles(rows: seq<ArtifactRow>, before: map<string, Entry>, after: map<string, Entry>, info: Info) {
    forall row :: row in rows && EffectiveState(row, before, info) == EffIndexed ==>
      EffectiveState(row, after, info) == EffIndexed
  }

  ghost predicate Decided(plans: seq<ArtifactRow>, after: map<string, Entry>, info: Info, outcomes: seq<Outcome>)
    requires |outcomes| == |plans|
  {
    forall i :: 0 <= i < |plans| ==> (EffectiveState(plans[i], after, info) == EffIndexed <==> Worked(outcomes[i]))
  }

  lemma FailuresSnoc(plans: seq<ArtifactRow>, outcomes: seq<Outcome>, row: ArtifactRow, outcome: Outcome)
    requires |outcomes| == |plans|
    ensures Failures(plans + [row], outcomes + [outcome]) == if Worked(outcome) then Failures(plans, outcomes)
            else Failures(plans, outcomes) + [row]
  {
    assert (plans + [row])[..|plans|] == plans && (outcomes + [outcome])[..|plans|] == outcomes;
  }

  /** The last row was planned: it is planned again exactly when its re-embed failed. */
  lemma PlannedLast(front: seq<ArtifactRow>, row: ArtifactRow, before: map<string, Entry>, after: map<string, Entry>,
      info: Info, only: set<string>, outcomes: seq<Outcome>)
    requires Selected(row, before, info, only, NeedsRefresh) && |outcomes| == |front| + 1
    requires Decided(front + [row], after, info, outcomes)
    ensures Selected(row, after, info, only, NeedsRefresh) <==> !Worked(outcomes[|front|])
    ensures Decided(front, after, info, outcomes[..|front|])
    ensures Failures(front + [row], outcomes)
         == if Worked(outcomes[|front|]) then Failures(front, outcomes[..|front|])
           else Failures(front, outcomes[..|front|]) + [row]
  {
    var k := |front|;
    DecidedParts(front, row, after, info, outcomes);
    FailuresSnoc(front, outcomes[..k], row, outcomes[k]);
    assert outcomes == outcomes[..k] + [outcomes[k]];
  }

  lemma DecidedParts(front: seq<ArtifactRow>, row: ArtifactRow, after: map<string, Entry>, info: Info,
      outcomes: seq<Outcome>)
    requires |outcomes| == |front| + 1 && Decided(front + [row], after, info, outcomes)
    ensures Decided(front, after, info, outcomes[..|front|])
    ensures EffectiveState(row, after, info) == EffIndexed <==> Worked(outcomes[|front|])
  {
    var k := |front|;
    assert (front + [row])[k] == row;
    assert forall i :: 0 <= i < k ==> (front + [row])[i] == front[i] && outcomes[..k][i] == outcomes[i];
  }

  lemma {:induction false} FilterAgain(rows: seq<ArtifactRow>, before: map<string, Entry>, after: map<string, Entry>,
      info: Info, only: set<string>, outcomes: seq<Outcome>)
    requires |outcomes| == |LoadPlans(rows, before, info, only, NeedsRefresh)|
    requires Decided(LoadPlans(rows, before, info, only, NeedsRefresh), after, info, outcomes)
    requires Settles(rows, before, after, info)
    ensures LoadPlans(rows, after, info, only, NeedsRefresh) ==
            Failures(LoadPlans(rows, before, info, only, NeedsRefresh), outcomes)
  {
    if rows != [] {
      var n := |rows| - 1;
      var row, front := rows[n], LoadPlans(rows[..n], before, info, only, NeedsRefresh);
      assert row in rows;
      SettlesFront(rows, before, after, info);
      if Selected(row, before, info, only, NeedsRefresh) {
        PlannedLast(front, row, before, after, info, only, outcomes);
        FilterAgain(rows[..n], before, after, info, only, outcomes[..|front|]);
      } else {
        FilterAgain(rows[..n], before, after, info, only, outcomes);
      }
    }
  }

  lemma SettlesFront(rows: seq<ArtifactRow>, before: map<string, Entry>, after: map<string, Entry>, info: Info)
    requires rows != [] && Settles(rows, before, after, info)
    ensures Settles(rows[..|rows| - 1], before, after, info)
  {
  }

  lemma RunDecides(embed: string -> Vector, entries: map<string, Entry>, plans: seq<ArtifactRow>, info: Info,
      outcomes: seq<Outcome>)
    requires |outcomes| == |plans| && DistinctIds(plans)
    requires forall p :: p in plans ==> EffectiveState(p, entries, info) != EffIndexed
    ensures Decided(plans, AfterAll(embed, entries, plans, info, outcomes), info, outcomes)
  {
    forall i | 0 <= i < |plans|
      ensures EffectiveState(plans[i], AfterAll(embed, entries, plans, info, outcomes), info) == EffIndexed <==>
              Worked(outcomes[i])
    {
      assert plans[i] in plans;
      AfterAllAt(embed, entries, plans, info, outcomes, i);
      OutcomeClassifies(embed, entries, plans[i], info, outcomes[i]);
    }
  }

  lemma RunSettles(embed: string -> Vector, rows: seq<ArtifactRow>, entries: map<string, Entry>,
      plans: seq<ArtifactRow>, info: Info, outcomes: seq<Outcome>)
    requires |outcomes| == |plans| && DistinctIds(rows)
    requires forall p :: p in plans ==> p in rows && EffectiveState(p, entries, info) != EffIndexed
    ensures Settles(rows, entries, AfterAll(embed, entries, plans, info, outcomes), info)
  {
    forall row | row in rows && EffectiveState(row, entries, info) == EffIndexed
      ensures EffectiveState(row, AfterAll(embed, entries, plans, info, outcomes), info) == EffIndexed
    {
      SettledRowsStay(rows, plans, row);
      AfterAllElsewhere(embed, entries, plans, info, outcomes, row.id);
    }
  }

  /** With no edits in between, the next needs-refresh plan is exactly the artifacts
      whose re-embed returned an error: an error-free run is a fixed point. */
  lemma NextPlanIsTheFailures(embed: string -> Vector, rows: seq<ArtifactRow>, entries: map<string, Entry>, info: Info,
      only: set<string>, outcomes: seq<Outcome>)
    requires DistinctIds(rows) && |outcomes| == |LoadPlans(rows, entries, info, only, NeedsRefresh)|
    ensures var plans := LoadPlans(rows, entries, info, only, NeedsRefresh);
            LoadPlans(rows, AfterAll(embed, entries, plans, info, outcomes), info, only, NeedsRefresh) ==
              Failures(plans, outcomes)
  {
    var plans := LoadPlans(rows, entries, info, only, NeedsRefresh);
    PlansComeFromRows(rows, entries, info, only, NeedsRefresh);
    RunDecides(embed, entries, plans, info, outcomes);
    RunSettles(embed, rows, entries, plans, info, outcomes);
    FilterAgain(rows, entries, AfterAll(embed, entries, plans, info, outcomes), info, only, outcomes);
  }

  lemma SettledRowsStay(rows: seq<ArtifactRow>, plans: seq<ArtifactRow>, row: ArtifactRow)
    requires DistinctIds(rows) && row in rows && row !in plans && forall p :: p in plans ==> p in rows
    ensures forall i :: 0 <= i < |plans| ==> plans[i].id != row.id
  {
    forall i | 0 <= i < |plans| ensures plans[i].id != row.id {
      assert plans[i] in plans;
    }
  }

  /** In particular a run without errors leaves nothing to refresh. */
  lemma {:induction false} NoErrorsNoFailures(plans: seq<ArtifactRow>, outcomes: seq<Outcome>)
    requires |outcomes| == |plans|
    ensures Failures(plans, outcomes) == [] <==> forall i :: 0 <= i < |outcomes| ==> Worked(outcomes[i])
    ensures |Failures(plans, outcomes)| + CountWorked(outcomes) == |plans|
  {
    if plans != [] {
      NoErrorsNoFailures(plans[..|plans| - 1], outcomes[..|outcomes| - 1]);
    }
  }

  // ----- what a plan selects, by its values ----------------------------------------------------

  /** All rows, those that are not indexed, or those in one state; and of these the named slugs,
      if any are named. */
  lemma SelectedWhen(row: ArtifactRow, entries: map<string, Entry>, provider: Info, only: set<string>, mode: Mode)
    ensures Selected(row, entries, provider, only, mode) <==>
            && (only == {} || row.slug in only)
            && (mode == NeedsRefresh ==> EffectiveState(row, entries, provider) != EffIndexed)
            && (mode.Exactly? ==> EffectiveState(row, entries, provider) == mode.state)
    ensures EffectiveState(row, entries, provider) ==
            Classify(row.title, row.body, if row.id in entries then entries[row.id].state else None, provider)
  {
  }

  /** What one re-embed leaves under the artifact's id. */
  lemma AfterOneIs(embed: string -> Vector, entries: map<string, Entry>, plan: ArtifactRow, info: Info,
      outcome: Outcome)
    ensures var before, after :=
            EntryAt(entries, plan.id), EntryAt(AfterOne(embed, entries, plan, info, outcome), plan.id);
            && (outcome == RolledBack ==> after == before)
            && (outcome.Retryable? ==> after.chunks == before.chunks && after.state.value.status == Failed)
            && (outcome == Stored ==> after.state.value.status == Indexed && SearchIndex.Stored(after.chunks, embed))
            && (outcome != RolledBack ==>
                  after.state.value.titleHash.text == plan.title && after.state.value.bodyHash.text == plan.body
                  && after.state.value.revision == plan.revision)
  {
    StoredNumbers(info, embed, plan.title, plan.body);
  }

  /** The counters: of n plans, as many worked as did. */
  lemma {:induction false} WorkedAreCounted(plans: seq<ArtifactRow>, outcomes: seq<Outcome>)
    requires |outcomes| == |plans|
    ensures CountWorked(outcomes) + |Failures(plans, outcomes)| == |plans|
    ensures forall p :: p in Failures(plans, outcomes) <==>
            exists i :: 0 <= i < |plans| && plans[i] == p && outcomes[i] != Stored
  {
    if plans != [] {
      var n := |plans| - 1;
      WorkedAreCounted(plans[..n], outcomes[..n]);
      var front := Failures(plans[..n], outcomes[..n]);
      forall p ensures p in Failures(plans, outcomes) <==>
        exists i :: 0 <= i < |plans| && plans[i] == p && outcomes[i] != Stored {
        if i :| 0 <= i < n && plans[..n][i] == p && outcomes[..n][i] != Stored {
          assert plans[i] == p && outcomes[i] != Stored;
        }
        if i :| 0 <= i < |plans| && plans[i] == p && outcomes[i] != Stored {
          assert i < n ==> plans[..n][i] == p && outcomes[..n][i] != Stored;
        }
      }
    }
  }
}
