/** What readers fold from the logged payloads, against the head's task_meta: exactly
    which writes keep the two together, over every interleaving of the writers. */
module MetaFolds {
  import opened Wrappers
  import opened RevisionMeta
  import opened RevisionLog
  import opened RevisionRuns

  // ----- one row, one commit ------------------------------------------------------

  lemma AbsorbTaskCell(state: MetaState, row: Revision, field: string)
    ensures Value(Absorb(state, SnapshotOf(row)), Dotted("task_meta", field)) ==
            if field in TaskCells(row) then TaskCells(row)[field] else Value(state, Dotted("task_meta", field))
  {
    TaskKeyApart(field);
    if row.payload.Object? {
      FlattenTaskCell(row.payload.fields, field);
    }
    AbsorbColumns(state, SnapshotOf(row));
  }

  lemma FoldedRow(front: seq<Revision>, row: Revision, key: string)
    ensures FoldedTaskMeta(front + [row], key) == if key in TaskCells(row) then TaskCells(row)[key]
            else FoldedTaskMeta(front, key)
  {
    SnapshotsSnoc(front, row);
    FoldSnoc(SnapshotsOf(front), SnapshotOf(row));
    AbsorbTaskCell(Fold(SnapshotsOf(front)), row, key);
  }

  lemma SnapshotsSnoc(front: seq<Revision>, row: Revision)
    ensures SnapshotsOf(front + [row]) == SnapshotsOf(front) + [SnapshotOf(row)]
  {
  }

  /** Folding the log gives the head's value of the key; an absent key reads as null. */
  predicate Agrees(a: Artifact, key: string) {
    FoldedTaskMeta(a.log, key) == Value(a.head.taskMeta, key)
  }

  /** What a commit leaves the key at. */
  function NewValue(head: Head, intent: Intent, key: string): Json {
    Value(NewTaskMeta(head, intent), key)
  }

  /** The write changes the head's value of the key without logging it, or logs one it does not store. */
  predicate Silent(head: Head, intent: Intent, key: string) {
    NewValue(head, intent, key) !=
      if key in LoggedCells(intent) then LoggedCells(intent)[key] else Value(head.taskMeta, key)
  }

  lemma MergedValue(meta: map<string, Json>, patch: map<string, Json>, key: string)
    ensures Value(StripNulls(meta + patch), key) == if key in patch then patch[key] else Value(meta, key)
  {
  }

  /** Which writes are silent, and about what: an unlogged claim of done, an edit that
      replaces task_meta, a meta patch that sends task_meta to what is not a Task. */
  lemma SilentWrites(head: Head, intent: Intent, key: string)
    ensures Silent(head, intent, key) <==>
            || (ClaimsSilently(intent) && key == "status" && Value(head.taskMeta, key) != JString("claimed_done"))
            || (intent.Edit? && !intent.autoClaim && intent.taskMeta.Some?
               && Value(intent.taskMeta.value, key) != Value(head.taskMeta, key))
            || (intent.MetaPatch? && head.kind != "Task" && key in LoggedCells(intent)
               && LoggedCells(intent)[key] != Value(head.taskMeta, key))
  {
    match intent
    case TaskPatch(patch, _) => MergedValue(head.taskMeta, patch, key);
    case MetaPatch(sent, _, _) =>
      if sent.taskMeta.Some? {
        MergedValue(head.taskMeta, sent.taskMeta.value, key);
      }
    case _ =>
  }

  lemma CommittedArt(w: World, e: Event)
    ensures match Commits(w, e)
            case None => Next(w, e).art == w.art
            case Some(p) => Next(w, e).art == Artifact(NewHead(w.art.head, p.intent), w.art.log + [NewRevision(p)])
  {
  }

  /** What an event makes of the two. */
  lemma StepValues(w: World, e: Event, key: string)
    ensures var a := Next(w, e).art;
            match Commits(w, e)
            case None => a == w.art
            case Some(p) =>
              && Value(a.head.taskMeta, key) == NewValue(w.art.head, p.intent, key)
              && FoldedTaskMeta(a.log, key) ==
                   if key in LoggedCells(p.intent) then LoggedCells(p.intent)[key] else FoldedTaskMeta(w.art.log, key)
  {
    CommittedArt(w, e);
    if Commits(w, e).Some? {
      var p := Commits(w, e).value;
      NewRow(p);
      FoldedRow(w.art.log, NewRevision(p), key);
    }
  }

  /** The event commits a silent write of the key. */
  predicate CommitsSilently(w: World, e: Event, key: string) {
    Commits(w, e).Some? && Silent(w.art.head, Commits(w, e).value.intent, key)
  }

  /** From agreement, an event ends it exactly when it commits a silent write. */
  lemma StepAgrees(w: World, e: Event, key: string)
    requires Agrees(w.art, key)
    ensures Agrees(Next(w, e).art, key) <==> !CommitsSilently(w, e, key)
  {
    StepValues(w, e, key);
  }

  // ----- whole runs ---------------------------------------------------------------

  function At(head: Head, commitMsg: string, events: seq<Event>, n: nat): World
    requires n <= |events|
  {
    Run(Created(head, commitMsg), events[..n])
  }

  lemma AtNext(head: Head, commitMsg: string, events: seq<Event>, n: nat)
    requires n < |events|
    ensures At(head, commitMsg, events, n + 1) == Next(At(head, commitMsg, events, n), events[n])
  {
    assert events[..n + 1][..n] == events[..n];
  }

  lemma CreatedFolds(head: Head, commitMsg: string, key: string)
    ensures FoldedTaskMeta(Created(head, commitMsg).art.log, key) == JNull
  {
    var row := Created(head, commitMsg).art.log[0];
    FoldedRow([], row, key);
    assert SnapshotsOf([]) == [] && [] + [row] == [row];
  }

  ghost predicate AgreesThroughout(head: Head, commitMsg: string, events: seq<Event>, key: string) {
    forall n: nat :: n <= |events| ==> Agrees(At(head, commitMsg, events, n).art, key)
  }

  ghost predicate NothingSilent(head: Head, commitMsg: string, events: seq<Event>, key: string) {
    forall n: nat :: n < |events| ==> !CommitsSilently(At(head, commitMsg, events, n), events[n], key)
  }

  lemma {:induction false} AgreesSoFar(head: Head, commitMsg: string, events: seq<Event>, n: nat, key: string)
    requires n <= |events| && Value(head.taskMeta, key) == JNull && NothingSilent(head, commitMsg, events, key)
    ensures Agrees(At(head, commitMsg, events, n).art, key)
  {
    if n == 0 {
      CreatedFolds(head, commitMsg, key);
    } else {
      AgreesSoFar(head, commitMsg, events, n - 1, key);
      AtNext(head, commitMsg, events, n - 1);
      StepAgrees(At(head, commitMsg, events, n - 1), events[n - 1], key);
    }
  }

  /** Over every run the fold is the head's value of a key at every moment exactly when the
      artifact was created without the key and no silent write of it is ever committed. */
  lemma FoldsWhileNothingIsSilent(head: Head, commitMsg: string, events: seq<Event>, key: string)
    ensures AgreesThroughout(head, commitMsg, events, key) <==>
            Value(head.taskMeta, key) == JNull && NothingSilent(head, commitMsg, events, key)
  {
    if Value(head.taskMeta, key) == JNull && NothingSilent(head, commitMsg, events, key) {
      forall n: nat | n <= |events| ensures Agrees(At(head, commitMsg, events, n).art, key) {
        AgreesSoFar(head, commitMsg, events, n, key);
      }
    }
    if AgreesThroughout(head, commitMsg, events, key) {
      assert Agrees(At(head, commitMsg, events, 0).art, key);
      CreatedFolds(head, commitMsg, key);
      forall n: nat | n < |events| ensures !CommitsSilently(At(head, commitMsg, events, n), events[n], key) {
        assert Agrees(At(head, commitMsg, events, n).art, key) && Agrees(At(head, commitMsg, events, n + 1).art, key);
        AtNext(head, commitMsg, events, n);
        StepAgrees(At(head, commitMsg, events, n), events[n], key);
      }
    }
  }

  /** The value of the key in the latest commit whose writer logged one; null if none did. */
  function LastLogged(head: Head, commitMsg: string, events: seq<Event>, key: string): Json {
    if events == [] then JNull
    else
      var n := |events| - 1;
      var earlier := LastLogged(head, commitMsg, events[..n], key);
      match Commits(Run(Created(head, commitMsg), events[..n]), events[n])
      case None => earlier
      case Some(p) => if key in LoggedCells(p.intent) then LoggedCells(p.intent)[key] else earlier
  }

  /** What readers fold is what a writer logged last. */
  lemma {:induction false} FoldIsLastLogged(head: Head, commitMsg: string, events: seq<Event>, key: string)
    ensures FoldedTaskMeta(Run(Created(head, commitMsg), events).art.log, key) ==
            LastLogged(head, commitMsg, events, key)
  {
    if events == [] {
      CreatedFolds(head, commitMsg, key);
    } else {
      var n := |events| - 1;
      FoldIsLastLogged(head, commitMsg, events[..n], key);
      StepValues(Run(Created(head, commitMsg), events[..n]), events[n], key);
    }
  }

  /** The latest commit that logged or changed the key, creation included, either logged
      what it did not store, or changed it unlogged to something other than was logged last. */
  predicate Drifted(head: Head, commitMsg: string, events: seq<Event>, key: string) {
    if events == [] then Value(head.taskMeta, key) != JNull
    else
      var n := |events| - 1;
      var w := Run(Created(head, commitMsg), events[..n]);
      match Commits(w, events[n])
      case None => Drifted(head, commitMsg, events[..n], key)
      case Some(p) =>
        var cells, value := LoggedCells(p.intent), NewValue(w.art.head, p.intent, key);
        if key in cells then value != cells[key]
        else if value == Value(w.art.head.taskMeta, key) then Drifted(head, commitMsg, events[..n], key)
        else value != LastLogged(head, commitMsg, events[..n], key)
  }

  /** At the end of any run, the fold is the head on a key exactly when the key has not drifted. */
  lemma {:induction false} FoldsUnlessDrifted(head: Head, commitMsg: string, events: seq<Event>, key: string)
    ensures Agrees(Run(Created(head, commitMsg), events).art, key) <==> !Drifted(head, commitMsg, events, key)
  {
    if events == [] {
      CreatedFolds(head, commitMsg, key);
    } else {
      var n := |events| - 1;
      FoldsUnlessDrifted(head, commitMsg, events[..n], key);
      FoldIsLastLogged(head, commitMsg, events[..n], key);
      StepValues(Run(Created(head, commitMsg), events[..n]), events[n], key);
    }
  }

  // ----- what a writer can check before it writes -----------------------------------

  /** At its reads the writer is about to write the key silently. */
  predicate OpensSilently(w: World, e: Event, key: string) {
    Opens(e) && Opened(w.art, e).Some? && Silent(w.art.head, Opened(w.art, e).value.intent, key)
  }

  /** No writer that can still commit would write the key silently. */
  ghost predicate Quiet(w: World, key: string) {
    forall pid :: pid in w.open && w.open[pid].lastRev == |w.art.log| ==> !Silent(w.art.head, w.open[pid].intent, key)
  }

  lemma StepQuiet(w: World, e: Event, key: string)
    requires Inv(w) && Quiet(w, key) && !OpensSilently(w, e, key)
    ensures Quiet(Next(w, e), key) && !CommitsSilently(w, e, key)
  {
    NumberedMax(w.art.log);
    CommittedArt(w, e);
    if Commits(w, e).Some? {
      CommitKeeps(w.art, w.open[e.pid]);
    }
  }

  lemma {:induction false} RunQuiet(head: Head, commitMsg: string, events: seq<Event>, n: nat, key: string)
    requires n <= |events|
    requires forall m: nat :: m < |events| ==> !OpensSilently(At(head, commitMsg, events, m), events[m], key)
    ensures Quiet(At(head, commitMsg, events, n), key)
  {
    if n > 0 {
      RunQuiet(head, commitMsg, events, n - 1, key);
      RunKeeps(head, commitMsg, events[..n - 1]);
      AtNext(head, commitMsg, events, n - 1);
      StepQuiet(At(head, commitMsg, events, n - 1), events[n - 1], key);
    }
  }

  /** If no writer was about to write the key silently when it read, the fold is the head
      on that key at every moment, whatever has been overtaken in between. */
  lemma TaskLaneFolds(head: Head, commitMsg: string, events: seq<Event>, key: string)
    requires Value(head.taskMeta, key) == JNull
    requires forall m: nat :: m < |events| ==> !OpensSilently(At(head, commitMsg, events, m), events[m], key)
    ensures AgreesThroughout(head, commitMsg, events, key)
  {
    forall n: nat | n < |events| ensures !CommitsSilently(At(head, commitMsg, events, n), events[n], key) {
      RunQuiet(head, commitMsg, events, n, key);
      RunKeeps(head, commitMsg, events[..n]);
      StepQuiet(At(head, commitMsg, events, n), events[n], key);
    }
    FoldsWhileNothingIsSilent(head, commitMsg, events, key);
  }

  /** Writers of anything but task_meta that a log would have to show: task patches,
      visibility changes, link rewrites, notes about pins and areas, sweeps. */
  predicate Logging(e: Event) {
    !e.PrepareEdit? && !e.PrepareTransition? && !e.PrepareClaimDone? && !e.OpenMetaPatch?
  }

  /** So any concurrency of these writers on an artifact that began without task_meta keeps
      the fold equal to the head on every key. */
  lemma PatchesFold(head: Head, commitMsg: string, events: seq<Event>, key: string)
    requires head.taskMeta == map[] && forall e :: e in events ==> Logging(e)
    ensures AgreesThroughout(head, commitMsg, events, key)
  {
    forall m: nat | m < |events| ensures !OpensSilently(At(head, commitMsg, events, m), events[m], key) {
      assert events[m] in events;
      var a := At(head, commitMsg, events, m).art;
      if Opens(events[m]) && Opened(a, events[m]).Some? {
        SilentWrites(a.head, Opened(a, events[m]).value.intent, key);
      }
    }
    TaskLaneFolds(head, commitMsg, events, key);
  }

  // ----- runs whose only silent writes are claims ------------------------------------

  /** The writer stores no task_meta but merged and logged cells, or a claim. */
  predicate Plain(kind: string, intent: Intent) {
    && (intent.Edit? ==> intent.taskMeta.None?)
    && (intent.MetaPatch? && intent.sent.taskMeta.Some? ==> kind == "Task")
  }

  predicate OpensPlain(kind: string, e: Event) {
    && (e.PrepareEdit? ==> e.taskMeta.None?)
    && (e.OpenMetaPatch? && e.sent.taskMeta.Some? ==> kind == "Task")
  }

  /** The latest revision that wrote the status claimed done without logging it. */
  predicate StatusUnlogged(head: Head, commitMsg: string, events: seq<Event>) {
    events != [] &&
    var n := |events| - 1;
    var earlier := StatusUnlogged(head, commitMsg, events[..n]);
    match Commits(Run(Created(head, commitMsg), events[..n]), events[n])
    case None => earlier
    case Some(p) => ClaimsSilently(p.intent) || ("status" !in LoggedCells(p.intent) && earlier)
  }

  ghost predicate AllPlain(w: World, kind: string) {
    w.art.head.kind == kind && forall pid :: pid in w.open ==> Plain(kind, w.open[pid].intent)
  }

  lemma {:induction false} RunPlain(head: Head, commitMsg: string, events: seq<Event>)
    requires forall e :: e in events ==> OpensPlain(head.kind, e)
    ensures AllPlain(Run(Created(head, commitMsg), events), head.kind)
  {
    if events != [] {
      var n := |events| - 1;
      assert events[n] in events;
      RunPlain(head, commitMsg, events[..n]);
      StepPlain(Run(Created(head, commitMsg), events[..n]), events[n], head.kind);
    }
  }

  lemma StepPlain(w: World, e: Event, kind: string)
    requires AllPlain(w, kind) && OpensPlain(kind, e)
    ensures AllPlain(Next(w, e), kind)
  {
    CommittedArt(w, e);
    if Opens(e) && Opened(w.art, e).Some? {
      OpenedPlain(w.art, e);
    }
  }

  lemma OpenedPlain(a: Artifact, e: Event)
    requires Opens(e) && Opened(a, e).Some? && OpensPlain(a.head.kind, e)
    ensures Plain(a.head.kind, Opened(a, e).value.intent)
  {
  }

  /** While the latest status write is an unlogged claim, the head says claimed_done and the log does not. */
  ghost predicate StatusAccounted(a: Artifact, unlogged: bool) {
    if unlogged then Value(a.head.taskMeta, "status") == JString("claimed_done") != FoldedTaskMeta(a.log, "status")
    else Agrees(a, "status")
  }

  lemma PlainStep(w: World, p: Pending, key: string)
    requires Plain(w.art.head.kind, p.intent)
    ensures Silent(w.art.head, p.intent, key) ==> key == "status" && ClaimsSilently(p.intent)
    ensures ClaimsSilently(p.intent) ==>
            NewValue(w.art.head, p.intent, "status") == JString("claimed_done") && LoggedCells(p.intent) == map[]
  {
    SilentWrites(w.art.head, p.intent, key);
  }

  lemma AccountedStep(w: World, e: Event, unlogged: bool)
    requires Inv(w) && AllPlain(w, w.art.head.kind) && StatusAccounted(w.art, unlogged)
    ensures var unlogged' := match Commits(w, e)
                             case None => unlogged
                             case Some(p) =>
                               ClaimsSilently(p.intent) || ("status" !in LoggedCells(p.intent) && unlogged);
            StatusAccounted(Next(w, e).art, unlogged')
  {
    var status := "status";
    StepValues(w, e, status);
    if Commits(w, e).Some? {
      var p := w.open[e.pid];
      CommitKeeps(w.art, p);
      PlainStep(w, p, status);
    }
  }

  lemma {:induction false} StatusIsAccounted(head: Head, commitMsg: string, events: seq<Event>)
    requires head.taskMeta == map[] && forall e :: e in events ==> OpensPlain(head.kind, e)
    ensures StatusAccounted(Run(Created(head, commitMsg), events).art, StatusUnlogged(head, commitMsg, events))
  {
    if events == [] {
      CreatedFolds(head, commitMsg, "status");
    } else {
      var n := |events| - 1;
      StatusIsAccounted(head, commitMsg, events[..n]);
      RunKeeps(head, commitMsg, events[..n]);
      RunPlain(head, commitMsg, events[..n]);
      AccountedStep(Run(Created(head, commitMsg), events[..n]), events[n],
        StatusUnlogged(head, commitMsg, events[..n]));
    }
  }

  lemma {:induction false} OtherKeysAgree(head: Head, commitMsg: string, events: seq<Event>, key: string)
    requires key != "status" && head.taskMeta == map[] && forall e :: e in events ==> OpensPlain(head.kind, e)
    ensures Agrees(Run(Created(head, commitMsg), events).art, key)
  {
    if events == [] {
      CreatedFolds(head, commitMsg, key);
    } else {
      var n := |events| - 1;
      var w, e := Run(Created(head, commitMsg), events[..n]), events[n];
      OtherKeysAgree(head, commitMsg, events[..n], key);
      RunPlain(head, commitMsg, events[..n]);
      if Commits(w, e).Some? {
        PlainStep(w, w.open[e.pid], key);
      }
      StepAgrees(w, e, key);
    }
  }

  ghost predicate NoNulls(meta: map<string, Json>) {
    forall key :: key in meta ==> meta[key] != JNull
  }

  lemma {:induction false} HeadHasNoNulls(head: Head, commitMsg: string, events: seq<Event>)
    requires NoNulls(head.taskMeta) && forall e :: e in events ==> OpensPlain(head.kind, e)
    ensures NoNulls(Run(Created(head, commitMsg), events).art.head.taskMeta)
  {
    if events != [] {
      var n := |events| - 1;
      HeadHasNoNulls(head, commitMsg, events[..n]);
      RunPlain(head, commitMsg, events[..n]);
      StepNoNulls(Run(Created(head, commitMsg), events[..n]), events[n]);
    }
  }

  lemma StepNoNulls(w: World, e: Event)
    requires AllPlain(w, w.art.head.kind) && NoNulls(w.art.head.taskMeta)
    ensures NoNulls(Next(w, e).art.head.taskMeta)
  {
    CommittedArt(w, e);
    if Commits(w, e).Some? {
      assert Plain(w.art.head.kind, w.open[e.pid].intent);
    }
  }

  /** When no edit replaces task_meta, folding the logged payloads gives the head's task_meta
      on every key but status always, and on status exactly when the latest revision that
      wrote it was no unlogged claim of done. */
  lemma TaskMetaFolds(head: Head, commitMsg: string, events: seq<Event>)
    requires head.taskMeta == map[] && forall e :: e in events ==> OpensPlain(head.kind, e)
    ensures var a := Run(Created(head, commitMsg), events).art;
            && (forall key :: key != "status" ==> Agrees(a, key))
            && (Agrees(a, "status") <==> !StatusUnlogged(head, commitMsg, events))
            && NoNulls(a.head.taskMeta)
  {
    StatusIsAccounted(head, commitMsg, events);
    HeadHasNoNulls(head, commitMsg, events);
    forall key | key != "status" ensures Agrees(Run(Created(head, commitMsg), events).art, key) {
      OtherKeysAgree(head, commitMsg, events, key);
    }
  }

  /** What a writer in its transaction has read it can commit at once. */
  lemma OpenThenCommit(w: World, e: Event, p: Pending)
    requires Numbered(w.art.log) && Opens(e) && !e.Resolve? && Opened(w.art, e) == Some(p)
    ensures Next(w, e).art == w.art && Commits(Next(w, e), TryCommit(e.pid)) == Some(p)
  {
    NumberedMax(w.art.log);
    assert p.lastRev == |w.art.log| && !Taken(w.art.log, p.lastRev + 1);
  }

  /** From any reachable state, an edit, an acceptance transition or task.claim_done that
      claims done sets the head's status and leaves the folded status where it was. */
  lemma AutoClaimIsNotFolded(head: Head, commitMsg: string, events: seq<Event>, e: Event)
    requires Opens(e)
    requires var a := Run(Created(head, commitMsg), events).art;
             Opened(a, e).Some? && ClaimsSilently(Opened(a, e).value.intent)
    ensures var w := Run(Created(head, commitMsg), events);
            var a := Next(Next(w, e), TryCommit(e.pid)).art;
            && a.head.taskMeta == Claimed(w.art.head.taskMeta)
            && FoldedTaskMeta(a.log, "status") == FoldedTaskMeta(w.art.log, "status")
  {
    RunKeeps(head, commitMsg, events);
    var w := Run(Created(head, commitMsg), events);
    OpenThenCommit(w, e, Opened(w.art, e).value);
    CommittedArt(Next(w, e), TryCommit(e.pid));
    StepValues(Next(w, e), TryCommit(e.pid), "status");
  }
}
