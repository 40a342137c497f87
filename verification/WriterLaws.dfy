/** What the writers accept, store and leave alone, said of the request, the row and the
    head, value by value. */
module WriterLaws {
  import opened Wrappers
  import opened Hashing
  import opened Strings
  import opened RevisionMeta
  import opened RevisionLog
  import opened RevisionRuns
  import Acceptance

  // ----- the task lane ------------------------------------------------------------------

  ghost predicate LegalStatus(raw: Option<string>) {
    raw.None? || Blank(raw.value) || TrimSpace(raw.value) == "open" || TrimSpace(raw.value) == "claimed_done"
    || TrimSpace(raw.value) == "blocked" || TrimSpace(raw.value) == "cancelled"
  }

  ghost predicate LegalPriority(raw: Option<string>) {
    raw.None? || Blank(raw.value) || TrimSpace(raw.value) == "p0" || TrimSpace(raw.value) == "p1"
    || TrimSpace(raw.value) == "p2" || TrimSpace(raw.value) == "p3"
  }

  ghost predicate LegalDueAt(raw: Option<string>, isRfc3339: bool) {
    raw.None? || Blank(raw.value) || isRfc3339
  }

  ghost predicate SetsSomething(req: TaskRequest) {
    req.status.Some? || req.assignee.Some? || req.priority.Some? || req.dueAt.Some? || req.parentSlug.Some?
  }

  ghost predicate AsksForDone(req: TaskRequest) {
    req.status.Some? && TrimSpace(req.status.value) == "claimed_done"
  }

  lemma FieldsLegal(req: TaskRequest)
    ensures LegalStatus(req.status) <==> !BadStatus(req.status)
    ensures LegalPriority(req.priority) <==> !BadPriority(req.priority)
    ensures LegalDueAt(req.dueAt, req.dueAtIsRfc3339) <==> !BadDueAt(req.dueAt, req.dueAtIsRfc3339)
  {
    if req.status.Some? {
      TrimSpaceBlank(req.status.value);
    }
    if req.priority.Some? {
      TrimSpaceBlank(req.priority.value);
    }
    if req.dueAt.Some? {
      TrimSpaceBlank(req.dueAt.value);
    }
  }

  /** The patch, cell by cell. */
  lemma PatchHas(req: TaskRequest)
    ensures var p := PatchOf(req);
            && ("status" in p <==> req.status.Some?) && ("assignee" in p <==> req.assignee.Some?)
            && ("priority" in p <==> req.priority.Some?) && ("due_at" in p <==> req.dueAt.Some?)
            && ("parent_slug" in p <==> req.parentSlug.Some?)
            && (forall k :: k in p ==> k in {"status", "assignee", "priority", "due_at", "parent_slug"})
  {
    assert "status"[0] == 's' && "assignee"[0] == 'a' && "due_at"[0] == 'd';
    assert "priority"[1] == 'r' && "parent_slug"[1] == 'a' && "priority"[0] == 'p';
  }

  ghost predicate CellIs(patch: map<string, Json>, key: string, raw: Option<string>) {
    raw.Some? ==> key in patch && patch[key] == if Blank(raw.value) then JNull else JString(TrimSpace(raw.value))
  }

  lemma PatchCellIs(req: TaskRequest)
    ensures var p := PatchOf(req);
            && CellIs(p, "status", req.status) && CellIs(p, "assignee", req.assignee)
            && CellIs(p, "priority", req.priority) && CellIs(p, "due_at", req.dueAt)
            && CellIs(p, "parent_slug", req.parentSlug)
  {
    assert "status"[0] == 's' && "assignee"[0] == 'a' && "due_at"[0] == 'd';
    assert "priority"[1] == 'r' && "parent_slug"[1] == 'a' && "priority"[0] == 'p';
    CellOf(req.status);
    CellOf(req.assignee);
    CellOf(req.priority);
    CellOf(req.dueAt);
    CellOf(req.parentSlug);
  }

  lemma CellOf(raw: Option<string>)
    ensures raw.Some? ==> Cell(raw.value) == if Blank(raw.value) then JNull else JString(TrimSpace(raw.value))
  {
    if raw.Some? {
      TrimSpaceBlank(raw.value);
    }
  }

  lemma DoneIsAskedFor(req: TaskRequest)
    ensures ClaimsDone(PatchOf(req)) <==> AsksForDone(req)
  {
    PatchHas(req);
    PatchCellIs(req);
    if req.status.Some? {
      TrimSpaceBlank(req.status.value);
      assert "claimed_done" != "";
    }
  }

  /** A patch is accepted for a Task alone, when the request has a message, an author, some
      field, and legal values, when its version is the log's or the current head is used,
      and, if it claims done, over a body with no open checkbox. */
  lemma AcceptedWhen(a: Artifact, req: TaskRequest, useCurrentHead: bool)
    ensures ResolveTask(a, req, useCurrentHead).Ok? <==>
            && a.head.kind == "Task"
            && !Blank(req.commitMsg) && !Blank(req.authorId) && SetsSomething(req)
            && LegalStatus(req.status) && LegalPriority(req.priority) && LegalDueAt(req.dueAt, req.dueAtIsRfc3339)
            && (AsksForDone(req) ==> Acceptance.AllResolved(a.head.body))
            && (useCurrentHead || req.expectedVersion == MaxNumber(a.log))
  {
    TrimSpaceBlank(req.commitMsg);
    TrimSpaceBlank(req.authorId);
    FieldsLegal(req);
    DoneIsAskedFor(req);
  }

  /** And otherwise the first thing wrong is named, in this order. */
  lemma RefusedFor(a: Artifact, req: TaskRequest, useCurrentHead: bool)
    requires ResolveTask(a, req, useCurrentHead).Err?
    ensures ResolveTask(a, req, useCurrentHead).error ==
            if Blank(req.commitMsg) then MissingCommitMsg
            else if Blank(req.authorId) then AuthorEmpty
            else if !LegalStatus(req.status) then StatusInvalid
            else if !LegalPriority(req.priority) then PriorityInvalid
            else if !LegalDueAt(req.dueAt, req.dueAtIsRfc3339) then DueAtInvalid
            else if !SetsSomething(req) then PatchEmpty
            else if a.head.kind != "Task" then WrongType
            else if AsksForDone(req) && !Acceptance.AllResolved(a.head.body) then ClaimedDoneIncomplete
            else VersionConflict
  {
    TrimSpaceBlank(req.commitMsg);
    TrimSpaceBlank(req.authorId);
    FieldsLegal(req);
    DoneIsAskedFor(req);
  }

  // ----- what the other writers take up ----------------------------------------------------

  ghost predicate SomeBox(body: string) {
    exists line :: line in Acceptance.Lines(body) && Acceptance.BoxOf(line).Some?
  }

  lemma BoxesCount(body: string)
    ensures var (resolved, total) := Acceptance.Tally(Acceptance.BoxesOf(Acceptance.Lines(body)));
            total > 0 && resolved == total <==> SomeBox(body) && Acceptance.AllBoxesResolved(body)
  {
    var lines := Acceptance.Lines(body);
    Acceptance.BoxTally(body);
    SomeCounted(Acceptance.BoxesOf(lines));
    if line :| line in lines && Acceptance.BoxOf(line).Some? {
      var i :| 0 <= i < |lines| && lines[i] == line;
      assert Acceptance.BoxesOf(lines)[i].Some?;
    }
  }

  lemma {:induction false} SomeCounted(marks: seq<Option<char>>)
    ensures Acceptance.Tally(marks).1 > 0 <==> exists i :: 0 <= i < |marks| && marks[i].Some?
  {
    if marks != [] {
      var n := |marks| - 1;
      SomeCounted(marks[..n]);
      if i :| 0 <= i < n && marks[..n][i].Some? {
        assert marks[i].Some?;
      }
    }
  }

  /** The task has no status, one that is no text, a blank one, or "open". */
  ghost predicate StatusOpen(head: Head) {
    var v := Value(head.taskMeta, "status");
    !v.JString? || Blank(v.s) || TrimSpace(v.s) == "open"
  }

  /** Who claims done without logging it, and who with. */
  lemma ClaimsWhen(head: Head, newBody: string)
    ensures AutoClaims(head, newBody) <==>
            head.kind == "Task" && StatusOpen(head) && SomeBox(newBody) && Acceptance.AllBoxesResolved(newBody)
    ensures MaySweep(head) <==>
            head.kind == "Task" && Value(head.taskMeta, "status") == JString("open")
            && SomeBox(head.body) && Acceptance.AllBoxesResolved(head.body)
    ensures MayClaimDone(head) <==>
            head.kind == "Task" && Value(head.taskMeta, "status") !in {JString("claimed_done"), JString("cancelled")}
  {
    BoxesCount(newBody);
    BoxesCount(head.body);
    var v := Value(head.taskMeta, "status");
    if v.JString? {
      TrimSpaceBlank(v.s);
    }
  }

  /** A meta patch needs a message, something sent, no status, and the log's version. */
  lemma MetaPatchWhen(a: Artifact, req: MetaRequest)
    ensures ReadForMetaPatch(a, req).Some? <==>
            && !Blank(req.commitMsg) && req.expectedVersion == MaxNumber(a.log)
            && (req.taskMeta.Some? ==> "status" !in req.taskMeta.value)
            && (req.tags.Some? || !Blank(req.completeness) || req.taskMeta.Some? || req.artifactMeta.Some?)
    ensures ReadForMetaPatch(a, req).Some? ==>
              var intent := ReadForMetaPatch(a, req).value.intent;
              && intent.tags == (if req.tags.Some? then req.tags.value else a.head.tags)
              && intent.completeness == if Blank(req.completeness) then a.head.completeness else req.completeness
  {
    TrimSpaceBlank(req.commitMsg);
    TrimSpaceBlank(req.completeness);
  }

  // ----- rows and heads -------------------------------------------------------------------

  /** A new row: the next number, the head's title unless an edit gives one, a body where
      there is one to store and the hash of the body either way. */
  lemma RowHas(p: Pending)
    ensures var row := NewRevision(p);
            && row.number == p.lastRev + 1
            && row.title == (if p.intent.Edit? then p.intent.stamp.title else p.stamp.title)
            && row.bodyHash == Sha256(CommittedBody(p))
            && row.body ==
               (if p.intent.TaskPatch? || p.intent.SetVisibility? || p.intent.MetaPatch? || p.intent.Annotate? then None
                else Some(CommittedBody(p)))
            && row.tags == TagsOf(p.intent, p.stamp) && row.completeness == CompletenessOf(p.intent, p.stamp)
  {
    RowColumns(p);
  }

  /** The columns a writer stores: its own for an edit and a meta patch, and else the head's. */
  function TagsOf(w: Intent, stamp: Stamp): seq<string> {
    if w.Edit? then w.stamp.tags else if w.MetaPatch? then w.tags else stamp.tags
  }

  function CompletenessOf(w: Intent, stamp: Stamp): string {
    if w.Edit? then w.stamp.completeness else if w.MetaPatch? then w.completeness else stamp.completeness
  }

  lemma RowColumns(p: Pending)
    ensures NewRevision(p).tags == TagsOf(p.intent, p.stamp)
    ensures NewRevision(p).completeness == CompletenessOf(p.intent, p.stamp)
  {
  }

  /** The bodies writers commit. */
  lemma BodyCommitted(p: Pending)
    ensures CommittedBody(p) ==
            if p.intent.Rewrite? || p.intent.Transition? || p.intent.ClaimDone? then p.intent.newBody
            else if p.intent.Edit? then p.intent.stamp.body
            else p.stamp.body
  {
  }

  lemma RowShape(p: Pending)
    ensures NewRevision(p).shape ==
            if p.intent.Transition? then "acceptance_transition"
            else if p.intent.Edit? && p.intent.shape.Checkbox? then p.intent.shape.name
            else if NewRevision(p).body.None? || p.intent.Sweep? then "meta_patch"
            else "body_patch"
  {
  }

  lemma RowMessage(p: Pending)
    ensures p.intent.SetVisibility? ==>
              NewRevision(p).commitMsg == "visibility: " + p.intent.from + " -> " + p.intent.to
    ensures p.intent.Rewrite? ==> NewRevision(p).commitMsg == "retro-pass slug/link normalization"
    ensures p.intent.Sweep? ==> NewRevision(p).commitMsg == "auto: acceptance 100% -> claimed_done"
    ensures p.intent.MetaPatch? ==> NewRevision(p).commitMsg == p.intent.sent.commitMsg
    ensures (p.intent.TaskPatch? || p.intent.Edit? || p.intent.Transition? || p.intent.ClaimDone?
            || p.intent.Annotate?) ==>
              NewRevision(p).commitMsg == p.intent.commitMsg
  {
  }

  /** A commit changes of the head what its writer is about, and nothing else. */
  lemma HeadMoves(h: Head, p: Pending)
    requires p.stamp == StampOf(h)
    ensures var h', w := NewHead(h, p.intent), p.intent;
            && h'.kind == h.kind
            && h'.slug == (if w.Rewrite? then w.newSlug else h.slug)
            && h'.visibility == (if w.SetVisibility? then w.to else h.visibility)
            && h'.title == NewRevision(p).title && h'.body == CommittedBody(p)
            && h'.tags == NewRevision(p).tags && h'.completeness == NewRevision(p).completeness
  {
  }

  /** What becomes of one key of the head's task_meta. */
  lemma TaskMetaMoves(h: Head, w: Intent, key: string)
    ensures Value(NewTaskMeta(h, w), key) ==
            var old' := Value(h.taskMeta, key);
            match w
            case TaskPatch(patch, _) => if key in patch then patch[key] else old'
            case MetaPatch(sent, _, _) =>
              if h.kind == "Task" && sent.taskMeta.Some? && key in sent.taskMeta.value then sent.taskMeta.value[key]
                else old'
            case Edit(_, sent, claims, _, _) =>
              if claims then (if key == "status" then JString("claimed_done") else old')
              else if sent.Some? then Value(sent.value, key) else old'
            case Transition(_, claims, _) => if claims && key == "status" then JString("claimed_done") else old'
            case ClaimDone(_, _) => if key == "status" then JString("claimed_done") else old'
            case Sweep => if key == "status" then JString("claimed_done") else old'
            case _ => old'
  {
  }

  // ----- artifacts that are no Tasks ---------------------------------------------------------

  /** The writers for Tasks alone. */
  predicate ForTasks(w: Intent) {
    w.TaskPatch? || w.ClaimDone? || w.Sweep? || (w.Edit? && w.autoClaim) || (w.Transition? && w.autoClaim)
  }

  ghost predicate NoTaskWriters(w: World) {
    w.art.head.kind != "Task" && forall pid :: pid in w.open ==> !ForTasks(w.open[pid].intent)
  }

  lemma OpenedForTasks(a: Artifact, e: Event)
    requires Opens(e) && Opened(a, e).Some? && ForTasks(Opened(a, e).value.intent)
    ensures a.head.kind == "Task"
  {
    match e
    case Resolve(_, req, useHead) => AcceptedWhen(a, req, useHead);
    case PrepareEdit(_, stamp, _, _, _) => ClaimsWhen(a.head, stamp.body);
    case PrepareTransition(_, body, _) => ClaimsWhen(a.head, body);
    case PrepareClaimDone(_, _, _) => ClaimsWhen(a.head, a.head.body);
    case SelectForSweep(_) => ClaimsWhen(a.head, a.head.body);
    case _ =>
  }

  lemma StepNoTaskWriters(w: World, e: Event)
    requires NoTaskWriters(w)
    ensures NoTaskWriters(Next(w, e))
  {
    if Opens(e) && Opened(w.art, e).Some? && ForTasks(Opened(w.art, e).value.intent) {
      OpenedForTasks(w.art, e);
    }
  }

  lemma {:induction false} RunNoTaskWriters(head: Head, commitMsg: string, events: seq<Event>)
    requires head.kind != "Task"
    ensures NoTaskWriters(Run(Created(head, commitMsg), events))
  {
    if events != [] {
      RunNoTaskWriters(head, commitMsg, events[..|events| - 1]);
      StepNoTaskWriters(Run(Created(head, commitMsg), events[..|events| - 1]), events[|events| - 1]);
    }
  }

  /** Over every run on an artifact that is no Task, nothing that is committed is a task
      patch or claims done, and task_meta changes only when an edit replaces it. */
  lemma OnlyTasksArePatched(head: Head, commitMsg: string, events: seq<Event>, e: Event)
    requires head.kind != "Task"
    ensures var w := Run(Created(head, commitMsg), events);
            && w.art.head.kind == head.kind
            && (Commits(w, e).Some? ==>
                  && !ForTasks(Commits(w, e).value.intent)
                  && "status" !in TaskCells(NewRevision(Commits(w, e).value))
                  && (Next(w, e).art.head.taskMeta == w.art.head.taskMeta
                      || (Commits(w, e).value.intent.Edit? && Commits(w, e).value.intent.taskMeta.Some?)))
  {
    RunNoTaskWriters(head, commitMsg, events);
    KindStays(head, commitMsg, events);
    RunKeeps(head, commitMsg, events);
    var w := Run(Created(head, commitMsg), events);
    if Commits(w, e).Some? {
      CommitKeeps(w.art, Commits(w, e).value);
      NewRow(Commits(w, e).value);
    }
  }

  lemma {:induction false} KindStays(head: Head, commitMsg: string, events: seq<Event>)
    ensures Run(Created(head, commitMsg), events).art.head.kind == head.kind
  {
    if events != [] {
      KindStays(head, commitMsg, events[..|events| - 1]);
    }
  }
}
