/** The artifact revision log: what each writer reads, what its transaction
    appends, and how readers rebuild bodies and metadata from the rows. */
module RevisionLog {
  import opened Wrappers
  import opened Hashing
  import opened Strings
  import opened RevisionMeta
  import Acceptance

  datatype Head = Head(
    kind: string, slug: string, title: string, body: string, tags: seq<string>,
    completeness: string, visibility: string, taskMeta: map<string, Json>)

  /** One artifact_revisions row. A NULL body_markdown is None. */
  datatype Revision = Revision(
    number: int, title: string, body: Option<string>, bodyHash: Digest, tags: seq<string>,
    completeness: string, commitMsg: string, shape: string, payload: RawPayload)

  /** One artifacts row and its revision rows, in insertion order. */
  datatype Artifact = Artifact(head: Head, log: seq<Revision>)

  /** The head columns a writer copies into the revision it appends. */
  datatype Stamp = Stamp(title: string, body: string, tags: seq<string>, completeness: string)

  function StampOf(head: Head): Stamp {
    Stamp(head.title, head.body, head.tags, head.completeness)
  }

  datatype Intent =
    | TaskPatch(patch: map<string, Json>, commitMsg: string)
    | SetVisibility(from: string, to: string)
    | Rewrite(newSlug: string, newBody: string)
    | Edit(stamp: Stamp, taskMeta: Option<map<string, Json>>, autoClaim: bool, shape: EditShape, commitMsg: string)
    | Transition(newBody: string, autoClaim: bool, commitMsg: string)
    | ClaimDone(newBody: string, commitMsg: string)
    | MetaPatch(sent: MetaRequest, tags: seq<string>, completeness: string)
    | Annotate(detail: map<string, Json>, commitMsg: string)
    | Sweep

  /** An edit's row: a plain one, or one of a checkbox shape, which logs the change of its box. */
  datatype EditShape = WholeBody | Checkbox(name: string, detail: map<string, Json>)

  /** What a meta_patch proposal sends: every field optional, a blank completeness none. */
  datatype MetaRequest = MetaRequest(
    expectedVersion: int, commitMsg: string, tags: Option<seq<string>>, completeness: string,
    taskMeta: Option<map<string, Json>>, artifactMeta: Option<map<string, Json>>)

  /** A writer between its reads and its commit. The task lane reads the stamp
      again inside its transaction; the others read it together with lastRev. */
  datatype Pending = Pending(lastRev: int, stamp: Stamp, inTx: bool, intent: Intent)

  /** COALESCE(max(revision_number), 0). */
  function MaxNumber(log: seq<Revision>): (r: int)
    ensures r >= 0
  {
    if log == [] then 0
    else
      var last, rest := log[|log| - 1].number, MaxNumber(log[..|log| - 1]);
      if last > rest then last else rest
  }

  predicate Taken(log: seq<Revision>, number: int) {
    exists i :: 0 <= i < |log| && log[i].number == number
  }

  // ----- the task lane's request ------------------------------------------------

  datatype TaskRequest = TaskRequest(
    expectedVersion: int, commitMsg: string, authorId: string,
    status: Option<string>, assignee: Option<string>, priority: Option<string>,
    dueAt: Option<string>, dueAtIsRfc3339: bool, parentSlug: Option<string>)

  datatype TaskError =
    | MissingCommitMsg | AuthorEmpty | StatusInvalid | PriorityInvalid | DueAtInvalid
    | PatchEmpty | WrongType | ClaimedDoneIncomplete | VersionConflict | RevisionInsertFailed

  function Field(req: TaskRequest, key: string): Option<string> {
    if key == "status" then req.status
    else if key == "assignee" then req.assignee
    else if key == "priority" then req.priority
    else if key == "due_at" then req.dueAt
    else if key == "parent_slug" then req.parentSlug
    else None
  }

  /** A cleared field is JSON null. */
  function Cell(raw: string): Json {
    if TrimSpace(raw) == "" then JNull else JString(TrimSpace(raw))
  }

  predicate ValidStatus(v: string) {
    v in {"open", "claimed_done", "blocked", "cancelled"}
  }

  predicate ValidPriority(v: string) {
    v in {"p0", "p1", "p2", "p3"}
  }

  /** A status that is set, not cleared, and not one of the four. */
  predicate BadStatus(raw: Option<string>) {
    raw.Some? && TrimSpace(raw.value) != "" && !ValidStatus(TrimSpace(raw.value))
  }

  predicate BadPriority(raw: Option<string>) {
    raw.Some? && TrimSpace(raw.value) != "" && !ValidPriority(TrimSpace(raw.value))
  }

  predicate BadDueAt(raw: Option<string>, isRfc3339: bool) {
    raw.Some? && TrimSpace(raw.value) != "" && !isRfc3339
  }

  /** The first complaint about the request itself, in the order the handler checks. */
  function RequestError(req: TaskRequest): Option<TaskError> {
    if TrimSpace(req.commitMsg) == "" then Some(MissingCommitMsg)
    else if TrimSpace(req.authorId) == "" then Some(AuthorEmpty)
    else if BadStatus(req.status) then Some(StatusInvalid)
    else if BadPriority(req.priority) then Some(PriorityInvalid)
    else if BadDueAt(req.dueAt, req.dueAtIsRfc3339) then Some(DueAtInvalid)
    else if req.status.None? && req.assignee.None? && req.priority.None? && req.dueAt.None? && req.parentSlug.None? then
      Some(PatchEmpty)
    else None
  }

  function SetField(patch: map<string, Json>, key: string, raw: Option<string>): map<string, Json> {
    if raw.Some? then patch[key := Cell(raw.value)] else patch
  }

  /** The patch, filled field by field. */
  function PatchOf(req: TaskRequest): map<string, Json> {
    var withStatus := SetField(map[], "status", req.status);
    var withAssignee := SetField(withStatus, "assignee", req.assignee);
    var withPriority := SetField(withAssignee, "priority", req.priority);
    var withDueAt := SetField(withPriority, "due_at", req.dueAt);
    SetField(withDueAt, "parent_slug", req.parentSlug)
  }

  /** The patch has one cell for each field the request sets: a trimmed string, or null to clear. */
  lemma PatchCells(req: TaskRequest, key: string)
    ensures key in PatchOf(req) <==> Field(req, key).Some?
    ensures key in PatchOf(req) ==> PatchOf(req)[key] == Cell(Field(req, key).value)
  {
    assert "status"[0] == 's' && "assignee"[0] == 'a' && "priority"[1] == 'r' && "due_at"[0] == 'd'
      && "parent_slug"[1] == 'a' && "priority"[0] == 'p';
  }

  predicate ClaimsDone(patch: map<string, Json>) {
    "status" in patch && patch["status"] == JString("claimed_done")
  }

  /** The read half of applyTaskMetaPatch. */
  function ResolveTask(a: Artifact, req: TaskRequest, useCurrentHead: bool): Result<Pending, TaskError> {
    var complaint := RequestError(req);
    var lastRev := MaxNumber(a.log);
    if complaint.Some? then Err(complaint.value)
    else if a.head.kind != "Task" then Err(WrongType)
    else if ClaimsDone(PatchOf(req)) && !Acceptance.AllResolved(a.head.body) then Err(ClaimedDoneIncomplete)
    else if !useCurrentHead && req.expectedVersion != lastRev then Err(VersionConflict)
    else Ok(Pending(lastRev, StampOf(a.head), false, TaskPatch(PatchOf(req), req.commitMsg)))
  }

  // ----- the other writers' reads -----------------------------------------------

  /** handleArtifactPatch: nothing to write when the project caps the tier or it is already set. */
  function ReadForVisibility(a: Artifact, to: string, allowed: bool): Option<Pending> {
    if !allowed || a.head.visibility == to then None
    else Some(Pending(MaxNumber(a.log), StampOf(a.head), true, SetVisibility(a.head.visibility, to)))
  }

  /** taskStatusFromJSON: anything but a string reads as the empty status. */
  function StatusText(head: Head): string {
    match Value(head.taskMeta, "status")
    case JString(s) => TrimSpace(s)
    case _ => ""
  }

  /** shouldAutoClaimDone on the body an edit or an acceptance transition is about to store. */
  predicate AutoClaims(head: Head, newBody: string) {
    && head.kind == "Task"
    && (StatusText(head) == "" || StatusText(head) == "open")
    && var (resolved, total) := Acceptance.Tally(Acceptance.BoxesOf(Acceptance.Lines(newBody)));
       total > 0 && resolved == total
  }

  lemma AutoClaimsFromOpen(head: Head, newBody: string)
    requires AutoClaims(head, newBody)
    ensures Value(head.taskMeta, "status") != JString("claimed_done")
    ensures Acceptance.AllBoxesResolved(newBody)
  {
    TrimSpaceFixed("claimed_done");
    assert "claimed_done"[0] == 'c' && "open"[0] == 'o';
    Acceptance.BoxTally(newBody);
  }

  /** task.claim_done refuses other kinds, and tasks already done or cancelled. */
  predicate MayClaimDone(head: Head) {
    && head.kind == "Task"
    && Value(head.taskMeta, "status") != JString("claimed_done")
    && Value(head.taskMeta, "status") != JString("cancelled")
  }

  /** reconcileCompletedOpenTasks takes up open tasks with all of their boxes resolved. */
  predicate MaySweep(head: Head) {
    && head.kind == "Task"
    && Value(head.taskMeta, "status") == JString("open")
    && var (resolved, total) := Acceptance.Tally(Acceptance.BoxesOf(Acceptance.Lines(head.body)));
       total > 0 && resolved == total
  }

  predicate SendsStatus(req: MetaRequest) {
    req.taskMeta.Some? && "status" in req.taskMeta.value
  }

  predicate SendsNothing(req: MetaRequest) {
    req.tags.None? && TrimSpace(req.completeness) == "" && req.taskMeta.None? && req.artifactMeta.None?
  }

  /** handleUpdateMetaPatch, up to its transaction; None when it refuses. */
  function ReadForMetaPatch(a: Artifact, req: MetaRequest): Option<Pending> {
    if TrimSpace(req.commitMsg) == "" || SendsStatus(req) || SendsNothing(req)
      || req.expectedVersion != MaxNumber(a.log) then None
    else
      var tags := if req.tags.Some? then req.tags.value else a.head.tags;
      var completeness := if TrimSpace(req.completeness) != "" then req.completeness else a.head.completeness;
      Some(Pending(MaxNumber(a.log), StampOf(a.head), true, MetaPatch(req, tags, completeness)))
  }

  // ----- what a commit writes ---------------------------------------------------

  function TaskPayload(patch: map<string, Json>): RawPayload {
    Object(map["task_meta" := JObject(patch)])
  }

  function Sent(fields: map<string, Json>, key: string, value: Option<Json>): map<string, Json> {
    if value.Some? then fields[key := value.value] else fields
  }

  /** Only the fields that were sent are logged. */
  function MetaPayload(req: MetaRequest): RawPayload {
    var tags := if req.tags.Some? then Some(TagsJson(req.tags.value)) else None;
    var completeness := if TrimSpace(req.completeness) != "" then Some(JString(req.completeness)) else None;
    var taskMeta := if req.taskMeta.Some? then Some(JObject(req.taskMeta.value)) else None;
    var artifactMeta := if req.artifactMeta.Some? then Some(JObject(req.artifactMeta.value)) else None;
    var columns := Sent(Sent(map[], "tags", tags), "completeness", completeness);
    Object(Sent(Sent(columns, "task_meta", taskMeta), "artifact_meta", artifactMeta))
  }

  lemma MetaPayloadFields(req: MetaRequest)
    ensures var fields := MetaPayload(req).fields;
            && GroupFields("task_meta", fields) == (if req.taskMeta.Some? then req.taskMeta.value else map[])
            && ("tags" in fields <==> req.tags.Some?)
               && ("tags" in fields ==> fields["tags"] == TagsJson(req.tags.value))
            && ("completeness" in fields <==> TrimSpace(req.completeness) != "")
            && ("completeness" in fields ==> fields["completeness"] == JString(req.completeness))
  {
    assert "tags"[1] == 'a' && "completeness"[0] == 'c' && "task_meta"[2] == 's' && "artifact_meta"[0] == 'a';
    assert "tags"[2] == 'g' && "tags"[0] == 't' && "task_meta"[0] == 't';
  }

  /** A payload's fields apart from those that readers take for metadata: all that rows
      about pins, areas and checkboxes log. */
  function OtherFields(fields: map<string, Json>): map<string, Json> {
    map k | k in fields && k !in {"tags", "completeness", "task_meta", "artifact_meta"} :: fields[k]
  }

  function SweepPayload(): RawPayload {
    Object(map["source" := JString("reconcile_sweeper"),
      "task_meta" := JObject(map["status" := JString("claimed_done")])])
  }

  function NewRevision(p: Pending): Revision {
    var n, s := p.lastRev + 1, p.stamp;
    match p.intent
    case TaskPatch(patch, msg) =>
      Revision(n, s.title, None, Sha256(s.body), s.tags, s.completeness, msg, "meta_patch", TaskPayload(patch))
    case SetVisibility(from, to) =>
      Revision(n, s.title, None, Sha256(s.body), s.tags, s.completeness, "visibility: " + from + " -> " + to,
        "meta_patch", Object(map[
          "kind" := JString("visibility_change"),
          "visibility" := JObject(map["from" := JString(from), "to" := JString(to)])]))
    case Rewrite(_, body) =>
      Revision(n, s.title, Some(body), Sha256(body), s.tags, s.completeness, "retro-pass slug/link normalization",
        "body_patch", NoPayload)
    case Edit(e, _, _, WholeBody, msg) =>
      Revision(n, e.title, Some(e.body), Sha256(e.body), e.tags, e.completeness, msg, "body_patch", NoPayload)
    case Edit(e, _, _, Checkbox(name, detail), msg) =>
      Revision(n, e.title, Some(e.body), Sha256(e.body), e.tags, e.completeness, msg, name, Object(OtherFields(detail)))
    case Transition(body, auto, msg) =>
      Revision(n, s.title, Some(body), Sha256(body), s.tags, s.completeness, msg, "acceptance_transition",
               Object(map["auto_claimed_done" := JBool(auto)]))
    case ClaimDone(body, msg) =>
      Revision(n, s.title, Some(body), Sha256(body), s.tags, s.completeness, msg, "body_patch",
        Object(map["kind" := JString("claim_done")]))
    case MetaPatch(req, tags, completeness) =>
      Revision(n, s.title, None, Sha256(s.body), tags, completeness, req.commitMsg, "meta_patch", MetaPayload(req))
    case Annotate(detail, msg) =>
      Revision(n, s.title, None, Sha256(s.body), s.tags, s.completeness, msg, "meta_patch", Object(OtherFields(detail)))
    case Sweep =>
      Revision(n, s.title, Some(s.body), Sha256(s.body), s.tags, s.completeness,
        "auto: acceptance 100% -> claimed_done",
        "meta_patch", SweepPayload())
  }

  /** jsonb_strip_nulls on the flat task_meta object. */
  function StripNulls(m: map<string, Json>): map<string, Json> {
    map k | k in m && m[k] != JNull :: m[k]
  }

  function Claimed(taskMeta: map<string, Json>): map<string, Json> {
    taskMeta["status" := JString("claimed_done")]
  }

  /** The task_meta a commit leaves. An edit that claims done drops the task_meta it was
      sent, and one that does not stores it whole; a meta patch merges only for a Task. */
  function NewTaskMeta(h: Head, intent: Intent): map<string, Json> {
    match intent
    case TaskPatch(patch, _) => StripNulls(h.taskMeta + patch)
    case Edit(_, meta, auto, _, _) => if auto then Claimed(h.taskMeta) else if meta.Some? then meta.value
      else h.taskMeta
    case Transition(_, auto, _) => if auto then Claimed(h.taskMeta) else h.taskMeta
    case ClaimDone(_, _) => Claimed(h.taskMeta)
    case Sweep => Claimed(h.taskMeta)
    case MetaPatch(req, _, _) =>
      if req.taskMeta.Some? && h.kind == "Task" then StripNulls(h.taskMeta + req.taskMeta.value) else h.taskMeta
    case _ => h.taskMeta
  }

  function NewHead(h: Head, intent: Intent): Head {
    var head := h.(taskMeta := NewTaskMeta(h, intent));
    match intent
    case TaskPatch(_, _) => head
    case SetVisibility(_, to) => head.(visibility := to)
    case Rewrite(slug, body) => head.(slug := slug, body := body)
    case Edit(e, _, _, _, _) => head.(title := e.title, body := e.body, tags := e.tags, completeness := e.completeness)
    case Transition(body, _, _) => head.(body := body)
    case ClaimDone(body, _) => head.(body := body)
    case MetaPatch(_, tags, completeness) => head.(tags := tags, completeness := completeness)
    case Annotate(_, _) => head
    case Sweep => head
  }

  /** The write half: the insert is rejected when the revision number is taken. The
      sweeper's update passes over a task that is no longer open. */
  function Commit(a: Artifact, p: Pending): Option<Artifact> {
    if Taken(a.log, p.lastRev + 1) then None
    else if p.intent.Sweep? && Value(a.head.taskMeta, "status") != JString("open") then None
    else Some(Artifact(NewHead(a.head, p.intent), a.log + [NewRevision(p)]))
  }

  // ----- readers ----------------------------------------------------------------

  /** The stored body of the greatest-numbered row below rev whose body is not NULL. */
  function PriorBody(log: seq<Revision>, rev: int): Option<(int, string)> {
    if log == [] then None
    else
      var row, best := log[|log| - 1], PriorBody(log[..|log| - 1], rev);
      if row.number < rev && row.body.Some? && (best.None? || best.value.0 < row.number)
      then Some((row.number, row.body.value)) else best
  }

  function FindRow(log: seq<Revision>, rev: int): (r: Option<Revision>)
    ensures r.None? <==> !Taken(log, rev)
  {
    if log == [] then None
    else if log[|log| - 1].number == rev then Some(log[|log| - 1])
    else FindRow(log[..|log| - 1], rev)
  }

  /** loadRevHTTP's COALESCE: the row's own body, else the latest before it, else empty. */
  function LoadBody(log: seq<Revision>, rev: int): Option<string> {
    match FindRow(log, rev)
    case None => None
    case Some(Revision(_, _, Some(body), _, _, _, _, _, _)) => Some(body)
    case Some(_) =>
      match PriorBody(log, rev)
      case None => Some("")
      case Some((_, body)) => Some(body)
  }

  function SnapshotOf(r: Revision): Snapshot {
    Snapshot(r.number, r.tags, r.completeness, r.shape, r.payload)
  }

  function SnapshotsOf(log: seq<Revision>): (r: seq<Snapshot>)
    ensures |r| == |log| && forall i :: 0 <= i < |log| ==> r[i] == SnapshotOf(log[i])
  {
    seq(|log|, i requires 0 <= i < |log| => SnapshotOf(log[i]))
  }

  /** The task_meta value of a key as readers fold it from the payloads. */
  function FoldedTaskMeta(log: seq<Revision>, key: string): Json {
    Value(Fold(SnapshotsOf(log)), Dotted("task_meta", key))
  }

  // ----- the log by position ----------------------------------------------------

  /** The body after the rows of log, if numbers and positions agree. */
  function Rebuilt(log: seq<Revision>): string {
    if log == [] then ""
    else if log[|log| - 1].body.Some? then log[|log| - 1].body.value
    else Rebuilt(log[..|log| - 1])
  }

  ghost predicate Numbered(log: seq<Revision>) {
    forall i :: 0 <= i < |log| ==> log[i].number == i + 1
  }

  lemma {:induction false} NumberedMax(log: seq<Revision>)
    requires Numbered(log)
    ensures MaxNumber(log) == |log|
    ensures forall n :: Taken(log, n) <==> 1 <= n <= |log|
  {
    if log != [] {
      NumberedMax(log[..|log| - 1]);
    }
    forall n ensures Taken(log, n) <==> 1 <= n <= |log| {
      if 1 <= n <= |log| {
        assert log[n - 1].number == n;
      }
    }
  }

  lemma {:induction false} FindRowNumbered(log: seq<Revision>, rev: int)
    requires Numbered(log) && 1 <= rev <= |log|
    ensures FindRow(log, rev) == Some(log[rev - 1])
  {
    if rev < |log| {
      FindRowNumbered(log[..|log| - 1], rev);
    }
  }

  lemma {:induction false} PriorBodyNumbered(log: seq<Revision>, rev: int)
    requires Numbered(log) && 1 <= rev <= |log| + 1
    ensures PriorBody(log, rev) == PriorBody(log[..rev - 1], rev)
    ensures match PriorBody(log, rev)
            case None => Rebuilt(log[..rev - 1]) == ""
            case Some((n, body)) => n < rev && Rebuilt(log[..rev - 1]) == body
  {
    if rev <= |log| {
      var front := log[..|log| - 1];
      PriorBodyNumbered(front, rev);
      assert front[..rev - 1] == log[..rev - 1];
    } else if log != [] {
      var front := log[..|log| - 1];
      assert log[..rev - 1] == log;
      PriorBodyShrink(front, rev);
      PriorBodyNumbered(front, rev - 1);
      assert front[..rev - 2] == front;
    }
  }

  /** Rows all numbered below rev - 1 cannot tell rev - 1 from rev. */
  lemma {:induction false} PriorBodyShrink(log: seq<Revision>, rev: int)
    requires forall i :: 0 <= i < |log| ==> log[i].number < rev - 1
    ensures PriorBody(log, rev) == PriorBody(log, rev - 1)
    ensures PriorBody(log, rev).Some? ==> PriorBody(log, rev).value.0 < rev - 1
  {
    if log != [] {
      PriorBodyShrink(log[..|log| - 1], rev);
    }
  }

  /** loadRevHTTP rebuilds the body by position. */
  lemma LoadBodyRebuilds(log: seq<Revision>, rev: int)
    requires Numbered(log) && 1 <= rev <= |log|
    ensures LoadBody(log, rev) == Some(Rebuilt(log[..rev]))
  {
    FindRowNumbered(log, rev);
    PriorBodyNumbered(log, rev);
    assert log[..rev][..rev - 1] == log[..rev - 1];
  }
}
