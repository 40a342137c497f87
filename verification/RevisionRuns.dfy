/** Every interleaving of the revision writers, as a fold over events, and what
    each reachable log promises its readers. */
module RevisionRuns {
  import opened Wrappers
  import opened Hashing
  import opened RevisionMeta
  import opened RevisionLog
  import Acceptance

  /** The task_meta cells a row logs. */
  function TaskCells(r: Revision): map<string, Json> {
    if r.payload.Object? then GroupFields("task_meta", r.payload.fields) else map[]
  }

  // ----- interleaved writers -----------------------------------------------------

  /** The artifact's tables and the writers that have read but not committed. */
  datatype World = World(art: Artifact, open: map<nat, Pending>)

  datatype Event =
    | Resolve(pid: nat, req: TaskRequest, useCurrentHead: bool)
    | Fetch(pid: nat)
    | OpenVisibility(pid: nat, to: string, allowed: bool)
    | PlanRewrite(pid: nat, newSlug: string, newBody: string)
    | PrepareEdit(pid: nat, stamp: Stamp, taskMeta: Option<map<string, Json>>, shape: EditShape, commitMsg: string)
    | PrepareTransition(pid: nat, newBody: string, commitMsg: string)
    | PrepareClaimDone(pid: nat, newBody: string, commitMsg: string)
    | OpenMetaPatch(pid: nat, sent: MetaRequest)
    | PrepareNote(pid: nat, detail: map<string, Json>, commitMsg: string)
    | SelectForSweep(pid: nat)
    | TryCommit(pid: nat)
    | Abandon(pid: nat)

  function Start(a: Artifact, intent: Intent): Option<Pending> {
    Some(Pending(MaxNumber(a.log), StampOf(a.head), true, intent))
  }

  /** Events by which a writer reads. */
  predicate Opens(e: Event) {
    !e.Fetch? && !e.TryCommit? && !e.Abandon?
  }

  /** What the writer has in hand after its reads; None when it refuses or has nothing to do. */
  function Opened(a: Artifact, e: Event): Option<Pending>
    requires Opens(e)
  {
    match e
    case Resolve(_, req, useHead) => (match ResolveTask(a, req, useHead) case Ok(p) => Some(p) case Err(_) => None)
    case OpenVisibility(_, to, allowed) => ReadForVisibility(a, to, allowed)
    case PlanRewrite(_, slug, body) => Start(a, Intent.Rewrite(slug, body))
    case PrepareEdit(_, stamp, meta, shape, msg) =>
      Start(a, Edit(stamp, meta, AutoClaims(a.head, stamp.body), shape, msg))
    case PrepareTransition(_, body, msg) => Start(a, Transition(body, AutoClaims(a.head, body), msg))
    case PrepareClaimDone(_, body, msg) => if MayClaimDone(a.head) then Start(a, ClaimDone(body, msg)) else None
    case OpenMetaPatch(_, sent) => ReadForMetaPatch(a, sent)
    case PrepareNote(_, detail, msg) => Start(a, Annotate(detail, msg))
    case SelectForSweep(_) => if MaySweep(a.head) then Start(a, Sweep) else None
  }

  /** The pending write an event commits, if it commits one. */
  function Commits(w: World, e: Event): Option<Pending> {
    if e.TryCommit? && e.pid in w.open && w.open[e.pid].inTx && Commit(w.art, w.open[e.pid]).Some? then
      Some(w.open[e.pid])
    else None
  }

  function Next(w: World, e: Event): World {
    match e
    case Fetch(pid) =>
      if pid in w.open && !w.open[pid].inTx
      then World(w.art, w.open[pid := w.open[pid].(stamp := StampOf(w.art.head), inTx := true)]) else w
    case TryCommit(pid) =>
      if pid in w.open && w.open[pid].inTx then
        (match Commit(w.art, w.open[pid])
         case Some(art) => World(art, w.open - {pid})
         case None => World(w.art, w.open - {pid}))
      else w
    case Abandon(pid) => World(w.art, w.open - {pid})
    case _ =>
      (match Opened(w.art, e)
       case Some(p) => World(w.art, w.open[e.pid := p])
       case None => World(w.art, w.open - {e.pid}))
  }

  function Run(w: World, events: seq<Event>): World {
    if events == [] then w else Next(Run(w, events[..|events| - 1]), events[|events| - 1])
  }

  /** A new artifact: revision 1 stores the body but logs no metadata, and nobody is writing. */
  function Created(head: Head, commitMsg: string): World {
    World(Artifact(head,
                   [Revision(1, head.title, Some(head.body), Sha256(head.body), head.tags, head.completeness, commitMsg,
                     "body_patch", NoPayload)]),
          map[])
  }

  // ----- the invariant -----------------------------------------------------------

  /** Every row's hash is the hash of the body rebuilt at that row. */
  ghost predicate HashesRebuild(log: seq<Revision>) {
    forall n :: 1 <= n <= |log| ==> log[n - 1].bodyHash == Sha256(Rebuilt(log[..n]))
  }

  /** Of the rows that log a claim the sweeper's alone store a body, and were judged by the other scanner. */
  predicate Judged(row: Revision, body: string) {
    if row.body.None? then Acceptance.AllResolved(body) else Acceptance.AllBoxesResolved(body)
  }

  /** Every logged claimed_done was made on a body its writer found no open checkbox in. */
  ghost predicate GateHeld(log: seq<Revision>) {
    forall n :: 1 <= n <= |log| && ClaimsDone(TaskCells(log[n - 1])) ==> Judged(log[n - 1], Rebuilt(log[..n]))
  }

  ghost predicate BodyAgrees(a: Artifact) {
    && a.log != [] && a.log[0].body.Some?
    && Rebuilt(a.log) == a.head.body
    && HashesRebuild(a.log) && GateHeld(a.log)
  }

  ghost predicate LogOk(a: Artifact) {
    Numbered(a.log) && BodyAgrees(a)
  }

  /** The writer sets the status to claimed_done without logging it. */
  predicate ClaimsSilently(intent: Intent) {
    intent.ClaimDone? || (intent.Edit? && intent.autoClaim) || (intent.Transition? && intent.autoClaim)
  }

  /** What a writer's reads still say about a head nobody has changed since. */
  ghost predicate Fresh(head: Head, p: Pending) {
    && p.stamp == StampOf(head)
    && (ClaimsSilently(p.intent) ==> Value(head.taskMeta, "status") != JString("claimed_done"))
    && match p.intent
       case TaskPatch(patch, _) => ClaimsDone(patch) ==> Acceptance.AllResolved(head.body)
       case SetVisibility(from, to) => from == head.visibility && to != from
       case MetaPatch(sent, _, _) => !SendsStatus(sent)
       case Sweep => Acceptance.AllBoxesResolved(head.body)
       case _ => true
  }

  ghost predicate PendingOk(a: Artifact, p: Pending) {
    0 <= p.lastRev <= |a.log| && (p.lastRev == |a.log| ==> Fresh(a.head, p))
  }

  ghost predicate Inv(w: World) {
    LogOk(w.art) && forall pid :: pid in w.open ==> PendingOk(w.art, w.open[pid])
  }

  // ----- a commit keeps it -------------------------------------------------------

  /** The task_meta cells a writer logs. */
  function LoggedCells(intent: Intent): map<string, Json> {
    match intent
    case TaskPatch(patch, _) => patch
    case MetaPatch(sent, _, _) => if sent.taskMeta.Some? then sent.taskMeta.value else map[]
    case Sweep => map["status" := JString("claimed_done")]
    case _ => map[]
  }

  lemma NewRow(p: Pending)
    ensures TaskCells(NewRevision(p)) == LoggedCells(p.intent)
  {
    match p.intent
    case SetVisibility(_, _) =>
      assert "kind"[0] == 'k' && "visibility"[0] == 'v' && "task_meta"[0] == 't';
      assert "task_meta" !in NewRevision(p).payload.fields;
    case Transition(_, _, _) =>
      assert "task_meta" != "auto_claimed_done" by { assert "task_meta"[0] == 't' && "auto_claimed_done"[0] == 'a'; }
    case ClaimDone(_, _) =>
      assert "task_meta" != "kind" by { assert "task_meta"[0] == 't' && "kind"[0] == 'k'; }
    case MetaPatch(sent, _, _) => MetaPayloadFields(sent);
    case Sweep => assert "source"[0] == 's' && "task_meta"[0] == 't';
    case _ =>
  }

  /** The body a commit leaves on the head. */
  function CommittedBody(p: Pending): string {
    match p.intent
    case TaskPatch(_, _) => p.stamp.body
    case SetVisibility(_, _) => p.stamp.body
    case Rewrite(_, body) => body
    case Edit(e, _, _, _, _) => e.body
    case Transition(body, _, _) => body
    case ClaimDone(body, _) => body
    case MetaPatch(_, _, _) => p.stamp.body
    case Annotate(_, _) => p.stamp.body
    case Sweep => p.stamp.body
  }

  lemma CommitRebuilds(a: Artifact, p: Pending)
    requires Rebuilt(a.log) == a.head.body && Fresh(a.head, p)
    ensures Rebuilt(a.log + [NewRevision(p)]) == CommittedBody(p) == NewHead(a.head, p.intent).body
    ensures NewRevision(p).bodyHash == Sha256(CommittedBody(p))
  {
    assert (a.log + [NewRevision(p)])[..|a.log|] == a.log;
  }

  lemma CommitHashes(a: Artifact, p: Pending)
    requires BodyAgrees(a) && Fresh(a.head, p)
    ensures HashesRebuild(a.log + [NewRevision(p)])
  {
    CommitRebuilds(a, p);
    var log' := a.log + [NewRevision(p)];
    forall n | 1 <= n <= |log'| ensures log'[n - 1].bodyHash == Sha256(Rebuilt(log'[..n])) {
      if n <= |a.log| {
        assert log'[..n] == a.log[..n];
      } else {
        assert log'[..n] == log';
      }
    }
  }

  lemma CommitGate(a: Artifact, p: Pending)
    requires BodyAgrees(a) && Fresh(a.head, p)
    ensures GateHeld(a.log + [NewRevision(p)])
  {
    NewRow(p);
    CommitRebuilds(a, p);
    var log' := a.log + [NewRevision(p)];
    forall n | 1 <= n <= |log'| && ClaimsDone(TaskCells(log'[n - 1]))
      ensures Judged(log'[n - 1], Rebuilt(log'[..n])) {
      if n <= |a.log| {
        assert log'[..n] == a.log[..n];
      } else {
        assert log'[..n] == log';
      }
    }
  }

  lemma CommitBody(a: Artifact, p: Pending)
    requires Numbered(a.log) && BodyAgrees(a) && Fresh(a.head, p)
    ensures BodyAgrees(Artifact(NewHead(a.head, p.intent), a.log + [NewRevision(p)]))
    ensures Rebuilt(a.log + [NewRevision(p)]) == CommittedBody(p)
  {
    CommitRebuilds(a, p);
    CommitHashes(a, p);
    CommitGate(a, p);
  }

  lemma CommitKeeps(a: Artifact, p: Pending)
    requires LogOk(a) && PendingOk(a, p) && Commit(a, p).Some?
    ensures p.lastRev == |a.log| && Fresh(a.head, p) && LogOk(Commit(a, p).value)
  {
    NumberedMax(a.log);
    assert Taken(a.log, p.lastRev + 1) <==> 1 <= p.lastRev + 1 <= |a.log|;
    CommitBody(a, p);
  }

  lemma OpenedOk(a: Artifact, e: Event)
    requires LogOk(a) && Opens(e) && Opened(a, e).Some?
    ensures PendingOk(a, Opened(a, e).value)
  {
    NumberedMax(a.log);
    match e
    case PrepareEdit(_, stamp, _, _, _) =>
      if AutoClaims(a.head, stamp.body) {
        AutoClaimsFromOpen(a.head, stamp.body);
      }
    case PrepareTransition(_, body, _) =>
      if AutoClaims(a.head, body) {
        AutoClaimsFromOpen(a.head, body);
      }
    case SelectForSweep(_) => Acceptance.BoxTally(a.head.body);
    case _ =>
  }

  lemma StepKeeps(w: World, e: Event)
    requires Inv(w)
    ensures Inv(Next(w, e))
    ensures |w.art.log| <= |Next(w, e).art.log|
  {
    if Opens(e) {
      if Opened(w.art, e).Some? {
        OpenedOk(w.art, e);
      }
    } else if Commits(w, e).Some? {
      CommitKeeps(w.art, w.open[e.pid]);
    }
  }

  lemma CreatedOk(head: Head, commitMsg: string)
    ensures Inv(Created(head, commitMsg))
  {
    var log := Created(head, commitMsg).art.log;
    assert log[..1] == log && log[..0] == [];
    assert TaskCells(log[0]) == map[];
  }

  lemma {:induction false} RunKeeps(head: Head, commitMsg: string, events: seq<Event>)
    ensures Inv(Run(Created(head, commitMsg), events))
  {
    if events == [] {
      CreatedOk(head, commitMsg);
    } else {
      RunKeeps(head, commitMsg, events[..|events| - 1]);
      StepKeeps(Run(Created(head, commitMsg), events[..|events| - 1]), events[|events| - 1]);
    }
  }

  // ----- main results ------------------------------------------------------------

  /** However the writers interleave, the revision numbers are exactly 1..n. */
  lemma RevisionNumbersAreContiguous(head: Head, commitMsg: string, events: seq<Event>)
    ensures var log := Run(Created(head, commitMsg), events).art.log;
            log != [] && (forall i :: 0 <= i < |log| ==> log[i].number == i + 1) && MaxNumber(log) == |log|
  {
    RunKeeps(head, commitMsg, events);
    NumberedMax(Run(Created(head, commitMsg), events).art.log);
  }

  /** Readers rebuild the head's body at the last revision, and at every revision
      the stored hash is the hash of the rebuilt body. */
  lemma BodiesRebuild(head: Head, commitMsg: string, events: seq<Event>)
    ensures var a := Run(Created(head, commitMsg), events).art;
            && LoadBody(a.log, |a.log|) == Some(a.head.body)
            && forall rev :: 1 <= rev <= |a.log| ==>
                 LoadBody(a.log, rev).Some? && a.log[rev - 1].bodyHash == Sha256(LoadBody(a.log, rev).value)
  {
    RunKeeps(head, commitMsg, events);
    var a := Run(Created(head, commitMsg), events).art;
    assert a.log[..|a.log|] == a.log;
    forall rev | 1 <= rev <= |a.log| ensures LoadBody(a.log, rev) == Some(Rebuilt(a.log[..rev])) {
      LoadBodyRebuilds(a.log, rev);
    }
  }

  /** A commit that goes through replaces exactly the head its writer read: no
      update is lost, the audit trail's "from" is the visibility replaced, and the
      readers' body moves to what the writer meant to store. */
  lemma CommitsReplaceWhatTheyRead(head: Head, commitMsg: string, events: seq<Event>, pid: nat)
    ensures var w := Run(Created(head, commitMsg), events);
            var w' := Next(w, TryCommit(pid));
            w'.art != w.art ==>
              && pid in w.open
              && w'.art.log == w.art.log + [NewRevision(w.open[pid])]
              && w.open[pid].stamp == StampOf(w.art.head)
              && (w.open[pid].intent.SetVisibility? ==> w.open[pid].intent.from == w.art.head.visibility)
              && LoadBody(w'.art.log, |w'.art.log|) == Some(CommittedBody(w.open[pid]))
  {
    RunKeeps(head, commitMsg, events);
    var w := Run(Created(head, commitMsg), events);
    var w' := Next(w, TryCommit(pid));
    if w'.art != w.art {
      StepKeeps(w, TryCommit(pid));
      CommitKeeps(w.art, w.open[pid]);
      CommitBody(w.art, w.open[pid]);
      LoadBodyRebuilds(w'.art.log, |w'.art.log|);
      assert w'.art.log[..|w'.art.log|] == w'.art.log;
    }
  }

  lemma {:induction false} LogGrows(w: World, events: seq<Event>)
    requires Inv(w)
    ensures Inv(Run(w, events)) && |w.art.log| <= |Run(w, events).art.log|
  {
    if events != [] {
      LogGrows(w, events[..|events| - 1]);
      StepKeeps(Run(w, events[..|events| - 1]), events[|events| - 1]);
    }
  }

  /** Optimistic concurrency: a patch resolved against expected_version is accepted
      later exactly when the log still ends at that version. */
  lemma PatchLandsOnItsVersion(head: Head, commitMsg: string, before: seq<Event>, after: seq<Event>, req: TaskRequest)
    ensures var w := Run(Created(head, commitMsg), before);
            var resolved := ResolveTask(w.art, req, false);
            var later := Run(w, after).art;
            resolved.Ok? ==> (Commit(later, resolved.value).Some? <==> |later.log| == req.expectedVersion)
  {
    RunKeeps(head, commitMsg, before);
    var w := Run(Created(head, commitMsg), before);
    LogGrows(w, after);
    NumberedMax(w.art.log);
    NumberedMax(Run(w, after).art.log);
  }

  /** The claimed_done gate has no check-then-act race: when a commit logs claimed_done
      the head body at that moment has no checkbox that its writer reads as open. For the
      task lane that is none at all, for the sweeper none but a hidden one. */
  lemma ClaimedDoneIsGated(head: Head, commitMsg: string, events: seq<Event>, pid: nat)
    ensures var w := Run(Created(head, commitMsg), events);
            var w' := Next(w, TryCommit(pid));
            w'.art != w.art && ClaimsDone(TaskCells(w'.art.log[|w'.art.log| - 1])) ==>
              && pid in w.open && (w.open[pid].intent.TaskPatch? || w.open[pid].intent.Sweep?)
              && w'.art.head.body == w.art.head.body
              && (w.open[pid].intent.TaskPatch? ==> Acceptance.AllResolved(w.art.head.body))
              && (w.open[pid].intent.Sweep? ==> Acceptance.AllBoxesResolved(w.art.head.body))
              && (Acceptance.AllResolved(w.art.head.body) <==> !Acceptance.HasHiddenBox(w.art.head.body))
  {
    RunKeeps(head, commitMsg, events);
    CommitsReplaceWhatTheyRead(head, commitMsg, events, pid);
    var w := Run(Created(head, commitMsg), events);
    if pid in w.open {
      NewRow(w.open[pid]);
      if w.open[pid].inTx && Commit(w.art, w.open[pid]).Some? {
        CommitKeeps(w.art, w.open[pid]);
        Acceptance.ResolvedUnlessHidden(w.art.head.body);
      }
    }
  }

  /** And the log keeps the evidence: a revision that claims done rebuilds to a body with no
      open checkbox exactly when that body hides none, as those of the task lane never do. */
  lemma EveryLoggedClaimRebuildsResolved(head: Head, commitMsg: string, events: seq<Event>, rev: int)
    ensures var log := Run(Created(head, commitMsg), events).art.log;
            1 <= rev <= |log| && ClaimsDone(TaskCells(log[rev - 1])) ==>
              && LoadBody(log, rev).Some?
              && (log[rev - 1].body.None? ==> Acceptance.AllResolved(LoadBody(log, rev).value))
              && (Acceptance.AllResolved(LoadBody(log, rev).value) <==>
                 !Acceptance.HasHiddenBox(LoadBody(log, rev).value))
  {
    RunKeeps(head, commitMsg, events);
    var log := Run(Created(head, commitMsg), events).art.log;
    if 1 <= rev <= |log| {
      LoadBodyRebuilds(log, rev);
      Acceptance.ResolvedUnlessHidden(Rebuilt(log[..rev]));
    }
  }

  /** The sweeper does log a claim over a hidden open checkbox: from any reachable state
      with one, that it takes up, and then at once commits. */
  lemma SweeperPassesHiddenBox(head: Head, commitMsg: string, events: seq<Event>, pid: nat)
    requires var h := Run(Created(head, commitMsg), events).art.head;
             MaySweep(h) && Acceptance.HasHiddenBox(h.body)
    ensures var log := Run(Created(head, commitMsg), events + [SelectForSweep(pid), TryCommit(pid)]).art.log;
            && log != [] && ClaimsDone(TaskCells(log[|log| - 1]))
            && LoadBody(log, |log|).Some? && !Acceptance.AllResolved(LoadBody(log, |log|).value)
  {
    var w := Run(Created(head, commitMsg), events);
    RunTwo(Created(head, commitMsg), events, SelectForSweep(pid), TryCommit(pid));
    RunKeeps(head, commitMsg, events);
    SweepLands(w, pid);
    var p := Pending(|w.art.log|, StampOf(w.art.head), true, Sweep);
    NewRow(p);
    CommitBody(w.art, p);
    var log := w.art.log + [NewRevision(p)];
    LoadBodyRebuilds(log, |log|);
    assert log[..|log|] == log;
    Acceptance.ResolvedUnlessHidden(w.art.head.body);
  }

  /** A sweep that nobody overtakes. */
  lemma SweepLands(w: World, pid: nat)
    requires Inv(w) && MaySweep(w.art.head)
    ensures var p := Pending(|w.art.log|, StampOf(w.art.head), true, Sweep);
            && Numbered(w.art.log + [NewRevision(p)]) && Fresh(w.art.head, p)
            && Next(Next(w, SelectForSweep(pid)), TryCommit(pid)).art ==
               Artifact(NewHead(w.art.head, Sweep), w.art.log + [NewRevision(p)])
  {
    NumberedMax(w.art.log);
    var p := Pending(|w.art.log|, StampOf(w.art.head), true, Sweep);
    OpenedOk(w.art, SelectForSweep(pid));
    var w1 := Next(w, SelectForSweep(pid));
    assert w1.art == w.art && w1.open[pid] == p && !Taken(w.art.log, |w.art.log| + 1);
  }

  lemma RunTwo(w: World, events: seq<Event>, e1: Event, e2: Event)
    ensures events + [e1, e2] == events + [e1] + [e2]
    ensures Run(w, events + [e1]) == Next(Run(w, events), e1)
    ensures Run(w, events + [e1, e2]) == Next(Next(Run(w, events), e1), e2)
  {
    assert events + [e1, e2] == events + [e1] + [e2];
    assert (events + [e1])[..|events|] == events;
    assert (events + [e1] + [e2])[..|events| + 1] == events + [e1];
  }

  /** As on an open task created with such a body. */
  lemma SweeperPassesThisBody(head: Head, commitMsg: string, pid: nat)
    requires head.kind == "Task" && Value(head.taskMeta, "status") == JString("open")
    requires head.body == Acceptance.CHECKED + "\n" + Acceptance.HIDDEN
    ensures var log := Run(Created(head, commitMsg), [SelectForSweep(pid), TryCommit(pid)]).art.log;
            && log != [] && ClaimsDone(TaskCells(log[|log| - 1]))
            && LoadBody(log, |log|).Some? && !Acceptance.AllResolved(LoadBody(log, |log|).value)
  {
    Acceptance.HiddenBoxExists();
    assert Run(Created(head, commitMsg), []) == Created(head, commitMsg);
    var sweep := [SelectForSweep(pid), TryCommit(pid)];
    assert [] + sweep == sweep;
    SweeperPassesHiddenBox(head, commitMsg, [], pid);
  }

  /** Revision 1 is needed: on an artifact without revisions the first metadata
      patch rebuilds to the head's body only if that body is empty. */
  lemma FirstRevisionIsNeeded(head: Head, patch: map<string, Json>)
    ensures var a := Commit(Artifact(head, []), Pending(0, StampOf(head), true, TaskPatch(patch, "")));
            a.Some? && (LoadBody(a.value.log, 1) == Some(a.value.head.body) <==> head.body == "")
  {
    var p := Pending(0, StampOf(head), true, TaskPatch(patch, ""));
    LoadBodyRebuilds([NewRevision(p)], 1);
    assert [NewRevision(p)][..1] == [NewRevision(p)] && [NewRevision(p)][..0] == [];
    assert [] + [NewRevision(p)] == [NewRevision(p)];
  }
}
