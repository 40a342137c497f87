/** The artifact handlers as they run: one artifact's head row and revision rows,
    updated in place, and the history view over them. */
module ArtifactTables {
  import opened Wrappers
  import opened Hashing
  import opened Strings
  import opened RevisionMeta
  import opened RevisionLog
  import opened RevisionRuns
  import Acceptance

  /** The patch-building half of applyTaskMetaPatch, complaint by complaint. */
  method FillPatch(req: TaskRequest) returns (r: Result<map<string, Json>, TaskError>)
    ensures r == if RequestError(req).Some? then Err(RequestError(req).value) else Ok(PatchOf(req))
  {
    if TrimSpace(req.commitMsg) == "" {
      return Err(MissingCommitMsg);
    }
    if TrimSpace(req.authorId) == "" {
      return Err(AuthorEmpty);
    }
    var patch: map<string, Json> := map[];
    if BadStatus(req.status) {
      return Err(StatusInvalid);
    }
    patch := SetField(patch, "status", req.status);
    patch := SetField(patch, "assignee", req.assignee);
    if BadPriority(req.priority) {
      return Err(PriorityInvalid);
    }
    patch := SetField(patch, "priority", req.priority);
    if BadDueAt(req.dueAt, req.dueAtIsRfc3339) {
      return Err(DueAtInvalid);
    }
    patch := SetField(patch, "due_at", req.dueAt);
    patch := SetField(patch, "parent_slug", req.parentSlug);
    assert patch == PatchOf(req);
    if |patch| == 0 {
      EmptyPatch(req);
      return Err(PatchEmpty);
    }
    r := Ok(patch);
  }

  lemma EmptyPatch(req: TaskRequest)
    requires PatchOf(req) == map[]
    ensures req.status.None? && req.assignee.None? && req.priority.None? && req.dueAt.None? && req.parentSlug.None?
  {
    PatchCells(req, "status");
    PatchCells(req, "assignee");
    PatchCells(req, "priority");
    PatchCells(req, "due_at");
    PatchCells(req, "parent_slug");
    assert Field(req, "status") == req.status && Field(req, "assignee") == req.assignee
      && Field(req, "priority") == req.priority;
    assert Field(req, "due_at") == req.dueAt && Field(req, "parent_slug") == req.parentSlug;
  }

  /** fieldsChanged: the patched keys, in any order. */
  method KeysInAnyOrder(patch: map<string, Json>) returns (keys: array<string>)
    ensures fresh(keys)
    ensures forall k :: k in keys[..] <==> k in patch
    ensures forall i, j :: 0 <= i < j < keys.Length ==> keys[i] != keys[j]
  {
    var out: seq<string> := [];
    var todo := patch.Keys;
    while todo != {}
      invariant todo <= patch.Keys
      invariant forall k :: k in out <==> k in patch && k !in todo
      invariant forall i, j :: 0 <= i < j < |out| ==> out[i] != out[j]
      decreases todo
    {
      var k :| k in todo;
      assert forall i :: 0 <= i < |out| ==> out[i] in out;
      out := out + [k];
      todo := todo - {k};
    }
    keys := new string[|out|](i requires 0 <= i < |out| => out[i]);
    assert keys[..] == out;
  }

  ghost predicate InOrder(s: seq<string>, n: int) {
    forall a, b :: 0 <= a < b < n && b < |s| ==> Leq(s[a], s[b])
  }

  /** The first i + 1 strings are in order, but for the one at j, which may belong further left. */
  ghost predicate ButOne(s: seq<string>, i: int, j: int) {
    0 <= j <= i < |s| && forall a, b :: 0 <= a < b <= i && b != j ==> Leq(s[a], s[b])
  }

  function Swapped(s: seq<string>, j: int): seq<string>
    requires 0 < j < |s|
  {
    s[j := s[j - 1]][j - 1 := s[j]]
  }

  lemma SwapKeeps(s: seq<string>, j: int)
    requires 0 < j < |s|
    ensures multiset(Swapped(s, j)) == multiset(s)
  {
    assert s == s[..j - 1] + [s[j - 1], s[j]] + s[j + 1..];
    assert Swapped(s, j) == s[..j - 1] + [s[j], s[j - 1]] + s[j + 1..];
  }

  lemma SwapSinks(s: seq<string>, i: int, j: int)
    requires ButOne(s, i, j) && j > 0 && Less(s[j], s[j - 1])
    ensures ButOne(Swapped(s, j), i, j - 1)
  {
    var t := Swapped(s, j);
    forall a, b | 0 <= a < b <= i && b != j - 1 ensures Leq(t[a], t[b]) {
      if b > j {
        assert Leq(s[if a == j then j - 1 else if a == j - 1 then j else a], s[b]);
      } else if b == j && a < j - 1 {
        assert Leq(s[a], s[j - 1]);
      }
    }
  }

  /** The insertion sort that makes fields_changed stable. */
  method SortFields(fields: array<string>)
    modifies fields
    ensures multiset(fields[..]) == old(multiset(fields[..]))
    ensures forall i, j :: 0 <= i < j < fields.Length ==> Leq(fields[i], fields[j])
  {
    var i := 1;
    while i < fields.Length
      invariant 1 <= i
      invariant multiset(fields[..]) == old(multiset(fields[..]))
      invariant InOrder(fields[..], i)
    {
      var j := i;
      while j > 0 && Less(fields[j], fields[j - 1])
        invariant multiset(fields[..]) == old(multiset(fields[..]))
        invariant ButOne(fields[..], i, j)
      {
        ghost var s := fields[..];
        SwapKeeps(s, j);
        SwapSinks(s, i, j);
        fields[j], fields[j - 1] := fields[j - 1], fields[j];
        assert fields[..] == Swapped(s, j);
        j := j - 1;
      }
      LeqBelow(fields[..], i, j);
      i := i + 1;
    }
    assert forall i, j :: 0 <= i < j < fields.Length ==> Leq(fields[..][i], fields[..][j]);
  }

  lemma LeqBelow(s: seq<string>, i: int, j: int)
    requires ButOne(s, i, j) && (j > 0 ==> !Less(s[j], s[j - 1]))
    ensures InOrder(s, i + 1)
  {
    if j > 0 {
      LessTrichotomy(s[j], s[j - 1]);
      forall a | 0 <= a < j ensures Leq(s[a], s[j]) {
        if a < j - 1 && s[a] != s[j - 1] && s[j - 1] != s[j] {
          assert Leq(s[a], s[j - 1]);
          LessTransitive(s[a], s[j - 1], s[j]);
        }
      }
    }
  }

  lemma {:induction false} NextNumberIsFree(log: seq<Revision>, n: int)
    requires n > MaxNumber(log)
    ensures !Taken(log, n)
  {
    if log != [] {
      NextNumberIsFree(log[..|log| - 1], n);
      assert forall i :: 0 <= i < |log| - 1 ==> log[..|log| - 1][i] == log[i];
    }
  }

  class ArtifactRows {
    var head: Head
    var log: seq<Revision>

    ghost function State(): Artifact
      reads this
    {
      Artifact(head, log)
    }

    constructor (created: Head, commitMsg: string)
      ensures State() == Created(created, commitMsg).art
    {
      head := created;
      log := [Revision(1, created.title, Some(created.body), Sha256(created.body), created.tags, created.completeness,
                       commitMsg, "body_patch", NoPayload)];
    }

    /** The reads of applyTaskMetaPatch, up to the start of its transaction. */
    method ResolveTaskPatch(req: TaskRequest, useCurrentHead: bool) returns (r: Result<Pending, TaskError>)
      ensures r == ResolveTask(State(), req, useCurrentHead)
    {
      var filled := FillPatch(req);
      if filled.Err? {
        return Err(filled.error);
      }
      var lastRev := MaxNumber(log);
      if head.kind != "Task" {
        return Err(WrongType);
      }
      if ClaimsDone(filled.value) {
        var resolved, total := Acceptance.CountTaskAcceptanceResolution(head.body);
        if resolved < total {
          return Err(ClaimedDoneIncomplete);
        }
      }
      var expectedVersion := if useCurrentHead then lastRev else req.expectedVersion;
      if expectedVersion != lastRev {
        return Err(VersionConflict);
      }
      r := Ok(Pending(lastRev, StampOf(head), false, TaskPatch(filled.value, req.commitMsg)));
    }

    /** The insert and the head update of any of the writers, as one transaction. */
    method CommitPending(p: Pending) returns (ok: bool)
      modifies this
      ensures ok == Commit(old(State()), p).Some?
      ensures State() == if ok then Commit(old(State()), p).value else old(State())
    {
      ok := !Taken(log, p.lastRev + 1);
      if p.intent.Sweep? && Value(head.taskMeta, "status") != JString("open") {
        ok := false;
      }
      if ok {
        log := log + [NewRevision(p)];
        head := NewHead(head, p.intent);
      }
    }

    /** A whole uninterrupted applyTaskMetaPatch. Without a competing writer its commit
        cannot fail, and the event lists the patched keys in order. */
    method ApplyTaskMetaPatch(req: TaskRequest, useCurrentHead: bool)
      returns (r: Result<int, TaskError>, fieldsChanged: seq<string>)
      modifies this
      ensures match ResolveTask(old(State()), req, useCurrentHead)
              case Err(e) => r == Err(e) && State() == old(State())
              case Ok(p) =>
                && r == Ok(MaxNumber(old(log)) + 1)
                && Commit(old(State()), p) == Some(State())
                && (forall i, j :: 0 <= i < j < |fieldsChanged| ==> Leq(fieldsChanged[i], fieldsChanged[j]))
                && (forall k :: k in fieldsChanged <==> k in PatchOf(req))
    {
      fieldsChanged := [];
      var resolved := ResolveTaskPatch(req, useCurrentHead);
      if resolved.Err? {
        return Err(resolved.error), [];
      }
      var p := resolved.value.(stamp := StampOf(head), inTx := true);
      NextNumberIsFree(log, p.lastRev + 1);
      var ok := CommitPending(p);
      if !ok {
        return Err(RevisionInsertFailed), [];
      }
      var fields := KeysInAnyOrder(p.intent.patch);
      ghost var before := fields[..];
      SortFields(fields);
      fieldsChanged := fields[..];
      forall k ensures k in fieldsChanged <==> k in p.intent.patch {
        assert k in multiset(fieldsChanged) <==> k in fieldsChanged;
        assert k in multiset(before) <==> k in before;
      }
      r := Ok(p.lastRev + 1);
    }

    /** handleArtifactPatch: Some(number) of the audit revision, or None when nothing is written. */
    method PatchVisibility(to: string, allowed: bool) returns (revision: Option<int>)
      modifies this
      ensures revision.Some? <==> allowed && old(head.visibility) != to
      ensures revision.None? ==> State() == old(State())
      ensures revision.Some? ==>
                && ReadForVisibility(old(State()), to, allowed).Some?
                && Commit(old(State()), ReadForVisibility(old(State()), to, allowed).value) == Some(State())
                && revision.value == MaxNumber(old(log)) + 1 && head.visibility == to
    {
      if !allowed || head.visibility == to {
        return None;
      }
      var p := Pending(MaxNumber(log), StampOf(head), true, SetVisibility(head.visibility, to));
      NextNumberIsFree(log, p.lastRev + 1);
      var ok := CommitPending(p);
      revision := Some(p.lastRev + 1);
    }

    /** retro-pass applyPlanItem, given the plan row it loaded earlier and the slug it allocated. */
    method ApplyPlanItem(planned: Stamp, plannedRevision: int, finalSlug: string, newBody: string) returns (ok: bool)
      requires 0 <= plannedRevision
      modifies this
      ensures var p := Pending(plannedRevision, planned, true, Intent.Rewrite(finalSlug, newBody));
              ok == Commit(old(State()), p).Some? && State() == if ok then Commit(old(State()), p).value
                else old(State())
    {
      var newRev := plannedRevision + 1;
      if newRev < 1 {
        newRev := 1;
      }
      ok := CommitPending(Pending(newRev - 1, planned, true, Intent.Rewrite(finalSlug, newBody)));
    }
  }

  // ----- the history view ---------------------------------------------------------

  datatype HistoryRow = HistoryRow(number: int, bodyHash: Digest, revisionType: RevisionType)

  const NO_SNAPSHOT := Snapshot(0, [], "", "", NoPayload)

  function PreviousSnapshot(rows: seq<Revision>, k: int): Snapshot
    requires 0 <= k < |rows|
  {
    if k == 0 then NO_SNAPSHOT else SnapshotOf(rows[k - 1])
  }

  function PreviousHash(rows: seq<Revision>, k: int): Digest
    requires 0 <= k < |rows|
  {
    if k == 0 then Sha256("") else rows[k - 1].bodyHash
  }

  predicate BodyChanged(rows: seq<Revision>, k: int)
    requires 0 <= k < |rows|
  {
    PreviousSnapshot(rows, k).number == 0 || rows[k].bodyHash != PreviousHash(rows, k)
  }

  /** A row judged against the row before it. */
  function Judge(previous: Snapshot, previousHash: Digest, row: Revision): HistoryRow {
    HistoryRow(row.number, row.bodyHash,
               ClassifyRevisionType(row.shape, row.commitMsg,
                                    previous.number == 0 || row.bodyHash != previousHash,
                                    MetaChangedBetween(previous, SnapshotOf(row))))
  }

  function HistoryOf(rows: seq<Revision>, k: int): HistoryRow
    requires 0 <= k < |rows|
  {
    Judge(PreviousSnapshot(rows, k), PreviousHash(rows, k), rows[k])
  }

  method Reverse(out: array<HistoryRow>)
    modifies out
    ensures forall k :: 0 <= k < out.Length ==> out[k] == old(out[out.Length - 1 - k])
  {
    var i, j := 0, out.Length - 1;
    while i < j
      invariant 0 <= i <= out.Length && j == out.Length - 1 - i && i <= j + 1
      invariant forall k :: 0 <= k < i || j < k < out.Length ==> out[k] == old(out[out.Length - 1 - k])
      invariant forall k :: i <= k <= j ==> out[k] == old(out[k])
    {
      out[i], out[j] := out[j], out[i];
      i, j := i + 1, j - 1;
    }
  }

  /** handleArtifactRevisions: one pass in revision order, then an in-place reversal. */
  method RevisionHistory(rows: seq<Revision>) returns (out: array<HistoryRow>)
    ensures out.Length == |rows|
    ensures forall k :: 0 <= k < |rows| ==> out[|rows| - 1 - k] == HistoryOf(rows, k)
  {
    out := new HistoryRow[|rows|](_ => HistoryRow(0, Sha256(""), TextEdit));
    var prevSnapshot, prevBodyHash := NO_SNAPSHOT, Sha256("");
    for k := 0 to |rows|
      invariant forall i :: 0 <= i < k ==> out[i] == HistoryOf(rows, i)
      invariant k < |rows| ==> prevSnapshot == PreviousSnapshot(rows, k) && prevBodyHash == PreviousHash(rows, k)
    {
      out[k] := Judge(prevSnapshot, prevBodyHash, rows[k]);
      prevSnapshot, prevBodyHash := SnapshotOf(rows[k]), rows[k].bodyHash;
    }
    ghost var forward := out[..];
    Reverse(out);
    forall k | 0 <= k < |rows| ensures out[|rows| - 1 - k] == HistoryOf(rows, k) {
      assert out[|rows| - 1 - k] == forward[k];
    }
  }

  /** On any reachable log the hash comparison reports a body change exactly when
      the rebuilt bodies differ. */
  lemma HistoryReportsBodyChanges(head: Head, commitMsg: string, events: seq<Event>, k: int)
    ensures var log := Run(Created(head, commitMsg), events).art.log;
            1 <= k < |log| ==> (BodyChanged(log, k) <==> LoadBody(log, k) != LoadBody(log, k + 1))
  {
    BodiesRebuild(head, commitMsg, events);
    RevisionNumbersAreContiguous(head, commitMsg, events);
  }

  /** A metadata or visibility revision shows as a metadata change (or as system
      automation, by its message), never as a text edit. */
  lemma NullBodyRowsShowAsMetadata(head: Head, commitMsg: string, events: seq<Event>, k: int)
    ensures var log := Run(Created(head, commitMsg), events).art.log;
            1 <= k < |log| && log[k].body.None? && log[k].shape == "meta_patch" ==>
              HistoryOf(log, k).revisionType == if HasSystemCommitPrefix(log[k].commitMsg) then SystemAuto
                else MetaChange
  {
    var log := Run(Created(head, commitMsg), events).art.log;
    if 1 <= k < |log| && log[k].body.None? && log[k].shape == "meta_patch" {
      HistoryReportsBodyChanges(head, commitMsg, events, k);
      RevisionNumbersAreContiguous(head, commitMsg, events);
      LoadBodyRebuilds(log, k);
      LoadBodyRebuilds(log, k + 1);
      assert log[..k + 1][..k] == log[..k];
      TrimSpaceFixed("meta_patch");
    }
  }

  lemma SweepMessage()
    ensures !HasSystemCommitPrefix("auto: acceptance 100% -> claimed_done")
  {
    var message := "auto: acceptance 100% -> claimed_done";
    assert message[0] == 'a' && message[|message| - 1] == 'e';
    TrimSpaceFixed(message);
    assert "Auto:"[0] == 'A' && "Repair:"[0] == 'R';
  }

  /** The sweeper's row shows as a plain metadata change: it stores the body it found, and
      its message, which begins in lower case, does not pass for an automation's. */
  lemma SweepShowsAsMetadata(head: Head, commitMsg: string, events: seq<Event>, pid: nat)
    requires MaySweep(Run(Created(head, commitMsg), events).art.head)
    ensures var log := Run(Created(head, commitMsg), events + [SelectForSweep(pid), TryCommit(pid)]).art.log;
            log != [] && HistoryOf(log, |log| - 1).revisionType == MetaChange
  {
    RunTwo(Created(head, commitMsg), events, SelectForSweep(pid), TryCommit(pid));
    RunKeeps(head, commitMsg, events);
    SweepJudged(Run(Created(head, commitMsg), events), pid);
  }

  lemma SweepJudged(w: World, pid: nat)
    requires Inv(w) && MaySweep(w.art.head)
    ensures var log := Next(Next(w, SelectForSweep(pid)), TryCommit(pid)).art.log;
            log != [] && HistoryOf(log, |log| - 1).revisionType == MetaChange
  {
    SweepLands(w, pid);
    var p := Pending(|w.art.log|, StampOf(w.art.head), true, Sweep);
    LastHash(w.art);
    var last := w.art.log[|w.art.log| - 1];
    SweptRow(SnapshotOf(last), last.bodyHash, NewRevision(p));
  }

  lemma LastHash(a: Artifact)
    requires LogOk(a)
    ensures a.log != [] && a.log[|a.log| - 1].number > 0 && a.log[|a.log| - 1].bodyHash == Sha256(a.head.body)
  {
    assert a.log[..|a.log|] == a.log;
  }

  lemma SweptRow(previous: Snapshot, previousHash: Digest, row: Revision)
    requires previous.number > 0 && row.bodyHash == previousHash && row.shape == "meta_patch"
    requires row.commitMsg == "auto: acceptance 100% -> claimed_done"
    ensures Judge(previous, previousHash, row).revisionType == MetaChange
  {
    SweepMessage();
    var shape := "meta_patch";
    TrimSpaceFixed(shape);
    assert shape[0] == 'm';
    assert "acceptance_transition"[0] == 'a';
    assert "scope_defer"[0] == 's';
  }
}
