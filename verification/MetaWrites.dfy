/** What the metadata reads at the revision of each commit, key by key. */
module MetaWrites {
  import opened Wrappers
  import opened RevisionMeta
  import opened RevisionLog
  import opened RevisionRuns
  import opened MetaFolds
  import opened MetaBadges

  /** The metadata before and after the commit of a run's next event. */
  function MetaBefore(w: World): MetaState {
    MetaAt(SnapshotsOf(w.art.log), |w.art.log|)
  }

  function MetaAfter(w: World, e: Event): MetaState {
    MetaBefore(Next(w, e))
  }

  lemma CommitAbsorbs(w: World, e: Event)
    requires Inv(w) && Commits(w, e).Some?
    ensures MetaAfter(w, e) == Absorb(MetaBefore(w), SnapshotOf(NewRevision(Commits(w, e).value)))
  {
    var row := NewRevision(Commits(w, e).value);
    StepKeeps(w, e);
    CommittedArt(w, e);
    var log, log' := w.art.log, Next(w, e).art.log;
    MetaAtRow(log, |log|);
    MetaAtRow(log', |log'|);
    SnapshotsSnoc(log, row);
    FoldSnoc(SnapshotsOf(log), SnapshotOf(row));
    assert SnapshotsOf(log)[..|log|] == SnapshotsOf(log) && SnapshotsOf(log')[..|log'|] == SnapshotsOf(log');
  }

  /** The artifact_meta cells a writer sends. */
  function SentCells(w: Intent): map<string, Json> {
    if w.MetaPatch? && w.sent.artifactMeta.Some? then w.sent.artifactMeta.value else map[]
  }

  lemma ArtifactCellsLogged(p: Pending)
    ensures match NewRevision(p).payload
            case Object(fields) => GroupFields("artifact_meta", fields) == SentCells(p.intent)
            case _ => SentCells(p.intent) == map[]
  {
    match p.intent
    case SetVisibility(_, _) =>
      assert "kind"[0] == 'k' && "visibility"[0] == 'v' && "artifact_meta"[0] == 'a';
      assert "artifact_meta" !in NewRevision(p).payload.fields;
    case Transition(_, _, _) =>
      assert "artifact_meta" !=
        "auto_claimed_done" by { assert "artifact_meta"[1] == 'r' && "auto_claimed_done"[1] == 'u'; }
    case ClaimDone(_, _) =>
      assert "artifact_meta" != "kind" by { assert "artifact_meta"[0] == 'a' && "kind"[0] == 'k'; }
    case TaskPatch(_, _) => assert "artifact_meta"[0] == 'a' && "task_meta"[0] == 't';
    case Sweep => assert "artifact_meta"[0] == 'a' && "task_meta"[0] == 't' && "source"[0] == 's';
    case MetaPatch(sent, _, _) => MetaPayloadFields(sent);
    case _ =>
  }

  lemma AbsorbArtifactCell(state: MetaState, row: Revision, cells: map<string, Json>, field: string)
    requires match row.payload
             case Object(fields) => GroupFields("artifact_meta", fields) == cells
             case _ => cells == map[]
    ensures Value(Absorb(state, SnapshotOf(row)), "artifact_meta." + field) ==
            if field in cells then cells[field] else Value(state, "artifact_meta." + field)
  {
    ArtifactKeyApart(field);
    assert Dotted("artifact_meta", field) == "artifact_meta." + field;
    if row.payload.Object? {
      FlattenArtifactCell(row.payload.fields, field);
    }
    AbsorbColumns(state, SnapshotOf(row));
  }

  /** At the revision of a meta patch that sends artifact_meta the metadata has exactly the
      sent values under their dotted keys; otherwise those keys read as before. */
  lemma ArtifactMetaReads(head: Head, commitMsg: string, events: seq<Event>, e: Event, field: string)
    ensures var w := Run(Created(head, commitMsg), events);
            Commits(w, e).Some? ==>
              var sent := SentCells(Commits(w, e).value.intent);
              Value(MetaAfter(w, e), "artifact_meta." + field) ==
                if field in sent then sent[field] else Value(MetaBefore(w), "artifact_meta." + field)
  {
    var w := Run(Created(head, commitMsg), events);
    RunKeeps(head, commitMsg, events);
    if Commits(w, e).Some? {
      var p := Commits(w, e).value;
      CommitAbsorbs(w, e);
      ArtifactCellsLogged(p);
      AbsorbArtifactCell(MetaBefore(w), NewRevision(p), SentCells(p.intent), field);
    }
  }

  /** The tags and the completeness at each commit's revision read as the row stores them. */
  lemma ColumnsRead(head: Head, commitMsg: string, events: seq<Event>, e: Event)
    ensures var w := Run(Created(head, commitMsg), events);
            Commits(w, e).Some? ==>
              var row := NewRevision(Commits(w, e).value);
              && Value(MetaAfter(w, e), "tags") == TagsJson(row.tags)
              && (row.completeness != "" ==> Value(MetaAfter(w, e), "completeness") == JString(row.completeness))
  {
    var w := Run(Created(head, commitMsg), events);
    RunKeeps(head, commitMsg, events);
    ReachableRowsKeepColumns(head, commitMsg, events);
    if Commits(w, e).Some? {
      var p := Commits(w, e).value;
      CommitAbsorbs(w, e);
      RowKeepsColumns(p);
      ColumnAbsorbed(MetaBefore(w), SnapshotOf(NewRevision(p)), "tags");
      ColumnAbsorbed(MetaBefore(w), SnapshotOf(NewRevision(p)), "completeness");
    }
  }

  lemma ColumnAbsorbed(state: MetaState, snap: Snapshot, column: string)
    requires KeepsColumns(snap)
    ensures column == "tags" ==> Value(Absorb(state, snap), column) == TagsJson(snap.tags)
    ensures column == "completeness" && snap.completeness != "" ==>
              Value(Absorb(state, snap), column) == JString(snap.completeness)
  {
    if column in Flatten(snap.payload) {
      AbsorbPayload(state, snap, column);
    } else {
      AbsorbColumns(state, snap);
    }
  }

  /** And the delta over that revision shows each of them that moved. */
  lemma DeltaShowsSent(w: World, e: Event, out: seq<DeltaEntry>, key: string)
    requires IsDelta(out, MetaBefore(w), MetaAfter(w, e))
    ensures DeltaEntry(key, Value(MetaBefore(w), key), Value(MetaAfter(w, e), key)) in out <==>
            Value(MetaBefore(w), key) != Value(MetaAfter(w, e), key)
  {
  }
}
