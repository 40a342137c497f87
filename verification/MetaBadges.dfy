/** The history view's "metadata changed" badge against the metadata delta, on the logs
    the writers can produce. */
module MetaBadges {
  import opened Strings
  import opened Sorting
  import opened RevisionMeta
  import opened RevisionLog
  import opened RevisionRuns

  /** A meta patch stores in the columns what it logs in its payload. */
  predicate StoresWhatItSends(intent: Intent) {
    intent.MetaPatch? ==>
      && (intent.sent.tags.Some? ==> intent.tags == intent.sent.tags.value)
      && (TrimSpace(intent.sent.completeness) != "" ==> intent.completeness == intent.sent.completeness)
  }

  lemma MetaPatchKeepsColumns(p: Pending)
    requires p.intent.MetaPatch? && StoresWhatItSends(p.intent)
    ensures KeepsColumns(SnapshotOf(NewRevision(p)))
  {
    MetaPayloadFields(p.intent.sent);
    FieldsKeepColumns(SnapshotOf(NewRevision(p)), MetaPayload(p.intent.sent).fields);
  }

  lemma RowKeepsColumns(p: Pending)
    requires StoresWhatItSends(p.intent)
    ensures KeepsColumns(SnapshotOf(NewRevision(p)))
  {
    if p.intent.MetaPatch? {
      MetaPatchKeepsColumns(p);
    } else if NewRevision(p).payload.Object? {
      var fields := NewRevision(p).payload.fields;
      assert "kind"[0] == 'k' && "visibility"[0] == 'v' && "task_meta"[0] == 't' && "auto_claimed_done"[0] == 'a';
      assert "tags"[0] == 't' && "tags"[2] == 'g' && "task_meta"[2] == 's' && "completeness"[0] == 'c';
      assert "tags" !in fields && "completeness" !in fields;
      FieldsKeepColumns(SnapshotOf(NewRevision(p)), fields);
    }
  }

  ghost predicate RowsKeepColumns(w: World) {
    && (forall i :: 0 <= i < |w.art.log| ==> KeepsColumns(SnapshotOf(w.art.log[i])))
    && (forall pid :: pid in w.open ==> StoresWhatItSends(w.open[pid].intent))
  }

  lemma {:induction false} ReachableRowsKeepColumns(head: Head, commitMsg: string, events: seq<Event>)
    ensures RowsKeepColumns(Run(Created(head, commitMsg), events))
  {
    if events != [] {
      var n := |events| - 1;
      ReachableRowsKeepColumns(head, commitMsg, events[..n]);
      StepKeepsColumns(Run(Created(head, commitMsg), events[..n]), events[n]);
    }
  }

  lemma StepKeepsColumns(w: World, e: Event)
    requires RowsKeepColumns(w)
    ensures RowsKeepColumns(Next(w, e))
  {
    if Opens(e) {
      OpenedStores(w.art, e);
    } else if Commits(w, e).Some? {
      RowKeepsColumns(w.open[e.pid]);
      LogKeepsColumns(w, e);
    }
  }

  lemma LogKeepsColumns(w: World, e: Event)
    requires Commits(w, e).Some? && !Opens(e)
    requires forall i :: 0 <= i < |w.art.log| ==> KeepsColumns(SnapshotOf(w.art.log[i]))
    requires KeepsColumns(SnapshotOf(NewRevision(w.open[e.pid])))
    ensures forall i :: 0 <= i < |Next(w, e).art.log| ==> KeepsColumns(SnapshotOf(Next(w, e).art.log[i]))
  {
    assert Next(w, e).art.log == w.art.log + [NewRevision(w.open[e.pid])];
  }

  lemma OpenedStores(a: Artifact, e: Event)
    requires Opens(e)
    ensures Opened(a, e).Some? ==> StoresWhatItSends(Opened(a, e).value.intent)
  {
  }

  /** On a numbered log the metadata at a revision is the fold of the rows up to it. */
  lemma MetaAtRow(log: seq<Revision>, rev: nat)
    requires Numbered(log) && rev <= |log|
    ensures MetaAt(SnapshotsOf(log), rev) == Fold(SnapshotsOf(log)[..rev])
  {
    var snaps := SnapshotsOf(log);
    SortFixes(ByNumber, snaps);
    UpToStops(snaps, rev, rev);
    UpToAll(snaps[..rev], rev);
  }

  /** On every log the writers can produce, a row shown without a metadata change has an
      empty delta against the row before it. */
  lemma UnbadgedRowsAreQuiet(head: Head, commitMsg: string, events: seq<Event>, rev: nat)
    ensures var snaps := SnapshotsOf(Run(Created(head, commitMsg), events).art.log);
            1 <= rev < |snaps| && !MetaChangedBetween(snaps[rev - 1], snaps[rev]) ==>
              IsDelta([], MetaAt(snaps, rev), MetaAt(snaps, rev + 1))
  {
    RunKeeps(head, commitMsg, events);
    ReachableRowsKeepColumns(head, commitMsg, events);
    var log := Run(Created(head, commitMsg), events).art.log;
    if 1 <= rev < |log| {
      var snaps := SnapshotsOf(log);
      MetaAtRow(log, rev);
      MetaAtRow(log, rev + 1);
      assert KeepsColumns(SnapshotOf(log[rev - 1]));
      if !MetaChangedBetween(snaps[rev - 1], snaps[rev]) {
        UnbadgedAt(snaps, rev);
      }
    }
  }
}
