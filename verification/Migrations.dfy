/** internal/pindoc/db/migrate.go: the migration runner as a locked protocol that
    any number of processes may run, and that may crash anywhere. */
module Migrations {
  import opened Wrappers
  import opened Strings
  import opened Sorting

  datatype Migration = Migration(id: string, checksum: string)

  /** schema_migrations: id to COALESCE(checksum, ''). */
  type Ledger = map<string, string>

  /** schema lists the Up blocks that have taken effect, in order; any real schema is
      a fold of that list. */
  datatype Database = Database(present: bool, hasChecksum: bool, ledger: Ledger, schema: seq<string>)

  /** The embedded manifest: file names are unique and checksums are hex digests. */
  predicate ValidManifest(m: seq<Migration>) {
    && (forall i, j :: 0 <= i < j < |m| ==> m[i].id != m[j].id)
    && (forall i :: 0 <= i < |m| ==> m[i].checksum != "" && TrimSpace(m[i].checksum) == m[i].checksum)
  }

  /** What is read from a directory of files is one: names in order, checksums in hexadecimal. */
  lemma FilesAreValid(m: seq<Migration>)
    requires forall i, j :: 0 <= i < j < |m| ==> Less(m[i].id, m[j].id)
    requires forall i :: 0 <= i < |m| ==> HexText(m[i].checksum)
    ensures ValidManifest(m)
  {
    forall i, j | 0 <= i < j < |m| ensures m[i].id != m[j].id {
      LessTrichotomy(m[i].id, m[j].id);
    }
    forall i | 0 <= i < |m| ensures TrimSpace(m[i].checksum) == m[i].checksum {
      TrimSpaceFixed(m[i].checksum);
    }
  }

  predicate HexText(s: string) {
    s != "" && forall i :: 0 <= i < |s| ==> '0' <= s[i] <= '9' || 'a' <= s[i] <= 'f'
  }

  function Ids(m: seq<Migration>): (r: seq<string>)
    ensures |r| == |m| && forall i :: 0 <= i < |m| ==> r[i] == m[i].id
  {
    seq(|m|, i requires 0 <= i < |m| => m[i].id)
  }

  /** btrim(checksum) = '': spaces only. */
  predicate SqlBlank(checksum: string) {
    forall i :: 0 <= i < |checksum| ==> checksum[i] == ' '
  }

  /** Blank to the runner's TrimSpace, but not to the backfill's btrim. */
  predicate OddBlank(checksum: string) {
    Blank(checksum) && !SqlBlank(checksum)
  }

  /** One process inside Migrate. Everything from Locked to Recorded holds the
      advisory lock; from Begun to Recorded a transaction is open. */
  datatype Proc =
    | Waiting
    | Locked
    | TableEnsured
    | ColumnEnsured
    | Scanning(applied: map<string, string>, next: nat)
    | Begun(applied: map<string, string>, next: nat)
    | Executed(applied: map<string, string>, next: nat)
    | Recorded(applied: map<string, string>, next: nat)
    | Returned(ok: bool)

  datatype World = World(db: Database, holder: Option<nat>, procs: map<nat, Proc>)

  datatype Outcome = Done | Failed | Unacknowledged

  datatype Event =
    | Call(pid: nat)
    | Grant(pid: nat)
    | Step(pid: nat, outcome: Outcome)
    | Crash(pid: nat)

  predicate HoldsLock(p: Proc) {
    !p.Waiting? && !p.Returned?
  }

  /** The deferred unlock. */
  function Return(w: World, db: Database, pid: nat, ok: bool): World {
    World(db, None, w.procs[pid := Returned(ok)])
  }

  function Go(w: World, db: Database, pid: nat, p: Proc): World {
    World(db, w.holder, w.procs[pid := p])
  }

  /** What the loop does with one manifest entry, from the ledger it scanned. */
  datatype Verdict = Skip | Backfill | Mismatch | Apply

  function Judge(applied: map<string, string>, m: Migration): Verdict {
    if m.id !in applied then Apply
    else if applied[m.id] == "" then Backfill
    else if applied[m.id] != m.checksum then Mismatch
    else Skip
  }

  /** UPDATE ... WHERE id = $1 AND (checksum IS NULL OR btrim(checksum) = ''). */
  function BackfillChecksum(ledger: Ledger, m: Migration): Ledger {
    if m.id in ledger && SqlBlank(ledger[m.id]) then ledger[m.id := m.checksum] else ledger
  }

  function ScanLedger(ledger: Ledger): map<string, string> {
    map id | id in ledger :: TrimSpace(ledger[id])
  }

  function StepLocked(manifest: seq<Migration>, w: World, pid: nat, outcome: Outcome): World
    requires pid in w.procs && HoldsLock(w.procs[pid])
  {
    var db := w.db;
    match w.procs[pid]
    case Locked => if outcome.Failed? then Return(w, db, pid, false) else
      Go(w, if db.present then db else db.(present := true, hasChecksum := true), pid, TableEnsured)
    case TableEnsured => if outcome.Failed? then Return(w, db, pid, false) else
      Go(w, db.(hasChecksum := true), pid, ColumnEnsured)
    case ColumnEnsured => if outcome.Failed? then Return(w, db, pid, false) else
      Go(w, db, pid, Scanning(ScanLedger(db.ledger), 0))
    case Scanning(applied, i) =>
      if i >= |manifest| then Return(w, db, pid, true)
      else (match Judge(applied, manifest[i])
            case Skip => Go(w, db, pid, Scanning(applied, i + 1))
            case Mismatch => Return(w, db, pid, false)
            case Backfill => if outcome.Failed? then Return(w, db, pid, false) else
              Go(w, db.(ledger := BackfillChecksum(db.ledger, manifest[i])), pid, Scanning(applied, i + 1))
            case Apply => if outcome.Failed? then Return(w, db, pid, false) else Go(w, db, pid, Begun(applied, i)))
    case Begun(applied, i) =>
      if outcome.Failed? then Return(w, db, pid, false) else Go(w, db, pid, Executed(applied, i))
    case Executed(applied, i) =>
      if outcome.Failed? || i >= |manifest| || manifest[i].id in db.ledger then Return(w, db, pid, false)
      else Go(w, db, pid, Recorded(applied, i))
    case Recorded(applied, i) =>
      if outcome.Failed? || i >= |manifest| then Return(w, db, pid, false)
      else
        var committed :=
          db.(schema := db.schema + [manifest[i].id], ledger := db.ledger[manifest[i].id := manifest[i].checksum]);
        if outcome.Done? then Go(w, committed, pid, Scanning(applied, i + 1)) else Return(w, committed, pid, false)
  }

  /** A crash drops the lock with the connection and rolls back the open transaction,
      whose writes were never in the database of this model. */
  function Next(manifest: seq<Migration>, w: World, e: Event): World {
    match e
    case Call(pid) => if pid in w.procs && !w.procs[pid].Returned? then w
      else World(w.db, w.holder, w.procs[pid := Waiting])
    case Grant(pid) => if pid in w.procs && w.procs[pid].Waiting? && w.holder.None? then
      World(w.db, Some(pid), w.procs[pid := Locked]) else w
    case Step(pid, outcome) => if pid in w.procs && HoldsLock(w.procs[pid]) then StepLocked(manifest, w, pid, outcome)
      else w
    case Crash(pid) => World(w.db, if w.holder == Some(pid) then None else w.holder, w.procs - {pid})
  }

  function Run(manifest: seq<Migration>, w: World, events: seq<Event>): World
    decreases events
  {
    if events == [] then w else Run(manifest, Next(manifest, w, events[0]), events[1..])
  }

  /** Nobody is migrating yet. */
  function Idle(db: Database): World {
    World(db, None, map[])
  }

  // ----- the invariant ------------------------------------------------------------

  /** The lock is held by exactly the one process that is past it. */
  ghost predicate LockOk(w: World) {
    forall pid :: pid in w.procs && HoldsLock(w.procs[pid]) <==> w.holder == Some(pid)
  }

  /** A ledger checksum the runner accepts for m, now and on every later run. */
  predicate Settled(checksum: string, m: Migration) {
    TrimSpace(checksum) == m.checksum || OddBlank(checksum)
  }

  ghost predicate SettledUpTo(manifest: seq<Migration>, ledger: Ledger, n: nat) {
    forall i :: 0 <= i < n && i < |manifest| ==>
      manifest[i].id in ledger && Settled(ledger[manifest[i].id], manifest[i])
  }

  /** The scanned copy still tells the truth about the entries not yet reached. */
  ghost predicate CopyOk(manifest: seq<Migration>, ledger: Ledger, applied: map<string, string>, n: nat) {
    forall i :: n <= i < |manifest| ==>
      (manifest[i].id in applied <==> manifest[i].id in ledger) &&
      (manifest[i].id in applied ==> applied[manifest[i].id] == TrimSpace(ledger[manifest[i].id]))
  }

  ghost predicate ProcOk(manifest: seq<Migration>, db: Database, p: Proc) {
    match p
    case Waiting => true
    case Locked => true
    case TableEnsured => db.present
    case ColumnEnsured => db.present && db.hasChecksum
    case Scanning(applied, n) =>
      TablesReady(db) && SettledUpTo(manifest, db.ledger, n) && CopyOk(manifest, db.ledger, applied, n)
    case Begun(applied, n) => InLoop(manifest, db, applied, n)
    case Executed(applied, n) => InLoop(manifest, db, applied, n)
    case Recorded(applied, n) => InLoop(manifest, db, applied, n)
    case Returned(ok) => ok ==> TablesReady(db) && SettledUpTo(manifest, db.ledger, |manifest|)
  }

  predicate TablesReady(db: Database) {
    db.present && db.hasChecksum
  }

  ghost predicate InLoop(manifest: seq<Migration>, db: Database, applied: map<string, string>, n: nat) {
    && TablesReady(db) && SettledUpTo(manifest, db.ledger, n) && CopyOk(manifest, db.ledger, applied, n)
    && n < |manifest| && manifest[n].id !in db.ledger
  }

  /** What has changed since the start: the new Up blocks are distinct, are exactly the
      new ledger rows, and no row that was odd-blank was repaired or created. */
  ghost predicate HistoryOk(start: Database, db: Database) {
    && start.schema <= db.schema
    && NoDup(Added(start, db))
    && (forall id :: id in db.ledger <==> id in start.ledger || id in Added(start, db))
    && (forall id :: id in Added(start, db) ==> id !in start.ledger)
    && (forall id :: id in db.ledger && OddBlank(db.ledger[id]) ==> id in start.ledger && OddBlank(start.ledger[id]))
    && (forall id :: id in start.ledger && OddBlank(start.ledger[id]) ==> OddBlank(db.ledger[id]))
  }

  /** The Up blocks that took effect since start. */
  function Added(start: Database, db: Database): seq<string> {
    if start.schema <= db.schema then db.schema[|start.schema|..] else []
  }

  ghost predicate Inv(manifest: seq<Migration>, start: Database, w: World) {
    && LockOk(w) && HistoryOk(start, w.db)
    && forall pid :: pid in w.procs ==> ProcOk(manifest, w.db, w.procs[pid])
  }

  /** A returned process keeps its guarantee while the others work. */
  lemma ReturnedStays(manifest: seq<Migration>, db: Database, db': Database, p: Proc)
    requires ValidManifest(manifest) && ProcOk(manifest, db, p) && !HoldsLock(p)
    requires TablesReady(db) ==> TablesReady(db')
    requires forall i ::
               0 <= i < |manifest| && manifest[i].id in db.ledger && Settled(db.ledger[manifest[i].id], manifest[i]) ==>
               manifest[i].id in db'.ledger && Settled(db'.ledger[manifest[i].id], manifest[i])
    ensures ProcOk(manifest, db', p)
  {
  }

  lemma OthersKeep(manifest: seq<Migration>, start: Database, w: World, pid: nat, w': World)
    requires ValidManifest(manifest) && Inv(manifest, start, w) && w.holder == Some(pid) && pid in w.procs
    requires w'.procs.Keys == w.procs.Keys && forall q :: q in w.procs && q != pid ==> w'.procs[q] == w.procs[q]
    requires TablesReady(w.db) ==> TablesReady(w'.db)
    requires forall i ::
               && 0 <= i < |manifest|
               && manifest[i].id in w.db.ledger && Settled(w.db.ledger[manifest[i].id], manifest[i]) ==>
               manifest[i].id in w'.db.ledger && Settled(w'.db.ledger[manifest[i].id], manifest[i])
    ensures forall q :: q in w'.procs && q != pid ==> ProcOk(manifest, w'.db, w'.procs[q])
  {
    forall q | q in w'.procs && q != pid ensures ProcOk(manifest, w'.db, w'.procs[q]) {
      assert !HoldsLock(w.procs[q]);
      ReturnedStays(manifest, w.db, w'.db, w.procs[q]);
    }
  }

  lemma BackfillOk(manifest: seq<Migration>, start: Database, db: Database, applied: map<string, string>, n: nat)
    requires ValidManifest(manifest) && n < |manifest| && Judge(applied, manifest[n]).Backfill?
    requires HistoryOk(start, db) && SettledUpTo(manifest, db.ledger, n) && CopyOk(manifest, db.ledger, applied, n)
    ensures var ledger' := BackfillChecksum(db.ledger, manifest[n]);
            && HistoryOk(start, db.(ledger := ledger'))
            && SettledUpTo(manifest, ledger', n + 1) && CopyOk(manifest, ledger', applied, n + 1)
            && forall i ::
               0 <= i < |manifest| && manifest[i].id in db.ledger && Settled(db.ledger[manifest[i].id], manifest[i]) ==>
                 manifest[i].id in ledger' && Settled(ledger'[manifest[i].id], manifest[i])
  {
    var m := manifest[n];
    BackfillJudged(manifest, db.ledger, applied, n);
    if SqlBlank(db.ledger[m.id]) {
      assert BackfillChecksum(db.ledger, m) == db.ledger[m.id := m.checksum];
      assert !OddBlank(m.checksum) && !OddBlank(db.ledger[m.id]);
      FilledHistory(start, db, m.id, m.checksum);
      FilledLedger(manifest, db.ledger, applied, n);
    } else {
      assert BackfillChecksum(db.ledger, m) == db.ledger;
      OddLedger(manifest, db.ledger, applied, n);
    }
  }

  /** A backfill is judged needed of a recorded row whose checksum is blank. */
  lemma BackfillJudged(manifest: seq<Migration>, ledger: Ledger, applied: map<string, string>, n: nat)
    requires ValidManifest(manifest) && n < |manifest| && Judge(applied, manifest[n]).Backfill?
    requires CopyOk(manifest, ledger, applied, n)
    ensures manifest[n].id in ledger && Blank(ledger[manifest[n].id]) && !Blank(manifest[n].checksum)
  {
    TrimSpaceBlank(ledger[manifest[n].id]);
    TrimSpaceBlank(manifest[n].checksum);
  }

  lemma OddLedger(manifest: seq<Migration>, ledger: Ledger, applied: map<string, string>, n: nat)
    requires n < |manifest| && manifest[n].id in ledger && OddBlank(ledger[manifest[n].id])
    requires SettledUpTo(manifest, ledger, n) && CopyOk(manifest, ledger, applied, n)
    ensures SettledUpTo(manifest, ledger, n + 1) && CopyOk(manifest, ledger, applied, n + 1)
  {
  }

  lemma FilledHistory(start: Database, db: Database, id: string, checksum: string)
    requires HistoryOk(start, db) && id in db.ledger && !OddBlank(db.ledger[id]) && !OddBlank(checksum)
    ensures HistoryOk(start, db.(ledger := db.ledger[id := checksum]))
  {
  }

  lemma FilledLedger(manifest: seq<Migration>, ledger: Ledger, applied: map<string, string>, n: nat)
    requires ValidManifest(manifest) && n < |manifest| && manifest[n].id in ledger
    requires SettledUpTo(manifest, ledger, n) && CopyOk(manifest, ledger, applied, n)
    ensures var ledger' := ledger[manifest[n].id := manifest[n].checksum];
            && SettledUpTo(manifest, ledger', n + 1) && CopyOk(manifest, ledger', applied, n + 1)
            && forall i ::
               0 <= i < |manifest| && manifest[i].id in ledger && Settled(ledger[manifest[i].id], manifest[i]) ==>
                 manifest[i].id in ledger' && Settled(ledger'[manifest[i].id], manifest[i])
  {
  }

  lemma CommitOk(manifest: seq<Migration>, start: Database, db: Database, applied: map<string, string>, n: nat)
    requires ValidManifest(manifest) && HistoryOk(start, db) && InLoop(manifest, db, applied, n)
    ensures var db' :=
            db.(schema := db.schema + [manifest[n].id], ledger := db.ledger[manifest[n].id := manifest[n].checksum]);
            && HistoryOk(start, db') && Added(start, db') == Added(start, db) + [manifest[n].id]
            && SettledUpTo(manifest, db'.ledger, n + 1) && CopyOk(manifest, db'.ledger, applied, n + 1)
  {
    var m := manifest[n];
    var db' := db.(schema := db.schema + [m.id], ledger := db.ledger[m.id := m.checksum]);
    TrimSpaceBlank(m.checksum);
    assert Added(start, db') == Added(start, db) + [m.id];
    assert m.id !in Added(start, db);
  }

  /** One process moved: its own new state, the history, and the lock are all there is to check. */
  lemma Assemble(manifest: seq<Migration>, start: Database, w: World, pid: nat, w': World)
    requires ValidManifest(manifest) && Inv(manifest, start, w) && pid in w.procs && HoldsLock(w.procs[pid])
    requires pid in w'.procs && w'.procs == w.procs[pid := w'.procs[pid]]
    requires w'.holder == if HoldsLock(w'.procs[pid]) then Some(pid) else None
    requires HistoryOk(start, w'.db) && ProcOk(manifest, w'.db, w'.procs[pid])
    requires TablesReady(w.db) ==> TablesReady(w'.db)
    requires forall i ::
               && 0 <= i < |manifest|
               && manifest[i].id in w.db.ledger && Settled(w.db.ledger[manifest[i].id], manifest[i]) ==>
               manifest[i].id in w'.db.ledger && Settled(w'.db.ledger[manifest[i].id], manifest[i])
    ensures Inv(manifest, start, w')
  {
    assert w.holder == Some(pid);
    OthersKeep(manifest, start, w, pid, w');
  }

  lemma SetupKeeps(manifest: seq<Migration>, start: Database, w: World, pid: nat, outcome: Outcome)
    requires ValidManifest(manifest) && Inv(manifest, start, w) && pid in w.procs
    requires w.procs[pid].Locked? || w.procs[pid].TableEnsured? || w.procs[pid].ColumnEnsured?
    ensures Inv(manifest, start, StepLocked(manifest, w, pid, outcome))
  {
    Assemble(manifest, start, w, pid, StepLocked(manifest, w, pid, outcome));
  }

  lemma ScanKeeps(manifest: seq<Migration>, start: Database, w: World, pid: nat, outcome: Outcome)
    requires ValidManifest(manifest) && Inv(manifest, start, w) && pid in w.procs && w.procs[pid].Scanning?
    ensures Inv(manifest, start, StepLocked(manifest, w, pid, outcome))
  {
    var applied, n := w.procs[pid].applied, w.procs[pid].next;
    var w' := StepLocked(manifest, w, pid, outcome);
    assert ProcOk(manifest, w.db, w.procs[pid]);
    if n >= |manifest| {
      Assemble(manifest, start, w, pid, w');
    } else if Judge(applied, manifest[n]).Backfill? {
      BackfillOk(manifest, start, w.db, applied, n);
      Assemble(manifest, start, w, pid, w');
    } else {
      SkipOk(manifest, w.db, applied, n);
      Assemble(manifest, start, w, pid, w');
    }
  }

  lemma SkipOk(manifest: seq<Migration>, db: Database, applied: map<string, string>, n: nat)
    requires n < |manifest| && SettledUpTo(manifest, db.ledger, n) && CopyOk(manifest, db.ledger, applied, n)
    ensures Judge(applied, manifest[n]).Skip? ==>
              SettledUpTo(manifest, db.ledger, n + 1) && CopyOk(manifest, db.ledger, applied, n + 1)
    ensures Judge(applied, manifest[n]).Apply? ==> manifest[n].id !in db.ledger
  {
  }

  lemma TxKeeps(manifest: seq<Migration>, start: Database, w: World, pid: nat, outcome: Outcome)
    requires ValidManifest(manifest) && Inv(manifest, start, w) && pid in w.procs
    requires w.procs[pid].Begun? || w.procs[pid].Executed? || w.procs[pid].Recorded?
    ensures Inv(manifest, start, StepLocked(manifest, w, pid, outcome))
  {
    assert ProcOk(manifest, w.db, w.procs[pid]);
    CommitOk(manifest, start, w.db, w.procs[pid].applied, w.procs[pid].next);
    Assemble(manifest, start, w, pid, StepLocked(manifest, w, pid, outcome));
  }

  lemma NextKeeps(manifest: seq<Migration>, start: Database, w: World, e: Event)
    requires ValidManifest(manifest) && Inv(manifest, start, w)
    ensures Inv(manifest, start, Next(manifest, w, e))
  {
    if e.Step? && e.pid in w.procs && HoldsLock(w.procs[e.pid]) {
      var p := w.procs[e.pid];
      if p.Scanning? {
        ScanKeeps(manifest, start, w, e.pid, e.outcome);
      } else if p.Locked? || p.TableEnsured? || p.ColumnEnsured? {
        SetupKeeps(manifest, start, w, e.pid, e.outcome);
      } else {
        TxKeeps(manifest, start, w, e.pid, e.outcome);
      }
    }
  }

  lemma {:induction false} RunKeeps(manifest: seq<Migration>, start: Database, w: World, events: seq<Event>)
    requires ValidManifest(manifest) && Inv(manifest, start, w)
    ensures Inv(manifest, start, Run(manifest, w, events))
    decreases events
  {
    if events != [] {
      NextKeeps(manifest, start, w, events[0]);
      RunKeeps(manifest, start, Next(manifest, w, events[0]), events[1..]);
    }
  }

  // ----- main results -------------------------------------------------------------

  /** However processes interleave and crash, every Up block takes effect at most once,
      never again if the ledger already had it, and none is ever undone. */
  lemma UpTakesEffectAtMostOnce(manifest: seq<Migration>, start: Database, events: seq<Event>, id: string)
    requires ValidManifest(manifest)
    ensures var db := Run(manifest, Idle(start), events).db;
            && start.schema <= db.schema
            && multiset(Added(start, db))[id] <= 1
            && (id in start.ledger ==> id !in Added(start, db))
            && (id in db.ledger <==> id in start.ledger || id in Added(start, db))
  {
    RunKeeps(manifest, start, Idle(start), events);
    NoDupCount(Added(start, Run(manifest, Idle(start), events).db), id);
  }

  /** At most one process is past the lock at any time. */
  lemma LockExcludes(manifest: seq<Migration>, start: Database, events: seq<Event>, p: nat, q: nat)
    requires ValidManifest(manifest)
    ensures var w := Run(manifest, Idle(start), events);
            p in w.procs && HoldsLock(w.procs[p]) && q in w.procs && HoldsLock(w.procs[q]) ==> p == q
  {
    RunKeeps(manifest, start, Idle(start), events);
  }

  /** When the added blocks are a prefix of the manifest, an entry is among them
      exactly when its position is. */
  lemma AddedByPosition(manifest: seq<Migration>, added: seq<string>, i: nat)
    requires ValidManifest(manifest) && added <= Ids(manifest) && i < |manifest|
    ensures manifest[i].id in added <==> i < |added|
  {
    if i < |added| {
      assert added[i] == manifest[i].id;
    }
    if manifest[i].id in added {
      var j :| 0 <= j < |added| && added[j] == manifest[i].id;
      assert added[j] == Ids(manifest)[j] == manifest[j].id;
    }
  }

  /** With only the first k entries in the ledger, the runner is about to apply entry k. */
  lemma AppliesInOrder(manifest: seq<Migration>, start: Database, db: Database, applied: map<string, string>, n: nat)
    requires ValidManifest(manifest) && start.ledger == map[] && HistoryOk(start, db)
             && InLoop(manifest, db, applied, n)
    requires Added(start, db) <= Ids(manifest)
    ensures n == |Added(start, db)|
    ensures Added(start, db) + [manifest[n].id] <= Ids(manifest)
  {
    NextIsCount(manifest, db, applied, n, Added(start, db));
  }

  lemma NextIsCount(manifest: seq<Migration>, db: Database, applied: map<string, string>, n: nat, added: seq<string>)
    requires ValidManifest(manifest) && InLoop(manifest, db, applied, n) && added <= Ids(manifest)
    requires forall id :: id in db.ledger <==> id in added
    ensures n == |added| && added + [manifest[n].id] <= Ids(manifest)
  {
    assert |added| < n ==> manifest[|added|].id in db.ledger;
    AddedByPosition(manifest, added, n);
    if |added| < |manifest| {
      AddedByPosition(manifest, added, |added|);
    }
    assert n == |added|;
    assert Ids(manifest)[n] == manifest[n].id;
  }

  /** Only a commit moves the schema. */
  lemma SchemaMoves(manifest: seq<Migration>, w: World, e: Event)
    ensures var db' := Next(manifest, w, e).db;
            || db'.schema == w.db.schema
            || (e.Step? && e.pid in w.procs && w.procs[e.pid].Recorded? && w.procs[e.pid].next < |manifest|
                && db'.schema == w.db.schema + [manifest[w.procs[e.pid].next].id])
  {
  }

  lemma PrefixStep(manifest: seq<Migration>, start: Database, w: World, e: Event)
    requires ValidManifest(manifest) && start.ledger == map[] && Inv(manifest, start, w)
    requires Added(start, w.db) <= Ids(manifest)
    ensures Added(start, Next(manifest, w, e).db) <= Ids(manifest)
  {
    SchemaMoves(manifest, w, e);
    var db' := Next(manifest, w, e).db;
    if db'.schema != w.db.schema {
      var p := w.procs[e.pid];
      assert ProcOk(manifest, w.db, p);
      AppliesInOrder(manifest, start, w.db, p.applied, p.next);
      OneMoreAdded(start, w.db, db', manifest[p.next].id);
    }
  }

  lemma OneMoreAdded(start: Database, db: Database, db': Database, id: string)
    requires start.schema <= db.schema && db'.schema == db.schema + [id]
    ensures Added(start, db') == Added(start, db) + [id]
  {
  }

  lemma {:induction false} PrefixRun(manifest: seq<Migration>, start: Database, w: World, events: seq<Event>)
    requires ValidManifest(manifest) && start.ledger == map[] && Inv(manifest, start, w)
    requires Added(start, w.db) <= Ids(manifest)
    ensures Added(start, Run(manifest, w, events).db) <= Ids(manifest)
    decreases events
  {
    if events != [] {
      NextKeeps(manifest, start, w, events[0]);
      PrefixStep(manifest, start, w, events[0]);
      PrefixRun(manifest, start, Next(manifest, w, events[0]), events[1..]);
    }
  }

  /** From an empty ledger every reachable schema is the start schema followed by a
      prefix of the manifest, in manifest order. */
  lemma SchemaIsManifestPrefix(manifest: seq<Migration>, start: Database, events: seq<Event>)
    requires ValidManifest(manifest) && start.ledger == map[]
    ensures var db := Run(manifest, Idle(start), events).db;
            exists k :: 0 <= k <= |manifest| && db.schema == start.schema + Ids(manifest)[..k]
  {
    RunKeeps(manifest, start, Idle(start), events);
    PrefixRun(manifest, start, Idle(start), events);
    var db := Run(manifest, Idle(start), events).db;
    var k := |Added(start, db)|;
    assert db.schema == start.schema + Added(start, db);
    assert Added(start, db) == Ids(manifest)[..k];
  }

  /** Once some process has returned nil, every manifest entry is in the ledger; from an
      empty ledger the schema is exactly the fold of the whole manifest, and stays so. */
  lemma ReturningNilMeansAllApplied(manifest: seq<Migration>, start: Database, events: seq<Event>, pid: nat)
    requires ValidManifest(manifest)
    requires var w := Run(manifest, Idle(start), events); pid in w.procs && w.procs[pid] == Returned(true)
    ensures var db := Run(manifest, Idle(start), events).db;
            && (forall i :: 0 <= i < |manifest| ==> manifest[i].id in db.ledger)
            && (forall i :: 0 <= i < |manifest| && manifest[i].id !in start.ledger ==>
               manifest[i].id in Added(start, db))
            && (start.ledger == map[] ==> db.schema == start.schema + Ids(manifest))
  {
    RunKeeps(manifest, start, Idle(start), events);
    var w := Run(manifest, Idle(start), events);
    var db := w.db;
    assert ProcOk(manifest, db, w.procs[pid]);
    assert db.schema == start.schema + Added(start, db);
    if start.ledger == map[] {
      PrefixRun(manifest, start, Idle(start), events);
      var k := |Added(start, db)|;
      assert k < |manifest| ==> manifest[k].id in Added(start, db);
      if k < |manifest| {
        AddedByPosition(manifest, Added(start, db), k);
      }
      assert Added(start, db) == Ids(manifest);
    }
  }

  // ----- one uninterrupted run ----------------------------------------------------

  function EnsureTables(db: Database): Database {
    db.(present := true, hasChecksum := true)
  }

  function MigrateFrom(manifest: seq<Migration>, db: Database, applied: map<string, string>, i: nat): (Database, bool)
    decreases |manifest| - i
  {
    if i >= |manifest| then (db, true)
    else
      var m := manifest[i];
      match Judge(applied, m)
      case Skip => MigrateFrom(manifest, db, applied, i + 1)
      case Mismatch => (db, false)
      case Backfill => MigrateFrom(manifest, db.(ledger := BackfillChecksum(db.ledger, m)), applied, i + 1)
      case Apply =>
        if m.id in db.ledger then (db, false)
        else MigrateFrom(manifest, db.(schema := db.schema + [m.id], ledger := db.ledger[m.id := m.checksum]), applied,
          i + 1)
  }

  class SchemaStore {
    var db: Database

    constructor (db: Database)
      ensures this.db == db
    {
      this.db := db;
    }

    /** Migrate with the lock held throughout and no statement failing. */
    method Migrate(manifest: seq<Migration>) returns (ok: bool)
      modifies this
      ensures (db, ok) == MigrateFrom(manifest, EnsureTables(old(db)), ScanLedger(old(db).ledger), 0)
    {
      db := EnsureTables(db);
      var applied := ScanLedger(db.ledger);
      for i := 0 to |manifest|
        invariant MigrateFrom(manifest, EnsureTables(old(db)), applied, 0) == MigrateFrom(manifest, db, applied, i)
      {
        var m := manifest[i];
        if m.id in applied {
          if applied[m.id] == "" {
            db := db.(ledger := BackfillChecksum(db.ledger, m));
            continue;
          }
          if applied[m.id] != m.checksum {
            return false;
          }
          continue;
        }
        if m.id in db.ledger {
          return false;
        }
        db := db.(schema := db.schema + [m.id], ledger := db.ledger[m.id := m.checksum]);
      }
      ok := true;
    }
  }

  /** The manifest entries the ledger lacks, in manifest order. */
  function Missing(manifest: seq<Migration>, ledger: Ledger): seq<string> {
    if manifest == [] then []
    else (if manifest[0].id in ledger then [] else [manifest[0].id]) + Missing(manifest[1..], ledger)
  }

  lemma {:induction false} MissingAgrees(manifest: seq<Migration>, a: Ledger, b: Ledger)
    requires forall i :: 0 <= i < |manifest| ==> (manifest[i].id in a <==> manifest[i].id in b)
    ensures Missing(manifest, a) == Missing(manifest, b)
  {
    if manifest != [] {
      MissingAgrees(manifest[1..], a, b);
    }
  }

  ghost predicate NoMismatchFrom(manifest: seq<Migration>, applied: map<string, string>, n: nat) {
    forall i :: n <= i < |manifest| ==> !Judge(applied, manifest[i]).Mismatch?
  }

  lemma BackfillKeepsIds(db: Database, m: Migration)
    ensures BackfillChecksum(db.ledger, m).Keys == db.ledger.Keys
  {
  }

  lemma {:induction false} MigrateFromMeans(manifest: seq<Migration>, db: Database, applied: map<string, string>,
      i: nat)
    requires ValidManifest(manifest) && i <= |manifest|
    requires forall j :: i <= j < |manifest| ==> (manifest[j].id in applied <==> manifest[j].id in db.ledger)
    ensures var (db', ok) := MigrateFrom(manifest, db, applied, i);
            && (ok <==> NoMismatchFrom(manifest, applied, i))
            && (ok ==> db'.schema == db.schema + Missing(manifest[i..], db.ledger))
    decreases |manifest| - i
  {
    if i < |manifest| && !Judge(applied, manifest[i]).Mismatch? {
      var db1 := AfterEntry(db, applied, manifest[i]);
      MigrateFromStep(manifest, db, applied, i);
      MigrateFromMeans(manifest, db1, applied, i + 1);
      MissingAgrees(manifest[i + 1..], db.ledger, db1.ledger);
      MissingHead(manifest, db.ledger, i);
    }
  }

  /** What the loop makes of one entry it does not reject. */
  function AfterEntry(db: Database, applied: map<string, string>, m: Migration): Database {
    match Judge(applied, m)
    case Backfill => db.(ledger := BackfillChecksum(db.ledger, m))
    case Apply => db.(schema := db.schema + [m.id], ledger := db.ledger[m.id := m.checksum])
    case _ => db
  }

  lemma MigrateFromStep(manifest: seq<Migration>, db: Database, applied: map<string, string>, i: nat)
    requires ValidManifest(manifest) && i < |manifest| && !Judge(applied, manifest[i]).Mismatch?
    requires manifest[i].id in applied <==> manifest[i].id in db.ledger
    ensures var db1 := AfterEntry(db, applied, manifest[i]);
            && MigrateFrom(manifest, db, applied, i) == MigrateFrom(manifest, db1, applied, i + 1)
            && db1.ledger.Keys == db.ledger.Keys + {manifest[i].id}
            && db1.schema == db.schema + (if manifest[i].id in db.ledger then [] else [manifest[i].id])
    ensures NoMismatchFrom(manifest, applied, i) <==> NoMismatchFrom(manifest, applied, i + 1)
  {
    BackfillKeepsIds(db, manifest[i]);
  }

  lemma MissingHead(manifest: seq<Migration>, ledger: Ledger, i: nat)
    requires i < |manifest|
    ensures Missing(manifest[i..], ledger)
            == (if manifest[i].id in ledger then [] else [manifest[i].id]) + Missing(manifest[i + 1..], ledger)
  {
    assert manifest[i..][1..] == manifest[i + 1..];
  }

  /** An uninterrupted run succeeds exactly when no recorded checksum contradicts the
      manifest, and then adds exactly the missing Up blocks in manifest order. */
  lemma MigrateAddsWhatIsMissing(manifest: seq<Migration>, db: Database)
    requires ValidManifest(manifest)
    ensures var (db', ok) := MigrateFrom(manifest, EnsureTables(db), ScanLedger(db.ledger), 0);
            && (ok <==> forall i :: 0 <= i < |manifest| && manifest[i].id in db.ledger ==>
                          Blank(db.ledger[manifest[i].id])
                            || TrimSpace(db.ledger[manifest[i].id]) == manifest[i].checksum)
            && (ok ==> db'.schema == db.schema + Missing(manifest, db.ledger))
  {
    MigrateFromMeans(manifest, EnsureTables(db), ScanLedger(db.ledger), 0);
    assert manifest[0..] == manifest;
    forall i | 0 <= i < |manifest| && manifest[i].id in db.ledger
      ensures Judge(ScanLedger(db.ledger), manifest[i]).Mismatch? <==>
              !(Blank(db.ledger[manifest[i].id]) || TrimSpace(db.ledger[manifest[i].id]) == manifest[i].checksum)
    {
      TrimSpaceBlank(db.ledger[manifest[i].id]);
    }
  }

  lemma RunCons(manifest: seq<Migration>, w: World, e: Event, rest: seq<Event>)
    ensures Run(manifest, w, [e] + rest) == Run(manifest, Next(manifest, w, e), rest)
  {
    assert ([e] + rest)[1..] == rest;
  }

  /** The loop is one of the protocol's runs: a process that is scanning at entry i can
      step, without failures, to the loop's own result. */
  lemma {:induction false} LoopIsARun(manifest: seq<Migration>, w: World, pid: nat, applied: map<string, string>,
      i: nat) returns (events: seq<Event>)
    requires pid in w.procs && w.procs[pid] == Scanning(applied, i) && i <= |manifest|
    ensures var w' := Run(manifest, w, events);
            && w'.db == MigrateFrom(manifest, w.db, applied, i).0
            && pid in w'.procs && w'.procs[pid] == Returned(MigrateFrom(manifest, w.db, applied, i).1)
    decreases |manifest| - i
  {
    var step := Step(pid, Done);
    var w1 := Next(manifest, w, step);
    if i == |manifest| || Judge(applied, manifest[i]).Mismatch? {
      events := [step] + [];
      RunCons(manifest, w, step, []);
    } else if !Judge(applied, manifest[i]).Apply? {
      events := LoopIsARun(manifest, w1, pid, applied, i + 1);
      RunCons(manifest, w, step, events);
      events := [step] + events;
    } else {
      var w2 := Next(manifest, w1, step);
      var w3 := Next(manifest, w2, step);
      if manifest[i].id in w.db.ledger {
        events := [];
      } else {
        var w4 := Next(manifest, w3, step);
        events := LoopIsARun(manifest, w4, pid, applied, i + 1);
        RunCons(manifest, w3, step, events);
        events := [step] + events;
      }
      RunCons(manifest, w2, step, events);
      RunCons(manifest, w1, step, [step] + events);
      RunCons(manifest, w, step, [step] + ([step] + events));
      events := [step] + ([step] + ([step] + events));
    }
  }
}
