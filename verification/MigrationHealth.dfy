/** internal/pindoc/db/migration_health.go: the read-only comparison of manifest and
    ledger, checked against what the runner leaves behind. */
module MigrationHealth {
  import opened Wrappers
  import opened Strings
  import opened Sorting
  import opened Migrations

  const LEDGER_MISSING := "MIGRATION_LEDGER_MISSING"
  const COLUMN_MISSING := "MIGRATION_CHECKSUM_COLUMN_MISSING"
  const UNKNOWN_APPLIED := "MIGRATION_UNKNOWN_APPLIED"
  const CHECKSUM_MISSING := "MIGRATION_CHECKSUM_MISSING"
  const CHECKSUM_MISMATCH := "MIGRATION_CHECKSUM_MISMATCH"
  const PENDING := "MIGRATION_PENDING"

  datatype Code = LedgerMissing | ColumnMissing | UnknownApplied | ChecksumMissing | ChecksumMismatch | Pending

  function Text(code: Code): string {
    match code
    case LedgerMissing => LEDGER_MISSING
    case ColumnMissing => COLUMN_MISSING
    case UnknownApplied => UNKNOWN_APPLIED
    case ChecksumMissing => CHECKSUM_MISSING
    case ChecksumMismatch => CHECKSUM_MISMATCH
    case Pending => PENDING
  }

  datatype Issue = Issue(code: Code, id: string, expected: string, actual: string)

  datatype Row = Row(id: string, checksum: string)

  datatype Health = Health(healthy: bool, knownCount: nat, appliedCount: nat, pendingCount: nat, issues: seq<Issue>)

  function Expected(manifest: seq<Migration>, id: string): (r: Option<string>)
    ensures r.None? <==> forall i :: 0 <= i < |manifest| ==> manifest[i].id != id
  {
    if manifest == [] then None
    else if manifest[|manifest| - 1].id == id then Some(manifest[|manifest| - 1].checksum)
    else Expected(manifest[..|manifest| - 1], id)
  }

  lemma {:induction false} ExpectedOf(manifest: seq<Migration>, i: nat)
    requires ValidManifest(manifest) && i < |manifest|
    ensures Expected(manifest, manifest[i].id) == Some(manifest[i].checksum)
  {
    if i < |manifest| - 1 {
      ExpectedOf(manifest[..|manifest| - 1], i);
    }
  }

  /** What one ledger row is reported as, if anything. */
  function RowIssue(manifest: seq<Migration>, column: bool, row: Row): Option<Issue> {
    match Expected(manifest, row.id)
    case None => Some(Issue(UnknownApplied, row.id, "", ""))
    case Some(checksum) =>
      if !column then None
      else if TrimSpace(row.checksum) == "" then Some(Issue(ChecksumMissing, row.id, checksum, ""))
      else if TrimSpace(row.checksum) != checksum then
        Some(Issue(ChecksumMismatch, row.id, checksum, TrimSpace(row.checksum)))
      else None
  }

  predicate InLedger(rows: seq<Row>, id: string) {
    exists k :: 0 <= k < |rows| && rows[k].id == id
  }

  /** The complete list of what there is to report about a present ledger. */
  ghost predicate Reportable(manifest: seq<Migration>, rows: seq<Row>, column: bool, issue: Issue) {
    || (!column && issue == Issue(ColumnMissing, "", "", ""))
    || (exists k :: 0 <= k < |rows| && RowIssue(manifest, column, rows[k]) == Some(issue))
    || (exists i ::
          && 0 <= i < |manifest| && !InLedger(rows, manifest[i].id)
          && issue == Issue(Pending, manifest[i].id, manifest[i].checksum, ""))
  }

  /** The order of sort.Slice: by code, then by migration id. */
  predicate ByCodeThenId(a: Issue, b: Issue) {
    if a.code == b.code then Leq(a.id, b.id) else Less(Text(a.code), Text(b.code))
  }

  function MissingCount(manifest: seq<Migration>, rows: seq<Row>): nat {
    if manifest == [] then 0
    else MissingCount(manifest[..|manifest| - 1], rows) + (if InLedger(rows, manifest[|manifest| - 1].id) then 0 else 1)
  }

  /** What there is to say of the ledger's own rows. */
  method ReportRows(manifest: seq<Migration>, rows: seq<Row>, column: bool) returns (issues: seq<Issue>)
    ensures forall issue :: issue in issues <==>
              (!column && issue == Issue(ColumnMissing, "", "", ""))
              || exists j :: 0 <= j < |rows| && RowIssue(manifest, column, rows[j]) == Some(issue)
    ensures NoDup(RowIds(rows)) ==> NoDup(issues)
  {
    issues := [];
    if !column {
      issues := [Issue(ColumnMissing, "", "", "")];
    }
    for k := 0 to |rows|
      invariant forall issue :: issue in issues <==>
                  (!column && issue == Issue(ColumnMissing, "", "", ""))
                  || exists j :: 0 <= j < k && RowIssue(manifest, column, rows[j]) == Some(issue)
      invariant NoDup(RowIds(rows)) ==> NoDup(issues)
    {
      var found := RowIssue(manifest, column, rows[k]);
      if found.Some? {
        RowIssueIsNew(manifest, column, rows, k, issues);
        issues := issues + [found.value];
      }
    }
  }

  /** compareMigrationState. */
  method CompareMigrationState(manifest: seq<Migration>, rows: seq<Row>, ledgerPresent: bool, column: bool)
      returns (health: Health)
    ensures health.knownCount == |manifest| && health.appliedCount == |rows|
    ensures !ledgerPresent ==>
            health.issues == [Issue(LedgerMissing, "", "", "")] && !health.healthy && health.pendingCount == |manifest|
    ensures ledgerPresent ==> health.pendingCount == MissingCount(manifest, rows)
    ensures ledgerPresent ==> forall issue :: issue in health.issues <==> Reportable(manifest, rows, column, issue)
    ensures ledgerPresent ==> (health.healthy <==> forall issue :: !Reportable(manifest, rows, column, issue))
    ensures Sorted(ByCodeThenId, health.issues)
    ensures ValidManifest(manifest) && NoDup(RowIds(rows)) ==> NoDup(health.issues)
  {
    if !ledgerPresent {
      return Health(false, |manifest|, |rows|, |manifest|, [Issue(LedgerMissing, "", "", "")]);
    }
    var fromRows := ReportRows(manifest, rows, column);
    var issues, pending := ReportPending(manifest, rows, fromRows);
    ByCodeThenIdOrders();
    SortSorts(ByCodeThenId, issues);
    SortMembers(ByCodeThenId, issues);
    if NoDup(issues) {
      SortNoDup(ByCodeThenId, issues);
    }
    issues := Sort(ByCodeThenId, issues);
    assert issues != [] ==> issues[0] in issues;
    health := Health(issues == [], |manifest|, |rows|, pending, issues);
  }

  /** And what there is to say of the entries that were not applied. */
  method ReportPending(manifest: seq<Migration>, rows: seq<Row>, fromRows: seq<Issue>)
      returns (issues: seq<Issue>, pending: nat)
    requires forall issue :: issue in fromRows ==> issue.code != Pending
    ensures pending == MissingCount(manifest, rows)
    ensures forall issue :: issue in issues <==>
              issue in fromRows
              || exists j ::
                   && 0 <= j < |manifest| && !InLedger(rows, manifest[j].id)
                   && issue == Issue(Pending, manifest[j].id, manifest[j].checksum, "")
    ensures ValidManifest(manifest) && NoDup(fromRows) ==> NoDup(issues)
  {
    issues, pending := fromRows, 0;
    for i := 0 to |manifest|
      invariant pending == MissingCount(manifest[..i], rows)
      invariant forall issue :: issue in issues <==>
                  issue in fromRows
                  || exists j ::
                       && 0 <= j < i && !InLedger(rows, manifest[j].id)
                       && issue == Issue(Pending, manifest[j].id, manifest[j].checksum, "")
      invariant ValidManifest(manifest) && NoDup(fromRows) ==> NoDup(issues)
    {
      assert manifest[..i + 1][..i] == manifest[..i];
      if InLedger(rows, manifest[i].id) {
        continue;
      }
      pending := pending + 1;
      PendingIsNew(manifest, i, fromRows, issues);
      issues := issues + [Issue(Pending, manifest[i].id, manifest[i].checksum, "")];
    }
    assert manifest[..|manifest|] == manifest;
  }

  /** What the k-th row reports is not reported yet. */
  lemma RowIssueIsNew(manifest: seq<Migration>, column: bool, rows: seq<Row>, k: nat, issues: seq<Issue>)
    requires k < |rows| && RowIssue(manifest, column, rows[k]).Some?
    requires forall issue :: issue in issues ==>
               (!column && issue == Issue(ColumnMissing, "", "", ""))
               || exists j :: 0 <= j < k && RowIssue(manifest, column, rows[j]) == Some(issue)
    ensures NoDup(RowIds(rows)) && NoDup(issues) ==> NoDup(issues + [RowIssue(manifest, column, rows[k]).value])
  {
    assert NoDup(RowIds(rows)) ==> forall j :: 0 <= j < k ==> RowIds(rows)[j] != RowIds(rows)[k];
    AddsNew(issues, RowIssue(manifest, column, rows[k]).value);
  }

  lemma AddsNew(issues: seq<Issue>, issue: Issue)
    ensures NoDup(issues) && issue !in issues ==> NoDup(issues + [issue])
  {
  }

  /** Nor is the i-th entry's absence. */
  lemma PendingIsNew(manifest: seq<Migration>, i: nat, fromRows: seq<Issue>, issues: seq<Issue>)
    requires i < |manifest|
    requires forall issue :: issue in fromRows ==> issue.code != Pending
    requires forall issue :: issue in issues ==>
               issue in fromRows || exists j ::
                 0 <= j < i && issue == Issue(Pending, manifest[j].id, manifest[j].checksum, "")
    ensures ValidManifest(manifest) && NoDup(issues) ==>
              NoDup(issues + [Issue(Pending, manifest[i].id, manifest[i].checksum, "")])
  {
    AddsNew(issues, Issue(Pending, manifest[i].id, manifest[i].checksum, ""));
  }

  lemma ByCodeThenIdOrders()
    ensures TotalPreorder(ByCodeThenId)
  {
    forall a: Issue, b: Issue ensures ByCodeThenId(a, b) || ByCodeThenId(b, a) {
      LessTrichotomy(a.id, b.id);
      if Text(a.code) == Text(b.code) {
        CodesDiffer(a.code, b.code);
      }
      LessTrichotomy(Text(a.code), Text(b.code));
    }
    forall a: Issue, b: Issue, c: Issue | ByCodeThenId(a, b) && ByCodeThenId(b, c) ensures ByCodeThenId(a, c) {
      if a.code == b.code && b.code == c.code {
        if a.id != b.id && b.id != c.id {
          LessTransitive(a.id, b.id, c.id);
        }
      } else if a.code != b.code && b.code != c.code {
        LessTransitive(Text(a.code), Text(b.code), Text(c.code));
        LessTrichotomy(Text(a.code), Text(b.code));
      }
    }
  }

  lemma CodesDiffer(a: Code, b: Code)
    requires Text(a) == Text(b)
    ensures a == b
  {
    assert |LEDGER_MISSING| == 24 && |COLUMN_MISSING| == 33 && |UNKNOWN_APPLIED| == 25;
    assert |CHECKSUM_MISSING| == 26 && |CHECKSUM_MISMATCH| == 27 && |PENDING| == 17;
  }

  /** IssueCodes: each code once, in text order. */
  method IssueCodes(issues: seq<Issue>) returns (codes: seq<string>)
    ensures forall c :: c in codes <==> exists issue :: issue in issues && Text(issue.code) == c
    ensures NoDup(codes) && Sorted(Leq, codes)
  {
    var seen: set<string> := {};
    var out: seq<string> := [];
    for i := 0 to |issues|
      invariant forall c :: c in seen <==> c in out
      invariant forall c :: c in out <==> exists k :: 0 <= k < i && Text(issues[k].code) == c
      invariant NoDup(out)
    {
      var code := Text(issues[i].code);
      if code !in seen {
        seen := seen + {code};
        out := out + [code];
      }
    }
    LeqIsOrder();
    SortSorts(Leq, out);
    SortMembers(Leq, out);
    SortNoDup(Leq, out);
    codes := Sort(Leq, out);
    forall c ensures c in codes <==> exists issue :: issue in issues && Text(issue.code) == c {
      if issue :| issue in issues && Text(issue.code) == c {
        var k :| 0 <= k < |issues| && issues[k] == issue;
        assert c in out;
      }
    }
  }

  // ----- counts -------------------------------------------------------------------

  function RowIds(rows: seq<Row>): (r: seq<string>)
    ensures |r| == |rows| && forall i :: 0 <= i < |rows| ==> r[i] == rows[i].id
  {
    seq(|rows|, i requires 0 <= i < |rows| => rows[i].id)
  }

  lemma {:induction false} MissingCountIsSize(manifest: seq<Migration>, rows: seq<Row>, known: set<string>,
      applied: set<string>)
    requires ValidManifest(manifest)
    requires known == (set id | id in Ids(manifest)) && applied == (set id | id in RowIds(rows))
    ensures MissingCount(manifest, rows) == |known - applied|
  {
    if manifest != [] {
      var front, last := manifest[..|manifest| - 1], manifest[|manifest| - 1].id;
      var known' := set id | id in Ids(front);
      MissingCountIsSize(front, rows, known', applied);
      LastIsNew(manifest);
      LedgerIds(rows, last);
      OneMore(known', applied, last);
      assert known == known' + {last};
    }
  }

  lemma LastIsNew(manifest: seq<Migration>)
    requires ValidManifest(manifest) && manifest != []
    ensures var front, last := manifest[..|manifest| - 1], manifest[|manifest| - 1].id;
            Ids(manifest) == Ids(front) + [last] && last !in Ids(front)
  {
  }

  lemma OneMore(known: set<string>, applied: set<string>, id: string)
    requires id !in known
    ensures |(known + {id}) - applied| == |known - applied| + (if id in applied then 0 else 1)
  {
    assert (known + {id}) - applied == (known - applied) + (if id in applied then {} else {id});
  }

  lemma LedgerIds(rows: seq<Row>, id: string)
    ensures InLedger(rows, id) <==> id in RowIds(rows)
  {
    if InLedger(rows, id) {
      var k :| 0 <= k < |rows| && rows[k].id == id;
      assert RowIds(rows)[k] == id;
    }
  }

  /** In every state, known + unknown applied = applied + pending. */
  lemma CountsBalance(manifest: seq<Migration>, rows: seq<Row>, column: bool, issues: seq<Issue>)
    requires ValidManifest(manifest) && NoDup(RowIds(rows))
    requires forall issue :: issue in issues <==> Reportable(manifest, rows, column, issue)
    ensures |manifest| + |set issue | issue in issues && issue.code.UnknownApplied? :: issue.id|
            == |rows| + MissingCount(manifest, rows)
  {
    var known, applied := set id | id in Ids(manifest), set id | id in RowIds(rows);
    var unknown := set issue | issue in issues && issue.code.UnknownApplied? :: issue.id;
    assert NoDup(Ids(manifest));
    NoDupSize(Ids(manifest), known);
    NoDupSize(RowIds(rows), applied);
    MissingCountIsSize(manifest, rows, known, applied);
    UnknownIds(manifest, rows, column, issues, known, applied);
    BothWays(known, applied);
  }

  lemma BothWays(a: set<string>, b: set<string>)
    ensures |a| + |b - a| == |b| + |a - b|
  {
    assert |a + b| == |a| + |b - a| by {
      assert a + b == a + (b - a);
    }
    assert |a + b| == |b| + |a - b| by {
      assert a + b == b + (a - b);
    }
  }

  lemma UnknownIds(manifest: seq<Migration>, rows: seq<Row>, column: bool, issues: seq<Issue>, known: set<string>,
      applied: set<string>)
    requires known == (set id | id in Ids(manifest)) && applied == (set id | id in RowIds(rows))
    requires forall issue :: issue in issues <==> Reportable(manifest, rows, column, issue)
    ensures (set issue | issue in issues && issue.code.UnknownApplied? :: issue.id) == applied - known
  {
    forall id ensures id in known <==> Expected(manifest, id).Some? {
      if Expected(manifest, id).Some? {
        var i :| 0 <= i < |manifest| && manifest[i].id == id;
        assert Ids(manifest)[i] == id;
      }
    }
    forall id | id in applied - known
      ensures id in set issue | issue in issues && issue.code.UnknownApplied? :: issue.id
    {
      var k :| 0 <= k < |rows| && RowIds(rows)[k] == id;
      assert RowIssue(manifest, column, rows[k]) == Some(Issue(UnknownApplied, id, "", ""));
      assert Issue(UnknownApplied, id, "", "") in issues;
    }
    forall issue | issue in issues && issue.code.UnknownApplied? ensures issue.id in applied - known {
      var k :| 0 <= k < |rows| && RowIssue(manifest, column, rows[k]) == Some(issue);
      assert RowIds(rows)[k] == issue.id;
    }
  }

  // ----- after Migrate has returned nil -------------------------------------------

  /** The rows of SELECT id, COALESCE(checksum, '') ORDER BY id, in any case each ledger row once. */
  ghost predicate RowsOf(ledger: Ledger, rows: seq<Row>) {
    && NoDup(RowIds(rows))
    && (forall k :: 0 <= k < |rows| ==> rows[k].id in ledger && ledger[rows[k].id] == rows[k].checksum)
    && (forall id :: id in ledger ==> InLedger(rows, id))
  }

  /** A manifest entry whose checksum was white space that btrim does not strip. */
  ghost predicate OddEntry(manifest: seq<Migration>, ledger: Ledger) {
    exists i :: 0 <= i < |manifest| && manifest[i].id in ledger && OddBlank(ledger[manifest[i].id])
  }

  lemma SettledRow(manifest: seq<Migration>, i: nat, row: Row)
    requires ValidManifest(manifest) && i < |manifest| && row.id == manifest[i].id && Settled(row.checksum, manifest[i])
    ensures RowIssue(manifest, true, row) ==
            if OddBlank(row.checksum) then Some(Issue(ChecksumMissing, row.id, manifest[i].checksum, "")) else None
  {
    ExpectedOf(manifest, i);
    TrimSpaceBlank(row.checksum);
  }

  /** What a nil return leaves in the ledger. */
  lemma LedgerAfterNil(manifest: seq<Migration>, start: Database, events: seq<Event>, pid: nat)
    requires ValidManifest(manifest)
    requires var w := Run(manifest, Idle(start), events); pid in w.procs && w.procs[pid] == Returned(true)
    ensures var ledger := Run(manifest, Idle(start), events).db.ledger;
            && SettledUpTo(manifest, ledger, |manifest|)
            && forall id :: id in ledger && OddBlank(ledger[id]) <==> id in start.ledger && OddBlank(start.ledger[id])
  {
    RunKeeps(manifest, start, Idle(start), events);
    var w := Run(manifest, Idle(start), events);
    assert ProcOk(manifest, w.db, w.procs[pid]);
  }

  lemma IdsMember(manifest: seq<Migration>, id: string)
    ensures id in Ids(manifest) <==> Expected(manifest, id).Some?
  {
    if Expected(manifest, id).Some? {
      var i :| 0 <= i < |manifest| && manifest[i].id == id;
      assert Ids(manifest)[i] == id;
    }
  }

  /** A settled ledger has nothing to report but unknown rows and odd blanks. */
  lemma SettledReport(manifest: seq<Migration>, ledger: Ledger, rows: seq<Row>, issue: Issue)
    requires ValidManifest(manifest) && RowsOf(ledger, rows) && SettledUpTo(manifest, ledger, |manifest|)
    requires Reportable(manifest, rows, true, issue)
    ensures issue.id in ledger
    ensures || (issue.code == UnknownApplied && issue.id !in Ids(manifest))
            || (issue.code == ChecksumMissing && OddBlank(ledger[issue.id]) && issue.id in Ids(manifest))
  {
    assert forall i :: 0 <= i < |manifest| ==> manifest[i].id in ledger && InLedger(rows, manifest[i].id);
    var k :| 0 <= k < |rows| && RowIssue(manifest, true, rows[k]) == Some(issue);
    IdsMember(manifest, rows[k].id);
    if i :| 0 <= i < |manifest| && manifest[i].id == rows[k].id {
      SettledRow(manifest, i, rows[k]);
    }
  }

  /** Once a process has returned nil, a health report names only unknown applied
      migrations, and blanks that the backfill could not match. */
  lemma HealthAfterNil(manifest: seq<Migration>, start: Database, events: seq<Event>, pid: nat, rows: seq<Row>,
      issue: Issue)
    requires ValidManifest(manifest)
    requires var w := Run(manifest, Idle(start), events);
             pid in w.procs && w.procs[pid] == Returned(true) && RowsOf(w.db.ledger, rows)
    requires Reportable(manifest, rows, true, issue)
    ensures || (issue.code == UnknownApplied && issue.id !in Ids(manifest))
            || (issue.code == ChecksumMissing && issue.id in start.ledger && OddBlank(start.ledger[issue.id])
               && issue.id in Ids(manifest))
  {
    LedgerAfterNil(manifest, start, events, pid);
    SettledReport(manifest, Run(manifest, Idle(start), events).db.ledger, rows, issue);
  }

  lemma SettledHealthy(manifest: seq<Migration>, ledger: Ledger, rows: seq<Row>)
    requires ValidManifest(manifest) && RowsOf(ledger, rows) && SettledUpTo(manifest, ledger, |manifest|)
    ensures (forall issue :: !Reportable(manifest, rows, true, issue)) <==>
            (forall id :: id in ledger ==> id in Ids(manifest)) && !OddEntry(manifest, ledger)
  {
    if issue :| Reportable(manifest, rows, true, issue) {
      SettledReport(manifest, ledger, rows, issue);
      if issue.id in Ids(manifest) {
        var i :| 0 <= i < |manifest| && Ids(manifest)[i] == issue.id;
        assert manifest[i].id == issue.id;
      }
    }
    if id :| id in ledger && id !in Ids(manifest) {
      var k :| 0 <= k < |rows| && rows[k].id == id;
      IdsMember(manifest, id);
      assert Reportable(manifest, rows, true, Issue(UnknownApplied, id, "", ""));
    }
    if i :| 0 <= i < |manifest| && manifest[i].id in ledger && OddBlank(ledger[manifest[i].id]) {
      var k :| 0 <= k < |rows| && rows[k].id == manifest[i].id;
      SettledRow(manifest, i, rows[k]);
      assert Reportable(manifest, rows, true, Issue(ChecksumMissing, rows[k].id, manifest[i].checksum, ""));
    }
  }

  /** So after nil the report is healthy exactly when the ledger holds only manifest
      entries and no entry started out with such a blank checksum. */
  lemma HealthyAfterNil(manifest: seq<Migration>, start: Database, events: seq<Event>, pid: nat, rows: seq<Row>)
    requires ValidManifest(manifest)
    requires var w := Run(manifest, Idle(start), events);
             pid in w.procs && w.procs[pid] == Returned(true) && RowsOf(w.db.ledger, rows)
    ensures var db := Run(manifest, Idle(start), events).db;
            (forall issue :: !Reportable(manifest, rows, true, issue)) <==>
            (forall id :: id in db.ledger ==> id in Ids(manifest)) && !OddEntry(manifest, start.ledger)
  {
    LedgerAfterNil(manifest, start, events, pid);
    var ledger := Run(manifest, Idle(start), events).db.ledger;
    SettledHealthy(manifest, ledger, rows);
    assert OddEntry(manifest, ledger) <==> OddEntry(manifest, start.ledger);
  }

  /** Such a checksum exists: a lone tab is blank to the runner and not to the backfill. */
  lemma TabIsOddBlank()
    ensures OddBlank("\t")
  {
    assert "\t"[0] != ' ';
  }

  /** A ledger whose one entry has a lone tab for a checksum. */
  function TabLedger(m: Migration): Database {
    Database(true, true, map[m.id := "\t"], [m.id])
  }

  lemma TabScan(m: Migration)
    ensures ScanLedger(TabLedger(m).ledger) == map[m.id := ""]
    ensures BackfillChecksum(TabLedger(m).ledger, m) == TabLedger(m).ledger
  {
    TabIsOddBlank();
    TrimSpaceBlank("\t");
    assert TabLedger(m).ledger[m.id] == "\t";
  }

  /** And with it a migration that returns nil leaves the report unhealthy. */
  lemma TabStaysUnhealthy(m: Migration, pid: nat) returns (events: seq<Event>)
    requires ValidManifest([m])
    ensures var w := Run([m], Idle(TabLedger(m)), events);
            && pid in w.procs && w.procs[pid] == Returned(true)
            && w.db == TabLedger(m) && RowsOf(w.db.ledger, [Row(m.id, "\t")])
    ensures Reportable([m], [Row(m.id, "\t")], true, Issue(ChecksumMissing, m.id, m.checksum, ""))
  {
    var db, step := TabLedger(m), Step(pid, Done);
    var w0 := Idle(db);
    var w1 := Next([m], w0, Call(pid));
    var w2 := Next([m], w1, Grant(pid));
    var w3 := Next([m], w2, step);
    var w4 := Next([m], w3, step);
    var w5 := Next([m], w4, step);
    TabScan(m);
    assert w5.db == db && w5.procs[pid] == Scanning(map[m.id := ""], 0);
    var w6 := Next([m], w5, step);
    var w7 := Next([m], w6, step);
    assert w7.db == db && w7.procs[pid] == Returned(true);
    RunCons([m], w6, step, []);
    RunCons([m], w5, step, [step] + []);
    RunCons([m], w4, step, [step] + ([step] + []));
    RunCons([m], w3, step, [step] + ([step] + ([step] + [])));
    RunCons([m], w2, step, [step] + ([step] + ([step] + ([step] + []))));
    events := [step] + ([step] + ([step] + ([step] + ([step] + []))));
    RunCons([m], w1, Grant(pid), events);
    events := [Grant(pid)] + events;
    RunCons([m], w0, Call(pid), events);
    events := [Call(pid)] + events;
    TabReported(m);
  }

  lemma TabReported(m: Migration)
    requires ValidManifest([m])
    ensures RowsOf(TabLedger(m).ledger, [Row(m.id, "\t")])
    ensures Reportable([m], [Row(m.id, "\t")], true, Issue(ChecksumMissing, m.id, m.checksum, ""))
  {
    var rows := [Row(m.id, "\t")];
    TrimSpaceBlank("\t");
    ExpectedOf([m], 0);
    assert rows[0].id == m.id && RowIssue([m], true, rows[0]) == Some(Issue(ChecksumMissing, m.id, m.checksum, ""));
  }

  // ----- row by row -----------------------------------------------------------------------

  /** What is reported of a row: a checksum that is not the manifest's, with both; a blank
      one; an id the manifest does not know; and nothing of a row in order. */
  lemma RowReported(manifest: seq<Migration>, i: nat, checksum: string)
    requires ValidManifest(manifest) && i < |manifest|
    ensures RowIssue(manifest, true, Row(manifest[i].id, checksum)) ==
            if Blank(checksum) then Some(Issue(ChecksumMissing, manifest[i].id, manifest[i].checksum, ""))
            else if TrimSpace(checksum) == manifest[i].checksum then None
            else Some(Issue(ChecksumMismatch, manifest[i].id, manifest[i].checksum, TrimSpace(checksum)))
    ensures RowIssue(manifest, false, Row(manifest[i].id, checksum)) == None
  {
    ExpectedOf(manifest, i);
    TrimSpaceBlank(checksum);
  }

  lemma StrangerReported(manifest: seq<Migration>, column: bool, row: Row)
    requires forall i :: 0 <= i < |manifest| ==> manifest[i].id != row.id
    ensures RowIssue(manifest, column, row) == Some(Issue(UnknownApplied, row.id, "", ""))
  {
    assert Expected(manifest, row.id).None?;
  }

  /** So a recorded checksum that differs from the manifest's is in every report. */
  lemma DriftIsReported(manifest: seq<Migration>, rows: seq<Row>, k: nat, i: nat)
    requires ValidManifest(manifest) && k < |rows| && i < |manifest| && rows[k].id == manifest[i].id
    requires !Blank(rows[k].checksum) && TrimSpace(rows[k].checksum) != manifest[i].checksum
    ensures Reportable(manifest, rows, true,
              Issue(ChecksumMismatch, manifest[i].id, manifest[i].checksum, TrimSpace(rows[k].checksum)))
  {
    RowReported(manifest, i, rows[k].checksum);
    assert rows[k] == Row(manifest[i].id, rows[k].checksum);
  }

  lemma CodesAre()
    ensures Text(LedgerMissing) == "MIGRATION_LEDGER_MISSING" && Text(Pending) == "MIGRATION_PENDING"
    ensures Text(ColumnMissing) == "MIGRATION_CHECKSUM_COLUMN_MISSING"
            && Text(UnknownApplied) == "MIGRATION_UNKNOWN_APPLIED"
    ensures Text(ChecksumMissing) == "MIGRATION_CHECKSUM_MISSING"
            && Text(ChecksumMismatch) == "MIGRATION_CHECKSUM_MISMATCH"
  {
  }

  /** A checksum of spaces alone is replaced by the manifest's, and one of other white space
      is not. */
  lemma SpacesAreBackfilled(ledger: Ledger, m: Migration)
    requires m.id in ledger
    ensures (forall i :: 0 <= i < |ledger[m.id]| ==> ledger[m.id][i] == ' ') ==>
            BackfillChecksum(ledger, m)[m.id] == m.checksum
    ensures (exists i :: 0 <= i < |ledger[m.id]| && ledger[m.id][i] != ' ') ==> BackfillChecksum(ledger, m) == ledger
  {
  }
}
