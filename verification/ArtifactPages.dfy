/** internal/pindoc/httpapi/handlers.go, handleArtifactList: one page of artifacts, from
    a cursor that names the last row shown before. */
module ArtifactPages {
  import opened Wrappers
  import opened Strings
  import opened Sorting

  /** A row the list's other predicates let through. */
  datatype Row = Row(id: string, kind: string, updatedAt: int)

  datatype Cursor = Cursor(rank: int, updatedAt: int, id: string)

  const DEFAULT_LIMIT := 100
  const MAX_LIMIT := 200

  function TaskRank(kind: string): int {
    if kind == "Task" then 1 else 0
  }

  function KeyOf(row: Row): Cursor {
    Cursor(TaskRank(row.kind), row.updatedAt, row.id)
  }

  /** ORDER BY rank ASC, updated_at DESC, id DESC. */
  predicate Before(a: Cursor, b: Cursor) {
    a.rank < b.rank
      || (a.rank == b.rank && (a.updatedAt > b.updatedAt || (a.updatedAt == b.updatedAt && Less(b.id, a.id))))
  }

  predicate RowLeq(a: Row, b: Row) {
    !Before(KeyOf(b), KeyOf(a))
  }

  lemma BeforeIsStrict(a: Cursor, b: Cursor)
    ensures a == b || Before(a, b) || Before(b, a)
    ensures !(Before(a, b) && Before(b, a)) && (a == b ==> !Before(a, b))
  {
    LessTrichotomy(a.id, b.id);
  }

  lemma BeforeTransitive(a: Cursor, b: Cursor, c: Cursor)
    requires Before(a, b) && Before(b, c)
    ensures Before(a, c)
  {
    if Less(b.id, a.id) && Less(c.id, b.id) {
      LessTransitive(c.id, b.id, a.id);
    }
  }

  /** At or before, then before. */
  lemma NotAfterThenBefore(a: Cursor, b: Cursor, c: Cursor)
    requires !Before(b, a) && Before(b, c)
    ensures Before(a, c)
  {
    BeforeIsStrict(a, b);
    if a != b {
      BeforeTransitive(a, b, c);
    }
  }

  lemma RowOrder()
    ensures TotalPreorder(RowLeq)
  {
    forall a, b ensures RowLeq(a, b) || RowLeq(b, a) {
      BeforeIsStrict(KeyOf(a), KeyOf(b));
    }
    forall a, b, c | RowLeq(a, b) && RowLeq(b, c) ensures RowLeq(a, c) {
      if Before(KeyOf(c), KeyOf(a)) {
        BeforeIsStrict(KeyOf(a), KeyOf(b));
        BeforeIsStrict(KeyOf(b), KeyOf(c));
        NotAfterThenBefore(KeyOf(b), KeyOf(c), KeyOf(a));
      }
    }
  }

  ghost predicate DistinctIds(rows: seq<Row>) {
    forall i, j :: 0 <= i < j < |rows| ==> rows[i].id != rows[j].id
  }

  lemma Distinct(rows: seq<Row>, a: Row, b: Row)
    requires DistinctIds(rows) && a in rows && b in rows && a.id == b.id
    ensures a == b
  {
  }

  lemma RowsUntied(rows: seq<Row>)
    requires DistinctIds(rows)
    ensures Untied(RowLeq, rows) && NoDup(rows)
  {
    forall a, b | a in rows && b in rows && RowLeq(a, b) && RowLeq(b, a) ensures a == b {
      BeforeIsStrict(KeyOf(a), KeyOf(b));
      Distinct(rows, a, b);
    }
  }

  // ----- one request --------------------------------------------------------------------

  predicate Passes(row: Row, cursor: Option<Cursor>) {
    cursor.None? || Before(cursor.value, KeyOf(row))
  }

  /** WHERE. */
  function Selected(rows: seq<Row>, cursor: Option<Cursor>): seq<Row> {
    if rows == [] then []
    else
      var n := |rows| - 1;
      if Passes(rows[n], cursor) then Selected(rows[..n], cursor) + [rows[n]] else Selected(rows[..n], cursor)
  }

  /** WHERE and ORDER BY. */
  function Listing(rows: seq<Row>, cursor: Option<Cursor>): seq<Row> {
    Sort(RowLeq, Selected(rows, cursor))
  }

  datatype Page = Page(rows: seq<Row>, hasMore: bool, next: Option<Cursor>)

  function PageOf(rows: seq<Row>, cursor: Option<Cursor>, limit: nat): Page
    requires limit > 0
  {
    var listing := Listing(rows, cursor);
    var shown := Take(listing, limit);
    Page(shown, |listing| > limit, if |listing| > limit then Some(KeyOf(shown[limit - 1])) else None)
  }

  /** The handler: it asks for one row more than it shows, to see whether there is more. */
  method ListArtifacts(rows: seq<Row>, cursor: Option<Cursor>, limit: nat) returns (page: Page)
    requires limit > 0
    ensures page == PageOf(rows, cursor, limit)
  {
    var result := Take(Listing(rows, cursor), limit + 1);
    var out: seq<Row> := [];
    for i := 0 to |result|
      invariant out == result[..i]
    {
      out := out + [result[i]];
    }
    var hasMore := |out| > limit;
    if hasMore {
      out := out[..limit];
    }
    var next: Option<Cursor> := None;
    if hasMore && |out| > 0 {
      next := Some(KeyOf(out[|out| - 1]));
    }
    page := Page(out, hasMore, next);
  }

  lemma {:induction false} SelectedMembers(rows: seq<Row>, cursor: Option<Cursor>)
    ensures forall row :: row in Selected(rows, cursor) <==> row in rows && Passes(row, cursor)
    ensures DistinctIds(rows) ==> DistinctIds(Selected(rows, cursor))
  {
    if rows != [] {
      var n := |rows| - 1;
      SelectedMembers(rows[..n], cursor);
      var front := Selected(rows[..n], cursor);
      assert rows == rows[..n] + [rows[n]];
      forall i | 0 <= i < |front| ensures front[i] in rows[..n] {
        assert front[i] in front;
      }
    }
  }

  /** A listing shows each selected row once, each strictly before the next. */
  lemma ListingOrdered(rows: seq<Row>, cursor: Option<Cursor>)
    requires DistinctIds(rows)
    ensures forall row :: row in Listing(rows, cursor) <==> row in rows && Passes(row, cursor)
    ensures forall i, j :: 0 <= i < j < |Listing(rows, cursor)| ==>
            Before(KeyOf(Listing(rows, cursor)[i]), KeyOf(Listing(rows, cursor)[j]))
  {
    var selected, listing := Selected(rows, cursor), Listing(rows, cursor);
    SelectedMembers(rows, cursor);
    SortMembers(RowLeq, selected);
    RowOrder();
    SortSorts(RowLeq, selected);
    RowsUntied(selected);
    SortNoDup(RowLeq, selected);
    forall i, j | 0 <= i < j < |listing| ensures Before(KeyOf(listing[i]), KeyOf(listing[j])) {
      assert RowLeq(listing[i], listing[j]) && listing[i] != listing[j];
      assert listing[i] in selected && listing[j] in selected;
      BeforeIsStrict(KeyOf(listing[i]), KeyOf(listing[j]));
    }
  }

  // ----- the query parameters ----------------------------------------------------------------

  const ZERO_TIME: int := 0

  /** The checks decodeArtifactListCursor makes on a payload; base64 and JSON are taken to round-trip. */
  function DecodeCursor(payload: Cursor): (r: Option<Cursor>)
  {
    if payload.rank < 0 || payload.rank > 1 || payload.updatedAt == ZERO_TIME || TrimSpace(payload.id) == "" then None
      else Some(payload)
  }

  /** A next_cursor is accepted, as the key of the row it names, exactly when that row has
      an update time and an id. */
  lemma CursorRoundTrips(row: Row)
    ensures DecodeCursor(KeyOf(row)) == Some(KeyOf(row)) <==> row.updatedAt != ZERO_TIME && !Blank(row.id)
    ensures DecodeCursor(KeyOf(row)).Some? ==> DecodeCursor(KeyOf(row)).value == KeyOf(row)
  {
    TrimSpaceBlank(row.id);
  }

  /** Decimal digits. */
  function Digits(s: string): (n: Option<nat>) {
    if s == "" then None
    else
      var last := s[|s| - 1];
      if !('0' <= last <= '9') then None
      else if |s| == 1 then Some(last as nat - '0' as nat)
      else
        match Digits(s[..|s| - 1])
        case None => None
        case Some(front) => Some(10 * front + (last as nat - '0' as nat))
  }

  /** strconv.Atoi within 64 bits: an optional sign and decimal digits. */
  function Atoi(s: string): Option<int> {
    if s == "" then None
    else
      var negative := s[0] == '-';
      match Digits(if negative || s[0] == '+' then s[1..] else s)
      case None => None
      case Some(n) =>
        if negative then (if n <= 0x8000_0000_0000_0000 then Some((0 - n) as int) else None)
        else if n < 0x8000_0000_0000_0000 then Some(n) else None
  }

  /** parseArtifactListLimit; None is the error. */
  function ParseLimit(raw: string): (r: Option<nat>)
    ensures r.Some? ==> 1 <= r.value <= MAX_LIMIT
    ensures Blank(raw) ==> r == Some(DEFAULT_LIMIT)
    ensures !Blank(raw) ==> (r.None? <==> Atoi(raw).None? || Atoi(raw).value <= 0)
    ensures !Blank(raw) && r.Some? ==>
            r.value <= Atoi(raw).value && (Atoi(raw).value <= MAX_LIMIT ==> r.value == Atoi(raw).value)
  {
    TrimSpaceBlank(raw);
    if TrimSpace(raw) == "" then Some(DEFAULT_LIMIT)
    else
      match Atoi(raw)
      case None => None
      case Some(n) => if n <= 0 then None else if n > MAX_LIMIT then Some(MAX_LIMIT) else Some(n)
  }

  // ----- the order, and the limit, by their values -------------------------------------------

  /** Other artifacts before Tasks; then the one updated later; then the greater id. */
  lemma OrderIs(a: Row, b: Row)
    ensures Before(KeyOf(a), KeyOf(b)) <==>
            || (a.kind != "Task" && b.kind == "Task")
            || ((a.kind == "Task" <==> b.kind == "Task")
                && (a.updatedAt > b.updatedAt || (a.updatedAt == b.updatedAt && Less(b.id, a.id))))
  {
  }

  /** What a listing behind a row holds: the rows after it. */
  lemma BehindARow(rows: seq<Row>, last: Row, row: Row)
    requires DistinctIds(rows)
    ensures row in Listing(rows, Some(KeyOf(last))) <==> row in rows && Before(KeyOf(last), KeyOf(row))
    ensures row in Listing(rows, None) <==> row in rows
  {
    ListingOrdered(rows, Some(KeyOf(last)));
    ListingOrdered(rows, None);
  }

  /** There is more exactly when some row that passes is not shown, and then the cursor names the last row
      shown. */
  lemma MoreMeans(rows: seq<Row>, cursor: Option<Cursor>, limit: nat)
    requires limit > 0 && DistinctIds(rows)
    ensures var page := PageOf(rows, cursor, limit);
            && (page.hasMore <==> exists row :: row in rows && Passes(row, cursor) && row !in page.rows)
            && page.next == (if page.hasMore then Some(KeyOf(page.rows[|page.rows| - 1])) else None)
            && |page.rows| == (if |Listing(rows, cursor)| > limit then limit else |Listing(rows, cursor)|)
  {
    var listing, page := Listing(rows, cursor), PageOf(rows, cursor, limit);
    ListingOrdered(rows, cursor);
    if page.hasMore {
      var row := listing[limit];
      forall i | 0 <= i < limit ensures page.rows[i] != row {
        assert Before(KeyOf(listing[i]), KeyOf(listing[limit]));
        BeforeIsStrict(KeyOf(listing[i]), KeyOf(listing[limit]));
      }
      assert row in listing;
    } else {
      assert page.rows == listing;
    }
  }

  /** A cursor is taken when its rank is 0 or 1 and its time and id are there. */
  lemma DecodedWhen(payload: Cursor)
    ensures DecodeCursor(payload) ==
            if payload.rank in {0, 1} && payload.updatedAt != 0 && !Blank(payload.id) then Some(payload) else None
  {
    TrimSpaceBlank(payload.id);
  }

  function Decimal(n: nat): string {
    if n < 10 then ['0' + (n as char)] else Decimal(n / 10) + ['0' + ((n % 10) as char)]
  }

  lemma {:induction false} DigitsOfDecimal(n: nat)
    ensures Decimal(n) != "" && Digits(Decimal(n)) == Some(n)
    ensures '0' <= Decimal(n)[0] <= '9'
  {
    if n >= 10 {
      DigitsOfDecimal(n / 10);
      var s := Decimal(n);
      assert s[..|s| - 1] == Decimal(n / 10);
    }
  }

  lemma SignedText(s: string, n: nat)
    requires s != "" && '0' <= s[0] <= '9' && Digits(s) == Some(n)
    ensures Atoi(s) == if n < 0x8000_0000_0000_0000 then Some(n as int) else None
    ensures Atoi("+" + s) == Atoi(s)
    ensures Atoi("-" + s) == if n <= 0x8000_0000_0000_0000 then Some(0 - n) else None
  {
    assert ("-" + s)[1..] == s && ("+" + s)[1..] == s;
  }

  /** Numbers are read as they are written, signs and all, up to 64 bits. */
  lemma NumbersRead(n: nat)
    ensures n < 0x8000_0000_0000_0000 ==> Atoi(Decimal(n)) == Some(n) && Atoi("+" + Decimal(n)) == Some(n)
    ensures n <= 0x8000_0000_0000_0000 ==> Atoi("-" + Decimal(n)) == Some(0 - n)
    ensures n >= 0x8000_0000_0000_0000 ==> Atoi(Decimal(n)) == None
  {
    DigitsOfDecimal(n);
    SignedText(Decimal(n), n);
  }

  /** And nothing else is a number. */
  lemma {:induction false} OnlyDigits(s: string)
    ensures Digits(s).Some? <==> s != "" && forall i :: 0 <= i < |s| ==> '0' <= s[i] <= '9'
  {
    if |s| > 1 {
      OnlyDigits(s[..|s| - 1]);
    }
  }

  lemma LimitOfNumber(s: string, n: nat)
    requires s != "" && !IsSpace(s[0]) && Atoi(s) == Some(n)
    ensures ParseLimit(s) == if n == 0 then None else if n > 200 then Some(200) else Some(n)
  {
    assert !Blank(s);
  }

  /** The limit asked for, by its text: 100 for none, at most 200, and an error below one. */
  lemma LimitIs(n: nat)
    requires n < 0x8000_0000_0000_0000
    ensures ParseLimit(Decimal(n)) == if n == 0 then None else if n > 200 then Some(200) else Some(n)
    ensures ParseLimit("") == Some(100)
  {
    NumbersRead(n);
    DigitsOfDecimal(n);
    LimitOfNumber(Decimal(n), n);
  }
}
