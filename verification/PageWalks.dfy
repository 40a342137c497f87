/** A client of handleArtifactList that follows next_cursor from page to page, over rows
    that may be updated between its requests. */
module PageWalks {
  import opened Wrappers
  import opened Strings
  import opened Sorting
  import opened ArtifactPages

  // ----- walking the pages --------------------------------------------------------------

  /** The same artifacts, some of them updated: updated_at only grows. */
  ghost predicate Evolves(now: seq<Row>, later: seq<Row>) {
    |later| == |now| && forall i :: 0 <= i < |now| ==>
      later[i].id == now[i].id && later[i].kind == now[i].kind && later[i].updatedAt >= now[i].updatedAt
  }

  /** The rows as each request of the walk finds them. */
  ghost predicate History(tables: seq<seq<Row>>) {
    && (forall k :: 0 <= k < |tables| ==> DistinctIds(tables[k]))
    && (forall j, k :: 0 <= j <= k < |tables| ==> Evolves(tables[j], tables[k]))
  }

  /** The cursor of request k: the next_cursor of the request before. */
  function CursorAt(tables: seq<seq<Row>>, limit: nat, k: nat): Option<Cursor>
    requires limit > 0 && k <= |tables|
    decreases k, 0
  {
    if k == 0 then None else PageAt(tables, limit, k - 1).next
  }

  function PageAt(tables: seq<seq<Row>>, limit: nat, k: nat): Page
    requires limit > 0 && k < |tables|
    decreases k, 1
  {
    PageOf(tables[k], CursorAt(tables, limit, k), limit)
  }

  /** The client goes on as long as there is more. */
  ghost predicate Walk(tables: seq<seq<Row>>, limit: nat) {
    limit > 0 && History(tables) && forall k :: 0 <= k < |tables| - 1 ==> PageAt(tables, limit, k).hasMore
  }

  lemma NextNamesLast(tables: seq<seq<Row>>, limit: nat, k: nat)
    requires Walk(tables, limit) && k < |tables| && PageAt(tables, limit, k).hasMore
    ensures var page := PageAt(tables, limit, k);
            && |page.rows| == limit && page.next == Some(KeyOf(page.rows[limit - 1]))
            && forall i :: 0 <= i < limit ==> !Before(page.next.value, KeyOf(page.rows[i]))
  {
    ListingOrdered(tables[k], CursorAt(tables, limit, k));
    var page := PageAt(tables, limit, k);
    BeforeIsStrict(page.next.value, page.next.value);
    forall i | 0 <= i < limit ensures !Before(page.next.value, KeyOf(page.rows[i])) {
      BeforeIsStrict(page.next.value, KeyOf(page.rows[i]));
    }
  }

  lemma PageMembers(tables: seq<seq<Row>>, limit: nat, k: nat)
    requires Walk(tables, limit) && k < |tables|
    ensures forall row :: row in PageAt(tables, limit, k).rows ==>
            row in tables[k] && Passes(row, CursorAt(tables, limit, k))
  {
    ListingOrdered(tables[k], CursorAt(tables, limit, k));
  }

  /** Cursors only move on. */
  lemma {:induction false} CursorsAdvance(tables: seq<seq<Row>>, limit: nat, j: nat, k: nat)
    requires Walk(tables, limit) && 0 < j <= k < |tables|
    ensures CursorAt(tables, limit, j).Some? && CursorAt(tables, limit, k).Some?
    ensures !Before(CursorAt(tables, limit, k).value, CursorAt(tables, limit, j).value)
  {
    NextNamesLast(tables, limit, k - 1);
    if j == k {
      BeforeIsStrict(CursorAt(tables, limit, k).value, CursorAt(tables, limit, k).value);
    } else {
      CursorsAdvance(tables, limit, j, k - 1);
      PageMembers(tables, limit, k - 1);
      var a, b, c :=
        CursorAt(tables, limit, j).value, CursorAt(tables, limit, k - 1).value, CursorAt(tables, limit, k).value;
      assert PageAt(tables, limit, k - 1).rows[limit - 1] in PageAt(tables, limit, k - 1).rows;
      assert Before(b, c);
      NotAfterThenBefore(a, b, c);
      BeforeIsStrict(a, c);
    }
  }

  /** A row updated later comes no later in the order. */
  lemma UpdatesMoveUp(now: seq<Row>, later: seq<Row>, a: Row, b: Row)
    requires Evolves(now, later) && DistinctIds(now) && a in now && b in later && a.id == b.id
    ensures !Before(KeyOf(a), KeyOf(b))
  {
    var i :| 0 <= i < |later| && later[i] == b;
    Distinct(now, now[i], a);
    LessTrichotomy(a.id, a.id);
  }

  /** No artifact is shown twice, whatever is updated between the requests. */
  lemma NothingTwice(tables: seq<seq<Row>>, limit: nat, j: nat, k: nat, a: Row, b: Row)
    requires Walk(tables, limit) && j < k < |tables|
    requires a in PageAt(tables, limit, j).rows && b in PageAt(tables, limit, k).rows
    ensures a.id != b.id
  {
    PageMembers(tables, limit, j);
    PageMembers(tables, limit, k);
    NextNamesLast(tables, limit, j);
    CursorsAdvance(tables, limit, j + 1, k);
    var i :| 0 <= i < limit && PageAt(tables, limit, j).rows[i] == a;
    var first, cursor := CursorAt(tables, limit, j + 1).value, CursorAt(tables, limit, k).value;
    NotAfterThenBefore(first, cursor, KeyOf(b));
    NotAfterThenBefore(KeyOf(a), first, KeyOf(b));
    if a.id == b.id {
      UpdatesMoveUp(tables[j], tables[k], a, b);
    }
  }

  lemma PageDistinct(tables: seq<seq<Row>>, limit: nat, k: nat)
    requires Walk(tables, limit) && k < |tables|
    ensures DistinctIds(PageAt(tables, limit, k).rows)
  {
    var rows := PageAt(tables, limit, k).rows;
    ListingOrdered(tables[k], CursorAt(tables, limit, k));
    forall i, j | 0 <= i < j < |rows| ensures rows[i].id != rows[j].id {
      BeforeIsStrict(KeyOf(rows[i]), KeyOf(rows[j]));
      assert rows[i] in rows && rows[j] in rows;
      if rows[i].id == rows[j].id {
        Distinct(tables[k], rows[i], rows[j]);
      }
    }
  }

  /** The row is on one of the first k pages. */
  ghost predicate ShownWithin(tables: seq<seq<Row>>, limit: nat, row: Row, k: nat)
    requires limit > 0 && k <= |tables|
  {
    exists j :: 0 <= j < k && row in PageAt(tables, limit, j).rows
  }

  lemma ShownLonger(tables: seq<seq<Row>>, limit: nat, row: Row, k: nat)
    requires limit > 0 && k < |tables| && (ShownWithin(tables, limit, row, k) || row in PageAt(tables, limit, k).rows)
    ensures ShownWithin(tables, limit, row, k + 1)
  {
    if row !in PageAt(tables, limit, k).rows {
      var j :| 0 <= j < k && row in PageAt(tables, limit, j).rows;
      assert j < k + 1;
    }
  }

  /** A row nobody updates, once the cursor is past it, has been shown. */
  lemma {:induction false} ShownBy(tables: seq<seq<Row>>, limit: nat, row: Row, k: nat)
    requires Walk(tables, limit) && k < |tables| && forall j :: 0 <= j < |tables| ==> row in tables[j]
    ensures Passes(row, CursorAt(tables, limit, k)) || ShownWithin(tables, limit, row, k)
  {
    if k > 0 {
      ShownBy(tables, limit, row, k - 1);
      if ShownWithin(tables, limit, row, k - 1) || row in PageAt(tables, limit, k - 1).rows {
        ShownLonger(tables, limit, row, k - 1);
      } else {
        StillAhead(tables, limit, row, k - 1);
      }
    }
  }

  lemma StillAhead(tables: seq<seq<Row>>, limit: nat, row: Row, k: nat)
    requires Walk(tables, limit) && k < |tables| && row in tables[k] && Passes(row, CursorAt(tables, limit, k))
    requires row !in PageAt(tables, limit, k).rows
    ensures PageAt(tables, limit, k).hasMore && Passes(row, PageAt(tables, limit, k).next)
  {
    var listing := Listing(tables[k], CursorAt(tables, limit, k));
    ListingOrdered(tables[k], CursorAt(tables, limit, k));
    var i :| 0 <= i < |listing| && listing[i] == row;
    InTake(listing, limit, i);
    assert Before(KeyOf(listing[limit - 1]), KeyOf(listing[i]));
  }

  /** A finished walk shows every untouched artifact, and by NothingTwice exactly once. */
  lemma UntouchedShown(tables: seq<seq<Row>>, limit: nat, row: Row)
    requires Walk(tables, limit) && tables != [] && !PageAt(tables, limit, |tables| - 1).hasMore
    requires forall k :: 0 <= k < |tables| ==> row in tables[k]
    ensures ShownWithin(tables, limit, row, |tables|)
  {
    var last := |tables| - 1;
    ShownBy(tables, limit, row, last);
    if row !in PageAt(tables, limit, last).rows && !ShownWithin(tables, limit, row, last) {
      StillAhead(tables, limit, row, last);
    }
    ShownLonger(tables, limit, row, last);
  }

  // ----- the walk ends --------------------------------------------------------------------

  function Ids(rows: seq<Row>): seq<string> {
    seq(|rows|, i requires 0 <= i < |rows| => rows[i].id)
  }

  /** The ids on the first k pages. */
  function ShownIds(tables: seq<seq<Row>>, limit: nat, k: nat): seq<string>
    requires limit > 0 && k <= |tables|
  {
    if k == 0 then [] else ShownIds(tables, limit, k - 1) + Ids(PageAt(tables, limit, k - 1).rows)
  }

  lemma {:induction false} ShownOn(tables: seq<seq<Row>>, limit: nat, k: nat, id: string) returns (j: nat, row: Row)
    requires limit > 0 && k <= |tables| && id in ShownIds(tables, limit, k)
    ensures j < k && row in PageAt(tables, limit, j).rows && row.id == id
  {
    var rows := PageAt(tables, limit, k - 1).rows;
    if id in ShownIds(tables, limit, k - 1) {
      j, row := ShownOn(tables, limit, k - 1, id);
    } else {
      assert id in Ids(rows);
      var i :| 0 <= i < |rows| && Ids(rows)[i] == id;
      j, row := k - 1, rows[i];
    }
  }

  /** Page k repeats no id, of its own or of a page before it. */
  ghost predicate PageIsNew(tables: seq<seq<Row>>, limit: nat, k: nat)
    requires limit > 0 && k < |tables|
  {
    var page := PageAt(tables, limit, k).rows;
    DistinctIds(page) && forall row :: row in page ==> row.id !in ShownIds(tables, limit, k)
  }

  lemma PagesAreNew(tables: seq<seq<Row>>, limit: nat, k: nat)
    requires Walk(tables, limit) && k < |tables|
    ensures PageIsNew(tables, limit, k)
  {
    PageDistinct(tables, limit, k);
    forall row | row in PageAt(tables, limit, k).rows && row.id in ShownIds(tables, limit, k) ensures false {
      var m, shown := ShownOn(tables, limit, k, row.id);
      NothingTwice(tables, limit, m, k, shown, row);
    }
  }

  lemma NewIds(front: seq<string>, page: seq<Row>)
    requires NoDup(front) && DistinctIds(page) && forall row :: row in page ==> row.id !in front
    ensures NoDup(front + Ids(page))
  {
    forall i, j | 0 <= i < |front| && 0 <= j < |page| ensures front[i] != page[j].id {
      assert page[j] in page && front[i] in front;
    }
  }

  lemma {:induction false} ShownNoDup(tables: seq<seq<Row>>, limit: nat, k: nat)
    requires limit > 0 && k <= |tables| && forall j :: 0 <= j < k ==> PageIsNew(tables, limit, j)
    ensures NoDup(ShownIds(tables, limit, k))
  {
    if k > 0 {
      ShownNoDup(tables, limit, k - 1);
      assert PageIsNew(tables, limit, k - 1);
      NewIds(ShownIds(tables, limit, k - 1), PageAt(tables, limit, k - 1).rows);
    }
  }

  /** The number of rows on k full pages. */
  function Offset(limit: nat, k: nat): (n: nat)
    ensures n == k * limit
  {
    if k == 0 then 0 else Offset(limit, k - 1) + limit
  }

  lemma {:induction false} FullPages(tables: seq<seq<Row>>, limit: nat, k: nat)
    requires Walk(tables, limit) && k <= |tables| && forall j :: 0 <= j < k ==> PageAt(tables, limit, j).hasMore
    ensures |ShownIds(tables, limit, k)| == Offset(limit, k)
  {
    if k > 0 {
      FullPages(tables, limit, k - 1);
      NextNamesLast(tables, limit, k - 1);
      assert |Ids(PageAt(tables, limit, k - 1).rows)| == limit;
    }
  }

  lemma ShownExist(tables: seq<seq<Row>>, limit: nat, k: nat, id: string)
    requires Walk(tables, limit) && k <= |tables| && id in ShownIds(tables, limit, k)
    ensures tables != [] && id in Ids(tables[0])
  {
    var j, row := ShownOn(tables, limit, k, id);
    PageMembers(tables, limit, j);
    var i :| 0 <= i < |tables[j]| && tables[j][i] == row;
    assert Evolves(tables[0], tables[j]);
    assert Ids(tables[0])[i] == id;
  }

  /** Every page with more behind it shows limit new artifacts, so a walk over n artifacts
      has at most n / limit such pages. */
  lemma WalkEnds(tables: seq<seq<Row>>, limit: nat)
    requires Walk(tables, limit) && tables != []
    ensures (|tables| - 1) * limit <= |tables[0]|
  {
    var k := |tables| - 1;
    var shown, all := ShownIds(tables, limit, k), Ids(tables[0]);
    FullPages(tables, limit, k);
    forall j | 0 <= j < k ensures PageIsNew(tables, limit, j) {
      PagesAreNew(tables, limit, j);
    }
    ShownNoDup(tables, limit, k);
    var a, b := (set x | x in shown), (set x | x in all);
    NoDupSize(shown, a);
    NoDupSize(all, b);
    forall x | x in a ensures x in b {
      ShownExist(tables, limit, k, x);
    }
    Subset(a, b);
  }

  lemma Subset<T>(a: set<T>, b: set<T>)
    requires a <= b
    ensures |a| <= |b|
  {
    assert b == a + (b - a);
  }

  // ----- no updates -----------------------------------------------------------------------

  lemma {:induction false} SelectedCount(rows: seq<Row>, cursor: Option<Cursor>, x: Row)
    ensures multiset(Selected(rows, cursor))[x] == if Passes(x, cursor) then multiset(rows)[x] else 0
  {
    if rows != [] {
      SelectedCount(rows[..|rows| - 1], cursor, x);
      assert rows == rows[..|rows| - 1] + [rows[|rows| - 1]];
    }
  }

  /** Selecting depends on the rows, not on their order. */
  lemma SelectedForgetsOrder(a: seq<Row>, b: seq<Row>, cursor: Option<Cursor>)
    requires multiset(a) == multiset(b)
    ensures multiset(Selected(a, cursor)) == multiset(Selected(b, cursor))
  {
    forall x ensures multiset(Selected(a, cursor))[x] == multiset(Selected(b, cursor))[x] {
      SelectedCount(a, cursor, x);
      SelectedCount(b, cursor, x);
    }
  }

  lemma {:induction false} AllSelected(rows: seq<Row>)
    ensures Selected(rows, None) == rows
  {
    if rows != [] {
      AllSelected(rows[..|rows| - 1]);
      assert rows == rows[..|rows| - 1] + [rows[|rows| - 1]];
    }
  }

  /** In a listing, what passes the m-th row's cursor is what comes after it. */
  lemma {:induction false} SelectedAfter(listing: seq<Row>, cursor: Cursor, m: nat)
    requires m <= |listing| && forall i :: 0 <= i < |listing| ==> (Before(cursor, KeyOf(listing[i])) <==> i >= m)
    ensures Selected(listing, Some(cursor)) == listing[m..]
  {
    if m == |listing| {
      NoneSelected(listing, cursor);
    } else {
      var n := |listing| - 1;
      SelectedAfter(listing[..n], cursor, m);
      assert listing[..n][m..] + [listing[n]] == listing[m..];
    }
  }

  lemma {:induction false} NoneSelected(listing: seq<Row>, cursor: Cursor)
    requires forall i :: 0 <= i < |listing| ==> !Before(cursor, KeyOf(listing[i]))
    ensures Selected(listing, Some(cursor)) == []
  {
    if listing != [] {
      NoneSelected(listing[..|listing| - 1], cursor);
    }
  }

  lemma AfterRow(listing: seq<Row>, m: nat, i: nat)
    requires 0 < m <= |listing| && i < |listing|
    requires forall i, j :: 0 <= i < j < |listing| ==> Before(KeyOf(listing[i]), KeyOf(listing[j]))
    ensures Before(KeyOf(listing[m - 1]), KeyOf(listing[i])) <==> i >= m
  {
    BeforeIsStrict(KeyOf(listing[m - 1]), KeyOf(listing[i]));
  }

  lemma SelectedBehind(listing: seq<Row>, m: nat)
    requires 0 < m <= |listing|
    requires forall i, j :: 0 <= i < j < |listing| ==> Before(KeyOf(listing[i]), KeyOf(listing[j]))
    ensures Selected(listing, Some(KeyOf(listing[m - 1]))) == listing[m..]
  {
    var cursor := KeyOf(listing[m - 1]);
    forall i | 0 <= i < |listing| ensures Before(cursor, KeyOf(listing[i])) <==> i >= m {
      AfterRow(listing, m, i);
    }
    SelectedAfter(listing, cursor, m);
  }

  /** The listing of any arrangement of the rows is the same. */
  lemma ListingForgetsOrder(a: seq<Row>, b: seq<Row>, cursor: Option<Cursor>)
    requires DistinctIds(a) && multiset(a) == multiset(b)
    ensures Listing(a, cursor) == Listing(b, cursor)
  {
    SelectedForgetsOrder(a, b, cursor);
    RowOrder();
    SelectedMembers(a, cursor);
    RowsUntied(Selected(a, cursor));
    SortForgetsOrder(RowLeq, Selected(a, cursor), Selected(b, cursor));
  }

  /** The listing behind the m-th row is the rest of the whole listing. */
  lemma ListingBehind(rows: seq<Row>, m: nat)
    requires DistinctIds(rows) && 0 < m <= |rows|
    ensures |Listing(rows, None)| == |rows|
    ensures Listing(rows, Some(KeyOf(Listing(rows, None)[m - 1]))) == Listing(rows, None)[m..]
  {
    var full := Listing(rows, None);
    AllSelected(rows);
    SortKeeps(RowLeq, rows);
    ListingForgetsOrder(rows, full, Some(KeyOf(full[m - 1])));
    ListingOrdered(rows, None);
    SelectedBehind(full, m);
    TailSorted(rows, m);
    SortFixes(RowLeq, full[m..]);
  }

  lemma TailSorted(rows: seq<Row>, m: nat)
    requires m <= |Listing(rows, None)|
    ensures Sorted(RowLeq, Listing(rows, None)[m..])
  {
    RowOrder();
    SortSorts(RowLeq, Selected(rows, None));
  }

  function Shown(tables: seq<seq<Row>>, limit: nat, k: nat): seq<Row>
    requires limit > 0 && k <= |tables|
  {
    if k == 0 then [] else Shown(tables, limit, k - 1) + PageAt(tables, limit, k - 1).rows
  }

  /** The next page's rows, and its cursor, as a part of the whole listing. */
  lemma QuietPage(rows: seq<Row>, full: seq<Row>, cursor: Option<Cursor>, limit: nat, low: nat)
    requires limit > 0 && low <= |full| && Listing(rows, cursor) == full[low..] && PageOf(rows, cursor, limit).hasMore
    ensures low + limit < |full| && PageOf(rows, cursor, limit).rows == full[low..low + limit]
    ensures PageOf(rows, cursor, limit).next == Some(KeyOf(full[low + limit - 1]))
  {
    assert full[low..][..limit] == full[low..low + limit];
  }

  /** Nothing is updated during the walk. */
  ghost predicate Still(tables: seq<seq<Row>>, rows: seq<Row>) {
    forall j :: 0 <= j < |tables| ==> tables[j] == rows
  }

  /** low rows of the whole listing have been shown, and the cursor selects the others. */
  ghost predicate Cut(rows: seq<Row>, cursor: Option<Cursor>, shown: seq<Row>, low: nat) {
    var full := Listing(rows, None);
    low <= |full| && shown == full[..low] && Listing(rows, cursor) == full[low..]
  }

  lemma NextCut(rows: seq<Row>, cursor: Option<Cursor>, shown: seq<Row>, low: nat, limit: nat)
    requires DistinctIds(rows) && limit > 0 && Cut(rows, cursor, shown, low) && PageOf(rows, cursor, limit).hasMore
    ensures Cut(rows, PageOf(rows, cursor, limit).next, shown + PageOf(rows, cursor, limit).rows, low + limit)
  {
    var full := Listing(rows, None);
    AllSelected(rows);
    QuietPage(rows, full, cursor, limit, low);
    ListingBehind(rows, low + limit);
    Adjacent(full, low, low + limit);
    var page := PageOf(rows, cursor, limit);
    assert Listing(rows, page.next) == full[low + limit..];
    assert shown + page.rows == full[..low + limit];
  }

  lemma StillPage(rows: seq<Row>, tables: seq<seq<Row>>, limit: nat, k: nat)
    requires Walk(tables, limit) && k < |tables| && Still(tables, rows)
    ensures DistinctIds(rows) && PageAt(tables, limit, k) == PageOf(rows, CursorAt(tables, limit, k), limit)
    ensures k < |tables| - 1 ==>
            PageAt(tables, limit, k).hasMore && CursorAt(tables, limit, k + 1) == PageAt(tables, limit, k).next
    ensures Shown(tables, limit, k + 1) == Shown(tables, limit, k) + PageAt(tables, limit, k).rows
  {
    assert tables[k] == rows;
  }

  lemma CutStart(rows: seq<Row>)
    ensures Cut(rows, None, [], 0)
  {
    var full := Listing(rows, None);
    assert full[..0] == [] && full[0..] == full;
  }

  /** After k pages. */
  ghost predicate CutAt(rows: seq<Row>, tables: seq<seq<Row>>, limit: nat, k: nat)
    requires limit > 0 && k <= |tables|
  {
    Cut(rows, CursorAt(tables, limit, k), Shown(tables, limit, k), Offset(limit, k))
  }

  ghost predicate CutKept(rows: seq<Row>, tables: seq<seq<Row>>, limit: nat, k: nat)
    requires limit > 0 && k < |tables|
  {
    CutAt(rows, tables, limit, k) ==> CutAt(rows, tables, limit, k + 1)
  }

  lemma StillCut(rows: seq<Row>, tables: seq<seq<Row>>, limit: nat, k: nat)
    requires Walk(tables, limit) && k + 1 < |tables| && Still(tables, rows)
    ensures CutKept(rows, tables, limit, k)
  {
    StillPage(rows, tables, limit, k);
    if CutAt(rows, tables, limit, k) {
      NextCut(rows, CursorAt(tables, limit, k), Shown(tables, limit, k), Offset(limit, k), limit);
    }
  }

  lemma {:induction false} QuietPages(rows: seq<Row>, tables: seq<seq<Row>>, limit: nat, k: nat)
    requires limit > 0 && k < |tables| && CutAt(rows, tables, limit, 0)
    requires forall j :: 0 <= j < k ==> CutKept(rows, tables, limit, j)
    ensures CutAt(rows, tables, limit, k)
  {
    if k > 0 {
      QuietPages(rows, tables, limit, k - 1);
      assert CutKept(rows, tables, limit, k - 1);
    }
  }

  lemma Adjacent(full: seq<Row>, low: nat, high: nat)
    requires low <= high <= |full|
    ensures full[..low] + full[low..high] == full[..high]
  {
  }

  /** When nothing is updated the pages are the whole sorted list, cut. */
  lemma PagesConcatenate(rows: seq<Row>, tables: seq<seq<Row>>, limit: nat)
    requires Walk(tables, limit) && tables != [] && !PageAt(tables, limit, |tables| - 1).hasMore
    requires Still(tables, rows)
    ensures Shown(tables, limit, |tables|) == Sort(RowLeq, rows)
  {
    var last := |tables| - 1;
    var cursor := CursorAt(tables, limit, last);
    forall j | 0 <= j < last ensures CutKept(rows, tables, limit, j) {
      StillCut(rows, tables, limit, j);
    }
    CutStart(rows);
    QuietPages(rows, tables, limit, last);
    AllSelected(rows);
    StillPage(rows, tables, limit, last);
    LastPage(rows, cursor, limit);
    Rejoined(Listing(rows, None), Offset(limit, last));
  }

  lemma LastPage(rows: seq<Row>, cursor: Option<Cursor>, limit: nat)
    requires limit > 0 && !PageOf(rows, cursor, limit).hasMore
    ensures PageOf(rows, cursor, limit).rows == Listing(rows, cursor)
  {
  }

  lemma Rejoined(full: seq<Row>, n: nat)
    requires n <= |full|
    ensures full[..n] + full[n..] == full
  {
  }
}
