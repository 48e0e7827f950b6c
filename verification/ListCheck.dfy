/** The end-to-end check of the listing: a client that knows some records follows
  * next cursors, two records a page, until it has seen them all. */
module ListCheck {
  import opened Wrappers
  import opened Registry
  import opened Paging

  /** The records it knows, by identifier. */
  type Expected = map<string, Row>

  datatype Search = Searching(cursor: nat, found: set<string>) | Verified | Failed

  /** One record of a page. */
  function Visit(s: Search, r: Row, expected: Expected): Search {
    if !s.Searching? then s
    else if r.sequence <= s.cursor then Failed
    else if r.id !in expected then s.(cursor := r.sequence)
    else if r.id in s.found || r != expected[r.id] then Failed
    else Searching(r.sequence, s.found + {r.id})
  }

  function VisitAll(s: Search, rows: seq<Row>, expected: Expected): Search {
    if |rows| == 0 then s else Visit(VisitAll(s, rows[..|rows| - 1], expected), rows[|rows| - 1], expected)
  }

  const PAGE: nat := 2

  /** One request: an empty page is a failure, and so is a record that comes twice,
    * changed, or out of order. */
  function Ask(s: Search, committed: seq<Row>, expected: Expected): Search {
    if !s.Searching? then s
    else
      var page := Get(committed, s.cursor, PAGE).rows;
      if |page| == 0 then Failed
      else
        var t := VisitAll(s, page, expected);
        if t.Searching? && t.found == expected.Keys then Verified else t
  }

  /** The i-th request reads what is committed at the i-th moment. */
  function Asked(start: nat, snapshots: seq<seq<Row>>, expected: Expected): Search {
    if |snapshots| == 0 then Searching(start, {})
    else Ask(Asked(start, snapshots[..|snapshots| - 1], expected), snapshots[|snapshots| - 1], expected)
  }

  /** The loop over the records of a page. */
  method VisitPage(cursor: nat, found: set<string>, page: seq<Row>, expected: Expected) returns (s: Search)
    ensures s == VisitAll(Searching(cursor, found), page, expected)
  {
    var last, seen := cursor, found;
    for j := 0 to |page|
      invariant VisitAll(Searching(cursor, found), page[..j], expected) == Searching(last, seen)
    {
      assert page[..j + 1][..j] == page[..j];
      var r := page[j];
      if r.sequence <= last || (r.id in expected && (r.id in seen || r != expected[r.id])) {
        FailsHere(Searching(cursor, found), page, expected, j + 1);
        return Failed;
      }
      last := r.sequence;
      if r.id in expected {
        seen := seen + {r.id};
      }
    }
    assert page[..|page|] == page;
    s := Searching(last, seen);
  }

  /** The loop over pages. */
  method VerifyList(start: nat, snapshots: seq<seq<Row>>, expected: Expected) returns (s: Search)
    ensures s == Asked(start, snapshots, expected)
  {
    s := Searching(start, {});
    for i := 0 to |snapshots|
      invariant s.Searching? && Asked(start, snapshots[..i], expected) == s
    {
      assert snapshots[..i + 1][..i] == snapshots[..i];
      var page := Get(snapshots[i], s.cursor, PAGE).rows;
      if |page| == 0 {
        StopsHere(start, snapshots, expected, i + 1);
        return Failed;
      }
      s := VisitPage(s.cursor, s.found, page, expected);
      if s.Searching? && s.found == expected.Keys {
        s := Verified;
      }
      if !s.Searching? {
        StopsHere(start, snapshots, expected, i + 1);
        return;
      }
    }
    assert snapshots[..|snapshots|] == snapshots;
  }

  /** A search that is over stays as it is. */
  lemma {:induction false} StopsHere(start: nat, snapshots: seq<seq<Row>>, expected: Expected, n: nat)
    requires n <= |snapshots| && !Asked(start, snapshots[..n], expected).Searching?
    ensures Asked(start, snapshots, expected) == Asked(start, snapshots[..n], expected)
    decreases |snapshots|
  {
    if n < |snapshots| {
      var front := snapshots[..|snapshots| - 1];
      assert front[..n] == snapshots[..n];
      StopsHere(start, front, expected, n);
    } else {
      assert snapshots[..n] == snapshots;
    }
  }

  lemma {:induction false} FailsHere(s: Search, rows: seq<Row>, expected: Expected, n: nat)
    requires n <= |rows| && VisitAll(s, rows[..n], expected).Failed?
    ensures VisitAll(s, rows, expected).Failed?
    decreases |rows|
  {
    if n < |rows| {
      var front := rows[..|rows| - 1];
      assert front[..n] == rows[..n];
      FailsHere(s, front, expected, n);
    } else {
      assert rows[..n] == rows;
    }
  }

  // ---------------------------------------------------------------- it does not fail, and it ends

  /** The known records are committed, above the start of the search. */
  ghost predicate Known(expected: Expected, rows: seq<Row>, start: nat) {
    forall id | id in expected :: expected[id].id == id && expected[id] in rows && expected[id].sequence > start
  }

  /** The known records up to a cursor. */
  function UpTo(expected: Expected, cursor: nat): set<string> {
    set id | id in expected && expected[id].sequence <= cursor
  }

  /** Where the search stands: it has found exactly the known records up to its
    * cursor, and not all of them yet. */
  ghost predicate OnTrack(s: Search, expected: Expected) {
    s.Searching? && s.found == UpTo(expected, s.cursor) && s.found != expected.Keys
  }

  /** A row of the registry that is known is the known record. */
  lemma {:induction false} KnownRow(expected: Expected, rows: seq<Row>, start: nat, r: Row)
    requires Known(expected, rows, start) && Registry.DistinctIds(rows) && r in rows && r.id in expected
    ensures r == expected[r.id]
  {
    var i :| 0 <= i < |rows| && rows[i] == r;
    var j :| 0 <= j < |rows| && rows[j] == expected[r.id];
    assert i == j;
  }

  /** The first k rows above the cursor, visited in order. */
  lemma {:induction false} Visits(s: Search, expected: Expected, rows: seq<Row>, start: nat, a: nat, k: nat)
    requires OnTrack(s, expected) && Known(expected, rows, start) && Registry.DistinctIds(rows) && Ascending(rows)
    requires a == Passed(rows, s.cursor) && a + k <= |rows|
    ensures var cursor := if k == 0 then s.cursor else rows[a + k - 1].sequence;
            VisitAll(s, rows[a..a + k], expected) == Searching(cursor, UpTo(expected, cursor))
  {
    if k > 0 {
      Visits(s, expected, rows, start, a, k - 1);
      VisitsOneMore(s, expected, rows, start, a, k, if k == 1 then s.cursor else rows[a + k - 2].sequence);
    }
  }

  lemma {:induction false} VisitsOneMore(s: Search, expected: Expected, rows: seq<Row>, start: nat, a: nat, k: nat,
                                         cursor: nat)
    requires Known(expected, rows, start) && Registry.DistinctIds(rows) && Ascending(rows) && s.Searching?
    requires a == Passed(rows, s.cursor) && 0 < k && a + k <= |rows|
    requires cursor == if k == 1 then s.cursor else rows[a + k - 2].sequence
    requires VisitAll(s, rows[a..a + k - 1], expected) == Searching(cursor, UpTo(expected, cursor))
    ensures var next := rows[a + k - 1].sequence;
            VisitAll(s, rows[a..a + k], expected) == Searching(next, UpTo(expected, next))
  {
    VisitSnoc(s, rows, a, k, expected);
    RowsBehind(rows, s.cursor, a, k);
    VisitKnown(expected, rows, start, a + k - 1, cursor);
  }

  lemma {:induction false} VisitSnoc(s: Search, rows: seq<Row>, a: nat, k: nat, expected: Expected)
    requires 0 < k && a + k <= |rows|
    ensures VisitAll(s, rows[a..a + k], expected)
            == Visit(VisitAll(s, rows[a..a + k - 1], expected), rows[a + k - 1], expected)
  {
    assert rows[a..a + k][..k - 1] == rows[a..a + k - 1];
  }

  /** Every row before the k-th one above the cursor lies at or below what has been
    * visited. */
  lemma {:induction false} RowsBehind(rows: seq<Row>, start: nat, a: nat, k: nat)
    requires Ascending(rows) && a == Passed(rows, start) && 0 < k && a + k <= |rows|
    ensures var cursor := if k == 1 then start else rows[a + k - 2].sequence;
            cursor < rows[a + k - 1].sequence && forall j | 0 <= j < a + k - 1 :: rows[j].sequence <= cursor
  {
    PassedSplits(rows, start);
  }

  lemma {:induction false} VisitKnown(expected: Expected, rows: seq<Row>, start: nat, i: nat, cursor: nat)
    requires Known(expected, rows, start) && Registry.DistinctIds(rows) && Ascending(rows) && i < |rows|
    requires cursor < rows[i].sequence && forall j | 0 <= j < i :: rows[j].sequence <= cursor
    ensures Visit(Searching(cursor, UpTo(expected, cursor)), rows[i], expected)
            == Searching(rows[i].sequence, UpTo(expected, rows[i].sequence))
  {
    OneMore(expected, rows, start, i, cursor);
  }

  /** Between one row and the next lie no other known records. */
  lemma {:induction false} OneMore(expected: Expected, rows: seq<Row>, start: nat, i: nat, cursor: nat)
    requires Known(expected, rows, start) && Registry.DistinctIds(rows) && Ascending(rows) && i < |rows|
    requires cursor < rows[i].sequence && forall j | 0 <= j < i :: rows[j].sequence <= cursor
    ensures rows[i].id in expected ==> rows[i] == expected[rows[i].id] && rows[i].id !in UpTo(expected, cursor)
    ensures UpTo(expected, rows[i].sequence)
            == UpTo(expected, cursor) + if rows[i].id in expected then {rows[i].id} else {}
  {
    if rows[i].id in expected {
      KnownRow(expected, rows, start, rows[i]);
    }
    forall id | id in expected && cursor < expected[id].sequence <= rows[i].sequence ensures id == rows[i].id {
      var j :| 0 <= j < |rows| && rows[j] == expected[id];
      assert j == i;
    }
  }

  lemma {:induction false} PageIsSlice(rows: seq<Row>, cursor: nat)
    requires Ascending(rows)
    ensures var a := Passed(rows, cursor);
            Get(rows, cursor, PAGE).rows == rows[a..a + Min(PAGE, |rows| - a)]
  {
    AfterIsRest(rows, cursor);
    var a := Passed(rows, cursor);
    var rest := rows[a..];
    assert Get(rows, cursor, PAGE).rows == rest[..Min(PAGE, |rest|)];
    assert rest[..Min(PAGE, |rest|)] == rows[a..a + Min(PAGE, |rest|)];
  }

  /** While a known record is missing, a row lies above the cursor. */
  lemma {:induction false} SomethingLeft(s: Search, expected: Expected, rows: seq<Row>, start: nat)
    requires OnTrack(s, expected) && Known(expected, rows, start) && Ascending(rows)
    ensures Passed(rows, s.cursor) < |rows|
  {
    PassedSplits(rows, s.cursor);
    var id :| id in expected && id !in s.found;
    var i :| 0 <= i < |rows| && rows[i] == expected[id];
  }

  lemma {:induction false} PassedTo(rows: seq<Row>, i: nat)
    requires Ascending(rows) && i < |rows|
    ensures Passed(rows, rows[i].sequence) > i
  {
    PassedSplits(rows, rows[i].sequence);
  }

  /** One request: the search goes on with more rows behind it, or is over. */
  lemma {:induction false} AskGoesOn(s: Search, expected: Expected, rows: seq<Row>, start: nat)
    requires OnTrack(s, expected) && Known(expected, rows, start) && Registry.DistinctIds(rows) && Ascending(rows)
    ensures var t := Ask(s, rows, expected);
            t.Verified? || (OnTrack(t, expected) && Passed(rows, t.cursor) > Passed(rows, s.cursor))
  {
    var a := Passed(rows, s.cursor);
    var k := Min(PAGE, |rows| - a);
    SomethingLeft(s, expected, rows, start);
    PageIsSlice(rows, s.cursor);
    Visits(s, expected, rows, start, a, k);
    PassedTo(rows, a + k - 1);
  }

  // ---------------------------------------------------------------- what it shows

  /** Some page listed exactly this record. */
  ghost predicate Listed(snapshots: seq<seq<Row>>, r: Row) {
    exists k, after: nat :: 0 <= k < |snapshots| && r in Get(snapshots[k], after, PAGE).rows
  }

  ghost predicate AllListed(snapshots: seq<seq<Row>>, found: set<string>, expected: Expected) {
    found <= expected.Keys && forall id | id in found :: Listed(snapshots, expected[id])
  }

  ghost predicate Shows(s: Search, snapshots: seq<seq<Row>>, expected: Expected) {
    match s
    case Searching(_, found) => AllListed(snapshots, found, expected)
    case Verified => AllListed(snapshots, expected.Keys, expected)
    case Failed => true
  }

  /** What a page's records add was on that page, as it is known. */
  lemma {:induction false} VisitsShow(s: Search, rows: seq<Row>, expected: Expected)
    requires s.Searching? && s.found <= expected.Keys
    ensures var t := VisitAll(s, rows, expected);
            && !t.Verified?
            && (t.Searching? ==>
                  t.found <= expected.Keys && forall id | id in t.found && id !in s.found :: expected[id] in rows)
  {
    if |rows| > 0 {
      var front, r := rows[..|rows| - 1], rows[|rows| - 1];
      VisitsShow(s, front, expected);
      assert rows == front + [r];
    }
  }

  lemma {:induction false} StillListed(snapshots: seq<seq<Row>>, rows: seq<Row>, r: Row)
    requires Listed(snapshots, r)
    ensures Listed(snapshots + [rows], r)
  {
    var k, after: nat :| 0 <= k < |snapshots| && r in Get(snapshots[k], after, PAGE).rows;
    assert (snapshots + [rows])[k] == snapshots[k];
  }

  lemma {:induction false} AskShows(s: Search, snapshots: seq<seq<Row>>, rows: seq<Row>, expected: Expected)
    requires Shows(s, snapshots, expected)
    ensures Shows(Ask(s, rows, expected), snapshots + [rows], expected)
  {
    var more := snapshots + [rows];
    if s.Searching? {
      var page := Get(rows, s.cursor, PAGE).rows;
      var t := VisitAll(s, page, expected);
      VisitsShow(s, page, expected);
      if t.Searching? {
        forall id | id in t.found ensures Listed(more, expected[id]) {
          if id in s.found {
            StillListed(snapshots, rows, expected[id]);
          } else {
            assert more[|snapshots|] == rows && expected[id] in page;
          }
        }
      }
    } else if s.Verified? {
      forall id | id in expected.Keys ensures Listed(more, expected[id]) {
        StillListed(snapshots, rows, expected[id]);
      }
    }
  }

  lemma {:induction false} AskedShows(start: nat, snapshots: seq<seq<Row>>, expected: Expected)
    ensures Shows(Asked(start, snapshots, expected), snapshots, expected)
  {
    if |snapshots| > 0 {
      var front, rows := snapshots[..|snapshots| - 1], snapshots[|snapshots| - 1];
      assert snapshots == front + [rows];
      AskedShows(start, front, expected);
      AskShows(Asked(start, front, expected), front, rows, expected);
    }
  }

  /** The check is sound: whatever the server lists, it passes only if each known record
    * was on some page, unchanged. */
  lemma {:induction false} VerifiedWasListed(start: nat, snapshots: seq<seq<Row>>, expected: Expected, id: string)
    requires Asked(start, snapshots, expected).Verified? && id in expected
    ensures Listed(snapshots, expected[id])
  {
    AskedShows(start, snapshots, expected);
    assert id in expected.Keys;
  }

  // ---------------------------------------------------------------- while writers run

  /** What is committed only grows, with one row per identifier, and holds the known
    * records from the beginning. */
  ghost predicate Grounds(start: nat, snapshots: seq<seq<Row>>, expected: Expected) {
    && Growing(snapshots)
    && (forall i: nat :: GroundAt(start, snapshots, expected, i))
  }

  ghost predicate GroundAt(start: nat, snapshots: seq<seq<Row>>, expected: Expected, i: nat) {
    i < |snapshots| ==> Known(expected, snapshots[i], start) && Registry.DistinctIds(snapshots[i])
  }

  lemma {:induction false} GroundsFront(start: nat, snapshots: seq<seq<Row>>, expected: Expected)
    requires Grounds(start, snapshots, expected) && |snapshots| > 0
    ensures Grounds(start, snapshots[..|snapshots| - 1], expected)
    ensures Known(expected, snapshots[|snapshots| - 1], start) && Registry.DistinctIds(snapshots[|snapshots| - 1])
    ensures Ascending(snapshots[|snapshots| - 1])
    ensures |snapshots| > 1 ==> snapshots[|snapshots| - 2] <= snapshots[|snapshots| - 1]
  {
    var front := snapshots[..|snapshots| - 1];
    GrowingFront(snapshots);
    forall i: nat ensures GroundAt(start, front, expected, i) {
      assert GroundAt(start, snapshots, expected, i);
    }
    assert GroundAt(start, snapshots, expected, |snapshots| - 1);
  }

  lemma {:induction false} PassedGrows(rows: seq<Row>, more: seq<Row>, cursor: nat)
    requires rows <= more && Ascending(rows) && Ascending(more)
    ensures Passed(rows, cursor) <= Passed(more, cursor)
  {
    PassedSplits(rows, cursor);
    PassedSplits(more, cursor);
    var k := Passed(rows, cursor);
    if k > 0 {
      assert more[k - 1] == rows[k - 1];
    }
  }

  /** While writers run, the check of the listing never fails: no page is empty, no
    * record comes twice or out of order. It has found exactly the known records up to
    * its cursor, and passed at least one more row at each request; so it has verified
    * them all after as many requests as rows are committed, at the latest. */
  lemma {:induction false} ListIsVerified(start: nat, snapshots: seq<seq<Row>>, expected: Expected)
    requires Grounds(start, snapshots, expected) && expected != map[] && |snapshots| > 0
    ensures var s, rows := Asked(start, snapshots, expected), snapshots[|snapshots| - 1];
            && (s.Verified? || (OnTrack(s, expected) && Passed(rows, s.cursor) >= |snapshots|))
            && (|snapshots| > |rows| ==> s.Verified?)
  {
    var n := |snapshots| - 1;
    var front, rows := snapshots[..n], snapshots[n];
    var before := Asked(start, front, expected);
    GroundsFront(start, snapshots, expected);
    if n == 0 {
      StartsOnTrack(start, expected, rows);
    } else {
      ListIsVerified(start, front, expected);
      if before.Searching? {
        PassedGrows(front[n - 1], rows, before.cursor);
      }
    }
    if before.Searching? {
      AskGoesOn(before, expected, rows, start);
    }
  }

  lemma {:induction false} StartsOnTrack(start: nat, expected: Expected, rows: seq<Row>)
    requires Known(expected, rows, start) && expected != map[]
    ensures OnTrack(Searching(start, {}), expected)
  {
    assert UpTo(expected, start) == {};
    var id :| id in expected;
    assert id in expected.Keys;
  }
}
