/** Reading the registry page by page while writers run. */
module Paging {
  import opened Wrappers
  import opened Registry

  // ---------------------------------------------------------------- List and the page cut

  /** WHERE sequence > after. */
  function After(rows: seq<Row>, after: nat): (r: seq<Row>) {
    if |rows| == 0 then []
    else
      var n := |rows| - 1;
      After(rows[..n], after) + if rows[n].sequence > after then [rows[n]] else []
  }

  /** Store.List: rows are kept in the order of their sequence. */
  function List(rows: seq<Row>, after: nat, limit: nat): (r: seq<Row>)
    ensures |r| == Min(limit, |After(rows, after)|)
  {
    After(rows, after)[..Min(limit, |After(rows, after)|)]
  }

  const MAX_PAGE := 1000

  /** A page and the X-Next-Cursor header. */
  datatype Page = Page(rows: seq<Row>, next: Option<nat>)

  /** GET: one row more than asked for tells whether another page follows. */
  function Get(rows: seq<Row>, after: nat, limit: nat): Page
    requires limit > 0
  {
    var found := List(rows, after, limit + 1);
    if |found| > limit then Page(found[..limit], Some(found[limit - 1].sequence)) else Page(found, None)
  }

  // ---------------------------------------------------------------- rows in sequence order

  ghost predicate Ascending(rows: seq<Row>) {
    forall i, j | 0 <= i < j < |rows| :: rows[i].sequence < rows[j].sequence
  }

  /** How many rows the cursor has passed. */
  function Passed(rows: seq<Row>, cursor: nat): (k: nat)
    ensures k <= |rows|
  {
    if |rows| == 0 then 0
    else if rows[|rows| - 1].sequence > cursor then Passed(rows[..|rows| - 1], cursor)
    else |rows|
  }

  lemma {:induction false} PassedSplits(rows: seq<Row>, cursor: nat)
    requires Ascending(rows)
    ensures forall i | 0 <= i < |rows| :: rows[i].sequence <= cursor <==> i < Passed(rows, cursor)
  {
    if |rows| > 0 {
      PassedSplits(rows[..|rows| - 1], cursor);
    }
  }

  lemma {:induction false} NoneAfter(rows: seq<Row>, after: nat)
    requires forall i | 0 <= i < |rows| :: rows[i].sequence <= after
    ensures After(rows, after) == [] && Passed(rows, after) == |rows|
  {
    if |rows| > 0 {
      NoneAfter(rows[..|rows| - 1], after);
    }
  }

  lemma {:induction false} AfterIsRest(rows: seq<Row>, after: nat)
    requires Ascending(rows)
    ensures After(rows, after) == rows[Passed(rows, after)..]
  {
    if |rows| > 0 {
      var n := |rows| - 1;
      var front := rows[..n];
      if rows[n].sequence > after {
        AfterIsRest(front, after);
        assert front[Passed(front, after)..] == rows[Passed(front, after)..n];
        SliceSnoc(rows, Passed(front, after));
      } else {
        NoneAfter(rows, after);
      }
    }
  }

  /** The rows with a sequence above `after` and up to `cursor`, in order. */
  function Between(rows: seq<Row>, after: nat, cursor: nat): (r: seq<Row>) {
    if |rows| == 0 then []
    else
      var n := |rows| - 1;
      Between(rows[..n], after, cursor) + if after < rows[n].sequence <= cursor then [rows[n]] else []
  }

  lemma {:induction false} NoneBetween(rows: seq<Row>, after: nat, cursor: nat)
    requires forall i | 0 <= i < |rows| :: rows[i].sequence <= after
    ensures Between(rows, after, cursor) == []
  {
    if |rows| > 0 {
      NoneBetween(rows[..|rows| - 1], after, cursor);
    }
  }

  lemma {:induction false} BetweenIsSlice(rows: seq<Row>, after: nat, cursor: nat)
    requires Ascending(rows) && after <= cursor
    ensures Passed(rows, after) <= Passed(rows, cursor)
    ensures Between(rows, after, cursor) == rows[Passed(rows, after)..Passed(rows, cursor)]
  {
    if |rows| > 0 {
      var n := |rows| - 1;
      var front, x := rows[..n], rows[n];
      if x.sequence <= after {
        NoneAfter(rows, after);
        NoneBetween(rows, after, cursor);
      } else {
        BetweenIsSlice(front, after, cursor);
        var a, b := Passed(front, after), Passed(front, cursor);
        if x.sequence <= cursor {
          PassedFront(rows, cursor);
          SliceSnoc(rows, a);
        } else {
          assert front[a..b] == rows[a..b];
        }
      }
    }
  }

  lemma {:induction false} PassedFront(rows: seq<Row>, cursor: nat)
    requires Ascending(rows) && |rows| > 0 && rows[|rows| - 1].sequence <= cursor
    ensures Passed(rows[..|rows| - 1], cursor) == |rows| - 1 && Passed(rows, cursor) == |rows|
  {
  }

  lemma {:induction false} SliceSnoc(rows: seq<Row>, a: nat)
    requires a < |rows|
    ensures rows[..|rows| - 1][a..|rows| - 1] + [rows[|rows| - 1]] == rows[a..]
  {
  }

  /** Nothing lies above the last sequence. */
  lemma {:induction false} AllBetween(rows: seq<Row>, after: nat, cursor: nat)
    requires Ascending(rows) && (|rows| > 0 ==> rows[|rows| - 1].sequence <= cursor)
    ensures Between(rows, after, cursor) == After(rows, after)
  {
    if |rows| > 0 {
      AllBetween(rows[..|rows| - 1], after, cursor);
    }
  }

  /** Rows committed later leave what lies up to a cursor alone, if they are
    * numbered above it. */
  lemma {:induction false} BetweenStays(rows: seq<Row>, more: seq<Row>, after: nat, cursor: nat)
    requires rows <= more && forall i | |rows| <= i < |more| :: more[i].sequence > cursor
    ensures Between(more, after, cursor) == Between(rows, after, cursor)
  {
    if |more| > |rows| {
      BetweenStays(rows, more[..|more| - 1], after, cursor);
    } else {
      assert more == rows;
    }
  }

  lemma {:induction false} BetweenJoins(rows: seq<Row>, a: nat, b: nat, c: nat)
    requires Ascending(rows) && a <= b <= c
    ensures Between(rows, a, b) + Between(rows, b, c) == Between(rows, a, c)
  {
    BetweenIsSlice(rows, a, b);
    BetweenIsSlice(rows, b, c);
    BetweenIsSlice(rows, a, c);
  }

  lemma {:induction false} BetweenNothing(rows: seq<Row>, cursor: nat)
    ensures Between(rows, cursor, cursor) == []
  {
    if |rows| > 0 {
      BetweenNothing(rows[..|rows| - 1], cursor);
    }
  }

  // ---------------------------------------------------------------- one page

  /** A page that is cut holds exactly the rows up to its next cursor, the others
    * everything there is. */
  lemma {:induction false} PageIsExact(rows: seq<Row>, after: nat, limit: nat)
    requires Ascending(rows) && limit > 0
    ensures var p := Get(rows, after, limit);
            && (p.next.Some? ==>
                  && p.next.value > after && |p.rows| == limit && p.rows == Between(rows, after, p.next.value)
                  && p.rows[limit - 1].sequence == p.next.value && p.rows[limit - 1] in rows)
            && (p.next.None? ==> p.rows == After(rows, after))
            && (p.next.None? <==> |After(rows, after)| <= limit)
  {
    var p := Get(rows, after, limit);
    AfterIsRest(rows, after);
    if p.next.Some? {
      var k := Passed(rows, after);
      var last := rows[k + limit - 1];
      assert p.rows == rows[k..k + limit] && p.next == Some(last.sequence);
      PassedSplits(rows, after);
      PassedSplits(rows, last.sequence);
      BetweenIsSlice(rows, after, last.sequence);
      assert rows[k + limit - 1] == last && rows[k + limit].sequence > last.sequence;
    }
  }

  // ---------------------------------------------------------------- following cursors

  /** A client reading page after page; it stops at a page without a next cursor. */
  datatype Client = Client(found: seq<Row>, cursor: nat, done: bool)

  function Request(c: Client, rows: seq<Row>, limit: nat): Client
    requires limit > 0
  {
    if c.done then c
    else
      var p := Get(rows, c.cursor, limit);
      Client(c.found + p.rows, if |p.rows| > 0 then p.rows[|p.rows| - 1].sequence else c.cursor, p.next.None?)
  }

  /** The i-th request reads what is committed at the i-th moment. */
  function Following(snapshots: seq<seq<Row>>, after: nat, limit: nat): Client
    requires limit > 0
  {
    if |snapshots| == 0 then Client([], after, false)
    else Request(Following(snapshots[..|snapshots| - 1], after, limit), snapshots[|snapshots| - 1], limit)
  }

  /** What the writers' lock gives readers: later snapshots only add rows at the end. */
  ghost predicate Growing(snapshots: seq<seq<Row>>) {
    forall i: nat, j: nat :: GrowsFrom(snapshots, i, j)
  }

  ghost predicate GrowsFrom(snapshots: seq<seq<Row>>, i: nat, j: nat) {
    i <= j < |snapshots| ==> Ascending(snapshots[j]) && snapshots[i] <= snapshots[j]
  }

  /** The client's cursor is where it started or the sequence of a row it was given. */
  ghost predicate AtRow(c: Client, rows: seq<Row>, after: nat) {
    c.cursor == after || exists i | 0 <= i < |rows| :: rows[i].sequence == c.cursor
  }

  ghost predicate Collected(c: Client, rows: seq<Row>, after: nat) {
    after <= c.cursor && c.found == Between(rows, after, c.cursor) && AtRow(c, rows, after)
  }

  lemma {:induction false} CollectedStays(c: Client, rows: seq<Row>, more: seq<Row>, after: nat)
    requires Collected(c, rows, after) && rows <= more && Ascending(more)
    ensures Collected(c, more, after)
  {
    if c.cursor == after {
      BetweenNothing(rows, after);
      BetweenNothing(more, after);
    } else {
      var i :| 0 <= i < |rows| && rows[i].sequence == c.cursor;
      assert more[i] == rows[i];
      BetweenStays(rows, more, after, c.cursor);
    }
  }

  /** The last page reaches the end of the rows. */
  lemma {:induction false} LastPage(c: Client, rows: seq<Row>, after: nat, limit: nat)
    requires limit > 0 && Ascending(rows) && Collected(c, rows, after) && !c.done
             && Get(rows, c.cursor, limit).next.None?
    ensures var d := Request(c, rows, limit);
            && c.cursor <= d.cursor && AtRow(d, rows, after)
            && Get(rows, c.cursor, limit).rows == Between(rows, c.cursor, d.cursor)
            && Between(rows, after, d.cursor) == After(rows, after)
  {
    var d, p := Request(c, rows, limit), Get(rows, c.cursor, limit);
    PageIsExact(rows, c.cursor, limit);
    AfterIsRest(rows, c.cursor);
    PassedSplits(rows, c.cursor);
    if |p.rows| > 0 {
      assert p.rows[|p.rows| - 1] == rows[|rows| - 1];
    }
    AllBetween(rows, c.cursor, d.cursor);
    AllBetween(rows, after, d.cursor);
  }

  lemma {:induction false} RequestCollects(c: Client, rows: seq<Row>, after: nat, limit: nat)
    requires limit > 0 && Ascending(rows) && Collected(c, rows, after) && !c.done
    ensures var d := Request(c, rows, limit);
            && Collected(d, rows, after) && (d.done ==> d.found == After(rows, after))
            && (!d.done ==> |d.found| == |c.found| + limit)
  {
    var d := Request(c, rows, limit);
    if d.done {
      LastPage(c, rows, after, limit);
    } else {
      PageIsExact(rows, c.cursor, limit);
    }
    BetweenJoins(rows, after, c.cursor, d.cursor);
  }

  lemma {:induction false} GrowingFront(snapshots: seq<seq<Row>>)
    requires Growing(snapshots) && |snapshots| > 0
    ensures var n := |snapshots| - 1;
            && Growing(snapshots[..n]) && Ascending(snapshots[n])
            && (n > 0 ==> snapshots[..n][n - 1] <= snapshots[n])
  {
    var n := |snapshots| - 1;
    var front := snapshots[..n];
    forall i: nat, j: nat ensures GrowsFrom(front, i, j) {
      assert GrowsFrom(snapshots, i, j);
    }
    assert GrowsFrom(snapshots, n, n);
    if n > 0 {
      assert GrowsFrom(snapshots, n - 1, n);
    }
  }

  /** A client after n requests holds exactly the records above its start and up to
    * its cursor; when it is done these are all, and every earlier page was full. */
  ghost predicate Complete(c: Client, rows: seq<Row>, after: nat, n: nat, limit: nat) {
    && Collected(c, rows, after)
    && (c.done ==> c.found == After(rows, after))
    && (!c.done ==> |c.found| == n * limit)
  }

  lemma {:induction false} FirstRequest(rows: seq<Row>, after: nat, limit: nat)
    requires limit > 0 && Ascending(rows)
    ensures Complete(Request(Client([], after, false), rows, limit), rows, after, 1, limit)
  {
    BetweenNothing(rows, after);
    RequestCollects(Client([], after, false), rows, after, limit);
  }

  lemma {:induction false} NextRequest(c: Client, rows: seq<Row>, more: seq<Row>, after: nat, n: nat, limit: nat)
    requires limit > 0 && Ascending(more) && rows <= more && Complete(c, rows, after, n, limit) && !c.done
    ensures Complete(Request(c, more, limit), more, after, n + 1, limit)
  {
    CollectedStays(c, rows, more, after);
    RequestCollects(c, more, after, limit);
  }

  /** A client that is not done was not done before. */
  lemma {:induction false} EarlierRequestsWent(snapshots: seq<seq<Row>>, after: nat, limit: nat)
    requires limit > 0 && |snapshots| > 0 && !Following(snapshots, after, limit).done
    ensures !Following(snapshots[..|snapshots| - 1], after, limit).done
  {
  }

  /** Pagination misses nothing and repeats nothing: whatever is committed between
    * the requests a client makes, it holds exactly the records above its start and
    * up to its cursor, once each and in order; when the last page shows no next
    * cursor it holds every record committed by then; every earlier page was full. */
  lemma {:induction false} FollowingCollects(snapshots: seq<seq<Row>>, after: nat, limit: nat)
    requires limit > 0 && Growing(snapshots) && |snapshots| > 0
    requires !Following(snapshots[..|snapshots| - 1], after, limit).done
    ensures Complete(Following(snapshots, after, limit), snapshots[|snapshots| - 1], after, |snapshots|, limit)
  {
    var n := |snapshots| - 1;
    var front, rows := snapshots[..n], snapshots[n];
    GrowingFront(snapshots);
    if n == 0 {
      FirstRequest(rows, after, limit);
    } else {
      EarlierRequestsWent(front, after, limit);
      FollowingCollects(front, after, limit);
      NextRequest(Following(front, after, limit), front[n - 1], rows, after, n, limit);
    }
  }

  /** The client's loop. */
  method Follow(snapshots: seq<seq<Row>>, after: nat, limit: nat) returns (c: Client)
    requires limit > 0
    ensures c == Following(snapshots, after, limit)
  {
    var found, cursor, done := [], after, false;
    for i := 0 to |snapshots|
      invariant Client(found, cursor, done) == Following(snapshots[..i], after, limit)
    {
      assert snapshots[..i + 1][..i] == snapshots[..i];
      if !done {
        var page := Get(snapshots[i], cursor, limit);
        found := found + page.rows;
        if |page.rows| > 0 {
          cursor := page.rows[|page.rows| - 1].sequence;
        }
        done := page.next.None?;
      }
    }
    assert snapshots[..|snapshots|] == snapshots;
    c := Client(found, cursor, done);
  }
}
