/** The Node-RED dashboard: it polls one page at a time, merges it into the rows it
  * has and keeps a hundred. Responses may overlap, come late, twice or never. */
module Dashboard {
  import opened Wrappers
  import opened Registry
  import opened Paging
  import Writers

  const KEPT := 100

  // ---------------------------------------------------------------- the function node

  /** Map.set: a known identifier keeps its place. */
  function Upsert(rows: seq<Row>, r: Row): seq<Row> {
    if |rows| == 0 then [r]
    else
      var n := |rows| - 1;
      if rows[n].id == r.id then rows[..n] + [r] else Upsert(rows[..n], r) + [rows[n]]
  }

  function Merged(rows: seq<Row>, page: seq<Row>): seq<Row> {
    if |page| == 0 then rows else Upsert(Merged(rows, page[..|page| - 1]), page[|page| - 1])
  }

  function InsertDown(sorted: seq<Row>, r: Row): seq<Row> {
    if |sorted| == 0 || sorted[0].sequence < r.sequence then [r] + sorted
    else [sorted[0]] + InsertDown(sorted[1..], r)
  }

  /** sort((a, b) => b.sequence - a.sequence) */
  function SortDown(rows: seq<Row>): seq<Row> {
    if |rows| == 0 then [] else InsertDown(SortDown(rows[..|rows| - 1]), rows[|rows| - 1])
  }

  function Kept(rows: seq<Row>): (r: seq<Row>) {
    rows[..Min(KEPT, |rows|)]
  }

  function NewRows(rows: seq<Row>, page: seq<Row>): seq<Row> {
    Kept(SortDown(Merged(rows, page)))
  }

  function NewCursor(rows: seq<Row>, cursor: nat): nat {
    if |rows| > 0 then rows[0].sequence else cursor
  }

  class Node {
    var rows: seq<Row>
    var cursor: nat

    constructor ()
      ensures rows == [] && cursor == 0
    {
      rows, cursor := [], 0;
    }

    /** "Maintain latest 100 values". */
    method Receive(status: nat, page: seq<Row>)
      modifies this
      ensures status != 200 ==> rows == old(rows) && cursor == old(cursor)
      ensures status == 200 ==> rows == NewRows(old(rows), page) && cursor == NewCursor(rows, old(cursor))
    {
      if status != 200 {
        return;
      }
      var byId := rows;
      for i := 0 to |page|
        invariant byId == Merged(old(rows), page[..i])
        invariant rows == old(rows) && cursor == old(cursor)
      {
        assert page[..i + 1][..i] == page[..i];
        byId := Upsert(byId, page[i]);
      }
      assert page[..|page|] == page;
      rows := Kept(SortDown(byId));
      if |rows| > 0 {
        cursor := rows[0].sequence;
      }
    }
  }

  // ---------------------------------------------------------------- merging and sorting

  /** All rows are among those of one registry, where an identifier names one row. */
  ghost predicate OneRowPerId(rows: seq<Row>) {
    forall r, s | r in rows && s in rows && r.id == s.id :: r == s
  }

  ghost predicate NoRepeats(rows: seq<Row>) {
    forall i, j | 0 <= i < j < |rows| :: rows[i] != rows[j]
  }

  lemma {:induction false} UpsertAdds(all: seq<Row>, rows: seq<Row>, r: Row)
    requires OneRowPerId(all) && r in all && (forall x | x in rows :: x in all) && NoRepeats(rows)
    ensures forall x :: x in Upsert(rows, r) <==> x in rows || x == r
    ensures NoRepeats(Upsert(rows, r))
  {
    if |rows| > 0 {
      var n := |rows| - 1;
      UpsertAdds(all, rows[..n], r);
      assert rows == rows[..n] + [rows[n]] && rows[n] !in rows[..n];
      if rows[n].id == r.id {
        assert Upsert(rows, r) == rows;
      }
    }
  }

  lemma {:induction false} MergedUnites(all: seq<Row>, rows: seq<Row>, page: seq<Row>)
    requires OneRowPerId(all) && (forall x | x in rows :: x in all) && (forall x | x in page :: x in all)
             && NoRepeats(rows)
    ensures forall x :: x in Merged(rows, page) <==> x in rows || x in page
    ensures NoRepeats(Merged(rows, page))
  {
    if |page| > 0 {
      var n := |page| - 1;
      MergedUnites(all, rows, page[..n]);
      UpsertAdds(all, Merged(rows, page[..n]), page[n]);
      assert page == page[..n] + [page[n]];
    }
  }

  ghost predicate Descending(rows: seq<Row>) {
    forall i, j | 0 <= i < j < |rows| :: rows[i].sequence > rows[j].sequence
  }

  lemma {:induction false} InsertDownAdds(sorted: seq<Row>, r: Row)
    requires Descending(sorted) && forall x | x in sorted :: x.sequence != r.sequence
    ensures forall x :: x in InsertDown(sorted, r) <==> x in sorted || x == r
    ensures Descending(InsertDown(sorted, r))
  {
    if |sorted| > 0 && sorted[0].sequence >= r.sequence {
      InsertDownAdds(sorted[1..], r);
      assert sorted == [sorted[0]] + sorted[1..];
      assert forall x | x in InsertDown(sorted[1..], r) :: x.sequence < sorted[0].sequence;
    }
  }

  ghost predicate OneRowPerSequence(rows: seq<Row>) {
    forall r, s | r in rows && s in rows && r.sequence == s.sequence :: r == s
  }

  lemma {:induction false} SortDownSorts(rows: seq<Row>)
    requires NoRepeats(rows) && OneRowPerSequence(rows)
    ensures forall x :: x in SortDown(rows) <==> x in rows
    ensures Descending(SortDown(rows))
  {
    if |rows| > 0 {
      var n := |rows| - 1;
      assert rows == rows[..n] + [rows[n]];
      SortDownSorts(rows[..n]);
      InsertDownAdds(SortDown(rows[..n]), rows[n]);
    }
  }

  // ---------------------------------------------------------------- the latest rows

  function Reversed(rows: seq<Row>): (r: seq<Row>)
    ensures |r| == |rows| && forall i | 0 <= i < |r| :: r[i] == rows[|rows| - 1 - i]
  {
    seq(|rows|, i requires 0 <= i < |rows| => rows[|rows| - 1 - i])
  }

  /** The hundred highest of some ascending rows, highest first; all if fewer. */
  function Latest(rows: seq<Row>): (r: seq<Row>)
    ensures |r| == Min(KEPT, |rows|) && forall i | 0 <= i < |r| :: r[i] == rows[|rows| - 1 - i]
  {
    Reversed(rows[Max(0, |rows| - KEPT)..])
  }

  /** Committed rows: numbered upwards from 1, one row per identifier. */
  ghost predicate Numbered(committed: seq<Row>) {
    && Ascending(committed) && (forall i | 0 <= i < |committed| :: committed[i].sequence > 0)
    && forall i, j | 0 <= i < j < |committed| :: committed[i].id != committed[j].id
  }

  ghost predicate Drawn(rows: seq<Row>, all: seq<Row>, j: nat) {
    j < |rows| ==> rows[j] in all
  }

  ghost predicate DrawnFrom(rows: seq<Row>, all: seq<Row>) {
    forall j: nat :: Drawn(rows, all, j)
  }

  ghost predicate Held(rows: seq<Row>, all: seq<Row>, i: nat) {
    Max(0, |all| - KEPT) <= i < |all| ==> all[i] in rows
  }

  ghost predicate HoldsLatest(rows: seq<Row>, all: seq<Row>) {
    forall i: nat :: Held(rows, all, i)
  }

  lemma {:induction false} HigherIsListed(all: seq<Row>, rows: seq<Row>, k: nat, i: nat)
    requires Ascending(all) && k < |all| && k <= |rows| && (forall m | 0 <= m < k :: rows[m] == all[|all| - 1 - m])
    requires i < |all| && all[i].sequence > all[|all| - 1 - k].sequence
    ensures |all| - 1 - i < k && rows[|all| - 1 - i] == all[i]
  {
  }

  /** In a descending list drawn from ascending rows, after the k highest of them
    * comes the next, if it is there at all. */
  lemma {:induction false} NextHighest(all: seq<Row>, rows: seq<Row>, k: nat, j: nat)
    requires Ascending(all) && k < |all| && Descending(rows) && k <= |rows| && DrawnFrom(rows, all)
    requires forall i | 0 <= i < k :: rows[i] == all[|all| - 1 - i]
    requires j < |rows| && rows[j] == all[|all| - 1 - k]
    ensures j == k
  {
    if j > k {
      var i := DrawnAt(rows, all, k);
      HigherIsListed(all, rows, k, i);
    }
  }

  /** A descending list drawn from ascending rows that contains the latest hundred
    * begins with them. */
  lemma {:induction false} BeginsWithLatest(all: seq<Row>, rows: seq<Row>, k: nat)
    requires Ascending(all) && Descending(rows) && k <= Min(KEPT, |all|) && DrawnFrom(rows, all)
             && HoldsLatest(rows, all)
    ensures k <= |rows| && forall i | 0 <= i < k :: rows[i] == all[|all| - 1 - i]
  {
    if k > 0 {
      BeginsWithLatest(all, rows, k - 1);
      var j := ListedAt(all, rows, k - 1);
      NextHighest(all, rows, k - 1, j);
    }
  }

  lemma {:induction false} ListedAt(all: seq<Row>, rows: seq<Row>, k: nat) returns (j: nat)
    requires k < Min(KEPT, |all|) && HoldsLatest(rows, all)
    ensures j < |rows| && rows[j] == all[|all| - 1 - k]
  {
    assert Held(rows, all, |all| - 1 - k);
    j :| 0 <= j < |rows| && rows[j] == all[|all| - 1 - k];
  }

  lemma {:induction false} DrawnAt(rows: seq<Row>, all: seq<Row>, j: nat) returns (i: nat)
    requires DrawnFrom(rows, all) && j < |rows|
    ensures i < |all| && all[i] == rows[j]
  {
    assert Drawn(rows, all, j);
    i :| 0 <= i < |all| && all[i] == rows[j];
  }

  lemma {:induction false} NothingElse(all: seq<Row>, rows: seq<Row>)
    requires Descending(rows) && DrawnFrom(rows, all) && |rows| >= |all|
    requires forall m | 0 <= m < |all| :: rows[m] == all[|all| - 1 - m]
    ensures |rows| == |all|
  {
    assert forall i | 0 <= i < |all| :: all[i] == rows[|all| - 1 - i];
    if |rows| > |all| {
      var i := DrawnAt(rows, all, |all|);
    }
  }

  lemma {:induction false} KeptIsLatest(all: seq<Row>, rows: seq<Row>)
    requires Ascending(all) && Descending(rows) && DrawnFrom(rows, all) && HoldsLatest(rows, all)
    ensures Kept(rows) == Latest(all)
  {
    BeginsWithLatest(all, rows, Min(KEPT, |all|));
    if |all| < KEPT {
      NothingElse(all, rows);
    }
  }

  // ---------------------------------------------------------------- one response

  lemma {:induction false} LatestIsDrawn(all: seq<Row>)
    requires Numbered(all)
    ensures NoRepeats(Latest(all)) && forall x | x in Latest(all) :: x in all
    ensures forall i | Max(0, |all| - KEPT) <= i < |all| :: all[i] in Latest(all)
  {
    forall i | Max(0, |all| - KEPT) <= i < |all| ensures all[i] in Latest(all) {
      assert Latest(all)[|all| - 1 - i] == all[i];
    }
  }

  lemma {:induction false} InPrefix(committed: seq<Row>, a: nat, b: nat, q: nat, x: Row)
    requires a <= b <= q <= |committed| && x in committed[a..b]
    ensures x in committed[..q]
  {
    var i :| 0 <= i < b - a && committed[a..b][i] == x;
    assert committed[..q][a + i] == x;
  }

  lemma {:induction false} UnionIsDrawn(committed: seq<Row>, p: nat, a: nat, b: nat, union: seq<Row>)
    requires p <= |committed| && a <= b <= |committed|
    requires forall x | x in union :: x in committed[..p] || x in committed[a..b]
    ensures DrawnFrom(union, committed[..Max(p, b)])
  {
    forall j: nat ensures Drawn(union, committed[..Max(p, b)], j) {
      if j < |union| {
        assert union[j] in union;
        if union[j] in committed[..p] {
          InPrefix(committed, 0, p, Max(p, b), union[j]);
        } else {
          InPrefix(committed, a, b, Max(p, b), union[j]);
        }
      }
    }
  }

  /** The page and the latest rows together hold the latest up to whichever
    * reaches further. */
  lemma {:induction false} UnionHoldsLatest(committed: seq<Row>, p: nat, a: nat, b: nat, union: seq<Row>)
    requires a <= p <= |committed| && a <= b <= |committed|
    requires forall i | Max(0, p - KEPT) <= i < p :: committed[i] in union
    requires forall x | x in committed[a..b] :: x in union
    ensures HoldsLatest(union, committed[..Max(p, b)])
  {
    var all := committed[..Max(p, b)];
    forall i: nat ensures Held(union, all, i) {
      if p <= i < |all| {
        assert committed[a..b][i - a] == all[i];
      }
    }
  }

  lemma {:induction false} NumberedIsUnique(committed: seq<Row>)
    requires Numbered(committed)
    ensures OneRowPerId(committed) && OneRowPerSequence(committed)
  {
  }

  /** The rows and the page, merged and sorted. */
  lemma {:induction false} MergedIsSorted(committed: seq<Row>, rows: seq<Row>, page: seq<Row>)
    requires Numbered(committed) && NoRepeats(rows)
    requires (forall x | x in rows :: x in committed) && (forall x | x in page :: x in committed)
    ensures var union := SortDown(Merged(rows, page));
            Descending(union) && forall x :: x in union <==> x in rows || x in page
  {
    NumberedIsUnique(committed);
    MergedUnites(committed, rows, page);
    SortDownSorts(Merged(rows, page));
  }

  lemma {:induction false} PrefixIsNumbered(committed: seq<Row>, p: nat)
    requires Numbered(committed) && p <= |committed|
    ensures Numbered(committed[..p]) && forall x | x in committed[..p] :: x in committed
  {
  }

  lemma {:induction false} LatestOfPrefix(committed: seq<Row>, p: nat)
    requires Numbered(committed) && p <= |committed|
    ensures NoRepeats(Latest(committed[..p]))
    ensures forall x | x in Latest(committed[..p]) :: x in committed[..p] && x in committed
    ensures forall i | Max(0, p - KEPT) <= i < p :: committed[i] in Latest(committed[..p])
  {
    PrefixIsNumbered(committed, p);
    LatestIsDrawn(committed[..p]);
    assert forall i | Max(0, p - KEPT) <= i < p :: committed[..p][i] == committed[i];
  }

  /** Whatever page arrives, old or new, the rows become the latest hundred up to
    * whichever reaches further. */
  lemma {:induction false} ReceiveKeepsLatest(committed: seq<Row>, p: nat, a: nat, b: nat)
    requires Numbered(committed) && a <= p <= |committed| && a <= b <= |committed|
    ensures NewRows(Latest(committed[..p]), committed[a..b]) == Latest(committed[..Max(p, b)])
  {
    var rows, page := Latest(committed[..p]), committed[a..b];
    LatestOfPrefix(committed, p);
    MergedIsSorted(committed, rows, page);
    UnionIsDrawn(committed, p, a, b, SortDown(Merged(rows, page)));
    UnionHoldsLatest(committed, p, a, b, SortDown(Merged(rows, page)));
    PrefixIsNumbered(committed, Max(p, b));
    KeptIsLatest(committed[..Max(p, b)], SortDown(Merged(rows, page)));
  }

  // ---------------------------------------------------------------- runs

  /** What the writers commit, in any interleaving, is numbered as assumed here. */
  lemma {:induction false} WritersNumber(steps: seq<Writers.Step>)
    requires forall i | 0 <= i < |steps| :: Writers.GoodStep(steps[i])
    ensures Numbered(Writers.Run(Writers.START, steps, true).shared.events)
  {
    Writers.RunKeepsLaws(steps);
    var t := Writers.Run(Writers.START, steps, true).shared;
    assert Writers.Obeys(Writers.CommittedIsValid, Writers.Run(Writers.START, steps, true));
    assert Holds(IdsUnique, t) && Holds(SequencesIncrease, t);
  }

  /** Requests sent, by the cursor they asked for, and responses served; any of
    * them may be answered or delivered any number of times, in any order. */
  datatype World = World(committed: seq<Row>, rows: seq<Row>, cursor: nat, sent: seq<nat>, pages: seq<seq<Row>>)

  datatype Step = Commit(more: seq<Row>) | Poll | Serve(k: nat) | Deliver(k: nat)

  const START := World([], [], 0, [], [])

  /** A commit adds rows in the order of their numbers: Writers.CommittedGrows. */
  ghost function Next(w: World, step: Step): World {
    match step
    case Commit(more) => if Numbered(w.committed + more) then w.(committed := w.committed + more) else w
    case Poll => w.(sent := w.sent + [w.cursor])
    case Serve(k) => if k < |w.sent| then w.(pages := w.pages + [Get(w.committed, w.sent[k], MAX_PAGE).rows]) else w
    case Deliver(k) =>
      if k < |w.pages| then
        var rows := NewRows(w.rows, w.pages[k]);
        w.(rows := rows, cursor := NewCursor(rows, w.cursor))
      else w
  }

  ghost function Run(steps: seq<Step>): World {
    if |steps| == 0 then START else Next(Run(steps[..|steps| - 1]), steps[|steps| - 1])
  }

  /** A run of committed rows that starts no further than the cursor. */
  ghost predicate IsBlock(page: seq<Row>, committed: seq<Row>, p: nat) {
    exists a, b | 0 <= a <= b <= |committed| :: a <= p && page == committed[a..b]
  }

  ghost predicate Shown(w: World) {
    var p := Passed(w.committed, w.cursor);
    && Numbered(w.committed)
    && w.rows == Latest(w.committed[..p])
    && w.cursor == Mark(w.committed, p)
  }

  ghost predicate Asked(w: World) {
    && (forall k | 0 <= k < |w.sent| :: w.sent[k] <= w.cursor)
    && (forall k | 0 <= k < |w.pages| :: IsBlock(w.pages[k], w.committed, Passed(w.committed, w.cursor)))
  }

  lemma {:induction false} PassedAtRow(committed: seq<Row>, p: nat)
    requires Numbered(committed) && p <= |committed|
    ensures Passed(committed, Mark(committed, p)) == p
  {
    var cursor := Mark(committed, p);
    PassedSplits(committed, cursor);
    if p < |committed| {
      assert committed[p].sequence > cursor;
    }
  }

  lemma {:induction false} PassedMonotone(committed: seq<Row>, a: nat, b: nat)
    requires Ascending(committed) && a <= b
    ensures Passed(committed, a) <= Passed(committed, b)
  {
    BetweenIsSlice(committed, a, b);
  }

  lemma {:induction false} SliceOfPrefix(rows: seq<Row>, more: seq<Row>, a: nat, b: nat)
    requires a <= b <= |rows|
    ensures rows[a..b] == (rows + more)[a..b] && rows[..b] == (rows + more)[..b]
  {
  }

  lemma {:induction false} CommitKeeps(w: World, more: seq<Row>)
    requires Shown(w) && Asked(w) && Numbered(w.committed + more)
    ensures Shown(w.(committed := w.committed + more)) && Asked(w.(committed := w.committed + more))
  {
    var all := w.committed + more;
    var p := Passed(w.committed, w.cursor);
    SliceOfPrefix(w.committed, more, 0, p);
    PassedAtRow(all, p);
    forall k | 0 <= k < |w.pages| ensures IsBlock(w.pages[k], all, p) {
      var a, b :| 0 <= a <= b <= |w.committed| && a <= p && w.pages[k] == w.committed[a..b];
      SliceOfPrefix(w.committed, more, a, b);
    }
  }

  lemma {:induction false} ServeKeeps(w: World, k: nat)
    requires Shown(w) && Asked(w) && k < |w.sent|
    ensures IsBlock(Get(w.committed, w.sent[k], MAX_PAGE).rows, w.committed, Passed(w.committed, w.cursor))
  {
    var after := w.sent[k];
    var page := Get(w.committed, after, MAX_PAGE).rows;
    var a := Passed(w.committed, after);
    PassedMonotone(w.committed, after, w.cursor);
    PageIsNext(w.committed, after);
    assert page == w.committed[a..Min(|w.committed|, a + MAX_PAGE)];
  }

  lemma {:induction false} BlockStays(page: seq<Row>, committed: seq<Row>, p: nat, q: nat)
    requires IsBlock(page, committed, p) && p <= q
    ensures IsBlock(page, committed, q)
  {
    var a, b :| 0 <= a <= b <= |committed| && a <= p && page == committed[a..b];
    assert a <= q;
  }

  /** The sequence of the p-th committed row. */
  function Mark(committed: seq<Row>, p: nat): nat
    requires p <= |committed|
  {
    if p == 0 then 0 else committed[p - 1].sequence
  }

  lemma {:induction false} CursorFollows(committed: seq<Row>, p: nat, q: nat)
    requires p <= q <= |committed|
    ensures NewCursor(Latest(committed[..q]), Mark(committed, p)) == Mark(committed, q)
  {
  }

  lemma {:induction false} DeliverMoves(w: World, k: nat, a: nat, b: nat)
    requires Shown(w) && k < |w.pages| && a <= b <= |w.committed| && w.pages[k] == w.committed[a..b]
    requires a <= Passed(w.committed, w.cursor)
    ensures var q := Max(Passed(w.committed, w.cursor), b);
            Next(w, Deliver(k)) == w.(rows := Latest(w.committed[..q]), cursor := Mark(w.committed, q))
            && Passed(w.committed, Mark(w.committed, q)) == q
  {
    var p := Passed(w.committed, w.cursor);
    ReceiveKeepsLatest(w.committed, p, a, b);
    CursorFollows(w.committed, p, Max(p, b));
    PassedAtRow(w.committed, Max(p, b));
  }

  lemma {:induction false} DeliverShows(w: World, k: nat)
    requires Shown(w) && Asked(w) && k < |w.pages|
    ensures Shown(Next(w, Deliver(k))) && Next(w, Deliver(k)).cursor >= w.cursor
    ensures Passed(w.committed, Next(w, Deliver(k)).cursor) >= Passed(w.committed, w.cursor)
  {
    var a, b :| 0 <= a <= b <= |w.committed| && a <= Passed(w.committed, w.cursor) && w.pages[k] == w.committed[a..b];
    DeliverMoves(w, k, a, b);
  }

  lemma {:induction false} DeliverKeeps(w: World, k: nat)
    requires Shown(w) && Asked(w) && k < |w.pages|
    ensures Shown(Next(w, Deliver(k))) && Asked(Next(w, Deliver(k)))
  {
    DeliverShows(w, k);
    var u := Next(w, Deliver(k));
    assert u.sent == w.sent && u.pages == w.pages && u.committed == w.committed;
    forall j | 0 <= j < |u.pages| ensures IsBlock(u.pages[j], u.committed, Passed(u.committed, u.cursor)) {
      BlockStays(u.pages[j], u.committed, Passed(w.committed, w.cursor), Passed(u.committed, u.cursor));
    }
  }

  lemma {:induction false} NextKeeps(w: World, step: Step)
    requires Shown(w) && Asked(w)
    ensures Shown(Next(w, step)) && Asked(Next(w, step))
  {
    match step
    case Commit(more) =>
      if Numbered(w.committed + more) {
        CommitKeeps(w, more);
      }
    case Poll =>
    case Serve(k) =>
      if k < |w.sent| {
        ServeKeeps(w, k);
      }
    case Deliver(k) =>
      if k < |w.pages| {
        DeliverKeeps(w, k);
      }
  }

  lemma {:induction false} RunKeeps(steps: seq<Step>)
    ensures Shown(Run(steps)) && Asked(Run(steps))
  {
    if |steps| > 0 {
      RunKeeps(steps[..|steps| - 1]);
      NextKeeps(Run(steps[..|steps| - 1]), steps[|steps| - 1]);
    }
  }

  /** In every run, whatever is committed between polls and however responses
    * overlap, repeat, get lost or arrive out of order, the table shows exactly the
    * hundred records with the highest sequence among all committed records up to
    * its cursor, highest first, or all of them if fewer. */
  lemma {:induction false} TableShowsLatest(steps: seq<Step>)
    ensures var passed, rows := Between(Run(steps).committed, 0, Run(steps).cursor), Run(steps).rows;
            |rows| == Min(100, |passed|) && forall i | 0 <= i < |rows| :: rows[i] == passed[|passed| - 1 - i]
  {
    RunKeeps(steps);
    var w := Run(steps);
    PassedAtRow(w.committed, 0);
    BetweenIsSlice(w.committed, 0, w.cursor);
  }

  /** A poll that is answered before anything else happens. */
  ghost function Polled(w: World): World {
    Next(Next(Next(w, Poll), Serve(|w.sent|)), Deliver(|w.pages|))
  }

  lemma {:induction false} PageIsNext(committed: seq<Row>, cursor: nat)
    requires Ascending(committed)
    ensures var p := Passed(committed, cursor);
            Get(committed, cursor, MAX_PAGE).rows == committed[p..Min(|committed|, p + MAX_PAGE)]
  {
    AfterIsRest(committed, cursor);
    StartOfRest(committed, Passed(committed, cursor), MAX_PAGE);
  }

  /** Taking one row more and cutting it off again. */
  lemma {:induction false} StartOfRest(rows: seq<Row>, p: nat, n: nat)
    requires p <= |rows|
    ensures var rest := rows[p..];
            var m := Min(n + 1, |rest|);
            && (m > n ==> rest[..m][..n] == rows[p..p + n])
            && (m <= n ==> rest[..m] == rows[p..])
  {
  }

  lemma {:induction false} PolledMoves(w: World)
    requires Shown(w)
    ensures var q := Min(|w.committed|, Passed(w.committed, w.cursor) + MAX_PAGE);
            Polled(w).cursor == Mark(w.committed, q) && Passed(w.committed, Mark(w.committed, q)) == q
  {
    var p := Passed(w.committed, w.cursor);
    PageIsNext(w.committed, w.cursor);
    var served := w.(sent := w.sent + [w.cursor], pages := w.pages + [Get(w.committed, w.cursor, MAX_PAGE).rows]);
    assert Next(Next(w, Poll), Serve(|w.sent|)) == served;
    DeliverMoves(served, |w.pages|, p, Min(|w.committed|, p + MAX_PAGE));
  }

  lemma {:induction false} PolledPasses(w: World)
    requires Shown(w)
    ensures Passed(w.committed, Polled(w).cursor) == Min(|w.committed|, Passed(w.committed, w.cursor) + 1000)
  {
    PolledMoves(w);
  }

  /** In every run a poll that is answered moves the cursor past the next thousand
    * records, or to the end: the table catches up page by page. */
  lemma {:induction false} PollsAdvance(steps: seq<Step>)
    ensures var w := Run(steps);
            Passed(w.committed, Polled(w).cursor) == Min(|w.committed|, Passed(w.committed, w.cursor) + 1000)
  {
    assert Shown(Run(steps)) by {
      RunKeeps(steps);
    }
    PolledPasses(Run(steps));
  }
}
