/** The observation registry: append-only events with their measurements, written
  * by the API's Put and by the MQTT trigger under one lock. */
module Registry {
  import opened Wrappers
  import opened Clock
  import opened Observations
  import T = Timestamps

  /** A row of sensor.events. */
  datatype Row = Row(sequence: nat, id: string, at: T.Instant, payload: Payload, receivedAt: Time)

  /** `next` is the next value of the identity sequence; it is never given back. */
  datatype Tables = Tables(events: seq<Row>, measurements: seq<Measurement>, next: nat)

  function Find(rows: seq<Row>, id: string): (r: Option<nat>)
    ensures r.Some? ==> r.value < |rows| && rows[r.value].id == id
    ensures r.None? ==> forall i | 0 <= i < |rows| :: rows[i].id != id
  {
    if |rows| == 0 then None
    else if rows[|rows| - 1].id == id then Some(|rows| - 1)
    else Find(rows[..|rows| - 1], id)
  }

  ghost predicate DistinctIds(rows: seq<Row>) {
    forall i, j | 0 <= i < j < |rows| :: rows[i].id != rows[j].id
  }

  ghost predicate Sequenced(rows: seq<Row>, next: nat) {
    && (forall i | 0 <= i < |rows| :: 0 < rows[i].sequence < next)
    && (forall i, j | 0 <= i < j < |rows| :: rows[i].sequence < rows[j].sequence)
  }

  /** A measurement belongs to an event: the same identifier and time, and the
    * sensor that the payload names. */
  predicate BelongsTo(m: Measurement, id: string, at: T.Instant, payload: Payload) {
    m.id == id && m.at == at && SensorId in payload && payload[SensorId] == JStr(m.sensor)
  }

  /** Every event has its own measurement. */
  ghost predicate Paired(rows: seq<Row>, ms: seq<Measurement>) {
    |ms| == |rows| && forall i | 0 <= i < |rows| :: BelongsTo(ms[i], rows[i].id, rows[i].at, rows[i].payload)
  }

  datatype Clause = IdsUnique | SequencesIncrease | OneToOne

  ghost predicate Holds(c: Clause, t: Tables) {
    match c
    case IdsUnique => DistinctIds(t.events)
    case SequencesIncrease => t.next > 0 && Sequenced(t.events, t.next)
    case OneToOne => Paired(t.events, t.measurements)
  }

  ghost predicate Valid(t: Tables) {
    forall c :: Holds(c, t)
  }

  ghost predicate WellFormed(es: seq<Entry>) {
    forall i | 0 <= i < |es| :: BelongsTo(es[i].measurement, es[i].id, es[i].at, es[i].payload)
  }

  // ---------------------------------------------------------------- insertion

  /** INSERT ... ON CONFLICT(id) DO NOTHING, then compare. A sequence value is
    * taken either way; None is a conflict. */
  function InsertOne(t: Tables, e: Entry, now: Time): (Tables, Option<Row>) {
    var taken := t.(next := t.next + 1);
    match Find(t.events, e.id)
    case Some(i) => (taken, if t.events[i].payload == e.payload then Some(t.events[i]) else None)
    case None =>
      var row := Row(t.next, e.id, e.at, e.payload, now);
      (taken.(events := t.events + [row], measurements := t.measurements + [e.measurement]), Some(row))
  }

  type Outcome = (Tables, Option<seq<Row>>)

  /** One more entry, unless an earlier one was in conflict. */
  function Then(before: Outcome, e: Entry, now: Time): Outcome {
    if before.1.None? then before
    else
      var (u, row) := InsertOne(before.0, e, now);
      (u, if row.Some? then Some(before.1.value + [row.value]) else None)
  }

  /** Entries one after another until one conflicts. */
  function InsertAll(t: Tables, es: seq<Entry>, clock: seq<Time>): Outcome
    requires |clock| == |es|
  {
    if |es| == 0 then (t, Some([]))
    else Then(InsertAll(t, es[..|es| - 1], clock[..|es| - 1]), es[|es| - 1], clock[|es| - 1])
  }

  /** A rolled-back transaction leaves only the sequence advanced. */
  function Rollback(t: Tables, u: Tables): Tables {
    t.(next := u.next)
  }

  datatype PutError = Conflict

  /** Store.Put: all rows and how many are new, or a conflict and nothing. */
  function Put(t: Tables, es: seq<Entry>, clock: seq<Time>): (Tables, Result<(seq<Row>, nat), PutError>)
    requires |clock| == |es|
  {
    var (u, rows) := InsertAll(t, es, clock);
    if rows.None? then (Rollback(t, u), Err(Conflict))
    else (u, Ok((rows.value, if |u.events| >= |t.events| then |u.events| - |t.events| else 0)))
  }

  /** Rows and measurements are only ever added at the end. */
  ghost predicate Extends(t: Tables, u: Tables) {
    t.events <= u.events && t.measurements <= u.measurements && t.next <= u.next
  }

  lemma {:induction false} InsertOneKeeps(t: Tables, e: Entry, now: Time)
    requires Valid(t) && WellFormed([e])
    ensures Valid(InsertOne(t, e, now).0)
  {
    var u := InsertOne(t, e, now).0;
    assert [e][0] == e;
    forall c ensures Holds(c, u) {
      assert Holds(c, t);
    }
  }

  lemma {:induction false} InsertAllKeeps(t: Tables, es: seq<Entry>, clock: seq<Time>)
    requires |clock| == |es| && Valid(t) && WellFormed(es)
    ensures Valid(InsertAll(t, es, clock).0)
  {
    if |es| > 0 {
      var n := |es| - 1;
      InsertAllKeeps(t, es[..n], clock[..n]);
      ThenKeeps(InsertAll(t, es[..n], clock[..n]), es[n], clock[n]);
    }
  }

  lemma {:induction false} ThenKeeps(before: Outcome, e: Entry, now: Time)
    requires Valid(before.0) && BelongsTo(e.measurement, e.id, e.at, e.payload)
    ensures Valid(Then(before, e, now).0)
  {
    InsertOneKeeps(before.0, e, now);
  }

  /** found[i] is the stored row of entry i. */
  ghost predicate Stored(rows: seq<Row>, es: seq<Entry>, found: seq<Row>) {
    && |found| == |es|
    && forall i | 0 <= i < |es| :: found[i] in rows && found[i].id == es[i].id && found[i].payload == es[i].payload
  }

  lemma {:induction false} StoredSnoc(rows: seq<Row>, more: seq<Row>, es: seq<Entry>, found: seq<Row>, e: Entry, r: Row)
    requires Stored(rows, es, found) && rows <= more && r in more && r.id == e.id && r.payload == e.payload
    ensures Stored(more, es + [e], found + [r])
  {
    assert forall x | x in rows :: x in more;
  }

  /** What a stretch of the insertion loop has done since t. */
  ghost predicate Appended(t: Tables, es: seq<Entry>, after: Outcome) {
    && Extends(t, after.0)
    && (after.1.Some? ==> after.0.next == t.next + |es| && Stored(after.0.events, es, after.1.value))
  }

  lemma {:induction false} ThenAppends(t: Tables, es: seq<Entry>, before: Outcome, e: Entry, now: Time)
    requires Appended(t, es, before)
    ensures Appended(t, es + [e], Then(before, e, now))
  {
    if before.1.Some? {
      var (u, row) := InsertOne(before.0, e, now);
      if row.Some? {
        StoredSnoc(before.0.events, u.events, es, before.1.value, e, row.value);
      }
    }
  }

  /** Insertion only appends, takes one sequence value per entry tried, and
    * returns the stored rows in request order. */
  lemma {:induction false} InsertAllAppends(t: Tables, es: seq<Entry>, clock: seq<Time>)
    requires |clock| == |es|
    ensures Appended(t, es, InsertAll(t, es, clock))
  {
    if |es| > 0 {
      var n := |es| - 1;
      InsertAllAppends(t, es[..n], clock[..n]);
      ThenAppends(t, es[..n], InsertAll(t, es[..n], clock[..n]), es[n], clock[n]);
      assert es == es[..n] + [es[n]];
    }
  }

  // ---------------------------------------------------------------- what is written

  /** Entry i is new: neither stored before nor earlier in the batch. */
  ghost predicate IsNew(rows: seq<Row>, es: seq<Entry>, i: nat) {
    && i < |es| && (forall r | r in rows :: r.id != es[i].id)
    && forall j | 0 <= j < i :: es[j].id != es[i].id
  }

  /** Event k and its measurement are those of entry i, with the number that was next and
    * the time when it was its turn. */
  predicate IsEntry(next: nat, u: Tables, es: seq<Entry>, clock: seq<Time>, k: nat, i: nat) {
    && k < |u.events| && k < |u.measurements| && i < |es| && i < |clock|
    && u.events[k] == Row(next + i, es[i].id, es[i].at, es[i].payload, clock[i])
    && u.measurements[k] == es[i].measurement
  }

  ghost predicate ComesFrom(t: Tables, u: Tables, es: seq<Entry>, clock: seq<Time>, k: nat) {
    |t.events| <= k < |u.events| ==> exists i: nat :: IsNew(t.events, es, i) && IsEntry(t.next, u, es, clock, k, i)
  }

  ghost predicate GoesTo(t: Tables, u: Tables, es: seq<Entry>, clock: seq<Time>, i: nat) {
    IsNew(t.events, es, i) ==> exists k: nat :: |t.events| <= k && IsEntry(t.next, u, es, clock, k, i)
  }

  /** The rows beyond those of t are exactly the new entries of the batch. */
  ghost predicate Writes(t: Tables, es: seq<Entry>, clock: seq<Time>, u: Tables) {
    && |u.measurements| == |u.events|
    && (forall k: nat :: ComesFrom(t, u, es, clock, k))
    && (forall i: nat :: GoesTo(t, u, es, clock, i))
  }

  lemma {:induction false} StillNew(rows: seq<Row>, es: seq<Entry>, e: Entry, i: nat)
    ensures i < |es| ==> (IsNew(rows, es + [e], i) <==> IsNew(rows, es, i))
  {
    if i < |es| {
      forall j | 0 <= j <= i ensures (es + [e])[j] == es[j] {
      }
    }
  }

  lemma {:induction false} StillEntry(next: nat, u: Tables, w: Tables, es: seq<Entry>, e: Entry, clock: seq<Time>,
                                      now: Time, k: nat, i: nat)
    requires IsEntry(next, u, es, clock, k, i) && |clock| == |es|
    requires u.events <= w.events && u.measurements <= w.measurements
    ensures IsEntry(next, w, es + [e], clock + [now], k, i)
  {
  }

  ghost predicate NamedIn(es: seq<Entry>, id: string) {
    exists j :: 0 <= j < |es| && es[j].id == id
  }

  /** The last entry is inserted exactly if it is new. */
  lemma {:induction false} LastIsNew(t: Tables, es: seq<Entry>, u: Tables, found: seq<Row>, e: Entry)
    requires Extends(t, u) && Stored(u.events, es, found)
    requires forall k | |t.events| <= k < |u.events| :: NamedIn(es, u.events[k].id)
    ensures Find(u.events, e.id).None? <==> IsNew(t.events, es + [e], |es|)
  {
    var more := es + [e];
    if Find(u.events, e.id).None? {
      forall r | r in t.events ensures r.id != e.id {
        assert r in u.events;
      }
      forall j | 0 <= j < |es| ensures more[j].id != e.id {
        assert found[j] in u.events;
      }
    } else {
      var k := Find(u.events, e.id).value;
      if k < |t.events| {
        assert t.events[k] in t.events;
      } else {
        var j :| 0 <= j < |es| && es[j].id == u.events[k].id;
        assert more[j] == es[j];
      }
    }
  }

  lemma {:induction false} NewRowsAreEntries(t: Tables, es: seq<Entry>, clock: seq<Time>, u: Tables)
    requires Writes(t, es, clock, u)
    ensures forall k | |t.events| <= k < |u.events| :: NamedIn(es, u.events[k].id)
  {
    forall k | |t.events| <= k < |u.events| ensures NamedIn(es, u.events[k].id) {
      assert ComesFrom(t, u, es, clock, k);
      var i: nat :| IsNew(t.events, es, i) && IsEntry(t.next, u, es, clock, k, i);
      assert u.events[k].id == es[i].id;
    }
  }

  lemma {:induction false} ThenWrites(t: Tables, es: seq<Entry>, clock: seq<Time>, before: Outcome, e: Entry, now: Time)
    requires |clock| == |es| && Appended(t, es, before) && before.1.Some? && Writes(t, es, clock, before.0)
    requires Then(before, e, now).1.Some?
    ensures Writes(t, es + [e], clock + [now], Then(before, e, now).0)
  {
    var u, w := before.0, Then(before, e, now).0;
    var more, times := es + [e], clock + [now];
    NewRowsAreEntries(t, es, clock, u);
    LastIsNew(t, es, u, before.1.value, e);
    forall k: nat ensures ComesFrom(t, w, more, times, k) {
      if |t.events| <= k < |u.events| {
        assert ComesFrom(t, u, es, clock, k);
        var i: nat :| IsNew(t.events, es, i) && IsEntry(t.next, u, es, clock, k, i);
        StillNew(t.events, es, e, i);
        StillEntry(t.next, u, w, es, e, clock, now, k, i);
      } else if |u.events| <= k < |w.events| {
        assert IsEntry(t.next, w, more, times, k, |es|);
      }
    }
    forall i: nat ensures GoesTo(t, w, more, times, i) {
      StillNew(t.events, es, e, i);
      if i < |es| && IsNew(t.events, es, i) {
        assert GoesTo(t, u, es, clock, i);
        var k: nat :| |t.events| <= k && IsEntry(t.next, u, es, clock, k, i);
        StillEntry(t.next, u, w, es, e, clock, now, k, i);
      } else if i == |es| && IsNew(t.events, more, i) {
        assert IsEntry(t.next, w, more, times, |u.events|, i);
      }
    }
  }

  lemma {:induction false} WritesNothing(t: Tables)
    requires |t.measurements| == |t.events|
    ensures Writes(t, [], [], t)
  {
    forall k: nat ensures ComesFrom(t, t, [], [], k) && GoesTo(t, t, [], [], k) {
    }
  }

  /** A batch that goes through writes exactly its new entries: the event and the
    * measurement of each, numbered and dated in its turn. */
  lemma {:induction false} InsertAllWrites(t: Tables, es: seq<Entry>, clock: seq<Time>)
    requires |clock| == |es| && |t.measurements| == |t.events| && InsertAll(t, es, clock).1.Some?
    ensures Writes(t, es, clock, InsertAll(t, es, clock).0)
  {
    if |es| == 0 {
      WritesNothing(t);
      assert es == [] && clock == [];
    } else {
      var front, last, times, now := es[..|es| - 1], es[|es| - 1], clock[..|es| - 1], clock[|es| - 1];
      InsertAllSnoc(t, es, clock);
      InsertAllWrites(t, front, times);
      InsertAllAppends(t, front, times);
      ThenWrites(t, front, times, InsertAll(t, front, times), last, now);
    }
  }

  lemma {:induction false} InsertAllSnoc(t: Tables, es: seq<Entry>, clock: seq<Time>)
    requires |clock| == |es| > 0
    ensures var n := |es| - 1;
            && InsertAll(t, es, clock) == Then(InsertAll(t, es[..n], clock[..n]), es[n], clock[n])
            && es == es[..n] + [es[n]] && clock == clock[..n] + [clock[n]]
            && (InsertAll(t, es, clock).1.Some? ==> InsertAll(t, es[..n], clock[..n]).1.Some?)
  {
  }

  /** Put is all or nothing, never changes a stored row, keeps events and
    * measurements one to one, answers in request order, writes exactly the new
    * entries and counts as created exactly the growth of the registry. */
  lemma {:induction false} PutContract(t: Tables, es: seq<Entry>, clock: seq<Time>)
    requires |clock| == |es| && Valid(t) && WellFormed(es)
    ensures var (u, r) := Put(t, es, clock);
            && Valid(u) && Extends(t, u)
            && (r.Err? ==> u.events == t.events && u.measurements == t.measurements)
            && (r.Ok? ==> r.value.1 == |u.events| - |t.events| == |u.measurements| - |t.measurements|
                          && Stored(u.events, es, r.value.0) && Writes(t, es, clock, u))
  {
    var u := InsertAll(t, es, clock).0;
    assert |t.measurements| == |t.events| by {
      assert Holds(OneToOne, t);
    }
    if InsertAll(t, es, clock).1.Some? {
      InsertAllWrites(t, es, clock);
    }
    InsertAllKeeps(t, es, clock);
    InsertAllAppends(t, es, clock);
    assert Holds(OneToOne, t) && Holds(OneToOne, u);
    RollbackKeeps(t, u);
  }

  lemma {:induction false} RollbackKeeps(t: Tables, u: Tables)
    requires Valid(t) && t.next <= u.next
    ensures Valid(Rollback(t, u))
  {
    forall c ensures Holds(c, Rollback(t, u)) {
      assert Holds(c, t);
    }
  }

  // ---------------------------------------------------------------- replay

  lemma {:induction false} FindStored(rows: seq<Row>, r: Row)
    requires r in rows && DistinctIds(rows)
    ensures Find(rows, r.id).Some? && rows[Find(rows, r.id).value] == r
  {
    var i :| 0 <= i < |rows| && rows[i] == r;
  }

  /** The first n entries were all found. */
  function Found(t: Tables, found: seq<Row>, n: nat): Outcome
    requires n <= |found|
  {
    (Tables(t.events, t.measurements, t.next + n), Some(found[..n]))
  }

  lemma {:induction false} ThenFinds(t: Tables, found: seq<Row>, n: nat, e: Entry, now: Time)
    requires n < |found| && DistinctIds(t.events)
    requires found[n] in t.events && found[n].id == e.id && found[n].payload == e.payload
    ensures Then(Found(t, found, n), e, now) == Found(t, found, n + 1)
  {
    FindStored(t.events, found[n]);
    assert found[..n] + [found[n]] == found[..n + 1];
  }

  lemma {:induction false} ReinsertPrefix(t: Tables, es: seq<Entry>, clock: seq<Time>, found: seq<Row>, n: nat)
    requires |clock| == |es| && DistinctIds(t.events) && Stored(t.events, es, found) && n <= |es|
    ensures InsertAll(t, es[..n], clock[..n]) == Found(t, found, n)
  {
    if n > 0 {
      ReinsertPrefix(t, es, clock, found, n - 1);
      assert es[..n][..n - 1] == es[..n - 1] && clock[..n][..n - 1] == clock[..n - 1];
      ThenFinds(t, found, n - 1, es[n - 1], clock[n - 1]);
    }
  }

  /** Stored entries insert nothing and find their rows again. */
  lemma {:induction false} ReinsertFinds(t: Tables, es: seq<Entry>, clock: seq<Time>, found: seq<Row>)
    requires |clock| == |es| && DistinctIds(t.events) && Stored(t.events, es, found)
    ensures InsertAll(t, es, clock) == (t.(next := t.next + |es|), Some(found))
  {
    ReinsertPrefix(t, es, clock, found, |es|);
    assert es[..|es|] == es && clock[..|es|] == clock && found[..|es|] == found;
  }

  lemma {:induction false} StoredLater(rows: seq<Row>, more: seq<Row>, es: seq<Entry>, found: seq<Row>)
    requires Stored(rows, es, found) && rows <= more
    ensures Stored(more, es, found)
  {
    assert forall r | r in rows :: r in more;
  }

  /** Repeating a successful Put, at any later state, creates nothing and returns
    * the same rows with the same sequences. */
  lemma {:induction false} RepeatedPut(t: Tables, es: seq<Entry>, clock: seq<Time>, later: Tables, again: seq<Time>)
    requires |clock| == |es| == |again| && Valid(later)
    requires Put(t, es, clock).1.Ok? && Put(t, es, clock).0.events <= later.events
    ensures Put(later, es, again)
            == (later.(next := later.next + |es|), Ok((Put(t, es, clock).1.value.0, 0)))
  {
    InsertAllAppends(t, es, clock);
    var (u, rows) := InsertAll(t, es, clock);
    StoredLater(u.events, later.events, es, rows.value);
    assert Holds(IdsUnique, later);
    ReinsertFinds(later, es, again, rows.value);
  }

  lemma {:induction false} ThenConflicts(before: Outcome, e: Entry, now: Time, r: Row)
    requires DistinctIds(before.0.events) && r in before.0.events && r.id == e.id && r.payload != e.payload
    ensures Then(before, e, now).1 == None
  {
    FindStored(before.0.events, r);
  }

  /** Changed content under a stored identifier is a conflict. */
  lemma {:induction false} ChangedContentStops(t: Tables, es: seq<Entry>, clock: seq<Time>, k: nat, r: Row)
    requires |clock| == |es| && Valid(t) && WellFormed(es)
    requires k < |es| && r in t.events && r.id == es[k].id && r.payload != es[k].payload
    ensures InsertAll(t, es, clock).1 == None
  {
    var n := |es| - 1;
    if k < n {
      ChangedContentStops(t, es[..n], clock[..n], k, r);
    } else {
      InsertAllKeeps(t, es[..n], clock[..n]);
      InsertAllAppends(t, es[..n], clock[..n]);
      var before := InsertAll(t, es[..n], clock[..n]);
      assert r in before.0.events;
      assert Holds(IdsUnique, before.0);
      ThenConflicts(before, es[n], clock[n], r);
    }
  }

  /** And then nothing of the batch is stored. */
  lemma {:induction false} ChangedContentConflicts(t: Tables, es: seq<Entry>, clock: seq<Time>, k: nat, r: Row)
    requires |clock| == |es| && Valid(t) && WellFormed(es)
    requires k < |es| && r in t.events && r.id == es[k].id && r.payload != es[k].payload
    ensures InsertAll(t, es, clock).1 == None
    ensures Put(t, es, clock).1 == Err(Conflict) && Put(t, es, clock).0.events == t.events
            && Put(t, es, clock).0.measurements == t.measurements
  {
    ChangedContentStops(t, es, clock, k, r);
  }

  // ---------------------------------------------------------------- the reference store

  /** A row without its sequence number. */
  datatype Content = Content(id: string, at: T.Instant, payload: Payload, receivedAt: Time)

  function ContentOf(r: Row): Content {
    Content(r.id, r.at, r.payload, r.receivedAt)
  }

  function Contents(rows: seq<Row>): (c: seq<Content>)
    ensures |c| == |rows| && forall i | 0 <= i < |rows| :: c[i] == ContentOf(rows[i])
  {
    seq(|rows|, i requires 0 <= i < |rows| => ContentOf(rows[i]))
  }

  /** Some entry contradicts a record stored before the batch. */
  predicate RefConflict(records: seq<Row>, es: seq<Entry>) {
    exists i | 0 <= i < |es| ::
      Find(records, es[i].id).Some? && records[Find(records, es[i].id).value].payload != es[i].payload
  }

  /** The second loop of the reference store: no comparison any more. */
  function RefInsert(records: seq<Row>, es: seq<Entry>, clock: seq<Time>): (seq<Row>, seq<Row>)
    requires |clock| == |es|
  {
    if |es| == 0 then (records, [])
    else
      var n := |es| - 1;
      var (rs, out) := RefInsert(records, es[..n], clock[..n]);
      match Find(rs, es[n].id)
      case Some(i) => (rs, out + [rs[i]])
      case None =>
        var r := Row(|rs| + 1, es[n].id, es[n].at, es[n].payload, clock[n]);
        (rs + [r], out + [r])
  }

  /** memoryStore.Put: conflicts are all checked before anything is stored. */
  function RefPut(records: seq<Row>, es: seq<Entry>, clock: seq<Time>): (seq<Row>, Result<(seq<Row>, nat), PutError>)
    requires |clock| == |es|
  {
    if RefConflict(records, es) then (records, Err(Conflict))
    else
      var (rs, out) := RefInsert(records, es, clock);
      (rs, Ok((out, if |rs| >= |records| then |rs| - |records| else 0)))
  }

  /** No identifier occurs in the batch with two contents. */
  ghost predicate Consistent(es: seq<Entry>) {
    forall i, j | 0 <= i < j < |es| && es[i].id == es[j].id :: es[i].payload == es[j].payload
  }

  lemma {:induction false} FindByContent(a: seq<Row>, b: seq<Row>, id: string)
    requires Contents(a) == Contents(b)
    ensures Find(a, id) == Find(b, id)
  {
    assert |a| == |Contents(a)| == |b|;
    if |a| > 0 {
      assert Contents(a)[|a| - 1] == Contents(b)[|a| - 1];
      assert Contents(a[..|a| - 1]) == Contents(a)[..|a| - 1] == Contents(b[..|b| - 1]);
      FindByContent(a[..|a| - 1], b[..|b| - 1], id);
    }
  }

  lemma {:induction false} ContentsSnoc(a: seq<Row>, b: seq<Row>, x: Row, y: Row)
    requires Contents(a) == Contents(b) && ContentOf(x) == ContentOf(y)
    ensures Contents(a + [x]) == Contents(b + [y])
  {
    assert Contents(a + [x]) == Contents(a) + [ContentOf(x)];
    assert Contents(b + [y]) == Contents(b) + [ContentOf(y)];
  }

  /** An entry does not contradict the stored rows. */
  ghost predicate Fits(rows: seq<Row>, e: Entry) {
    Find(rows, e.id).Some? ==> rows[Find(rows, e.id).value].payload == e.payload
  }

  ghost predicate AllFit(rows: seq<Row>, es: seq<Entry>) {
    forall i | 0 <= i < |es| :: Fits(rows, es[i])
  }

  /** What fits the records and the batch still fits after the batch. */
  lemma {:induction false} RefInsertFits(records: seq<Row>, es: seq<Entry>, clock: seq<Time>, e: Entry)
    requires |clock| == |es| && Fits(records, e)
    requires forall i | 0 <= i < |es| && es[i].id == e.id :: es[i].payload == e.payload
    ensures Fits(RefInsert(records, es, clock).0, e)
  {
    if |es| > 0 {
      var n := |es| - 1;
      RefInsertFits(records, es[..n], clock[..n], e);
      var rs := RefInsert(records, es[..n], clock[..n]).0;
      var y := Row(|rs| + 1, es[n].id, es[n].at, es[n].payload, clock[n]);
      assert (rs + [y])[..|rs|] == rs;
    }
  }

  /** One step of both loops, from the same contents. */
  lemma {:induction false} StepsAgree(u: Tables, rs: seq<Row>, e: Entry, now: Time)
    requires Contents(u.events) == Contents(rs) && Fits(rs, e)
    ensures var (w, row) := InsertOne(u, e, now);
            var y := Row(|rs| + 1, e.id, e.at, e.payload, now);
            var found := Find(rs, e.id);
            row.Some? &&
            if found.Some? then Contents(w.events) == Contents(rs) && ContentOf(row.value) == ContentOf(rs[found.value])
            else Contents(w.events) == Contents(rs + [y]) && ContentOf(row.value) == ContentOf(y)
  {
    FindByContent(u.events, rs, e.id);
    var found := Find(rs, e.id);
    if found.Some? {
      assert Contents(u.events)[found.value] == Contents(rs)[found.value];
    } else {
      ContentsSnoc(u.events, rs, Row(u.next, e.id, e.at, e.payload, now), Row(|rs| + 1, e.id, e.at, e.payload, now));
    }
  }

  /** While no entry contradicts a stored record or an earlier entry, both loops
    * go the same way. */
  lemma {:induction false} LoopsAgree(t: Tables, records: seq<Row>, es: seq<Entry>, clock: seq<Time>)
    requires |clock| == |es| && Contents(t.events) == Contents(records)
    requires Consistent(es) && AllFit(records, es)
    ensures var (u, rows) := InsertAll(t, es, clock);
            var (rs, out) := RefInsert(records, es, clock);
            rows.Some? && Contents(u.events) == Contents(rs) && Contents(rows.value) == Contents(out)
  {
    if |es| > 0 {
      var n := |es| - 1;
      LoopsAgree(t, records, es[..n], clock[..n]);
      var (u, rows) := InsertAll(t, es[..n], clock[..n]);
      var (rs, out) := RefInsert(records, es[..n], clock[..n]);
      assert Fits(records, es[n]);
      RefInsertFits(records, es[..n], clock[..n], es[n]);
      StepsAgree(u, rs, es[n], clock[n]);
      var found := Find(rs, es[n].id);
      var y := if found.Some? then rs[found.value] else Row(|rs| + 1, es[n].id, es[n].at, es[n].payload, clock[n]);
      ContentsSnoc(rows.value, out, InsertOne(u, es[n], clock[n]).1.value, y);
    }
  }

  /** A contradiction inside the batch stops the real loop. */
  lemma {:induction false} ContradictionStops(t: Tables, es: seq<Entry>, clock: seq<Time>, i: nat, j: nat)
    requires |clock| == |es| && Valid(t) && WellFormed(es)
    requires i < j < |es| && es[i].id == es[j].id && es[i].payload != es[j].payload
    ensures InsertAll(t, es, clock).1 == None
  {
    var n := |es| - 1;
    if j < n {
      ContradictionStops(t, es[..n], clock[..n], i, j);
    } else {
      InsertAllKeeps(t, es[..n], clock[..n]);
      InsertAllAppends(t, es[..n], clock[..n]);
      var before := InsertAll(t, es[..n], clock[..n]);
      if before.1.Some? {
        assert Holds(IdsUnique, before.0);
        ThenConflicts(before, es[n], clock[n], before.1.value[i]);
      }
    }
  }

  /** No stored row holds other content under the entry's identifier. */
  ghost predicate Undisputed(rows: seq<Row>, e: Entry) {
    forall r | r in rows && r.id == e.id :: r.payload == e.payload
  }

  ghost predicate AllUndisputed(rows: seq<Row>, es: seq<Entry>) {
    forall i | 0 <= i < |es| :: Undisputed(rows, es[i])
  }

  lemma {:induction false} UndisputedFits(rows: seq<Row>, es: seq<Entry>)
    requires AllUndisputed(rows, es)
    ensures AllFit(rows, es)
  {
    forall i | 0 <= i < |es| ensures Fits(rows, es[i]) {
      assert Undisputed(rows, es[i]);
      var found := Find(rows, es[i].id);
      assert found.Some? ==> rows[found.value] in rows;
    }
  }

  /** Put succeeds exactly if no identifier occurs in the batch with two contents
    * and none in the registry with another one. */
  lemma {:induction false} PutSucceedsExactly(t: Tables, es: seq<Entry>, clock: seq<Time>)
    requires |clock| == |es| && Valid(t) && WellFormed(es)
    ensures InsertAll(t, es, clock).1.Some? <==> Consistent(es) && AllUndisputed(t.events, es)
    ensures Put(t, es, clock).1.Ok? <==> Consistent(es) && AllUndisputed(t.events, es)
  {
    if !Consistent(es) {
      var i, j :| 0 <= i < j < |es| && es[i].id == es[j].id && es[i].payload != es[j].payload;
      ContradictionStops(t, es, clock, i, j);
    } else if AllUndisputed(t.events, es) {
      UndisputedFits(t.events, es);
      LoopsAgree(t, t.events, es, clock);
    } else {
      var i :| 0 <= i < |es| && !Undisputed(t.events, es[i]);
      var r :| r in t.events && r.id == es[i].id && r.payload != es[i].payload;
      ChangedContentStops(t, es, clock, i, r);
    }
  }

  /** The same answer up to sequence numbers, on the same contents. */
  ghost predicate SameOutcome(t: Tables, records: seq<Row>, es: seq<Entry>, clock: seq<Time>)
    requires |clock| == |es|
  {
    var (u, r) := Put(t, es, clock);
    var (rs, q) := RefPut(records, es, clock);
    && Contents(u.events) == Contents(rs)
    && r.Err? == q.Err?
    && (r.Ok? ==> Contents(r.value.0) == Contents(q.value.0) && r.value.1 == q.value.1)
  }

  lemma {:induction false} BothRefuse(t: Tables, records: seq<Row>, es: seq<Entry>, clock: seq<Time>)
    requires |clock| == |es| && Valid(t) && WellFormed(es)
    requires Contents(t.events) == Contents(records) && RefConflict(records, es)
    ensures SameOutcome(t, records, es, clock)
  {
    assert |t.events| == |Contents(t.events)| == |records|;
    var k :| 0 <= k < |es| && Find(records, es[k].id).Some?
        && records[Find(records, es[k].id).value].payload != es[k].payload;
    FindByContent(t.events, records, es[k].id);
    var i := Find(records, es[k].id).value;
    assert Contents(t.events)[i] == Contents(records)[i];
    ChangedContentConflicts(t, es, clock, k, t.events[i]);
  }

  lemma {:induction false} BothTake(t: Tables, records: seq<Row>, es: seq<Entry>, clock: seq<Time>)
    requires |clock| == |es| && Contents(t.events) == Contents(records) && !RefConflict(records, es) && Consistent(es)
    ensures SameOutcome(t, records, es, clock)
  {
    LoopsAgree(t, records, es, clock);
    var u, rs := InsertAll(t, es, clock).0, RefInsert(records, es, clock).0;
    assert |t.events| == |Contents(t.events)| == |records|
           && |u.events| == |Contents(u.events)| == |Contents(rs)| == |rs|;
  }

  /** Put, which interleaves inserting and comparing and relies on rollback,
    * refines the reference store that checks every conflict first, up to gaps in
    * the sequence: exactly unless the batch itself gives one identifier two
    * contents and contradicts no stored record, which the reference store takes
    * and Put refuses. The API never sends such a batch. */
  lemma {:induction false} PutRefinesReference(t: Tables, records: seq<Row>, es: seq<Entry>, clock: seq<Time>)
    requires |clock| == |es| && Valid(t) && WellFormed(es)
    requires Contents(t.events) == Contents(records)
    ensures SameOutcome(t, records, es, clock) <==> Consistent(es) || RefConflict(records, es)
  {
    if RefConflict(records, es) {
      BothRefuse(t, records, es, clock);
    } else if Consistent(es) {
      BothTake(t, records, es, clock);
    } else {
      var i, j :| 0 <= i < j < |es| && es[i].id == es[j].id && es[i].payload != es[j].payload;
      ContradictionStops(t, es, clock, i, j);
    }
  }

  /** With distinct identifiers, as the API checks, they always agree. */
  lemma {:induction false} DistinctBatchesRefine(t: Tables, records: seq<Row>, es: seq<Entry>, clock: seq<Time>)
    requires |clock| == |es| && Valid(t) && WellFormed(es)
    requires Contents(t.events) == Contents(records)
    requires forall i, j | 0 <= i < j < |es| :: es[i].id != es[j].id
    ensures SameOutcome(t, records, es, clock)
  {
    PutRefinesReference(t, records, es, clock);
  }
}
