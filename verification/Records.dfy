/** What readers get back: the stored payload decoded again, and the record that the
  * API answers with. */
module Records {
  import opened Wrappers
  import opened Clock
  import opened Observations
  import opened CanonicalForm
  import opened Registry
  import opened Routes
  import T = Timestamps

  /** Get and List decode the payload of a row. */
  function Decoded(row: Row): Option<Value> {
    if GoDecodes(row.payload) then Some(GoDecoded(row.payload)) else None
  }

  /** The row holds what the API stores for v. */
  ghost predicate Holds(row: Row, v: Value) {
    Sound(v) && row.id == v.id && row.at == v.at && row.payload == GoPayload(v)
  }

  /** An event and its measurement hold one value. */
  ghost predicate OneValue(row: Row, m: Measurement) {
    exists v :: Holds(row, v) && m == GoMeasurement(v)
  }

  /** Every event and its measurement do. */
  ghost predicate AllWritten(t: Tables) {
    |t.measurements| == |t.events| && forall i: nat :: WrittenAt(t, i)
  }

  ghost predicate WrittenAt(t: Tables, i: nat) {
    i < |t.events| && i < |t.measurements| ==> OneValue(t.events[i], t.measurements[i])
  }

  /** A route asks for nothing else to be stored. */
  ghost predicate Canonical(e: Entry) {
    exists v :: Sound(v) && e == GoEntry(v)
  }

  ghost predicate ReadsCanonical(read: Reader) {
    forall e :: read(e).Some? ==> Canonical(read(e).value)
  }

  lemma {:induction false} CanonicalIsHonest(e: Entry)
    requires Canonical(e)
    ensures BelongsTo(e.measurement, e.id, e.at, e.payload)
  {
    var v :| Sound(v) && e == GoEntry(v);
    ApiIsHonest(v);
  }

  lemma {:induction false} DecodedIsSound(item: Item)
    requires SqlEntry(item).Some?
    ensures GoDecodes(item) && Sound(GoDecoded(item))
  {
    TriggerStoresItsValue(item);
  }

  lemma {:induction false} BothReadCanonical()
    ensures ReadsCanonical(ApiReads) && ReadsCanonical(MqttReads)
  {
    forall e | ApiReads(e).Some? ensures Canonical(ApiReads(e).value) {
      AcceptedIsSound(e.value);
      assert Sound(GoValue(e.value).value) && ApiReads(e).value == GoEntry(GoValue(e.value).value);
    }
    forall e | MqttReads(e).Some? ensures Canonical(MqttReads(e).value) {
      DecodedIsSound(e.value);
      TriggerStoresItsValue(e.value);
      assert Sound(GoDecoded(e.value)) && MqttReads(e).value == GoEntry(GoDecoded(e.value));
    }
  }

  // ---------------------------------------------------------------- in every registry

  lemma {:induction false} EntryHolds(e: Entry, row: Row)
    requires Canonical(e) && row == Row(row.sequence, e.id, e.at, e.payload, row.receivedAt)
    ensures OneValue(row, e.measurement)
  {
    var v :| Sound(v) && e == GoEntry(v);
    assert Holds(row, v);
  }

  lemma {:induction false} OneMoreRow(t: Tables, row: Row, m: Measurement, next: nat)
    requires AllWritten(t) && OneValue(row, m)
    ensures AllWritten(Tables(t.events + [row], t.measurements + [m], next))
  {
    var more := Tables(t.events + [row], t.measurements + [m], next);
    forall i: nat ensures WrittenAt(more, i) {
      assert WrittenAt(t, i);
    }
  }

  lemma {:induction false} WrittenKeeps(t: Tables, next: nat)
    requires AllWritten(t)
    ensures AllWritten(t.(next := next))
  {
    forall i: nat ensures WrittenAt(t.(next := next), i) {
      assert WrittenAt(t, i);
    }
  }

  lemma {:induction false} InsertKeepsHolding(t: Tables, e: Entry, now: Time)
    requires AllWritten(t) && Canonical(e)
    ensures AllWritten(InsertOne(t, e, now).0)
  {
    var row := Row(t.next, e.id, e.at, e.payload, now);
    assert OneValue(row, e.measurement) by {
      EntryHolds(e, row);
    }
    OneMoreRow(t, row, e.measurement, t.next + 1);
    WrittenKeeps(t, t.next + 1);
    InsertOneCases(t, e, now);
  }

  lemma {:induction false} InsertOneCases(t: Tables, e: Entry, now: Time)
    ensures var u, row := InsertOne(t, e, now).0, Row(t.next, e.id, e.at, e.payload, now);
            u == t.(next := t.next + 1) || u == Tables(t.events + [row], t.measurements + [e.measurement], t.next + 1)
  {
  }

  ghost predicate AllCanonical(es: seq<Entry>) {
    forall i: nat :: CanonicalAt(es, i)
  }

  ghost predicate CanonicalAt(es: seq<Entry>, i: nat) {
    i < |es| ==> Canonical(es[i])
  }

  lemma {:induction false} CanonicalFront(es: seq<Entry>)
    requires AllCanonical(es) && |es| > 0
    ensures AllCanonical(es[..|es| - 1]) && Canonical(es[|es| - 1])
  {
    assert CanonicalAt(es, |es| - 1);
    var front := es[..|es| - 1];
    forall i: nat ensures CanonicalAt(front, i) {
      assert CanonicalAt(es, i);
    }
  }

  lemma {:induction false} InsertAllKeepsHolding(t: Tables, es: seq<Entry>, clock: seq<Time>)
    requires |clock| == |es| && AllWritten(t) && AllCanonical(es)
    ensures AllWritten(InsertAll(t, es, clock).0)
  {
    if |es| > 0 {
      var n := |es| - 1;
      CanonicalFront(es);
      InsertAllKeepsHolding(t, es[..n], clock[..n]);
      InsertKeepsHolding(InsertAll(t, es[..n], clock[..n]).0, es[n], clock[n]);
    }
  }

  lemma {:induction false} TakeKeepsHolding(before: Routes.Progress, e: Option<Entry>, now: Time)
    requires AllWritten(before.0) && (e.Some? ==> Canonical(e.value))
    ensures AllWritten(Take(before, e, now).0)
  {
    if e.Some? {
      InsertKeepsHolding(before.0, e.value, now);
    }
  }

  lemma {:induction false} IngestAllKeepsHolding(t: Tables, elements: seq<Element>, clock: seq<Time>, read: Reader)
    requires |clock| == |elements| && AllWritten(t) && ReadsCanonical(read)
    ensures AllWritten(IngestAll(t, elements, clock, read).0)
  {
    if |elements| > 0 {
      var n := |elements| - 1;
      var before := IngestAll(t, elements[..n], clock[..n], read);
      IngestAllKeepsHolding(t, elements[..n], clock[..n], read);
      TakeKeepsHolding(before, read(elements[n]), clock[n]);
    }
  }

  lemma {:induction false} RollbackKeepsHolding(t: Tables, u: Tables)
    requires AllWritten(t)
    ensures AllWritten(Rollback(t, u))
  {
    WrittenKeeps(t, u.next);
  }

  lemma {:induction false} PostKeepsHolding(t: Tables, d: Document, clock: seq<Time>)
    requires AllWritten(t) && (d.Batch? ==> |clock| == |d.elements|)
    ensures AllWritten(Post(t, d, clock, ApiReads).0)
  {
    if d.Batch? {
      NormalizedExactly(d.elements, ApiReads);
      var es := Normalized(d.elements, ApiReads);
      if es.Some? {
        NormalizedIsCanonical(d.elements, es.value);
        InsertAllKeepsHolding(t, es.value, clock);
        RollbackKeepsHolding(t, InsertAll(t, es.value, clock).0);
      }
    }
  }

  lemma {:induction false} NormalizedIsCanonical(elements: seq<Element>, es: seq<Entry>)
    requires ReadsAs(elements, ApiReads, es)
    ensures AllCanonical(es)
  {
    BothReadCanonical();
    forall i: nat ensures CanonicalAt(es, i) {
      if i < |es| {
        assert ApiReads(elements[i]) == Some(es[i]);
      }
    }
  }

  lemma {:induction false} IngestKeepsHolding(t: Tables, d: Document, clock: seq<Time>, render: Json -> string)
    requires AllWritten(t) && (d.Batch? ==> |clock| == |d.elements|)
    ensures AllWritten(Ingest(t, d, clock, MqttReads, render).0)
  {
    BothReadCanonical();
    if d.Batch? {
      IngestAllKeepsHolding(t, d.elements, clock, MqttReads);
      RollbackKeepsHolding(t, IngestAll(t, d.elements, clock, MqttReads).0);
    }
  }

  /** Whatever comes in through either route, every event of the registry holds a value,
    * and its measurement is that value's. */
  lemma {:induction false} BothRoutesKeepHolding(t: Tables, d: Document, clock: seq<Time>, render: Json -> string)
    requires AllWritten(t) && (d.Batch? ==> |clock| == |d.elements|)
    ensures AllWritten(Post(t, d, clock, ApiReads).0)
    ensures AllWritten(Ingest(t, d, clock, MqttReads, render).0)
  {
    PostKeepsHolding(t, d, clock);
    IngestKeepsHolding(t, d, clock, render);
  }

  // ---------------------------------------------------------------- what is read back

  /** A row that holds a value decodes to exactly that value, of whatever year. */
  lemma {:induction false} RowReadsBack(row: Row, v: Value)
    requires Holds(row, v)
    ensures Decoded(row) == Some(v)
  {
    CanonicalDecodes(v);
  }

  /** Every row of such a registry can be read, as one value only, and its measurement
    * has exactly that value's columns. */
  lemma {:induction false} EveryRowReadsBack(t: Tables, i: nat)
    requires AllWritten(t) && i < |t.events|
    ensures Decoded(t.events[i]).Some? && Holds(t.events[i], Decoded(t.events[i]).value)
    ensures t.measurements[i] == GoMeasurement(Decoded(t.events[i]).value)
  {
    assert WrittenAt(t, i);
    var v :| Holds(t.events[i], v) && t.measurements[i] == GoMeasurement(v);
    RowReadsBack(t.events[i], v);
  }

  /** What POST has stored, Get returns from then on: the row found under the
    * identifier decodes to the very value that was sent, and the measurement that the
    * evaluator reads is that value's, in any later registry that the routes leave. */
  lemma {:induction false} ReturnedAsPut(t: Tables, d: Document, clock: seq<Time>, later: Tables, i: nat)
    requires d.Batch? && |clock| == |d.elements| && i < |d.elements| && Valid(later) && AllWritten(later)
    requires Post(t, d, clock, ApiReads).1.Stored? && Post(t, d, clock, ApiReads).0.events <= later.events
    ensures d.elements[i].Some? && GoValue(d.elements[i].value).Some?
    ensures var v := GoValue(d.elements[i].value).value;
            var found := Find(later.events, v.id);
            && found.Some? && Decoded(later.events[found.value]) == Some(v)
            && later.measurements[found.value] == GoMeasurement(v)
  {
    NormalizedExactly(d.elements, ApiReads);
    var es := Normalized(d.elements, ApiReads).value;
    var v := GoValue(d.elements[i].value).value;
    AcceptedIsSound(d.elements[i].value);
    assert es[i] == GoEntry(v);
    FoundLater(t, es, clock, later, i);
    CanonicalDecodes(v);
    EveryRowReadsBack(later, Find(later.events, v.id).value);
  }

  /** What the trigger has stored is returned as the value of its document. */
  lemma {:induction false} ReturnedAsIngested(t: Tables, d: Document, clock: seq<Time>, render: Json -> string,
                                              later: Tables,
                                              i: nat)
    requires d.Batch? && |clock| == |d.elements| && i < |d.elements| && Valid(later) && AllWritten(later)
    requires Ingest(t, d, clock, MqttReads, render).1
    requires Ingest(t, d, clock, MqttReads, render).0.events <= later.events
    ensures d.elements[i].Some? && GoDecodes(d.elements[i].value)
    ensures var v := GoDecoded(d.elements[i].value);
            var found := Find(later.events, v.id);
            && found.Some? && Decoded(later.events[found.value]) == Some(v)
            && later.measurements[found.value] == GoMeasurement(v)
  {
    IngestStops(t, d.elements, clock, MqttReads);
    var es := Entries(d.elements, MqttReads);
    IngestInserts(t, d.elements, es, clock, MqttReads);
    var item := d.elements[i].value;
    DecodedIsSound(item);
    TriggerStoresItsValue(item);
    assert es[i] == GoEntry(GoDecoded(item));
    FoundLater(t, es, clock, later, i);
    CanonicalDecodes(GoDecoded(item));
    EveryRowReadsBack(later, Find(later.events, es[i].id).value);
  }

  lemma {:induction false} FoundLater(t: Tables, es: seq<Entry>, clock: seq<Time>, later: Tables, i: nat)
    requires |clock| == |es| && i < |es| && Valid(later) && InsertAll(t, es, clock).1.Some?
    requires InsertAll(t, es, clock).0.events <= later.events
    ensures var found := Find(later.events, es[i].id);
            found.Some? && later.events[found.value].payload == es[i].payload
  {
    InsertAllAppends(t, es, clock);
    var (u, rows) := InsertAll(t, es, clock);
    StoredLater(u.events, later.events, es, rows.value);
    assert Registry.Holds(IdsUnique, later);
    FindStored(later.events, rows.value[i]);
  }

  // ---------------------------------------------------------------- the answer document

  /** A record as the API answers with it: the value's members and two more. */
  function Response(v: Value, sequence: nat, receivedAt: string): Item
    requires T.InYears(v.at, 0, 9999)
  {
    GoPayload(v)[Unknown("sequence") := JNum(sequence as real)][Unknown("received_at") := JStr(receivedAt)]
  }

  /** The record without the two members of the answer. */
  function Observation(response: Item): Item {
    response - {Unknown("sequence"), Unknown("received_at")}
  }

  /** No answer can be sent in again as it is, through either route. */
  lemma {:induction false} ResponseIsRefused(v: Value, sequence: nat, receivedAt: string)
    requires T.InYears(v.at, 0, 9999)
    ensures GoValue(Response(v, sequence, receivedAt)) == None && SqlEntry(Response(v, sequence, receivedAt)) == None
  {
    assert Unknown("sequence") in Response(v, sequence, receivedAt);
  }

  lemma {:induction false} ObservationIsPayload(v: Value, sequence: nat, receivedAt: string)
    requires Sound(v)
    ensures Observation(Response(v, sequence, receivedAt)) == GoPayload(v)
  {
    CanonicalKnown(v);
  }

  /** Without these members it is, through either route, the very same entry,
    * exactly if its UTC year is not before 1970. */
  lemma {:induction false} ObservationIsFixed(v: Value, sequence: nat, receivedAt: string)
    requires Sound(v)
    ensures var item := Observation(Response(v, sequence, receivedAt));
            && (v.at >= T.YearStart(1970) ==> GoValue(item) == Some(v) && SqlEntry(item) == Some(GoEntry(v)))
            && (v.at < T.YearStart(1970) ==> GoValue(item) == None && SqlEntry(item) == None)
  {
    ObservationIsPayload(v, sequence, receivedAt);
    PayloadIsFixed(v);
  }

  // ---------------------------------------------------------------- where the reference store differs

  /** The first of two contents is kept by the reference store; Put refuses both. */
  lemma {:induction false} TwoContents(a: Entry, b: Entry)
    requires a.id == b.id && a.payload != b.payload && WellFormed([a, b])
    ensures var t := Tables([], [], 1);
            && RefPut([], [a, b], [0, 0]).1.Ok? && RefPut([], [a, b], [0, 0]).0 == [Row(1, a.id, a.at, a.payload, 0)]
            && Put(t, [a, b], [0, 0]).1 == Err(Conflict)
  {
    var t, es, clock := Tables([], [], 1), [a, b], [0, 0];
    assert es[0].id == es[1].id && es[0].payload != es[1].payload;
    forall c ensures Registry.Holds(c, t) {
    }
    ContradictionStops(t, es, clock, 0, 1);
    assert es[..1][..0] == [] && clock[..1][..0] == [];
    assert RefInsert([], [], []) == ([], []);
    assert RefInsert([], es[..1], clock[..1]).0 == [Row(1, a.id, a.at, a.payload, 0)];
  }

  lemma {:induction false} AcceptedEntry(item: Item) returns (e: Entry)
    requires GoValue(item).Some?
    ensures var v := GoValue(item).value;
            && ApiReads(Some(item)) == Some(e) && e.id == v.id && BelongsTo(e.measurement, e.id, e.at, e.payload)
            && Measured in e.payload && e.payload[Measured] == JNum(v.value)
  {
    var v := GoValue(item).value;
    AcceptedIsSound(item);
    ApiIsHonest(v);
    MarshalLookup(GoRequired(v), GoOptional(v), Measured);
    e := GoEntry(v);
  }

  lemma {:induction false} TwoAccepted(a: Item, b: Item) returns (e: Entry, f: Entry)
    requires GoValue(a).Some? && GoValue(b).Some?
    requires GoValue(a).value.id == GoValue(b).value.id && GoValue(a).value.value != GoValue(b).value.value
    ensures ApiReads(Some(a)) == Some(e) && ApiReads(Some(b)) == Some(f)
    ensures RefPut([], [e, f], [0, 0]).1.Ok? && RefPut([], [e, f], [0, 0]).0 == [Row(1, e.id, e.at, e.payload, 0)]
    ensures Put(Tables([], [], 1), [e, f], [0, 0]).1 == Err(Conflict)
  {
    e := AcceptedEntry(a);
    f := AcceptedEntry(b);
    DifferentValues(e, f);
    TwoContents(e, f);
  }

  lemma {:induction false} DifferentValues(e: Entry, f: Entry)
    requires BelongsTo(e.measurement, e.id, e.at, e.payload) && BelongsTo(f.measurement, f.id, f.at, f.payload)
    requires Measured in e.payload && Measured in f.payload && e.payload[Measured] != f.payload[Measured]
    ensures e.payload != f.payload && WellFormed([e, f])
  {
  }

  /** Two documents of one new observation that differ in value, and an empty
    * registry: the reference store takes them and keeps the first, Put refuses both. */
  lemma {:induction false} TheStoresDiffer() returns (a: Item, b: Item, e: Entry, f: Entry)
    ensures a == Dated(NewYearText(), 1.0) && b == Dated(NewYearText(), 2.0)
    ensures ApiReads(Some(a)) == Some(e) && ApiReads(Some(b)) == Some(f)
    ensures RefPut([], [e, f], [0, 0]).1.Ok? && RefPut([], [e, f], [0, 0]).0 == [Row(1, e.id, e.at, e.payload, 0)]
    ensures Put(Tables([], [], 1), [e, f], [0, 0]).1 == Err(Conflict)
  {
    a, b := Dated(NewYearText(), 1.0), Dated(NewYearText(), 2.0);
    NewYearIsTaken(1.0);
    NewYearIsTaken(2.0);
    e, f := TwoAccepted(a, b);
  }
}
