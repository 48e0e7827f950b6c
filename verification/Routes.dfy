/** The two write routes over one registry: POST of the API and the trigger on
  * MQTT documents. */
module Routes {
  import opened Wrappers
  import opened Clock
  import opened Observations
  import opened Registry
  import CanonicalForm
  import T = Timestamps

  const MAX_BATCH := 1000

  /** An element of a document; None is one that is not an object. */
  type Element = Option<Item>

  /** A request body that has passed the gate, or an MQTT document, decoded: JSON that
    * is an object or an array, a single object standing for an array of one. */
  datatype Document = Malformed | Batch(elements: seq<Element>)

  /** How a route reads one element. */
  type Reader = Element -> Option<Entry>

  function ApiReads(e: Element): Option<Entry> {
    if e.None? || GoValue(e.value).None? then None
    else
      CanonicalForm.AcceptedIsSound(e.value);
      Some(GoEntry(GoValue(e.value).value))
  }

  function MqttReads(e: Element): Option<Entry> {
    if e.None? then None else SqlEntry(e.value)
  }

  // ---------------------------------------------------------------- the API

  datatype Answer = Refused | Conflicting | Stored(rows: seq<Row>, status: nat)

  /** The loop of post: every element normalised, every identifier new to the batch. */
  function Normalized(elements: seq<Element>, read: Reader): (es: Option<seq<Entry>>)
    ensures es.Some? ==> |es.value| == |elements|
  {
    if |elements| == 0 then Some([])
    else
      var n := |elements| - 1;
      var es :- Normalized(elements[..n], read);
      var e :- read(elements[n]);
      if exists i | 0 <= i < |es| :: es[i].id == e.id then None else Some(es + [e])
  }

  /** Everything is checked before the store is touched; 201 exactly if something
    * is new. */
  function Post(t: Tables, d: Document, clock: seq<Time>, read: Reader): (Tables, Answer)
    requires d.Batch? ==> |clock| == |d.elements|
  {
    if d.Malformed? || !(1 <= |d.elements| <= MAX_BATCH) then (t, Refused)
    else
      var batch := Normalized(d.elements, read);
      if batch.None? then (t, Refused)
      else
        var (u, r) := Put(t, batch.value, clock);
        (u, if r.Err? then Conflicting else Stored(r.value.0, if r.value.1 > 0 then 201 else 200))
  }

  // ---------------------------------------------------------------- MQTT

  /** v->>'id': the text of the member, whatever its type; `render` is the text of
    * a value that is neither null nor a string. */
  function IdText(e: Element, render: Json -> string): Option<string> {
    if e.None? then None
    else
      match Field(e.value, Id)
      case JNull => None
      case JStr(s) => Some(s)
      case other => Some(render(other))
  }

  /** count(DISTINCT v->>'id') equals the length. */
  predicate Identified(elements: seq<Element>, render: Json -> string) {
    && (forall i | 0 <= i < |elements| :: IdText(elements[i], render).Some?)
    && (forall i, j | 0 <= i < j < |elements| :: IdText(elements[i], render) != IdText(elements[j], render))
  }

  type Progress = (Tables, bool)

  /** One more element, unless an earlier one failed. */
  function Take(before: Progress, e: Option<Entry>, now: Time): Progress {
    if !before.1 || e.None? then (before.0, false)
    else
      var (w, row) := InsertOne(before.0, e.value, now);
      (w, row.Some?)
  }

  /** The loop of the trigger: each element validated, then inserted or compared. */
  function IngestAll(t: Tables, elements: seq<Element>, clock: seq<Time>, read: Reader): Progress
    requires |clock| == |elements|
  {
    if |elements| == 0 then (t, true)
    else
      var n := |elements| - 1;
      Take(IngestAll(t, elements[..n], clock[..n], read), read(elements[n]), clock[n])
  }

  /** A rejected document leaves nothing but its quarantine record. */
  function Ingest(t: Tables, d: Document, clock: seq<Time>, read: Reader, render: Json -> string): (Tables, bool)
    requires d.Batch? ==> |clock| == |d.elements|
  {
    if d.Malformed? || !(1 <= |d.elements| <= MAX_BATCH) || !Identified(d.elements, render) then (t, false)
    else
      var (u, ok) := IngestAll(t, d.elements, clock, read);
      if ok then (u, true) else (Rollback(t, u), false)
  }

  // ---------------------------------------------------------------- reading a batch

  /** Every element reads as its entry. */
  ghost predicate ReadsAs(elements: seq<Element>, read: Reader, es: seq<Entry>) {
    |es| == |elements| && forall i | 0 <= i < |es| :: read(elements[i]) == Some(es[i])
  }

  ghost predicate DistinctEntries(es: seq<Entry>) {
    forall i, j | 0 <= i < j < |es| :: es[i].id != es[j].id
  }

  /** The API takes a batch exactly if every element is valid and no identifier
    * is repeated. */
  lemma {:induction false} NormalizedExactly(elements: seq<Element>, read: Reader)
    ensures Normalized(elements, read).Some? ==>
              ReadsAs(elements, read, Normalized(elements, read).value)
                  && DistinctEntries(Normalized(elements, read).value)
    ensures forall es :: ReadsAs(elements, read, es) && DistinctEntries(es) ==> Normalized(elements, read) == Some(es)
  {
    if |elements| > 0 {
      var n := |elements| - 1;
      NormalizedExactly(elements[..n], read);
      forall es | ReadsAs(elements, read, es) && DistinctEntries(es) ensures Normalized(elements, read) == Some(es) {
        assert ReadsAs(elements[..n], read, es[..n]) && DistinctEntries(es[..n]);
        assert es == es[..n] + [es[n]];
      }
    }
  }

  /** On valid elements the trigger's loop is the insertion loop of Put. */
  lemma {:induction false} IngestInserts(t: Tables, elements: seq<Element>, es: seq<Entry>, clock: seq<Time>,
                                         read: Reader)
    requires |clock| == |elements| && ReadsAs(elements, read, es)
    ensures IngestAll(t, elements, clock, read).0 == InsertAll(t, es, clock).0
    ensures IngestAll(t, elements, clock, read).1 <==> InsertAll(t, es, clock).1.Some?
  {
    if |es| > 0 {
      var n := |es| - 1;
      IngestInserts(t, elements[..n], es[..n], clock[..n], read);
    }
  }

  /** An invalid element stops the loop. */
  lemma {:induction false} IngestStops(t: Tables, elements: seq<Element>, clock: seq<Time>, read: Reader)
    requires |clock| == |elements| && IngestAll(t, elements, clock, read).1
    ensures forall i | 0 <= i < |elements| :: read(elements[i]).Some?
  {
    if |elements| > 0 {
      IngestStops(t, elements[..|elements| - 1], clock[..|elements| - 1], read);
    }
  }

  // ---------------------------------------------------------------- one registry

  /** What two readers must have in common for their routes to agree: one entry for
    * what both accept, under the identifier the trigger compares. */
  ghost predicate Compatible(api: Reader, mqtt: Reader, render: Json -> string) {
    && (forall e :: api(e).Some? && mqtt(e).Some? ==> api(e) == mqtt(e))
    && (forall e :: mqtt(e).Some? ==> IdText(e, render) == Some(mqtt(e).value.id))
  }

  lemma {:induction false} ReadersAgree(e: Element)
    ensures ApiReads(e).Some? && MqttReads(e).Some? ==> ApiReads(e) == MqttReads(e)
  {
    if ApiReads(e).Some? && MqttReads(e).Some? {
      RoutesAgree(e.value);
    }
  }

  lemma {:induction false} ReadsItsId(e: Element, render: Json -> string)
    ensures MqttReads(e).Some? ==> IdText(e, render) == Some(MqttReads(e).value.id)
  {
  }

  /** The two routes do: everything below holds of ApiReads and MqttReads. */
  lemma {:induction false} TheRoutesAreCompatible(render: Json -> string)
    ensures Compatible(ApiReads, MqttReads, render)
  {
    forall e ensures ApiReads(e).Some? && MqttReads(e).Some? ==> ApiReads(e) == MqttReads(e) {
      ReadersAgree(e);
    }
    forall e ensures MqttReads(e).Some? ==> IdText(e, render) == Some(MqttReads(e).value.id) {
      ReadsItsId(e, render);
    }
  }

  /** Every element is accepted by both routes. */
  ghost predicate Common(elements: seq<Element>, api: Reader, mqtt: Reader) {
    forall i | 0 <= i < |elements| :: api(elements[i]).Some? && mqtt(elements[i]).Some?
  }

  function Entries(elements: seq<Element>, read: Reader): (es: seq<Entry>)
    requires forall i | 0 <= i < |elements| :: read(elements[i]).Some?
    ensures ReadsAs(elements, read, es)
  {
    seq(|elements|, i requires 0 <= i < |elements| => read(elements[i]).value)
  }

  lemma {:induction false} BothReadThem(elements: seq<Element>, api: Reader, mqtt: Reader, render: Json -> string)
    requires Compatible(api, mqtt, render) && Common(elements, api, mqtt)
    ensures ReadsAs(elements, api, Entries(elements, mqtt))
  {
  }

  lemma {:induction false} CommonIsIdentified(elements: seq<Element>, api: Reader, mqtt: Reader, render: Json -> string)
    requires Compatible(api, mqtt, render) && Common(elements, api, mqtt)
    ensures Identified(elements, render) <==> DistinctEntries(Entries(elements, mqtt))
  {
    assert forall i | 0 <= i < |elements| :: IdText(elements[i], render) == Some(Entries(elements, mqtt)[i].id);
  }

  /** A decoded document whose elements both routes accept does the same through
    * either, past the API's gate: the same registry afterwards, sequence numbers and gaps included, and stored
    * by one exactly if stored by the other. */
  lemma {:induction false} RoutesStoreAlike(t: Tables, d: Document, clock: seq<Time>, api: Reader, mqtt: Reader,
                                            render: Json -> string)
    requires Compatible(api, mqtt, render) && d.Batch? && |clock| == |d.elements| && Common(d.elements, api, mqtt)
    ensures Post(t, d, clock, api).0 == Ingest(t, d, clock, mqtt, render).0
    ensures Post(t, d, clock, api).1.Stored? <==> Ingest(t, d, clock, mqtt, render).1
  {
    var es := Entries(d.elements, mqtt);
    CommonIsIdentified(d.elements, api, mqtt, render);
    BothReadThem(d.elements, api, mqtt, render);
    NormalizedExactly(d.elements, api);
    IngestInserts(t, d.elements, es, clock, mqtt);
    if Normalized(d.elements, api).Some? {
      assert Normalized(d.elements, api).value == es;
    }
  }

  // ---------------------------------------------------------------- contracts

  /** The measurement a route writes belongs to its event. */
  ghost predicate Honest(read: Reader) {
    forall e :: read(e).Some? ==>
      BelongsTo(read(e).value.measurement, read(e).value.id, read(e).value.at, read(e).value.payload)
  }

  lemma {:induction false} ApiIsHonest(v: Value)
    requires T.InYears(v.at, 0, 9999)
    ensures BelongsTo(GoEntry(v).measurement, v.id, v.at, GoEntry(v).payload)
  {
    MarshalLookup(GoRequired(v), GoOptional(v), SensorId);
  }

  lemma {:induction false} SqlNamesSensor(item: Item, at: T.Instant)
    requires T.InYears(at, 0, 9999) && SqlLonLat(Field(item, LonLat))
    ensures SensorId in SqlPayload(item, at) && SqlPayload(item, at)[SensorId] == Field(item, SensorId)
  {
    ConcatenateLookup(SqlRequired(item, at), SqlOptional(item), SensorId);
  }

  lemma {:induction false} MqttIsHonest(item: Item)
    requires SqlEntry(item).Some?
    ensures var e := SqlEntry(item).value; BelongsTo(e.measurement, e.id, e.at, e.payload)
  {
    var at := SqlTime(Field(item, Timestamp)).value;
    T.EarlierYears(at, 1970);
    SqlNamesSensor(item, at);
  }

  lemma {:induction false} BothAreHonest()
    ensures Honest(ApiReads) && Honest(MqttReads)
  {
    forall e | ApiReads(e).Some?
      ensures BelongsTo(ApiReads(e).value.measurement, ApiReads(e).value.id, ApiReads(e).value.at,
                        ApiReads(e).value.payload)
    {
      ApiIsHonest(GoValue(e.value).value);
    }
    forall e | MqttReads(e).Some?
      ensures BelongsTo(MqttReads(e).value.measurement, MqttReads(e).value.id, MqttReads(e).value.at,
                        MqttReads(e).value.payload)
    {
      MqttIsHonest(e.value);
    }
  }

  lemma {:induction false} ReadWellFormed(elements: seq<Element>, read: Reader, es: seq<Entry>)
    requires Honest(read) && ReadsAs(elements, read, es)
    ensures WellFormed(es)
  {
  }

  /** POST refuses exactly the batches that are malformed, empty, too long,
    * invalid somewhere or repeat an identifier, and then touches nothing. A
    * conflict stores nothing. Otherwise the answer holds the stored rows in
    * request order, and the status is 201 exactly if the registry grew. */
  lemma {:induction false} PostContract(t: Tables, d: Document, clock: seq<Time>, read: Reader)
    requires Valid(t) && Honest(read) && (d.Batch? ==> |clock| == |d.elements|)
    ensures var (u, a) := Post(t, d, clock, read);
            && Valid(u) && Extends(t, u)
            && (a.Refused? ==> u == t)
            && (a.Refused? <==> !(d.Batch? && 1 <= |d.elements| <= 1000
                                  && exists es :: ReadsAs(d.elements, read, es) && DistinctEntries(es)))
            && (a.Conflicting? ==> u.events == t.events && u.measurements == t.measurements)
            && (a.Stored? ==>
                  && (a.status == 201 <==> |u.events| > |t.events|) && (a.status == 200 <==> u.events == t.events)
                  && exists es :: ReadsAs(d.elements, read, es) && Registry.Stored(u.events, es, a.rows))
  {
    if d.Batch? && 1 <= |d.elements| <= MAX_BATCH {
      NormalizedExactly(d.elements, read);
      var batch := Normalized(d.elements, read);
      if batch.Some? {
        ReadWellFormed(d.elements, read, batch.value);
        PutContract(t, batch.value, clock);
      }
    }
  }

  lemma {:induction false} IngestAllKeeps(t: Tables, elements: seq<Element>, clock: seq<Time>, read: Reader)
    requires |clock| == |elements| && Valid(t) && Honest(read)
    ensures Valid(IngestAll(t, elements, clock, read).0) && Extends(t, IngestAll(t, elements, clock, read).0)
  {
    if |elements| > 0 {
      var n := |elements| - 1;
      IngestAllKeeps(t, elements[..n], clock[..n], read);
      if read(elements[n]).Some? {
        InsertOneKeeps(IngestAll(t, elements[..n], clock[..n], read).0, read(elements[n]).value, clock[n]);
      }
    }
  }

  /** An MQTT document is stored whole or not at all. */
  lemma {:induction false} IngestContract(t: Tables, d: Document, clock: seq<Time>, read: Reader,
                                          render: Json -> string)
    requires Valid(t) && Honest(read) && (d.Batch? ==> |clock| == |d.elements|)
    ensures var (u, ok) := Ingest(t, d, clock, read, render);
            && Valid(u) && Extends(t, u)
            && (!ok ==> u.events == t.events && u.measurements == t.measurements)
            && (ok ==> d.Batch? && 1 <= |d.elements| <= 1000 && Identified(d.elements, render)
                       && exists es, rows :: ReadsAs(d.elements, read, es) && Registry.Stored(u.events, es, rows))
  {
    if d.Batch? {
      IngestAllKeeps(t, d.elements, clock, read);
      var (u, ok) := IngestAll(t, d.elements, clock, read);
      RollbackKeeps(t, u);
      if ok {
        IngestStops(t, d.elements, clock, read);
        var es := Entries(d.elements, read);
        IngestInserts(t, d.elements, es, clock, read);
        InsertAllAppends(t, es, clock);
        assert ReadsAs(d.elements, read, es) && Registry.Stored(u.events, es, InsertAll(t, es, clock).1.value);
      }
    }
  }

  lemma {:induction false} DistinctIsConsistent(es: seq<Entry>)
    requires DistinctEntries(es)
    ensures Consistent(es)
  {
  }

  /** POST stores a batch exactly if it is one of 1 to 1000 valid elements without
    * repetition and none is stored with other content. */
  lemma {:induction false} PostStoresExactly(t: Tables, d: Document, clock: seq<Time>, read: Reader)
    requires Valid(t) && Honest(read) && (d.Batch? ==> |clock| == |d.elements|)
    ensures Post(t, d, clock, read).1.Stored? <==>
              && d.Batch? && 1 <= |d.elements| <= 1000
              && exists es :: ReadsAs(d.elements, read, es) && DistinctEntries(es) && AllUndisputed(t.events, es)
  {
    if d.Batch? && 1 <= |d.elements| <= MAX_BATCH {
      NormalizedExactly(d.elements, read);
      var batch := Normalized(d.elements, read);
      if batch.Some? {
        ReadWellFormed(d.elements, read, batch.value);
        DistinctIsConsistent(batch.value);
        PutSucceedsExactly(t, batch.value, clock);
      }
    }
  }

  lemma {:induction false} IngestAllExactly(t: Tables, elements: seq<Element>, es: seq<Entry>, clock: seq<Time>,
                                            read: Reader)
    requires Valid(t) && Honest(read) && |clock| == |elements| && ReadsAs(elements, read, es)
    ensures IngestAll(t, elements, clock, read).1 <==> Consistent(es) && AllUndisputed(t.events, es)
  {
    ReadWellFormed(elements, read, es);
    IngestInserts(t, elements, es, clock, read);
    PutSucceedsExactly(t, es, clock);
  }

  /** The trigger stores a document exactly if it has 1 to 1000 valid elements with
    * different identifiers and none is stored with other content; every other
    * document is quarantined whole. */
  lemma {:induction false} IngestStoresExactly(t: Tables, d: Document, clock: seq<Time>, read: Reader,
                                               render: Json -> string)
    requires Valid(t) && Honest(read) && (d.Batch? ==> |clock| == |d.elements|)
    ensures Ingest(t, d, clock, read, render).1 <==>
              && d.Batch? && 1 <= |d.elements| <= 1000 && Identified(d.elements, render)
              && exists es :: ReadsAs(d.elements, read, es) && Consistent(es) && AllUndisputed(t.events, es)
  {
    if d.Batch? && 1 <= |d.elements| <= MAX_BATCH && Identified(d.elements, render) {
      if IngestAll(t, d.elements, clock, read).1 {
        IngestStops(t, d.elements, clock, read);
        IngestAllExactly(t, d.elements, Entries(d.elements, read), clock, read);
      } else {
        forall es | ReadsAs(d.elements, read, es) ensures !(Consistent(es) && AllUndisputed(t.events, es)) {
          IngestAllExactly(t, d.elements, es, clock, read);
        }
      }
    }
  }

  // ---------------------------------------------------------------- replay and conflict

  /** Whatever route stored a document, its observations are known from then on. */
  lemma {:induction false} StoredIsKnown(t: Tables, d: Document, clock: seq<Time>, api: Reader, mqtt: Reader,
                                         render: Json -> string, later: Tables)
    requires Compatible(api, mqtt, render) && d.Batch? && |clock| == |d.elements| && Common(d.elements, api, mqtt)
    requires Ingest(t, d, clock, mqtt, render).1 || Post(t, d, clock, api).1.Stored?
    requires Ingest(t, d, clock, mqtt, render).0.events <= later.events
    ensures exists found :: Registry.Stored(later.events, Entries(d.elements, mqtt), found)
  {
    var es := Entries(d.elements, mqtt);
    RoutesStoreAlike(t, d, clock, api, mqtt, render);
    IngestInserts(t, d.elements, es, clock, mqtt);
    InsertAllAppends(t, es, clock);
    var (u, rows) := InsertAll(t, es, clock);
    StoredLater(u.events, later.events, es, rows.value);
  }

  /** On a common batch without repetition both routes do what Put does. */
  lemma {:induction false} BothPut(t: Tables, d: Document, clock: seq<Time>, api: Reader, mqtt: Reader,
                                   render: Json -> string)
    requires Compatible(api, mqtt, render) && d.Batch? && 1 <= |d.elements| <= MAX_BATCH && |clock| == |d.elements|
    requires Common(d.elements, api, mqtt) && DistinctEntries(Entries(d.elements, mqtt))
    ensures var (u, r) := Put(t, Entries(d.elements, mqtt), clock);
            && Ingest(t, d, clock, mqtt, render).0 == u
            && (Ingest(t, d, clock, mqtt, render).1 <==> r.Ok?)
            && Post(t, d, clock, api)
               == (u, if r.Err? then Conflicting else Stored(r.value.0, if r.value.1 > 0 then 201 else 200))
  {
    CommonIsIdentified(d.elements, api, mqtt, render);
    BothReadThem(d.elements, api, mqtt, render);
    NormalizedExactly(d.elements, api);
    IngestInserts(t, d.elements, Entries(d.elements, mqtt), clock, mqtt);
  }

  lemma {:induction false} KnownPut(t: Tables, es: seq<Entry>, clock: seq<Time>, found: seq<Row>)
    requires Valid(t) && |clock| == |es| && Registry.Stored(t.events, es, found)
    ensures Put(t, es, clock) == (t.(next := t.next + |es|), Ok((found, 0)))
  {
    assert Holds(IdsUnique, t);
    ReinsertFinds(t, es, clock, found);
  }

  /** Replay, through either route after either route, in whatever documents: what
    * is known adds no event and no measurement, is not a conflict, and the API
    * answers 200 with the stored rows. */
  lemma {:induction false} ReplayStoresNothingNew(t: Tables, d: Document, clock: seq<Time>, api: Reader, mqtt: Reader,
                                                  render: Json -> string, found: seq<Row>)
    requires Compatible(api, mqtt, render) && Valid(t) && d.Batch? && 1 <= |d.elements| <= MAX_BATCH
             && |clock| == |d.elements|
    requires Common(d.elements, api, mqtt) && DistinctEntries(Entries(d.elements, mqtt))
    requires Registry.Stored(t.events, Entries(d.elements, mqtt), found)
    ensures Ingest(t, d, clock, mqtt, render).0 == t.(next := t.next + |d.elements|)
    ensures Ingest(t, d, clock, mqtt, render).1
    ensures Post(t, d, clock, api) == (t.(next := t.next + |d.elements|), Stored(found, 200))
  {
    KnownPut(t, Entries(d.elements, mqtt), clock, found);
    BothPut(t, d, clock, api, mqtt, render);
  }

  /** Changed content under a known identifier is a conflict on either route, and
    * stores nothing of its document. */
  lemma {:induction false} ChangedContentIsRejected(t: Tables, d: Document, clock: seq<Time>, api: Reader, mqtt: Reader,
                                                    render: Json -> string, k: nat, r: Row)
    requires Compatible(api, mqtt, render) && Honest(mqtt)
    requires Valid(t) && d.Batch? && 1 <= |d.elements| <= MAX_BATCH && |clock| == |d.elements|
    requires Common(d.elements, api, mqtt) && DistinctEntries(Entries(d.elements, mqtt))
    requires k < |d.elements| && r in t.events
    requires r.id == Entries(d.elements, mqtt)[k].id && r.payload != Entries(d.elements, mqtt)[k].payload
    ensures !Ingest(t, d, clock, mqtt, render).1 && Post(t, d, clock, api).1.Conflicting?
    ensures Ingest(t, d, clock, mqtt, render).0 == Post(t, d, clock, api).0
    ensures Post(t, d, clock, api).0.events == t.events && Post(t, d, clock, api).0.measurements == t.measurements
  {
    var es := Entries(d.elements, mqtt);
    ReadWellFormed(d.elements, mqtt, es);
    ChangedContentConflicts(t, es, clock, k, r);
    BothPut(t, d, clock, api, mqtt, render);
  }
}
