/** The registry as the program has it: tables changed in place, one row at a time. */
module RegistryStore {
  import opened Wrappers
  import opened Clock
  import opened Observations
  import opened Registry
  import opened Routes
  import opened Paging
  import Documents
  import G = JsonGate

  class Store {
    var events: seq<Row>
    var measurements: seq<Measurement>
    var next: nat
    var rejected: seq<Document>

    ghost function Contents(): Tables
      reads this
    {
      Tables(events, measurements, next)
    }

    constructor ()
      ensures Contents() == Tables([], [], 1) && rejected == []
    {
      events, measurements, next, rejected := [], [], 1, [];
    }

    /** One INSERT ... ON CONFLICT DO NOTHING, with the comparison that follows it. */
    method InsertEvent(e: Entry, now: Time) returns (row: Option<Row>)
      modifies this
      ensures Contents() == InsertOne(old(Contents()), e, now).0 && row == InsertOne(old(Contents()), e, now).1
      ensures rejected == old(rejected)
    {
      var sequence := next;
      next := next + 1;
      var found := Find(events, e.id);
      if found.Some? {
        var r := events[found.value];
        row := if r.payload == e.payload then Some(r) else None;
      } else {
        var r := Row(sequence, e.id, e.at, e.payload, now);
        events := events + [r];
        measurements := measurements + [e.measurement];
        row := Some(r);
      }
    }

    /** Undo everything but the sequence. */
    method Restore(savedEvents: seq<Row>, savedMeasurements: seq<Measurement>)
      modifies this
      ensures Contents() == Tables(savedEvents, savedMeasurements, old(next)) && rejected == old(rejected)
    {
      events, measurements := savedEvents, savedMeasurements;
    }

    method Put(es: seq<Entry>, clock: seq<Time>) returns (r: Result<(seq<Row>, nat), PutError>)
      requires |clock| == |es|
      modifies this
      ensures Contents() == Registry.Put(old(Contents()), es, clock).0
              && r == Registry.Put(old(Contents()), es, clock).1
      ensures rejected == old(rejected)
    {
      ghost var t := Contents();
      var savedEvents, savedMeasurements := events, measurements;
      var out, created := [], 0;
      for i := 0 to |es|
        invariant InsertAll(t, es[..i], clock[..i]) == (Contents(), Some(out))
        invariant created == |events| - |t.events| && rejected == old(rejected)
      {
        assert es[..i + 1][..i] == es[..i] && clock[..i + 1][..i] == clock[..i];
        var before := |events|;
        var row := InsertEvent(es[i], clock[i]);
        if row.None? {
          InsertFails(t, es, clock, i);
          Restore(savedEvents, savedMeasurements);
          return Err(Conflict);
        }
        if |events| > before {
          created := created + 1;
        }
        out := out + [row.value];
      }
      assert es[..|es|] == es && clock[..|es|] == clock;
      r := Ok((out, created));
    }

    /** The loop of post. */
    method Normalize(elements: seq<Element>, read: Reader) returns (es: Option<seq<Entry>>)
      ensures es == Normalized(elements, read)
    {
      var seen: set<string> := {};
      var out: seq<Entry> := [];
      for i := 0 to |elements|
        invariant Normalized(elements[..i], read) == Some(out)
        invariant forall k | 0 <= k < |out| :: out[k].id in seen
        invariant forall id | id in seen :: exists k | 0 <= k < |out| :: out[k].id == id
      {
        NormalizeStep(elements, read, i);
        var e := read(elements[i]);
        if e.None? || e.value.id in seen {
          NormalizeFails(elements, read, i);
          return None;
        }
        seen := seen + {e.value.id};
        ghost var before := out;
        out := out + [e.value];
        assert out[|before|].id == e.value.id && forall k | 0 <= k < |before| :: out[k] == before[k];
      }
      assert elements[..|elements|] == elements;
      es := Some(out);
    }

    /** post: the gate over the tokens of the body, then the decoded document. */
    method PostBody(body: G.Tree, scalar: Documents.Scalars, clock: seq<Time>) returns (a: Answer)
      requires Documents.Clocked(Documents.Parse(body, scalar), clock)
      modifies this
      ensures (Contents(), a) == Documents.PostBody(old(Contents()), body, scalar, clock) && rejected == old(rejected)
    {
      var passed := G.UniqueKeys(G.Tokens(body, G.End));
      Documents.PassesTheGate(body);
      if !passed {
        return Refused;
      }
      a := Post(Documents.DocumentOf(Documents.Parse(body, scalar)), clock);
    }

    method Post(d: Document, clock: seq<Time>) returns (a: Answer)
      requires d.Batch? ==> |clock| == |d.elements|
      modifies this
      ensures Contents() == Routes.Post(old(Contents()), d, clock, ApiReads).0
      ensures a == Routes.Post(old(Contents()), d, clock, ApiReads).1 && rejected == old(rejected)
    {
      if d.Malformed? || |d.elements| == 0 || |d.elements| > MAX_BATCH {
        return Refused;
      }
      var es := Normalize(d.elements, ApiReads);
      if es.None? {
        return Refused;
      }
      var r := Put(es.value, clock);
      if r.Err? {
        return Conflicting;
      }
      a := Stored(r.value.0, if r.value.1 > 0 then 201 else 200);
    }

    /** The loop inside the rollback block, up to the first element that fails. */
    method InsertElements(elements: seq<Element>, clock: seq<Time>) returns (ok: bool)
      requires |clock| == |elements|
      modifies this
      ensures rejected == old(rejected)
      ensures (Contents(), ok) == IngestAll(old(Contents()), elements, clock, MqttReads)
    {
      ghost var t := Contents();
      for i := 0 to |elements|
        invariant IngestAll(t, elements[..i], clock[..i], MqttReads) == (Contents(), true)
        invariant rejected == old(rejected)
      {
        IngestStep(t, elements, clock, MqttReads, i);
        var e := MqttReads(elements[i]);
        var row: Option<Row> := None;
        if e.Some? {
          row := InsertEvent(e.value, clock[i]);
        }
        if row.None? {
          IngestFails(t, elements, clock, MqttReads, i + 1);
          return false;
        }
      }
      assert elements[..|elements|] == elements && clock[..|clock|] == clock;
      ok := true;
    }

    /** The trigger on one MQTT document; a rejected document is quarantined. */
    method Ingest(d: Document, clock: seq<Time>, render: Json -> string)
      requires d.Batch? ==> |clock| == |d.elements|
      modifies this
      ensures Contents() == Routes.Ingest(old(Contents()), d, clock, MqttReads, render).0
      ensures rejected
              == old(rejected) + if Routes.Ingest(old(Contents()), d, clock, MqttReads, render).1 then [] else [d]
    {
      ghost var t := Contents();
      if d.Malformed? || |d.elements| == 0 || |d.elements| > MAX_BATCH || !Identified(d.elements, render) {
        rejected := rejected + [d];
        return;
      }
      var savedEvents, savedMeasurements := events, measurements;
      var ok := InsertElements(d.elements, clock);
      if !ok {
        Restore(savedEvents, savedMeasurements);
        rejected := rejected + [d];
      }
    }

    /** Store.Get */
    method Lookup(id: string) returns (r: Option<Row>)
      ensures r.Some? ==> r.value in events && r.value.id == id
      ensures r.None? ==> forall x | x in events :: x.id != id
    {
      var found := Find(events, id);
      r := if found.Some? then Some(events[found.value]) else None;
    }

    /** GET with after and limit. */
    method Read(after: nat, limit: nat) returns (p: Page)
      requires 1 <= limit <= MAX_PAGE
      ensures p == Get(events, after, limit)
    {
      var out: seq<Row> := [];
      for i := 0 to |events|
        invariant out == List(events[..i], after, limit + 1)
      {
        assert events[..i + 1][..i] == events[..i];
        if events[i].sequence > after && |out| < limit + 1 {
          out := out + [events[i]];
        }
      }
      assert events[..|events|] == events;
      if |out| > limit {
        p := Page(out[..limit], Some(out[limit - 1].sequence));
      } else {
        p := Page(out, None);
      }
    }
  }

  // ---------------------------------------------------------------- failing early

  /** A conflict among the first i entries fails every longer batch, with the
    * sequence as it is then. */
  lemma {:induction false} InsertFailed(t: Tables, es: seq<Entry>, clock: seq<Time>, i: nat, n: nat)
    requires |clock| == |es| && i <= n <= |es| && InsertAll(t, es[..i], clock[..i]).1.None?
    ensures InsertAll(t, es[..n], clock[..n]) == InsertAll(t, es[..i], clock[..i])
    decreases n
  {
    if i < n {
      InsertFailed(t, es, clock, i, n - 1);
      assert es[..n][..n - 1] == es[..n - 1] && clock[..n][..n - 1] == clock[..n - 1];
    }
  }

  lemma {:induction false} InsertFails(t: Tables, es: seq<Entry>, clock: seq<Time>, i: nat)
    requires |clock| == |es| && i < |es| && InsertAll(t, es[..i + 1], clock[..i + 1]).1.None?
    ensures InsertAll(t, es, clock) == InsertAll(t, es[..i + 1], clock[..i + 1])
  {
    InsertFailed(t, es, clock, i + 1, |es|);
    assert es[..|es|] == es && clock[..|es|] == clock;
  }

  lemma {:induction false} NormalizeStep(elements: seq<Element>, read: Reader, i: nat)
    requires i < |elements| && Normalized(elements[..i], read).Some?
    ensures var es, e := Normalized(elements[..i], read).value, read(elements[i]);
            Normalized(elements[..i + 1], read)
            == if e.None? || (exists k | 0 <= k < |es| :: es[k].id == e.value.id) then None else Some(es + [e.value])
  {
    assert elements[..i + 1][..i] == elements[..i];
  }

  lemma {:induction false} IngestStep(t: Tables, elements: seq<Element>, clock: seq<Time>, read: Reader, i: nat)
    requires |clock| == |elements| && i < |elements| && IngestAll(t, elements[..i], clock[..i], read).1
    ensures var u, e := IngestAll(t, elements[..i], clock[..i], read).0, read(elements[i]);
            var (w, ok) := IngestAll(t, elements[..i + 1], clock[..i + 1], read);
            && (e.None? ==> w == u && !ok)
            && (e.Some? ==> w == InsertOne(u, e.value, clock[i]).0 && (ok <==> InsertOne(u, e.value, clock[i]).1.Some?))
  {
    assert elements[..i + 1][..i] == elements[..i] && clock[..i + 1][..i] == clock[..i];
  }

  lemma {:induction false} NormalizeFails(elements: seq<Element>, read: Reader, i: nat)
    requires i < |elements| && Normalized(elements[..i + 1], read).None?
    ensures Normalized(elements, read).None?
  {
    var n := |elements| - 1;
    if i < n {
      assert elements[..n][..i + 1] == elements[..i + 1];
      NormalizeFails(elements[..n], read, i);
    } else {
      assert elements[..i + 1] == elements;
    }
  }

  lemma {:induction false} IngestFailed(t: Tables, elements: seq<Element>, clock: seq<Time>, read: Reader, i: nat,
                                        n: nat)
    requires |clock| == |elements| && i <= n <= |elements| && !IngestAll(t, elements[..i], clock[..i], read).1
    ensures IngestAll(t, elements[..n], clock[..n], read) == IngestAll(t, elements[..i], clock[..i], read)
    decreases n
  {
    if i < n {
      IngestFailed(t, elements, clock, read, i, n - 1);
      assert elements[..n][..n - 1] == elements[..n - 1] && clock[..n][..n - 1] == clock[..n - 1];
    }
  }

  lemma {:induction false} IngestFails(t: Tables, elements: seq<Element>, clock: seq<Time>, read: Reader, i: nat)
    requires |clock| == |elements| && i <= |elements| && !IngestAll(t, elements[..i], clock[..i], read).1
    ensures IngestAll(t, elements, clock, read) == IngestAll(t, elements[..i], clock[..i], read)
  {
    IngestFailed(t, elements, clock, read, i, |elements|);
    assert elements[..|elements|] == elements && clock[..|elements|] == clock;
  }
}
