/** What Node-RED checks before it publishes a batch, against what the database
  * checks when the batch arrives. */
module Publishing {
  import opened Wrappers
  import opened Clock
  import opened Observations
  import opened Registry
  import opened Routes
  import opened Documents
  import G = JsonGate
  import T = Timestamps

  // ---------------------------------------------------------------- validate

  /** validTime: the year is the local one, at most six fraction digits. */
  predicate JsTime(j: Json) {
    j.JStr? && T.Read(j.text).Some? && T.Read(j.text).value.excess == "" && T.Read(j.text).value.stamp.date.year >= 1970
  }

  predicate JsIdentifier(j: Json) {
    j.JStr? && ValidIdentifier(j.text)
  }

  predicate JsGateway(j: Json) {
    !j.JNull? ==> j.JStr? && (j.text != "" ==> ValidIdentifier(j.text))
  }

  predicate JsLonLat(j: Json) {
    !j.JNull? ==>
      && j.JArr? && |j.items| == 2 && j.items[0].JNum? && j.items[1].JNum?
      && !(j.items[0].number > 180.0 || -j.items[0].number > 180.0)
      && !(j.items[1].number > 90.0 || -j.items[1].number > 90.0)
  }

  predicate JsLocation(j: Json) {
    !j.JNull? ==>
      && j.JNum? && j.number.Floor as real == j.number
      && j.number.Floor < 9007199254740992 && !(j.number < 0.0)
  }

  predicate JsMetadata(j: Json) {
    !j.JNull? ==> j.JObj? && forall k | k in j.members :: k != "" && !(|k| > 128)
  }

  /** One observation, in the order of the checks; null and absent are the same. */
  predicate JsAccepts(item: Item) {
    && OnlyKnown(item)
    && Field(item, Id).JStr? && ValidId(Field(item, Id).text)
    && JsIdentifier(Field(item, SensorId)) && JsIdentifier(Field(item, SensorType)) && JsGateway(Field(item, GatewayId))
    && JsTime(Field(item, Timestamp)) && Field(item, Measured).JNum?
    && Field(item, Unit).JStr? && ValidUnit(Field(item, Unit).text)
    && JsLonLat(Field(item, LonLat)) && JsLocation(Field(item, LocationId)) && JsMetadata(Field(item, Metadata))
  }

  /** An element as the publisher reads it: its identifier. */
  function JsReads(e: Element): Option<string> {
    if e.Some? && JsAccepts(e.value) then Some(Field(e.value, Id).text) else None
  }

  /** The loop of validate: the identifiers in order, none repeated. */
  function Validated(elements: seq<Element>, read: Element -> Option<string>): (ids: Option<seq<string>>)
    ensures ids.Some? ==> |ids.value| == |elements|
  {
    if |elements| == 0 then Some([])
    else
      var n := |elements| - 1;
      var ids :- Validated(elements[..n], read);
      var id :- read(elements[n]);
      if id in ids then None else Some(ids + [id])
  }

  /** checkDepth: nothing nests more than 32 levels deep. */
  predicate CheckDepth(j: Json, depth: nat)
    decreases G.MAX_DEPTH + 1 - depth, 0
  {
    depth <= G.MAX_DEPTH &&
    match j
    case JArr(items) => CheckItems(items, depth + 1)
    case JObj(members) => CheckMembers(members, depth + 1)
    case _ => true
  }

  predicate CheckItems(items: seq<Json>, depth: nat)
    requires depth <= G.MAX_DEPTH + 1
    decreases G.MAX_DEPTH + 1 - depth, 1
  {
    forall i | 0 <= i < |items| :: CheckDepth(items[i], depth)
  }

  predicate CheckMembers(members: map<string, Json>, depth: nat)
    requires depth <= G.MAX_DEPTH + 1
    decreases G.MAX_DEPTH + 1 - depth, 1
  {
    forall k | k in members :: CheckDepth(members[k], depth)
  }

  /** validate: the identifiers of a request body that may be published. */
  function Publishable(body: Json, read: Element -> Option<string>): (ids: Option<seq<string>>) {
    var d := DocumentOf(body);
    if !CheckDepth(body, 0) || d.Malformed? || !(1 <= |d.elements| <= MAX_BATCH) then None
    else Validated(d.elements, read)
  }

  method Validate(body: Json, read: Element -> Option<string>) returns (r: Option<seq<string>>)
    ensures r == Publishable(body, read)
  {
    var deepest := CheckDepth(body, 0);
    var d := DocumentOf(body);
    if !deepest || d.Malformed? || |d.elements| < 1 || |d.elements| > MAX_BATCH {
      return None;
    }
    var elements := d.elements;
    var ids: seq<string> := [];
    for i := 0 to |elements|
      invariant Validated(elements[..i], read) == Some(ids)
    {
      assert elements[..i + 1][..i] == elements[..i];
      var id := read(elements[i]);
      if id.None? || id.value in ids {
        ValidateFails(elements, read, i);
        return None;
      }
      ids := ids + [id.value];
    }
    assert elements[..|elements|] == elements;
    r := Some(ids);
  }

  /** A body may be published exactly if it nests at most 32 levels deep and is a batch
    * of 1 to 1000 valid observations with different identifiers; these are the answer. */
  lemma {:induction false} PublishableExactly(body: Json, read: Element -> Option<string>)
    ensures Publishable(body, read).Some? <==>
              var d := DocumentOf(body);
              && CheckDepth(body, 0) && d.Batch? && 1 <= |d.elements| <= 1000
              && (forall i | 0 <= i < |d.elements| :: read(d.elements[i]).Some?)
              && forall i, j | 0 <= i < j < |d.elements| :: read(d.elements[i]) != read(d.elements[j])
    ensures Publishable(body, read).Some? ==>
              var elements, ids := DocumentOf(body).elements, Publishable(body, read).value;
              |ids| == |elements| && forall i | 0 <= i < |elements| :: read(elements[i]) == Some(ids[i])
  {
    if DocumentOf(body).Batch? {
      ValidatedExactly(DocumentOf(body).elements, read);
    }
  }

  lemma {:induction false} ValidateFails(elements: seq<Element>, read: Element -> Option<string>, i: nat)
    requires i < |elements| && Validated(elements[..i + 1], read).None?
    ensures Validated(elements, read).None?
  {
    var n := |elements| - 1;
    if i < n {
      assert elements[..n][..i + 1] == elements[..i + 1];
      ValidateFails(elements[..n], read, i);
    } else {
      assert elements[..i + 1] == elements;
    }
  }

  /** Accepted exactly if every element is and no identifier is repeated. */
  lemma {:induction false} ValidatedExactly(elements: seq<Element>, read: Element -> Option<string>)
    ensures Validated(elements, read).Some? <==>
              && (forall i | 0 <= i < |elements| :: read(elements[i]).Some?)
              && forall i, j | 0 <= i < j < |elements| :: read(elements[i]) != read(elements[j])
    ensures Validated(elements, read).Some? ==>
              forall i | 0 <= i < |elements| :: read(elements[i]) == Some(Validated(elements, read).value[i])
  {
    if |elements| > 0 {
      ValidatedExactly(elements[..|elements| - 1], read);
    }
  }

  // ---------------------------------------------------------------- against the trigger

  lemma {:induction false} OptionalChecksAgree(item: Item)
    ensures JsGateway(Field(item, GatewayId)) <==> SqlGateway(Field(item, GatewayId))
    ensures JsLonLat(Field(item, LonLat)) <==> SqlLonLat(Field(item, LonLat))
    ensures JsLocation(Field(item, LocationId)) <==> SqlLocation(Field(item, LocationId))
    ensures JsMetadata(Field(item, Metadata)) <==> SqlMetadata(Field(item, Metadata))
  {
  }

  ghost predicate InRange(item: Item) {
    Field(item, Measured).JNum? ==> SqlRange(Members(Field(item, Metadata)), Field(item, Measured).number)
  }

  /** The timestamp lies in 1970 to 9999, UTC. */
  ghost predicate InUtcYears(j: Json) {
    j.JStr? && T.Read(j.text).Some? && T.InYears(T.InstantOf(T.Read(j.text).value.stamp), 1970, 9999)
  }

  lemma {:induction false} TimesAgree(j: Json)
    ensures JsTime(j) ==> (SqlTime(j).Some? <==> InUtcYears(j))
    ensures SqlTime(j).Some? ==> (JsTime(j) <==> T.Read(j.text).value.stamp.date.year >= 1970)
  {
  }

  lemma {:induction false} TextChecksAgree(item: Item)
    requires JsTime(Field(item, Timestamp)) || SqlTime(Field(item, Timestamp)).Some?
    ensures JsAccepts(item) <==>
              JsTime(Field(item, Timestamp)) && SqlIdentity(item) && (InRange(item) ==> SqlContent(item))
              && Field(item, Measured).JNum? && Field(item, Unit).JStr? && ValidUnit(Field(item, Unit).text)
              && SqlLonLat(Field(item, LonLat)) && SqlLocation(Field(item, LocationId))
                 && SqlMetadata(Field(item, Metadata))
  {
    OptionalChecksAgree(item);
  }

  /** The checks of one observation. What passes the publisher's passes the trigger's,
    * except for two that the publisher does not make: the metadata range, and the year
    * in UTC. What passes the trigger's passes the publisher's unless its local year is
    * before 1970. */
  lemma {:induction false} ObservationChecks(item: Item)
    ensures JsAccepts(item) ==> (SqlEntry(item).Some? <==> InRange(item) && InUtcYears(Field(item, Timestamp)))
    ensures SqlEntry(item).Some? ==>
              (JsAccepts(item) <==> T.Read(Field(item, Timestamp).text).value.stamp.date.year >= 1970)
  {
    TimesAgree(Field(item, Timestamp));
    if JsTime(Field(item, Timestamp)) || SqlTime(Field(item, Timestamp)).Some? {
      TextChecksAgree(item);
    }
  }

  lemma {:induction false} OneElement(e: Element, read: Element -> Option<string>)
    ensures Validated([e], read) == if read(e).Some? then Some([read(e).value]) else None
  {
    assert [e][..0] == [];
    var none: seq<string> := [];
    assert Validated([e][..0], read) == Some(none);
    assert read(e).Some? ==> none + [read(e).value] == [read(e).value];
  }

  /** A body of one observation. What the publisher lets through, the trigger accepts
    * exactly if the metadata range holds and the year in UTC is in 1970 to 9999. What
    * the trigger accepts, the publisher lets through exactly if its local year is not
    * before 1970 and it does not nest too deep. */
  lemma {:induction false} PublisherAgainstTrigger(body: Json)
    requires body.JObj?
    ensures var item := ItemOf(body.members);
            && (Publishable(body, JsReads).Some? ==>
                  (SqlEntry(item).Some? <==> InRange(item) && InUtcYears(Field(item, Timestamp))))
            && (SqlEntry(item).Some? ==>
                  (Publishable(body, JsReads).Some? <==>
                     CheckDepth(body, 0) && T.Read(Field(item, Timestamp).text).value.stamp.date.year >= 1970))
  {
    OneElement(ElementOf(body), JsReads);
    ObservationChecks(ItemOf(body.members));
  }

  ghost predicate Storable(e: Element) {
    e.Some? && InRange(e.value) && InUtcYears(Field(e.value, Timestamp))
  }

  lemma {:induction false} PublishedElement(e: Element, render: Json -> string)
    requires JsReads(e).Some?
    ensures IdText(e, render) == JsReads(e)
    ensures MqttReads(e).Some? <==> Storable(e)
  {
    ObservationChecks(e.value);
  }

  ghost predicate AllStorable(elements: seq<Element>) {
    forall i | 0 <= i < |elements| :: Storable(elements[i])
  }

  /** No observation is stored with other content. */
  ghost predicate NoneDisputed(rows: seq<Row>, elements: seq<Element>) {
    forall i | 0 <= i < |elements| && MqttReads(elements[i]).Some? :: Undisputed(rows, MqttReads(elements[i]).value)
  }

  /** Elements with different identifiers never contradict each other. */
  lemma {:induction false} PublishedEntries(t: Tables, elements: seq<Element>, es: seq<Entry>)
    requires ReadsAs(elements, MqttReads, es)
    requires forall i, j | 0 <= i < j < |elements| :: JsReads(elements[i]) != JsReads(elements[j])
    requires forall i | 0 <= i < |elements| :: JsReads(elements[i]) == Some(es[i].id)
    ensures Consistent(es) && (AllUndisputed(t.events, es) <==> NoneDisputed(t.events, elements))
  {
    forall i, j | 0 <= i < j < |es| ensures es[i].id != es[j].id {
      assert JsReads(elements[i]) != JsReads(elements[j]);
    }
    if NoneDisputed(t.events, elements) {
      forall i | 0 <= i < |es| ensures Undisputed(t.events, es[i]) {
        assert MqttReads(elements[i]) == Some(es[i]);
      }
    }
  }

  lemma {:induction false} PublishedReads(elements: seq<Element>, render: Json -> string)
    requires Validated(elements, JsReads).Some?
    ensures Identified(elements, render)
    ensures forall i, j | 0 <= i < j < |elements| :: JsReads(elements[i]) != JsReads(elements[j])
    ensures forall i | 0 <= i < |elements| :: MqttReads(elements[i]).Some? <==> Storable(elements[i])
    ensures forall i | 0 <= i < |elements| && MqttReads(elements[i]).Some? ::
              JsReads(elements[i]) == Some(MqttReads(elements[i]).value.id)
  {
    ValidatedExactly(elements, JsReads);
    forall i | 0 <= i < |elements|
      ensures IdText(elements[i], render) == JsReads(elements[i])
      ensures MqttReads(elements[i]).Some? <==> Storable(elements[i])
      ensures MqttReads(elements[i]).Some? ==> JsReads(elements[i]) == Some(MqttReads(elements[i]).value.id)
    {
      PublishedElement(elements[i], render);
      ReadsItsId(elements[i], render);
    }
  }

  lemma {:induction false} PublishedElements(t: Tables, elements: seq<Element>, clock: seq<Time>,
                                             render: Json -> string)
    requires Valid(t) && |clock| == |elements| && 1 <= |elements| <= MAX_BATCH && Validated(elements, JsReads).Some?
    ensures Identified(elements, render)
    ensures Ingest(t, Batch(elements), clock, MqttReads, render).1 <==>
              AllStorable(elements) && NoneDisputed(t.events, elements)
  {
    PublishedReads(elements, render);
    if AllStorable(elements) {
      StorableElements(t, elements, clock, render);
    } else if IngestAll(t, elements, clock, MqttReads).1 {
      IngestStops(t, elements, clock, MqttReads);
    }
  }

  lemma {:induction false} StorableElements(t: Tables, elements: seq<Element>, clock: seq<Time>, render: Json -> string)
    requires Valid(t) && |clock| == |elements| && Validated(elements, JsReads).Some? && AllStorable(elements)
    ensures IngestAll(t, elements, clock, MqttReads).1 <==> NoneDisputed(t.events, elements)
  {
    PublishedReads(elements, render);
    BothAreHonest();
    var es := Entries(elements, MqttReads);
    PublishedEntries(t, elements, es);
    IngestAllExactly(t, elements, es, clock, MqttReads);
  }

  /** A published body passes the trigger's identifier check, and is then stored
    * exactly if every observation is in range and in the years 1970 to 9999, UTC,
    * and none is stored with other content; otherwise it is quarantined whole. */
  lemma {:induction false} PublishedIsStoredOrQuarantined(t: Tables, body: Json, clock: seq<Time>,
                                                          render: Json -> string)
    requires Valid(t) && Publishable(body, JsReads).Some? && Clocked(body, clock)
    ensures var d := DocumentOf(body);
            && d.Batch? && Identified(d.elements, render)
            && (Ingest(t, d, clock, MqttReads, render).1 <==>
                  AllStorable(d.elements) && NoneDisputed(t.events, d.elements))
  {
    PublishedElements(t, DocumentOf(body).elements, clock, render);
  }

  // ---------------------------------------------------------------- against the gate of the API

  /** Scalars do not nest. */
  ghost predicate Flat(scalar: Scalars) {
    forall l :: !scalar(l).JArr? && !scalar(l).JObj?
  }

  /** On what is left of a document after parsing, checkDepth finds nothing too deep
    * that is not too deep in the document; without repeated keys it finds it all. */
  lemma {:induction false} DepthOfParsed(t: G.Tree, scalar: Scalars, depth: nat)
    requires Flat(scalar)
    ensures G.CheckDepth(t, depth) ==> CheckDepth(Parse(t, scalar), depth)
    ensures G.KeyUnique(t) && CheckDepth(Parse(t, scalar), depth) ==> G.CheckDepth(t, depth)
    decreases t
  {
    if depth <= G.MAX_DEPTH {
      match t
      case Array(items) => DepthOfItems(items, scalar, depth + 1);
      case Object(ms) => DepthOfMembers(ms, scalar, depth + 1);
      case _ =>
    }
  }

  lemma {:induction false} FirstItem(j: Json, js: seq<Json>, depth: nat)
    requires depth <= G.MAX_DEPTH + 1
    ensures CheckItems([j] + js, depth) <==> CheckDepth(j, depth) && CheckItems(js, depth)
  {
    var all := [j] + js;
    if CheckItems(all, depth) {
      assert CheckDepth(all[0], depth);
      forall i | 0 <= i < |js| ensures CheckDepth(js[i], depth) {
        assert all[i + 1] == js[i];
      }
    }
  }

  lemma {:induction false} DepthOfItems(items: G.Items, scalar: Scalars, depth: nat)
    requires Flat(scalar) && depth <= G.MAX_DEPTH + 1
    ensures G.CheckItems(items, depth) ==> CheckItems(ParseItems(items, scalar), depth)
    ensures G.ItemsUnique(items) && CheckItems(ParseItems(items, scalar), depth) ==> G.CheckItems(items, depth)
    decreases items
  {
    if items.Item? {
      DepthOfParsed(items.head, scalar, depth);
      DepthOfItems(items.tail, scalar, depth);
      FirstItem(Parse(items.head, scalar), ParseItems(items.tail, scalar), depth);
    }
  }

  lemma {:induction false} FirstMember(key: string, j: Json, m: map<string, Json>, depth: nat)
    requires depth <= G.MAX_DEPTH + 1
    ensures CheckDepth(j, depth) && CheckMembers(m, depth) ==> CheckMembers(map[key := j] + m, depth)
    ensures key !in m && CheckMembers(map[key := j] + m, depth) ==> CheckDepth(j, depth) && CheckMembers(m, depth)
  {
    var all := map[key := j] + m;
    if key !in m && CheckMembers(all, depth) {
      assert CheckDepth(all[key], depth);
      forall k | k in m ensures CheckDepth(m[k], depth) {
        assert all[k] == m[k];
      }
    }
  }

  lemma {:induction false} DepthOfMembers(ms: G.Members, scalar: Scalars, depth: nat)
    requires Flat(scalar) && depth <= G.MAX_DEPTH + 1
    ensures G.CheckMembers(ms, depth) ==> CheckMembers(ParseMembers(ms, scalar), depth)
    ensures G.MembersUnique(ms) && CheckMembers(ParseMembers(ms, scalar), depth) ==> G.CheckMembers(ms, depth)
    decreases ms
  {
    if ms.Member? {
      DepthOfParsed(ms.value, scalar, depth);
      DepthOfMembers(ms.rest, scalar, depth);
      FirstMember(ms.key, Parse(ms.value, scalar), ParseMembers(ms.rest, scalar), depth);
    }
  }

  /** Whatever passes the API's gate passes the publisher's depth check, and on
    * documents without repeated keys the two agree. */
  lemma {:induction false} GateAgainstDepthCheck(t: G.Tree, scalar: Scalars)
    requires Flat(scalar)
    ensures Passes(t) ==> CheckDepth(Parse(t, scalar), 0)
    ensures G.KeyUnique(t) ==> (Passes(t) <==> CheckDepth(Parse(t, scalar), 0))
  {
    G.CheckDepthIsHeight(t, 0);
    DepthOfParsed(t, scalar, 0);
  }
}
