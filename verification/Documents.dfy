/** Whole JSON documents on their way into either route: the gate of the API, the
  * decoders, which keep the last of equal keys, and the observations they yield. */
module Documents {
  import opened Wrappers
  import opened Clock
  import opened Observations
  import opened Registry
  import opened Routes
  import G = JsonGate
  import T = Timestamps

  /** What a decoder makes of a number, true, false or null. */
  type Scalars = string -> Json

  // ---------------------------------------------------------------- parsing

  /** The value of a tree. */
  function Parse(t: G.Tree, scalar: Scalars): Json {
    match t
    case String(s) => JStr(s)
    case Literal(l) => scalar(l)
    case Array(items) => JArr(ParseItems(items, scalar))
    case Object(ms) => JObj(ParseMembers(ms, scalar))
  }

  function ParseItems(items: G.Items, scalar: Scalars): seq<Json> {
    match items
    case NoItems => []
    case Item(head, tail) => [Parse(head, scalar)] + ParseItems(tail, scalar)
  }

  /** Of equal keys the last one is kept. */
  function ParseMembers(ms: G.Members, scalar: Scalars): (m: map<string, Json>)
    ensures m.Keys == G.Keys(ms)
  {
    match ms
    case NoMembers => map[]
    case Member(key, value, rest) => map[key := Parse(value, scalar)] + ParseMembers(rest, scalar)
  }

  function TextOf(n: Name): string {
    match n
    case Id => "id"
    case SensorId => "sensor_id"
    case GatewayId => "gateway_id"
    case SensorType => "sensor_type"
    case Timestamp => "timestamp"
    case Measured => "value"
    case Unit => "unit"
    case Metadata => "metadata"
    case LonLat => "lon_lat"
    case LocationId => "location_id"
    case Unknown(s) => s
  }

  function NameOf(s: string): (n: Name)
    ensures TextOf(n) == s
  {
    if s == "id" then Id
    else if s == "sensor_id" then SensorId
    else if s == "gateway_id" then GatewayId
    else if s == "sensor_type" then SensorType
    else if s == "timestamp" then Timestamp
    else if s == "value" then Measured
    else if s == "unit" then Unit
    else if s == "metadata" then Metadata
    else if s == "lon_lat" then LonLat
    else if s == "location_id" then LocationId
    else Unknown(s)
  }

  /** The items as they stand in the text. */
  function Listing(items: G.Items): seq<G.Tree> {
    match items
    case NoItems => []
    case Item(head, tail) => [head] + Listing(tail)
  }

  /** The value behind the last occurrence of a key. */
  function LastValue(ms: G.Members, key: string): (t: Option<G.Tree>)
    ensures t.Some? <==> key in G.Keys(ms)
  {
    match ms
    case NoMembers => None
    case Member(k, value, rest) =>
      var later := LastValue(rest, key);
      if later.None? && k == key then Some(value) else later
  }

  /** Arrays keep their order, and an object has under each key the last value written
    * for it. */
  lemma {:induction false} ParsedInOrder(items: G.Items, scalar: Scalars, i: nat)
    requires i < |Listing(items)|
    ensures |ParseItems(items, scalar)| == |Listing(items)|
    ensures ParseItems(items, scalar)[i] == Parse(Listing(items)[i], scalar)
    decreases items
  {
    if i > 0 {
      ParsedInOrder(items.tail, scalar, i - 1);
    } else if items.tail.Item? {
      ParsedInOrder(items.tail, scalar, 0);
    }
  }

  lemma {:induction false} LastKeyWins(ms: G.Members, scalar: Scalars, key: string)
    requires key in G.Keys(ms)
    ensures key in ParseMembers(ms, scalar) && ParseMembers(ms, scalar)[key] == Parse(LastValue(ms, key).value, scalar)
    decreases ms
  {
    if key in G.Keys(ms.rest) {
      LastKeyWins(ms.rest, scalar, key);
    }
  }

  /** The members of an object by their meaning. */
  function ItemOf(m: map<string, Json>): Item {
    map s | s in m :: NameOf(s) := m[s]
  }

  function ElementOf(j: Json): Element {
    if j.JObj? then Some(ItemOf(j.members)) else None
  }

  function ElementsOf(js: seq<Json>): (elements: seq<Element>)
    ensures |elements| == |js| && forall i | 0 <= i < |js| :: elements[i] == ElementOf(js[i])
  {
    seq(|js|, i requires 0 <= i < |js| => ElementOf(js[i]))
  }

  /** A single object stands for an array of one. */
  function DocumentOf(j: Json): Document {
    match j
    case JArr(items) => Batch(ElementsOf(items))
    case JObj(_) => Batch([ElementOf(j)])
    case _ => Malformed
  }

  // ---------------------------------------------------------------- the routes on documents

  /** What the gate lets pass. */
  predicate Passes(t: G.Tree) {
    G.KeyUnique(t) && G.Height(t) <= 32
  }

  lemma {:induction false} PassesTheGate(t: G.Tree)
    ensures G.WalkValue(G.Tokens(t, G.End), 0) == Some(G.End) <==> Passes(t)
  {
    G.WalkDecides(t, G.End, 0);
    G.CheckDepthIsHeight(t, 0);
  }

  /** One clock reading for each element. */
  predicate Clocked(j: Json, clock: seq<Time>) {
    DocumentOf(j).Batch? ==> |clock| == |DocumentOf(j).elements|
  }

  /** The API: the gate, then the decoder and the rest. */
  function PostBody(t: Tables, body: G.Tree, scalar: Scalars, clock: seq<Time>): (Tables, Answer)
    requires Clocked(Parse(body, scalar), clock)
  {
    if Passes(body) then Post(t, DocumentOf(Parse(body, scalar)), clock, ApiReads) else (t, Refused)
  }

  /** The trigger has no gate. */
  function IngestBody(t: Tables, body: G.Tree, scalar: Scalars, clock: seq<Time>, render: Json -> string): (Tables,
      bool)
    requires Clocked(Parse(body, scalar), clock)
  {
    Ingest(t, DocumentOf(Parse(body, scalar)), clock, MqttReads, render)
  }

  /** POST stores a document exactly if it passes the gate, has 1 to 1000 valid
    * elements without repetition, and none is stored with other content. */
  lemma {:induction false} PostBodyStoresExactly(t: Tables, body: G.Tree, scalar: Scalars, clock: seq<Time>)
    requires Valid(t) && Clocked(Parse(body, scalar), clock)
    ensures var d := DocumentOf(Parse(body, scalar));
            PostBody(t, body, scalar, clock).1.Stored? <==>
              && Passes(body) && d.Batch? && 1 <= |d.elements| <= 1000
              && exists es :: ReadsAs(d.elements, ApiReads, es) && DistinctEntries(es) && AllUndisputed(t.events, es)
  {
    BothAreHonest();
    PostStoresExactly(t, DocumentOf(Parse(body, scalar)), clock, ApiReads);
  }

  /** A document whose elements both routes accept does the same through either, if
    * it passes the gate; otherwise the API refuses it and touches nothing, whatever
    * the trigger makes of it. */
  lemma {:induction false} BodiesStoreAlike(t: Tables, body: G.Tree, scalar: Scalars, clock: seq<Time>,
                                            render: Json -> string)
    requires Clocked(Parse(body, scalar), clock) && DocumentOf(Parse(body, scalar)).Batch?
    requires Common(DocumentOf(Parse(body, scalar)).elements, ApiReads, MqttReads)
    ensures var (u, a) := PostBody(t, body, scalar, clock);
            var (w, ok) := IngestBody(t, body, scalar, clock, render);
            if Passes(body) then u == w && (a.Stored? <==> ok) else u == t && a.Refused?
  {
    TheRoutesAreCompatible(render);
    RoutesStoreAlike(t, DocumentOf(Parse(body, scalar)), clock, ApiReads, MqttReads, render);
  }

  // ---------------------------------------------------------------- where the verdicts differ

  predicate ApiTakes(body: G.Tree, scalar: Scalars)
    requires body.Object?
  {
    Passes(body) && GoValue(ItemOf(ParseMembers(body.members, scalar))).Some?
  }

  predicate TriggerTakes(body: G.Tree, scalar: Scalars)
    requires body.Object?
  {
    SqlEntry(ItemOf(ParseMembers(body.members, scalar))).Some?
  }

  /** For the document of any one observation: one route accepts it and the other
    * rejects it exactly if it passes the checks they share and either passes the
    * gate with a timestamp that splits them, or does not pass the gate, because it
    * repeats a key or nests too deep, with a timestamp that the trigger takes. */
  lemma {:induction false} BodiesDifferExactly(body: G.Tree, scalar: Scalars)
    requires body.Object?
    ensures var item := ItemOf(ParseMembers(body.members, scalar));
            ApiTakes(body, scalar) != TriggerTakes(body, scalar) <==>
              && SqlIdentity(item) && SqlContent(item)
              && if Passes(body) then TimesSplit(Field(item, Timestamp)) else SqlTime(Field(item, Timestamp)).Some?
  {
    VerdictsDifferExactly(ItemOf(ParseMembers(body.members, scalar)));
  }

  lemma {:induction false} NamesAreTexts(n: Name)
    requires !n.Unknown?
    ensures NameOf(TextOf(n)) == n
  {
  }

  lemma {:induction false} ItemOfUpdate(m: map<string, Json>, key: string, j: Json)
    ensures ItemOf(m[key := j]) == ItemOf(m)[NameOf(key) := j]
  {
    var after, item := ItemOf(m[key := j]), ItemOf(m)[NameOf(key) := j];
    forall n ensures n in after <==> n in item {
      if n in after {
        var s :| s in m[key := j] && NameOf(s) == n;
      }
      if n in item && n != NameOf(key) {
        var s :| s in m && NameOf(s) == n;
        assert s in m[key := j];
      }
      if n == NameOf(key) {
        assert key in m[key := j];
      }
    }
    forall n | n in after ensures after[n] == item[n] {
      var s :| s in m[key := j] && NameOf(s) == n;
      assert TextOf(NameOf(s)) == s && TextOf(NameOf(key)) == key;
    }
  }

  /** A member is in the item exactly if its key is in the document. */
  lemma {:induction false} MemberKey(ms: G.Members, scalar: Scalars, n: Name)
    requires !n.Unknown?
    ensures n in ItemOf(ParseMembers(ms, scalar)) <==> TextOf(n) in G.Keys(ms)
  {
    NamesAreTexts(n);
    var m := ParseMembers(ms, scalar);
    if TextOf(n) in m {
      assert NameOf(TextOf(n)) in ItemOf(m);
    }
  }

  lemma {:induction false} PutFirst(m: map<string, Json>, key: string, j: Json)
    requires key !in m
    ensures map[key := j] + m == m[key := j]
  {
  }

  /** A member in front of others that do not have its key. */
  lemma {:induction false} OneMember(n: Name, value: G.Tree, rest: G.Members, scalar: Scalars, item: Item)
    requires !n.Unknown? && ItemOf(ParseMembers(rest, scalar)) == item && n !in item
    ensures ItemOf(ParseMembers(G.Member(TextOf(n), value, rest), scalar)) == item[n := Parse(value, scalar)]
  {
    MemberKey(rest, scalar, n);
    NamesAreTexts(n);
    var key, m, j := TextOf(n), ParseMembers(rest, scalar), Parse(value, scalar);
    PutFirst(m, key, j);
    ItemOfUpdate(m, key, j);
  }

  /** Members by their meaning, before they are written. */
  datatype Fields = NoFields | Give(name: Name, value: G.Tree, rest: Fields)

  function Written(fs: Fields): G.Members {
    match fs
    case NoFields => G.NoMembers
    case Give(n, value, rest) => G.Member(TextOf(n), value, Written(rest))
  }

  function Meant(fs: Fields, scalar: Scalars): Item {
    match fs
    case NoFields => map[]
    case Give(n, value, rest) => Meant(rest, scalar)[n := Parse(value, scalar)]
  }

  /** Known members, none of them twice. */
  predicate Plain(fs: Fields) {
    match fs
    case NoFields => true
    case Give(n, _, rest) => !n.Unknown? && !Names(rest, n) && Plain(rest)
  }

  predicate Names(fs: Fields, n: Name) {
    fs.Give? && (fs.name == n || Names(fs.rest, n))
  }

  lemma {:induction false} MeantNames(fs: Fields, scalar: Scalars, n: Name)
    ensures n in Meant(fs, scalar) <==> Names(fs, n)
  {
    if fs.Give? {
      MeantNames(fs.rest, scalar, n);
    }
  }

  /** What is written is read as it was meant. */
  lemma {:induction false} WrittenIsMeant(fs: Fields, scalar: Scalars)
    requires Plain(fs)
    ensures ItemOf(ParseMembers(Written(fs), scalar)) == Meant(fs, scalar)
  {
    if fs.Give? {
      WrittenIsMeant(fs.rest, scalar);
      MeantNames(fs.rest, scalar, fs.name);
      OneMember(fs.name, fs.value, Written(fs.rest), scalar, Meant(fs.rest, scalar));
    }
  }

  /** A member written once more, in front: the decoders see the later one ... */
  lemma {:induction false} TwiceParses(ms: G.Members, key: string, value: G.Tree, scalar: Scalars)
    requires key in G.Keys(ms)
    ensures ParseMembers(G.Member(key, value, ms), scalar) == ParseMembers(ms, scalar)
  {
    assert key in ParseMembers(ms, scalar);
  }

  /** ... and the gate refuses them. */
  lemma {:induction false} TwiceFails(ms: G.Members, key: string, value: G.Tree)
    requires key in G.Keys(ms)
    ensures !Passes(G.Object(G.Member(key, value, ms)))
  {
    assert !G.MembersUnique(G.Member(key, value, ms));
  }

  /** Every document that the trigger takes, with one of its members written twice,
    * is still taken by the trigger, and refused by the API. */
  lemma {:induction false} RepeatedKeySplits(fs: Fields, scalar: Scalars, n: Name, value: G.Tree)
    requires Plain(fs) && Names(fs, n) && SqlEntry(Meant(fs, scalar)).Some?
    ensures var body := G.Object(G.Member(TextOf(n), value, Written(fs)));
            !ApiTakes(body, scalar) && TriggerTakes(body, scalar)
  {
    KnownNames(fs, n);
    MeantNames(fs, scalar, n);
    WrittenIsMeant(fs, scalar);
    MemberKey(Written(fs), scalar, n);
    TwiceParses(Written(fs), TextOf(n), value, scalar);
    TwiceFails(Written(fs), TextOf(n), value);
  }

  lemma {:induction false} KnownNames(fs: Fields, n: Name)
    requires Plain(fs) && Names(fs, n)
    ensures !n.Unknown?
  {
    if fs.name != n {
      KnownNames(fs.rest, n);
    }
  }

  /** n levels of arrays. */
  function Nested(n: nat): G.Tree {
    if n == 0 then G.Array(G.NoItems) else G.Array(G.Item(Nested(n - 1), G.NoItems))
  }

  lemma {:induction false} NestedHeight(n: nat)
    ensures G.Height(Nested(n)) == n
  {
    if n > 0 {
      NestedHeight(n - 1);
    }
  }

  lemma {:induction false} DeepFails(key: string, inner: string, n: nat, ms: G.Members)
    requires n > 30
    ensures !Passes(G.Object(G.Member(key, G.Object(G.Member(inner, Nested(n), G.NoMembers)), ms)))
  {
    NestedHeight(n);
    var metadata := G.Member(inner, Nested(n), G.NoMembers);
    assert G.MembersHeight(metadata) == n + 1;
    assert G.Height(G.Object(metadata)) == n + 1;
    assert G.MembersHeight(G.Member(key, G.Object(metadata), ms)) >= n + 2;
  }

  lemma {:induction false} OtherFields(item: Item, metadata: Json)
    requires Metadata !in item
    ensures var more := item[Metadata := metadata];
            && (OnlyKnown(more) <==> OnlyKnown(item)) && Field(more, Metadata) == metadata
               && Field(item, Metadata) == JNull
            && forall n | n != Metadata :: Field(more, n) == Field(item, n)
  {
    assert OnlyKnown(item[Metadata := metadata]) ==> forall k | k in item :: k in item[Metadata := metadata];
  }

  lemma {:induction false} FreeMetadata(inner: string, j: Json, value: real)
    requires 1 <= |inner| <= 128 && inner != "minimum" && inner != "maximum"
    ensures SqlMetadata(JObj(map[inner := j])) && SqlRange(Members(JObj(map[inner := j])), value)
  {
  }

  /** The shared checks do not mind metadata of one member of any depth. */
  lemma {:induction false} MetadataIsFree(item: Item, inner: string, j: Json)
    requires SqlEntry(item).Some? && Metadata !in item && 1 <= |inner| <= 128 && inner != "minimum"
             && inner != "maximum"
    ensures SqlEntry(item[Metadata := JObj(map[inner := j])]).Some?
  {
    var more := item[Metadata := JObj(map[inner := j])];
    OtherFields(item, JObj(map[inner := j]));
    FreeMetadata(inner, j, Field(item, Measured).number);
    assert SqlIdentity(more);
    assert SqlContent(more);
  }

  lemma {:induction false} OneDeepMember(inner: string, t: G.Tree, scalar: Scalars)
    ensures Parse(G.Object(G.Member(inner, t, G.NoMembers)), scalar) == JObj(map[inner := Parse(t, scalar)])
  {
    assert ParseMembers(G.NoMembers, scalar) == map[];
    assert ParseMembers(G.Member(inner, t, G.NoMembers), scalar) == map[inner := Parse(t, scalar)];
  }

  lemma {:induction false} WithMetadata(fs: Fields, scalar: Scalars, t: G.Tree)
    requires Plain(fs) && !Names(fs, Metadata)
    ensures ItemOf(ParseMembers(G.Member(TextOf(Metadata), t, Written(fs)), scalar))
            == Meant(fs, scalar)[Metadata := Parse(t, scalar)]
  {
    WrittenIsMeant(Give(Metadata, t, fs), scalar);
  }

  /** Every document without metadata that the trigger takes, given metadata nested
    * too deep, is still taken by the trigger, and refused by the API. */
  lemma {:induction false} DeepMetadataSplit(fs: Fields, scalar: Scalars, inner: string, n: nat)
    requires Plain(fs) && !Names(fs, Metadata) && SqlEntry(Meant(fs, scalar)).Some?
    requires n > 30 && 1 <= |inner| <= 128 && inner != "minimum" && inner != "maximum"
    ensures var deep := G.Object(G.Member(inner, Nested(n), G.NoMembers));
            var body := G.Object(G.Member(TextOf(Metadata), deep, Written(fs)));
            !ApiTakes(body, scalar) && TriggerTakes(body, scalar)
  {
    var deep := G.Object(G.Member(inner, Nested(n), G.NoMembers));
    MeantNames(fs, scalar, Metadata);
    WithMetadata(fs, scalar, deep);
    OneDeepMember(inner, Nested(n), scalar);
    MetadataIsFree(Meant(fs, scalar), inner, Parse(Nested(n), scalar));
    DeepFails(TextOf(Metadata), inner, n, Written(fs));
  }

  /** An observation with nothing optional. */
  function Given(id: string, sensor: string, kind: string, text: string, number: string, unit: string): Fields {
    Give(Id, G.String(id),
    Give(SensorId, G.String(sensor),
    Give(SensorType, G.String(kind),
    Give(Timestamp, G.String(text),
    Give(Measured, G.Literal(number),
    Give(Unit, G.String(unit), NoFields))))))
  }

  /** One more member that is not named yet. */
  lemma {:induction false} GiveOne(n: Name, value: G.Tree, rest: Fields, scalar: Scalars, item: Item)
    requires Plain(rest) && Meant(rest, scalar) == item && !n.Unknown? && n !in item
    ensures Plain(Give(n, value, rest)) && Meant(Give(n, value, rest), scalar) == item[n := Parse(value, scalar)]
  {
    MeantNames(rest, scalar, n);
  }

  lemma {:induction false} GivenIsMeant(id: string, sensor: string, kind: string, text: string, number: string,
                                        unit: string, scalar: Scalars)
    ensures Plain(Given(id, sensor, kind, text, number, unit))
    ensures Meant(Given(id, sensor, kind, text, number, unit), scalar)
            == map[][Unit := JStr(unit)][Measured := scalar(number)][Timestamp := JStr(text)][SensorType := JStr(kind)]
               [SensorId := JStr(sensor)][Id := JStr(id)]
  {
    var f, m: Item := NoFields, map[];
    GiveOne(Unit, G.String(unit), f, scalar, m);
    var f1, m1 := Give(Unit, G.String(unit), f), m[Unit := JStr(unit)];
    GiveOne(Measured, G.Literal(number), f1, scalar, m1);
    var f2, m2 := Give(Measured, G.Literal(number), f1), m1[Measured := scalar(number)];
    GiveOne(Timestamp, G.String(text), f2, scalar, m2);
    var f3, m3 := Give(Timestamp, G.String(text), f2), m2[Timestamp := JStr(text)];
    GiveOne(SensorType, G.String(kind), f3, scalar, m3);
    var f4, m4 := Give(SensorType, G.String(kind), f3), m3[SensorType := JStr(kind)];
    GiveOne(SensorId, G.String(sensor), f4, scalar, m4);
    GiveOne(Id, G.String(id), Give(SensorId, G.String(sensor), f4), scalar, m4[SensorId := JStr(sensor)]);
  }

  /** Such a document: New Year 2026. */
  function NewYear(one: string): Fields {
    Given("00000000-0000-0000-0000-000000000000", "gauge", "level", NewYearText(), one, "m")
  }

  lemma {:induction false} NewYearIsMeant(one: string, scalar: Scalars)
    requires scalar(one) == JNum(1.0)
    ensures Plain(NewYear(one)) && Meant(NewYear(one), scalar) == Dated(NewYearText(), 1.0)
  {
    GivenIsMeant("00000000-0000-0000-0000-000000000000", "gauge", "level", NewYearText(), one, "m",
                 scalar);
  }

  lemma {:induction false} DatedNames(text: string, value: real)
    ensures Unit in Dated(text, value) && Metadata !in Dated(text, value)
  {
  }

  lemma {:induction false} TakenAsMeant(fs: Fields, scalar: Scalars, item: Item)
    requires Meant(fs, scalar) == item && SqlEntry(item).Some? && Unit in item && Metadata !in item
    ensures Names(fs, Unit) && !Names(fs, Metadata) && SqlEntry(Meant(fs, scalar)).Some?
  {
    MeantNames(fs, scalar, Unit);
    MeantNames(fs, scalar, Metadata);
  }

  /** Both results have it as an input. */
  lemma {:induction false} NewYearIsWritten(one: string, scalar: Scalars) returns (fs: Fields)
    requires scalar(one) == JNum(1.0)
    ensures fs == NewYear(one)
    ensures Plain(fs) && Names(fs, Unit) && !Names(fs, Metadata) && SqlEntry(Meant(fs, scalar)).Some?
  {
    fs := NewYear(one);
    NewYearIsMeant(one, scalar);
    NewYearIsTaken(1.0);
    DatedNames(NewYearText(), 1.0);
    TakenAsMeant(fs, scalar, Dated(NewYearText(), 1.0));
  }
}
