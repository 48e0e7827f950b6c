/** One observation on its two ways into storage: decoded and normalised by the
  * API, or validated and canonicalised by the MQTT trigger. */
module Observations {
  import opened Wrappers
  import T = Timestamps

  datatype Json =
    | JNull
    | JBool(flag: bool)
    | JNum(number: real)
    | JStr(text: string)
    | JArr(items: seq<Json>)
    | JObj(members: map<string, Json>)

  /** The member names of an observation: id, sensor_id, gateway_id, sensor_type,
    * timestamp, value, unit, metadata, lon_lat and location_id, or any other. */
  datatype Name =
    | Id | SensorId | GatewayId | SensorType | Timestamp | Measured | Unit | Metadata | LonLat | LocationId
    | Unknown(name: string)

  type Item = map<Name, Json>

  predicate OnlyKnown(item: Item) {
    forall k | k in item :: !k.Unknown?
  }

  const MAX_LOCATION: int := 9007199254740991

  /** A member, where absence and null mean the same. */
  function Field(item: Item, name: Name): Json {
    if name in item then item[name] else JNull
  }

  // ---------------------------------------------------------------- shared patterns

  predicate IsLowerHex(c: char) { '0' <= c <= '9' || 'a' <= c <= 'f' }

  predicate ValidId(s: string) {
    |s| == 36 && forall i | 0 <= i < 36 ::
      if i == 8 || i == 13 || i == 18 || i == 23 then s[i] == '-' else IsLowerHex(s[i])
  }

  predicate LowerHex(s: string, n: nat) {
    |s| == n && forall i | 0 <= i < n :: s[i] in "0123456789abcdef"
  }

  /** The identifier in five groups of hexadecimal digits. */
  predicate FiveGroups(s: string, a: string, b: string, c: string, d: string, e: string) {
    && LowerHex(a, 8) && LowerHex(b, 4) && LowerHex(c, 4) && LowerHex(d, 4) && LowerHex(e, 12)
    && s == a + "-" + b + "-" + c + "-" + d + "-" + e
  }

  lemma {:induction false} HexDigits(c: char)
    ensures IsLowerHex(c) <==> c in "0123456789abcdef"
  {
    var digits := "0123456789abcdef";
    if IsLowerHex(c) {
      var i: int := if c <= '9' then (c - '0') as int else (c - 'a') as int + 10;
      assert digits[i] == c;
    }
  }

  lemma {:induction false} HexGroup(s: string, i: nat, n: nat)
    requires i + n <= |s|
    ensures LowerHex(s[i..i + n], n) <==> forall k | i <= k < i + n :: IsLowerHex(s[k])
  {
    var group := s[i..i + n];
    forall k | 0 <= k < n ensures IsLowerHex(s[i + k]) <==> group[k] in "0123456789abcdef" {
      HexDigits(s[i + k]);
    }
    if LowerHex(group, n) {
      forall k | i <= k < i + n ensures IsLowerHex(s[k]) {
        assert group[k - i] == s[k];
      }
    }
  }

  lemma {:induction false} IdSplits(s: string)
    requires ValidId(s)
    ensures FiveGroups(s, s[0..8], s[9..13], s[14..18], s[19..23], s[24..36])
  {
    HexGroup(s, 0, 8);
    HexGroup(s, 9, 4);
    HexGroup(s, 14, 4);
    HexGroup(s, 19, 4);
    HexGroup(s, 24, 12);
    assert s == s[0..8] + "-" + s[9..13] + "-" + s[14..18] + "-" + s[19..23] + "-" + s[24..36];
  }

  lemma {:induction false} GroupsJoin(s: string, a: string, b: string, c: string, d: string, e: string)
    requires FiveGroups(s, a, b, c, d, e)
    ensures ValidId(s)
  {
    assert s[0..8] == a && s[9..13] == b && s[14..18] == c && s[19..23] == d && s[24..36] == e;
    HexGroup(s, 0, 8);
    HexGroup(s, 9, 4);
    HexGroup(s, 14, 4);
    HexGroup(s, 19, 4);
    HexGroup(s, 24, 12);
    assert s[8] == '-' && s[13] == '-' && s[18] == '-' && s[23] == '-';
  }

  /** A valid identifier is a lower-case UUID in its usual form. */
  lemma {:induction false} IdIsUuid(s: string)
    ensures ValidId(s) <==> exists a, b, c, d, e :: FiveGroups(s, a, b, c, d, e)
  {
    if ValidId(s) {
      IdSplits(s);
    }
    forall a, b, c, d, e | FiveGroups(s, a, b, c, d, e) ensures ValidId(s) {
      GroupsJoin(s, a, b, c, d, e);
    }
  }

  predicate IsAlphanumeric(c: char) { '0' <= c <= '9' || 'A' <= c <= 'Z' || 'a' <= c <= 'z' }

  predicate ValidIdentifier(s: string) {
    && 1 <= |s| <= 128 && IsAlphanumeric(s[0])
    && forall i | 0 <= i < |s| :: IsAlphanumeric(s[i]) || s[i] == '_' || s[i] == '.' || s[i] == ':' || s[i] == '-'
  }

  predicate IsSpace(c: char) {
    c == ' ' || c == '\t' || c == '\n' || c == '\r' || c == '\U{0B}' || c == '\U{0C}'
  }

  predicate ValidUnit(s: string) {
    1 <= |s| <= 32 && !IsSpace(s[0]) && !IsSpace(s[|s| - 1])
  }

  predicate Alphanumeric(c: char) {
    c in "0123456789" || c in "ABCDEFGHIJKLMNOPQRSTUVWXYZ" || c in "abcdefghijklmnopqrstuvwxyz"
  }

  lemma {:induction false} Digits(c: char)
    ensures '0' <= c <= '9' <==> c in "0123456789"
  {
    var all := "0123456789";
    if '0' <= c <= '9' {
      assert all[(c - '0') as int] == c;
    }
  }

  lemma {:induction false} Capitals(c: char)
    ensures 'A' <= c <= 'Z' <==> c in "ABCDEFGHIJKLMNOPQRSTUVWXYZ"
  {
    var all := "ABCDEFGHIJKLMNOPQRSTUVWXYZ";
    if 'A' <= c <= 'Z' {
      assert all[(c - 'A') as int] == c;
    }
  }

  lemma {:induction false} SmallLetters(c: char)
    ensures 'a' <= c <= 'z' <==> c in "abcdefghijklmnopqrstuvwxyz"
  {
    var all := "abcdefghijklmnopqrstuvwxyz";
    if 'a' <= c <= 'z' {
      assert all[(c - 'a') as int] == c;
    }
  }

  lemma {:induction false} Alphanumerics(c: char)
    ensures IsAlphanumeric(c) <==> Alphanumeric(c)
  {
    Digits(c);
    Capitals(c);
    SmallLetters(c);
  }

  /** The pattern of names: a letter or digit, then up to 127 letters, digits and marks. */
  lemma {:induction false} IdentifierIsPattern(s: string)
    ensures ValidIdentifier(s) <==>
              && 0 < |s| < 129 && Alphanumeric(s[0])
              && forall i | 0 < i < |s| :: Alphanumeric(s[i]) || s[i] in "_.:-"
  {
    forall i | 0 <= i < |s| ensures IsAlphanumeric(s[i]) <==> Alphanumeric(s[i]) {
      Alphanumerics(s[i]);
    }
  }

  function TrimLeft(s: string): string {
    if |s| > 0 && s[0] in " \t\n\r\U{0B}\U{0C}" then TrimLeft(s[1..]) else s
  }

  function TrimRight(s: string): string {
    if |s| > 0 && s[|s| - 1] in " \t\n\r\U{0B}\U{0C}" then TrimRight(s[..|s| - 1]) else s
  }

  lemma {:induction false} TrimsShorten(s: string)
    ensures |TrimLeft(s)| <= |s| && |TrimRight(s)| <= |s|
    ensures |s| > 0 && IsSpace(s[0]) ==> |TrimLeft(s)| < |s|
    ensures |s| > 0 && IsSpace(s[|s| - 1]) ==> |TrimRight(s)| < |s|
    ensures |s| > 0 && !IsSpace(s[0]) ==> TrimLeft(s) == s
    ensures |s| > 0 && !IsSpace(s[|s| - 1]) ==> TrimRight(s) == s
    decreases |s|
  {
    if |s| > 0 {
      TrimsShorten(s[1..]);
      TrimsShorten(s[..|s| - 1]);
    }
  }

  /** A unit is valid exactly if it has 1 to 32 characters and trimming leaves it as it
    * is. */
  lemma {:induction false} UnitIsTrimmed(s: string)
    ensures ValidUnit(s) <==> s != "" && |s| <= 32 && TrimRight(TrimLeft(s)) == s
  {
    TrimsShorten(s);
    TrimsShorten(TrimLeft(s));
  }

  // ---------------------------------------------------------------- what is stored

  type Payload = map<Name, Json>

  /** A row of sensor.measurements. */
  datatype Measurement = Measurement(
    at: T.Instant,
    id: string,
    sensor: string,
    gateway: Option<string>,
    sensorType: string,
    value: real,
    unit: string,
    metadata: map<string, Json>,
    lonLat: Option<(real, real)>,
    location: Option<int>)

  /** What a route asks the registry to insert. */
  datatype Entry = Entry(id: string, at: T.Instant, payload: Payload, measurement: Measurement)

  // ---------------------------------------------------------------- the API route

  /** sensor.Value after decoding; absent optional fields are empty. */
  datatype Value = Value(
    id: string,
    sensor: string,
    gateway: string,
    sensorType: string,
    at: T.Instant,
    value: real,
    unit: string,
    metadata: map<string, Json>,
    lonLat: Option<(real, real)>,
    location: Option<int>)

  /** A JSON null leaves a Go string empty. */
  function GoText(j: Json): Option<string> {
    match j
    case JStr(s) => Some(s)
    case JNull => Some("")
    case _ => None
  }

  /** Fraction digits after the sixth that still make whole microseconds; those
    * after the ninth are dropped by the decoder. */
  predicate WholeMicros(excess: string) {
    forall i | 0 <= i < |excess| && i < 3 :: excess[i] == '0'
  }

  /** The decoder takes any RFC 3339 time; what is left of it below a microsecond is
    * Normalize's to refuse. */
  function GoInstant(j: Json): Option<T.Instant> {
    if !j.JStr? then None
    else
      var r :- T.Read(j.text);
      Some(T.InstantOf(r.stamp))
  }

  /** The time that Normalize lets pass: the year is checked before conversion to
    * UTC; nanoseconds must be whole microseconds; a year above 9999 in UTC cannot be
    * marshalled. */
  function GoTime(j: Json): Option<T.Instant> {
    if !j.JStr? then None
    else
      var r :- T.Read(j.text);
      if r.stamp.date.year < 1970 || !WholeMicros(r.excess) || !T.InYears(T.InstantOf(r.stamp), 0, 9999) then None
      else Some(T.InstantOf(r.stamp))
  }

  function GoLonLat(j: Json): Option<Option<(real, real)>> {
    match j
    case JNull => Some(None)
    case JArr(a) =>
      if |a| == 2 && a[0].JNum? && a[1].JNum? && -180.0 <= a[0].number <= 180.0 && -90.0 <= a[1].number <= 90.0
      then Some(Some((a[0].number, a[1].number))) else None
    case _ => None
  }

  function GoLocation(j: Json): Option<Option<int>> {
    match j
    case JNull => Some(None)
    case JNum(n) => if n.Floor as real == n && 0 <= n.Floor <= MAX_LOCATION then Some(Some(n.Floor)) else None
    case _ => None
  }

  function GoMetadata(j: Json): Option<map<string, Json>> {
    match j
    case JNull => Some(map[])
    case JObj(m) => if forall k | k in m :: 1 <= |k| <= 128 then Some(m) else None
    case _ => None
  }

  /** Both bounds or none; null is not a bound. */
  predicate GoRange(meta: map<string, Json>, value: real) {
    "minimum" in meta || "maximum" in meta ==>
      && "minimum" in meta && "maximum" in meta
      && meta["minimum"].JNum? && meta["maximum"].JNum?
      && !(meta["minimum"].number > value) && !(meta["maximum"].number < value)
  }

  /** Decoding succeeds: every member is of a usable type. Names that are not known
    * are refused by the API when it reads a request and ignored when it reads what
    * is stored. */
  predicate GoDecodes(item: Item) {
    && GoText(Field(item, Id)).Some? && GoText(Field(item, SensorId)).Some? && GoText(Field(item, GatewayId)).Some?
    && GoText(Field(item, SensorType)).Some? && GoText(Field(item, Unit)).Some?
    && GoInstant(Field(item, Timestamp)).Some? && Field(item, Measured).JNum?
    && GoLonLat(Field(item, LonLat)).Some? && GoLocation(Field(item, LocationId)).Some?
    && GoMetadata(Field(item, Metadata)).Some?
  }

  function GoDecoded(item: Item): Value
    requires GoDecodes(item)
  {
    Value(GoText(Field(item, Id)).value, GoText(Field(item, SensorId)).value, GoText(Field(item, GatewayId)).value,
          GoText(Field(item, SensorType)).value, GoInstant(Field(item, Timestamp)).value, Field(item, Measured).number,
          GoText(Field(item, Unit)).value, GoMetadata(Field(item, Metadata)).value, GoLonLat(Field(item, LonLat)).value,
          GoLocation(Field(item, LocationId)).value)
  }

  /** The checks of Normalize on everything but the time, apart from those made while
    * decoding. */
  predicate GoNormal(v: Value) {
    && ValidId(v.id) && ValidIdentifier(v.sensor) && (v.gateway != "" ==> ValidIdentifier(v.gateway))
    && ValidIdentifier(v.sensorType) && ValidUnit(v.unit) && GoRange(v.metadata, v.value)
  }

  /** A request's observation, decoded and normalised. */
  function GoValue(item: Item): (v: Option<Value>)
    ensures v.Some? ==> T.InYears(v.value.at, 0, 9999)
  {
    if OnlyKnown(item) && GoDecodes(item) && GoTime(Field(item, Timestamp)).Some? && GoNormal(GoDecoded(item))
    then Some(GoDecoded(item)) else None
  }

  /** The members every canonical document has. */
  datatype Required = Required(id: Json, sensor: Json, sensorType: Json, time: Json, value: Json, unit: Json)

  /** The members it has only when they say something. */
  datatype Optional = Optional(gateway: Option<Json>, lonLat: Option<Json>, location: Option<Json>,
                               metadata: Option<Json>)

  function With(p: Payload, name: Name, j: Option<Json>): Payload {
    if j.Some? then p[name := j.value] else p
  }

  /** json.Marshal with omitempty, in field order. */
  function Marshal(r: Required, o: Optional): Payload {
    var p := With(map[Id := r.id, SensorId := r.sensor], GatewayId, o.gateway);
    var q := p[SensorType := r.sensorType][Timestamp := r.time][Measured := r.value][Unit := r.unit];
    With(With(With(q, LonLat, o.lonLat), LocationId, o.location), Metadata, o.metadata)
  }

  function GoOptional(v: Value): Optional {
    Optional(if v.gateway == "" then None else Some(JStr(v.gateway)),
             if v.lonLat.None? then None else Some(JArr([JNum(v.lonLat.value.0), JNum(v.lonLat.value.1)])),
             if v.location.None? then None else Some(JNum(v.location.value as real)),
             if v.metadata == map[] then None else Some(JObj(v.metadata)))
  }

  function GoRequired(v: Value): Required
    requires T.InYears(v.at, 0, 9999)
  {
    Required(JStr(v.id), JStr(v.sensor), JStr(v.sensorType), JStr(T.ApiText(v.at)), JNum(v.value), JStr(v.unit))
  }

  function GoPayload(v: Value): Payload
    requires T.InYears(v.at, 0, 9999)
  {
    Marshal(GoRequired(v), GoOptional(v))
  }

  function GoMeasurement(v: Value): Measurement {
    Measurement(v.at, v.id, v.sensor, if v.gateway == "" then None else Some(v.gateway), v.sensorType, v.value, v.unit,
                v.metadata, v.lonLat, v.location)
  }

  function GoEntry(v: Value): Entry
    requires T.InYears(v.at, 0, 9999)
  {
    Entry(v.id, v.at, GoPayload(v), GoMeasurement(v))
  }

  // ---------------------------------------------------------------- the MQTT route

  /** At most six fraction digits; the year is checked in UTC. */
  function SqlTime(j: Json): Option<T.Instant> {
    if !j.JStr? then None
    else
      var r :- T.Read(j.text);
      if r.excess != "" || !T.InYears(T.InstantOf(r.stamp), 1970, 9999) then None else Some(T.InstantOf(r.stamp))
  }

  predicate SqlGateway(j: Json) {
    j.JNull? || (j.JStr? && (j.text == "" || ValidIdentifier(j.text)))
  }

  predicate SqlLonLat(j: Json) {
    j.JNull? || (j.JArr? && |j.items| == 2 && j.items[0].JNum? && j.items[1].JNum?
                 && -180.0 <= j.items[0].number <= 180.0 && -90.0 <= j.items[1].number <= 90.0)
  }

  predicate SqlLocation(j: Json) {
    j.JNull? || (j.JNum? && j.number == j.number.Floor as real && 0.0 <= j.number <= 9007199254740991.0)
  }

  predicate SqlMetadata(j: Json) {
    j.JNull? || (j.JObj? && forall k | k in j.members :: 1 <= |k| <= 128)
  }

  /** The table constraint sensor.valid_measurement_range. */
  predicate SqlRange(meta: map<string, Json>, value: real) {
    if !("minimum" in meta || "maximum" in meta) then true
    else
      "minimum" in meta && "maximum" in meta && meta["minimum"].JNum? && meta["maximum"].JNum?
      && meta["minimum"].number <= value <= meta["maximum"].number
  }

  function Members(j: Json): map<string, Json> {
    if j.JObj? then j.members else map[]
  }

  /** jsonb_build_object, then || for each optional member. */
  function Concatenate(r: Required, o: Optional): Payload {
    var base := map[Id := r.id, SensorId := r.sensor, SensorType := r.sensorType,
                    Timestamp := r.time, Measured := r.value, Unit := r.unit];
    With(With(With(With(base, GatewayId, o.gateway), Metadata, o.metadata), LonLat, o.lonLat), LocationId, o.location)
  }

  /** A non-empty string member. */
  function NonEmpty(j: Json): Option<Json> {
    if j.JStr? && j.text != "" then Some(j) else None
  }

  function SqlOptional(item: Item): Optional
    requires SqlLonLat(Field(item, LonLat))
  {
    var lonLat, location := Field(item, LonLat), Field(item, LocationId);
    Optional(NonEmpty(Field(item, GatewayId)),
             if lonLat.JArr? then Some(JArr([lonLat.items[0], lonLat.items[1]])) else None,
             if location.JNum? then Some(JNum(location.number.Floor as real)) else None,
             if Members(Field(item, Metadata)) != map[] then Some(Field(item, Metadata)) else None)
  }

  function SqlRequired(item: Item, at: T.Instant): Required
    requires T.InYears(at, 0, 9999)
  {
    Required(Field(item, Id), Field(item, SensorId), Field(item, SensorType), JStr(T.SqlText(at)),
             Field(item, Measured), Field(item, Unit))
  }

  function SqlPayload(item: Item, at: T.Instant): Payload
    requires T.InYears(at, 0, 9999) && SqlLonLat(Field(item, LonLat))
  {
    Concatenate(SqlRequired(item, at), SqlOptional(item))
  }

  function SqlMeasurement(item: Item, at: T.Instant): Measurement
    requires Field(item, Id).JStr? && Field(item, SensorId).JStr? && Field(item, SensorType).JStr?
    requires Field(item, Measured).JNum? && Field(item, Unit).JStr? && SqlLonLat(Field(item, LonLat))
  {
    var gateway, lonLat, location := Field(item, GatewayId), Field(item, LonLat), Field(item, LocationId);
    Measurement(at, Field(item, Id).text, Field(item, SensorId).text,
                if gateway.JStr? && gateway.text != "" then Some(gateway.text) else None,
                Field(item, SensorType).text, Field(item, Measured).number, Field(item, Unit).text,
                Members(Field(item, Metadata)),
                if lonLat.JArr? then Some((lonLat.items[0].number, lonLat.items[1].number)) else None,
                if location.JNum? then Some(location.number.Floor) else None)
  }

  /** The identity checks of the trigger. */
  predicate SqlIdentity(item: Item) {
    var id, sensor, sensorType := Field(item, Id), Field(item, SensorId), Field(item, SensorType);
    && OnlyKnown(item)
    && id.JStr? && ValidId(id.text) && sensor.JStr? && ValidIdentifier(sensor.text)
    && sensorType.JStr? && ValidIdentifier(sensorType.text) && SqlGateway(Field(item, GatewayId))
  }

  /** The checks that follow the timestamp, and the range constraint. */
  predicate SqlContent(item: Item) {
    var value, unit, metadata := Field(item, Measured), Field(item, Unit), Field(item, Metadata);
    && value.JNum? && unit.JStr? && ValidUnit(unit.text)
    && SqlLonLat(Field(item, LonLat)) && SqlLocation(Field(item, LocationId)) && SqlMetadata(metadata)
    && SqlRange(Members(metadata), value.number)
  }

  function SqlEntry(item: Item): Option<Entry> {
    if !SqlIdentity(item) then None
    else
      var at :- SqlTime(Field(item, Timestamp));
      if !SqlContent(item) then None
      else
        T.EarlierYears(at, 1970);
        Some(Entry(Field(item, Id).text, at, SqlPayload(item, at), SqlMeasurement(item, at)))
  }

  // ---------------------------------------------------------------- one canonical observation

  lemma {:induction false} RangesAgree(meta: map<string, Json>, value: real)
    ensures GoRange(meta, value) <==> SqlRange(meta, value)
  {
  }

  lemma {:induction false} TextsAgree(j: Json)
    ensures GoText(j).Some? && ValidId(GoText(j).value) <==> j.JStr? && ValidId(j.text)
    ensures GoText(j).Some? && ValidIdentifier(GoText(j).value) <==> j.JStr? && ValidIdentifier(j.text)
    ensures GoText(j).Some? && ValidUnit(GoText(j).value) <==> j.JStr? && ValidUnit(j.text)
    ensures GoText(j).Some? && (GoText(j).value != "" ==> ValidIdentifier(GoText(j).value)) <==> SqlGateway(j)
  {
  }

  lemma {:induction false} LocationsAgree(j: Json)
    ensures GoLonLat(j).Some? <==> SqlLonLat(j)
    ensures GoLocation(j).Some? <==> SqlLocation(j)
    ensures GoMetadata(j).Some? <==> SqlMetadata(j)
    ensures GoMetadata(j).Some? ==> GoMetadata(j).value == Members(j)
  {
  }

  /** Apart from the timestamp, both routes make the same checks. */
  lemma {:induction false} ChecksAgree(item: Item)
    requires GoInstant(Field(item, Timestamp)).Some?
    ensures OnlyKnown(item) && GoDecodes(item) && GoNormal(GoDecoded(item)) <==> SqlIdentity(item) && SqlContent(item)
    ensures GoTime(Field(item, Timestamp)).Some? ==> (GoValue(item).Some? <==> SqlIdentity(item) && SqlContent(item))
  {
    TextsAgree(Field(item, Id));
    TextsAgree(Field(item, SensorId));
    TextsAgree(Field(item, GatewayId));
    TextsAgree(Field(item, SensorType));
    TextsAgree(Field(item, Unit));
    LocationsAgree(Field(item, LonLat));
    LocationsAgree(Field(item, LocationId));
    LocationsAgree(Field(item, Metadata));
    if Field(item, Measured).JNum? {
      RangesAgree(Members(Field(item, Metadata)), Field(item, Measured).number);
    }
  }

  /** What a canonical document holds under a name. */
  function Lookup(r: Required, o: Optional, k: Name): Option<Json> {
    match k
    case Id => Some(r.id)
    case SensorId => Some(r.sensor)
    case GatewayId => o.gateway
    case SensorType => Some(r.sensorType)
    case Timestamp => Some(r.time)
    case Measured => Some(r.value)
    case Unit => Some(r.unit)
    case Metadata => o.metadata
    case LonLat => o.lonLat
    case LocationId => o.location
    case Unknown(_) => None
  }

  lemma {:induction false} MarshalLookup(r: Required, o: Optional, k: Name)
    ensures k in Marshal(r, o) <==> Lookup(r, o, k).Some?
    ensures k in Marshal(r, o) ==> Marshal(r, o)[k] == Lookup(r, o, k).value
  {
  }

  lemma {:induction false} ConcatenateLookup(r: Required, o: Optional, k: Name)
    ensures k in Concatenate(r, o) <==> Lookup(r, o, k).Some?
    ensures k in Concatenate(r, o) ==> Concatenate(r, o)[k] == Lookup(r, o, k).value
  {
  }

  lemma {:induction false} MarshalIsConcatenate(r: Required, o: Optional)
    ensures Marshal(r, o) == Concatenate(r, o)
  {
    var go, sql := Marshal(r, o), Concatenate(r, o);
    forall k ensures k in go <==> k in sql {
      MarshalLookup(r, o, k);
      ConcatenateLookup(r, o, k);
    }
    forall k | k in go ensures go[k] == sql[k] {
      MarshalLookup(r, o, k);
      ConcatenateLookup(r, o, k);
    }
  }

  lemma {:induction false} OptionalsAgree(item: Item, v: Value)
    requires GoDecodes(item) && v == GoDecoded(item) && SqlLonLat(Field(item, LonLat))
    ensures GoOptional(v) == SqlOptional(item)
  {
    var gateway, metadata := Field(item, GatewayId), Field(item, Metadata);
    assert v.metadata == Members(metadata);
    assert GoOptional(v).metadata == SqlOptional(item).metadata;
    assert GoOptional(v).gateway == SqlOptional(item).gateway;
    assert GoOptional(v).location == SqlOptional(item).location;
    assert GoOptional(v).lonLat == SqlOptional(item).lonLat;
  }

  lemma {:induction false} RequiredTextsAgree(item: Item, v: Value)
    requires GoDecodes(item) && v == GoDecoded(item) && SqlIdentity(item) && SqlContent(item)
    ensures JStr(v.id) == Field(item, Id) && JStr(v.sensor) == Field(item, SensorId)
    ensures JStr(v.sensorType) == Field(item, SensorType) && JStr(v.unit) == Field(item, Unit)
    ensures JNum(v.value) == Field(item, Measured)
  {
  }

  lemma {:induction false} RequiredsAgree(item: Item, v: Value)
    requires GoDecodes(item) && v == GoDecoded(item) && SqlIdentity(item) && SqlContent(item)
             && T.InYears(v.at, 0, 9999)
    ensures GoRequired(v) == SqlRequired(item, v.at)
  {
    RequiredTextsAgree(item, v);
    T.OneCanonicalText(T.Civil(v.at));
  }

  lemma {:induction false} PayloadsAgree(item: Item, v: Value)
    requires GoDecodes(item) && v == GoDecoded(item) && SqlIdentity(item) && SqlContent(item)
             && T.InYears(v.at, 0, 9999)
    ensures GoPayload(v) == SqlPayload(item, v.at)
  {
    RequiredsAgree(item, v);
    OptionalsAgree(item, v);
    MarshalIsConcatenate(GoRequired(v), GoOptional(v));
  }

  lemma {:induction false} OptionalColumnsAgree(item: Item, v: Value)
    requires GoDecodes(item) && v == GoDecoded(item) && SqlIdentity(item) && SqlContent(item)
    ensures GoMeasurement(v).metadata == SqlMeasurement(item, v.at).metadata
    ensures GoMeasurement(v).lonLat == SqlMeasurement(item, v.at).lonLat
    ensures GoMeasurement(v).location == SqlMeasurement(item, v.at).location
  {
    LocationsAgree(Field(item, Metadata));
  }

  lemma {:induction false} TextColumnsAgree(item: Item, v: Value)
    requires GoDecodes(item) && v == GoDecoded(item) && SqlIdentity(item) && SqlContent(item)
    ensures var g, q := GoMeasurement(v), SqlMeasurement(item, v.at);
            && g.id == q.id && g.sensor == q.sensor && g.gateway == q.gateway
            && g.sensorType == q.sensorType && g.unit == q.unit
  {
  }

  lemma {:induction false} MeasurementsAgree(item: Item, v: Value)
    requires GoDecodes(item) && v == GoDecoded(item) && SqlIdentity(item) && SqlContent(item)
    ensures GoMeasurement(v) == SqlMeasurement(item, v.at)
  {
    OptionalColumnsAgree(item, v);
    TextColumnsAgree(item, v);
  }

  lemma {:induction false} InstantsAgree(j: Json)
    ensures GoTime(j).Some? ==> GoTime(j) == GoInstant(j)
    ensures SqlTime(j).Some? ==> SqlTime(j) == GoInstant(j)
  {
  }

  /** What the trigger stores is what the API makes of the document's value, also if
    * the API would not let its time pass. */
  lemma {:induction false} TriggerStoresItsValue(item: Item)
    requires SqlEntry(item).Some?
    ensures GoDecodes(item) && GoNormal(GoDecoded(item)) && T.InYears(GoDecoded(item).at, 0, 9999)
    ensures GoEntry(GoDecoded(item)) == SqlEntry(item).value
  {
    InstantsAgree(Field(item, Timestamp));
    ChecksAgree(item);
    var v := GoDecoded(item);
    T.EarlierYears(v.at, 1970);
    PayloadsAgree(item, v);
    MeasurementsAgree(item, v);
  }

  /** On every document both routes accept, they write the same registry row and
    * the same measurement row: whatever the offset, null or omitted locations,
    * empty gateway, null or empty metadata. */
  lemma {:induction false} RoutesAgree(item: Item)
    requires GoValue(item).Some? && SqlEntry(item).Some?
    ensures T.InYears(GoValue(item).value.at, 0, 9999) && GoEntry(GoValue(item).value) == SqlEntry(item).value
  {
    TriggerStoresItsValue(item);
  }

  // ---------------------------------------------------------------- where the verdicts differ

  /** The local year and the UTC year disagree about 1970. */
  predicate StraddlesEpoch(s: T.Stamp)
    requires T.ValidStamp(s)
  {
    (s.date.year >= 1970) != (T.InstantOf(s) >= T.YearStart(1970))
  }

  /** One route reads this timestamp and the other does not: its offset carries it
    * across the start of 1970, or it has more than six fraction digits, which only
    * the API takes if they are whole microseconds of a year it accepts. */
  predicate TimesSplit(j: Json) {
    && j.JStr? && T.Read(j.text).Some?
    && var r := T.Read(j.text).value;
       if r.excess == "" then StraddlesEpoch(r.stamp)
       else WholeMicros(r.excess) && r.stamp.date.year >= 1970 && T.InstantOf(r.stamp) < T.YearStart(10000)
  }

  lemma {:induction false} YearBounds()
    ensures 0 <= T.YearStart(0) < T.YearStart(1970) < T.YearStart(10000)
  {
    T.YearsGrow(0, 1970);
    T.YearsGrow(1970, 10000);
  }

  lemma {:induction false} EarlyYears(s: T.Stamp)
    requires T.ValidStamp(s) && s.date.year < 1970
    ensures T.InstantOf(s) < T.YearStart(10000)
  {
    T.DateInsideYear(s.date);
    T.YearsGrow(s.date.year + 1, 10000);
  }

  lemma {:induction false} StampBounds(s: T.Stamp)
    requires T.ValidStamp(s)
    ensures s.date.year < 1970 ==> T.InstantOf(s) < T.YearStart(10000)
    ensures s.date.year >= 1970 ==> T.InstantOf(s) >= T.YearStart(0)
  {
    T.StampAtMost(s);
    if s.date.year < 1970 {
      EarlyYears(s);
    }
  }

  lemma {:induction false} TimeVerdicts(j: Json)
    ensures (GoTime(j).Some? != SqlTime(j).Some?) <==> TimesSplit(j)
  {
    if j.JStr? && T.Read(j.text).Some? {
      YearBounds();
      StampBounds(T.Read(j.text).value.stamp);
    }
  }

  /** For every decoded document: one route accepts it and the other rejects it
    * exactly if it passes the checks they share and its timestamp splits them. What
    * the API's gate adds to this is told of whole documents. */
  lemma {:induction false} VerdictsDifferExactly(item: Item)
    ensures (GoValue(item).Some? != SqlEntry(item).Some?)
            <==> SqlIdentity(item) && SqlContent(item) && TimesSplit(Field(item, Timestamp))
  {
    TimeVerdicts(Field(item, Timestamp));
    if GoTime(Field(item, Timestamp)).Some? {
      ChecksAgree(item);
    }
  }

  /** 1970-01-01T00:30:00+01:00, which is 1969 in UTC. */
  const BEFORE_EPOCH := T.Stamp(T.Date(1970, 1, 1), 0, 30, 0, 0, 60)

  lemma {:induction false} OneHourEast()
    ensures T.ReadZone("+01:00") == Some(60)
  {
    var z := "+01:00";
    assert z[1..3] == "01" && z[4..6] == "00";
    assert "01"[..1] == "0" && "00"[..1] == "0" && "0"[..0] == "";
    assert T.Num("0") == 0;
  }

  lemma {:induction false} HalfAnHourEarly()
    ensures T.InstantOf(BEFORE_EPOCH) == T.YearStart(1970) - 1_800_000_000
  {
    assert T.DaysBeforeMonth(1970, 1) == 0;
  }

  /** What both routes make of a timestamp of at most microsecond precision. */
  lemma {:induction false} BothRead(text: string, s: T.Stamp)
    requires T.Read(text) == Some(T.Reading(s, "")) && T.ValidStamp(s) && s.date.year >= 1970
    ensures GoTime(JStr(text)) == if T.InYears(T.InstantOf(s), 0, 9999) then Some(T.InstantOf(s)) else None
    ensures SqlTime(JStr(text)) == if T.InYears(T.InstantOf(s), 1970, 9999) then Some(T.InstantOf(s)) else None
  {
  }

  /** A document with this timestamp and value, and nothing else to object to. */
  function Dated(text: string, value: real): Item {
    map[Id := JStr("00000000-0000-0000-0000-000000000000"), SensorId := JStr("gauge"), SensorType := JStr("level"),
        Timestamp := JStr(text), Measured := JNum(value), Unit := JStr("m")]
  }

  lemma {:induction false} NamesAreValid()
    ensures ValidId("00000000-0000-0000-0000-000000000000")
    ensures ValidIdentifier("gauge") && ValidIdentifier("level") && ValidUnit("m")
  {
  }

  lemma {:induction false} DatedFields(text: string, value: real)
    ensures var item := Dated(text, value);
            && OnlyKnown(item) && Field(item, Id) == JStr("00000000-0000-0000-0000-000000000000")
            && Field(item, SensorId) == JStr("gauge") && Field(item, SensorType) == JStr("level")
            && Field(item, Timestamp) == JStr(text)
            && Field(item, Measured) == JNum(value) && Field(item, Unit) == JStr("m")
            && Field(item, GatewayId) == Field(item, LonLat) == Field(item, LocationId) == JNull
            && Field(item, Metadata) == JNull
  {
  }

  lemma {:induction false} DatedPasses(text: string, value: real)
    ensures SqlIdentity(Dated(text, value)) && SqlContent(Dated(text, value))
            && Field(Dated(text, value), Timestamp) == JStr(text)
  {
    NamesAreValid();
    DatedFields(text, value);
  }

  /** Once the shared checks pass, only the timestamp decides. */
  lemma {:induction false} OnlyTimeDecides(item: Item)
    requires SqlIdentity(item) && SqlContent(item)
    ensures GoValue(item).Some? <==> GoTime(Field(item, Timestamp)).Some?
    ensures GoValue(item).Some? ==>
              && GoValue(item).value.at == GoTime(Field(item, Timestamp)).value
              && JNum(GoValue(item).value.value) == Field(item, Measured)
              && JStr(GoValue(item).value.id) == Field(item, Id)
    ensures SqlEntry(item).Some? <==> SqlTime(Field(item, Timestamp)).Some?
  {
    InstantsAgree(Field(item, Timestamp));
    if GoTime(Field(item, Timestamp)).Some? {
      ChecksAgree(item);
    }
  }

  lemma {:induction false} DatedVerdicts(text: string, value: real)
    ensures GoValue(Dated(text, value)).Some? <==> GoTime(JStr(text)).Some?
    ensures GoValue(Dated(text, value)).Some? ==>
              && GoValue(Dated(text, value)).value.at == GoTime(JStr(text)).value
              && GoValue(Dated(text, value)).value.value == value
              && GoValue(Dated(text, value)).value.id == "00000000-0000-0000-0000-000000000000"
    ensures SqlEntry(Dated(text, value)).Some? <==> SqlTime(JStr(text)).Some?
  {
    var item := Dated(text, value);
    DatedPasses(text, value);
    DatedFields(text, value);
    OnlyTimeDecides(item);
  }

  lemma {:induction false} EarlyTimes()
    ensures var j := JStr(T.SecondsText(BEFORE_EPOCH) + "+01:00");
            GoTime(j) == Some(T.YearStart(1970) - 1_800_000_000) && SqlTime(j) == None
  {
    OneHourEast();
    T.WholeSecondsReadBack(BEFORE_EPOCH, "+01:00");
    HalfAnHourEarly();
    BothRead(T.SecondsText(BEFORE_EPOCH) + "+01:00", BEFORE_EPOCH);
    StampBounds(BEFORE_EPOCH);
    YearBounds();
  }

  /** The API accepts this document and the MQTT trigger rejects it: its year is
    * 1970 as written and 1969 in UTC. */
  lemma {:induction false} RoutesDisagreeBeforeEpoch()
    ensures var item := Dated(T.SecondsText(BEFORE_EPOCH) + "+01:00", 1.0);
            && GoValue(item).Some? && GoValue(item).value.at == T.YearStart(1970) - 1_800_000_000
            && SqlEntry(item) == None
  {
    EarlyTimes();
    DatedVerdicts(T.SecondsText(BEFORE_EPOCH) + "+01:00", 1.0);
  }

  /** 2026-01-01T00:00:00Z */
  const NEW_YEAR := T.Stamp(T.Date(2026, 1, 1), 0, 0, 0, 0, 0)

  lemma {:induction false} NewYearIsInRange()
    ensures T.ValidStamp(NEW_YEAR) && T.InYears(T.InstantOf(NEW_YEAR), 0, 9999)
    ensures T.InYears(T.InstantOf(NEW_YEAR), 1970, 9999)
  {
    T.StampInYears(NEW_YEAR, 0);
    T.StampInYears(NEW_YEAR, 1970);
  }

  function NewYearText(): string {
    T.SecondsText(NEW_YEAR) + "Z"
  }

  lemma {:induction false} NewYearTime()
    ensures GoTime(JStr(NewYearText())) == SqlTime(JStr(NewYearText()))
            == Some(T.InstantOf(NEW_YEAR))
  {
    NewYearIsInRange();
    T.WholeSecondsReadBack(NEW_YEAR, "Z");
    BothRead(T.SecondsText(NEW_YEAR) + "Z", NEW_YEAR);
  }

  /** Both routes take a document of New Year 2026. */
  lemma {:induction false} NewYearIsTaken(value: real)
    ensures var item := Dated(NewYearText(), value);
            && GoValue(item).Some? && SqlEntry(item).Some? && GoValue(item).value.value == value
            && GoValue(item).value.id == "00000000-0000-0000-0000-000000000000"
  {
    NewYearTime();
    DatedVerdicts(NewYearText(), value);
  }

  /** What both routes make of digits beyond the microseconds that are zeros. */
  lemma {:induction false} LongFraction(text: string, s: T.Stamp)
    requires T.Read(text) == Some(T.Reading(s, "0")) && T.ValidStamp(s) && s.date.year >= 1970
    ensures GoTime(JStr(text)) == if T.InYears(T.InstantOf(s), 0, 9999) then Some(T.InstantOf(s)) else None
    ensures SqlTime(JStr(text)) == None
  {
  }

  lemma {:induction false} SevenDigits()
    ensures var j := JStr(T.SecondsText(NEW_YEAR) + ".0000000Z");
            GoTime(j).Some? && SqlTime(j) == None
  {
    NewYearIsInRange();
    T.SevenZerosReadBack(NEW_YEAR);
    LongFraction(T.SecondsText(NEW_YEAR) + ".0000000Z", NEW_YEAR);
  }

  /** ... and this one, which writes a whole second with seven fraction digits. */
  lemma {:induction false} RoutesDisagreeOnSevenDigits()
    ensures var item := Dated(T.SecondsText(NEW_YEAR) + ".0000000Z", 1.0);
            GoValue(item).Some? && SqlEntry(item) == None
  {
    SevenDigits();
    DatedVerdicts(T.SecondsText(NEW_YEAR) + ".0000000Z", 1.0);
  }
}
