/** The canonical document as an input: how the stored payload decodes again, and
  * what either route makes of it. */
module CanonicalForm {
  import opened Wrappers
  import opened Observations
  import T = Timestamps

  /** The canonical text of UTC fields is read by both routes as their instant,
    * unless the year is before 1970. */
  lemma {:induction false} CanonicalFields(s: T.Stamp)
    requires T.ValidStamp(s) && s.offset == 0 && T.InYears(T.InstantOf(s), 0, 9999)
    ensures s.date.year >= 1970 <==> T.InstantOf(s) >= T.YearStart(1970)
    ensures GoTime(JStr(T.ApiStampText(s))) == if s.date.year >= 1970 then Some(T.InstantOf(s)) else None
    ensures SqlTime(JStr(T.ApiStampText(s))) == if s.date.year >= 1970 then Some(T.InstantOf(s)) else None
  {
    T.CanonicalTextReadsBack(s);
    T.DayOfStamp(s);
    T.InstantInItsYear(T.InstantOf(s), s.date.year, 1970);
  }

  /** An optional member reads back from the canonical document. */
  lemma {:induction false} CanonicalField(v: Value, k: Name)
    requires T.InYears(v.at, 0, 9999)
    ensures Field(GoPayload(v), k)
            == (var j := Lookup(GoRequired(v), GoOptional(v), k); if j.Some? then j.value else JNull)
  {
    MarshalLookup(GoRequired(v), GoOptional(v), k);
  }

  lemma {:induction false} CanonicalKnown(v: Value)
    requires T.InYears(v.at, 0, 9999)
    ensures OnlyKnown(GoPayload(v))
  {
    forall k | k in GoPayload(v) ensures !k.Unknown? {
      MarshalLookup(GoRequired(v), GoOptional(v), k);
    }
  }

  /** What decoding and normalising leave true of the optional members. */
  ghost predicate Sound(v: Value) {
    && T.InYears(v.at, 0, 9999) && GoNormal(v)
    && (v.lonLat.Some? ==> -180.0 <= v.lonLat.value.0 <= 180.0 && -90.0 <= v.lonLat.value.1 <= 90.0)
    && (v.location.Some? ==> 0 <= v.location.value <= MAX_LOCATION)
    && forall k | k in v.metadata :: 1 <= |k| <= 128
  }

  lemma {:induction false} AcceptedIsSound(item: Item)
    requires GoValue(item).Some?
    ensures Sound(GoValue(item).value)
  {
  }

  lemma {:induction false} CoordinatePair(lon: real, lat: real)
    requires -180.0 <= lon <= 180.0 && -90.0 <= lat <= 90.0
    ensures GoLonLat(JArr([JNum(lon), JNum(lat)])) == Some(Some((lon, lat)))
  {
  }

  lemma {:induction false} CoordinatesReadBack(v: Value)
    requires Sound(v)
    ensures GoLonLat(Field(GoPayload(v), LonLat)) == Some(v.lonLat)
  {
    CanonicalField(v, LonLat);
    if v.lonLat.Some? {
      CoordinatePair(v.lonLat.value.0, v.lonLat.value.1);
    }
  }

  lemma {:induction false} IntegerLocation(n: int)
    requires 0 <= n <= MAX_LOCATION
    ensures GoLocation(JNum(n as real)) == Some(Some(n))
  {
  }

  lemma {:induction false} LocationReadsBack(v: Value)
    requires Sound(v)
    ensures GoLocation(Field(GoPayload(v), LocationId)) == Some(v.location)
  {
    CanonicalField(v, LocationId);
    if v.location.Some? {
      IntegerLocation(v.location.value);
    }
  }

  lemma {:induction false} MetadataReadsBack(v: Value)
    requires Sound(v)
    ensures GoMetadata(Field(GoPayload(v), Metadata)) == Some(v.metadata)
  {
    CanonicalField(v, Metadata);
  }

  lemma {:induction false} IdentityReadsBack(v: Value)
    requires Sound(v)
    ensures GoText(Field(GoPayload(v), Id)) == Some(v.id) && GoText(Field(GoPayload(v), SensorId)) == Some(v.sensor)
    ensures GoText(Field(GoPayload(v), GatewayId)) == Some(v.gateway)
  {
    CanonicalField(v, Id);
    CanonicalField(v, SensorId);
    CanonicalField(v, GatewayId);
  }

  lemma {:induction false} TextReadsBack(v: Value)
    requires Sound(v)
    ensures GoText(Field(GoPayload(v), SensorType)) == Some(v.sensorType)
            && GoText(Field(GoPayload(v), Unit)) == Some(v.unit)
    ensures Field(GoPayload(v), Measured) == JNum(v.value)
    ensures Field(GoPayload(v), Timestamp) == JStr(T.ApiText(v.at))
  {
    CanonicalField(v, SensorType);
    CanonicalField(v, Unit);
    NumberReadsBack(v);
  }

  lemma {:induction false} NumberReadsBack(v: Value)
    requires Sound(v)
    ensures Field(GoPayload(v), Measured) == JNum(v.value)
    ensures Field(GoPayload(v), Timestamp) == JStr(T.ApiText(v.at))
  {
    CanonicalField(v, Measured);
    CanonicalField(v, Timestamp);
  }

  lemma {:induction false} TimeReadsBack(v: Value)
    requires Sound(v)
    ensures GoInstant(Field(GoPayload(v), Timestamp)) == Some(v.at)
  {
    TextReadsBack(v);
    T.CanonicalTextReadsBack(T.Civil(v.at));
  }

  /** Decoding the canonical document gives back the very value it was made from,
    * whatever its year. */
  lemma {:induction false} CanonicalDecodes(v: Value)
    requires Sound(v)
    ensures GoDecodes(GoPayload(v)) && GoDecoded(GoPayload(v)) == v
  {
    TimeReadsBack(v);
    IdentityReadsBack(v);
    TextReadsBack(v);
    CoordinatesReadBack(v);
    LocationReadsBack(v);
    MetadataReadsBack(v);
  }

  /** The API accepts the canonical document as a request if it lets its time pass. */
  lemma {:induction false} CanonicalIsAccepted(v: Value)
    requires Sound(v)
    ensures GoValue(GoPayload(v)) == if v.at >= T.YearStart(1970) then Some(v) else None
  {
    CanonicalKnown(v);
    CanonicalFields(T.Civil(v.at));
    TextReadsBack(v);
    CanonicalDecodes(v);
  }

  lemma {:induction false} SameChecks(v: Value)
    requires Sound(v) && v.at >= T.YearStart(1970)
    ensures SqlEntry(GoPayload(v)).Some?
  {
    var p := GoPayload(v);
    CanonicalIsAccepted(v);
    TextReadsBack(v);
    CanonicalFields(T.Civil(v.at));
    ChecksAgree(p);
  }

  /** The canonical form is a fixed point of both routes: the payload that is stored
    * is, sent in through either route, the very same entry, exactly if its UTC year
    * is not before 1970. */
  lemma {:induction false} PayloadIsFixed(v: Value)
    requires Sound(v)
    ensures v.at >= T.YearStart(1970) ==> GoValue(GoPayload(v)) == Some(v) && SqlEntry(GoPayload(v)) == Some(GoEntry(v))
    ensures v.at < T.YearStart(1970) ==> GoValue(GoPayload(v)) == None && SqlEntry(GoPayload(v)) == None
  {
    CanonicalIsAccepted(v);
    TextReadsBack(v);
    CanonicalFields(T.Civil(v.at));
    if v.at >= T.YearStart(1970) {
      SameChecks(v);
      RoutesAgree(GoPayload(v));
    }
  }

  /** So normalising is idempotent for every request that the API accepts. */
  lemma {:induction false} CanonicalFormIsFixed(item: Item)
    requires GoValue(item).Some?
    ensures var v := GoValue(item).value;
            && (v.at >= T.YearStart(1970) ==>
                  GoValue(GoPayload(v)) == Some(v) && SqlEntry(GoPayload(v)) == Some(GoEntry(v)))
            && (v.at < T.YearStart(1970) ==> GoValue(GoPayload(v)) == None && SqlEntry(GoPayload(v)) == None)
  {
    AcceptedIsSound(item);
    PayloadIsFixed(GoValue(item).value);
  }
}
