/** Committed readings as the evaluator queries them: which wait behind a
  * cursor, in which order a batch is handled, and the baseline of a rate. */
module Readings {
  import opened Wrappers
  import opened Clock
  import opened Conditions
  import opened Rules

  /** An observation; the UUID is its 128-bit number, ordered as the database
    * orders UUIDs. */
  datatype Obs = Obs(id: nat, at: Time, sensor: string, sensorType: string, unit: string, value: real)

  datatype Reading = Reading(sequence: nat, obs: Obs)

  ghost predicate SequenceSorted(rs: seq<Reading>) {
    forall i, j | 0 <= i < j < |rs| :: rs[i].sequence < rs[j].sequence
  }

  ghost predicate DistinctIds(rs: seq<Reading>) {
    forall i, j | 0 <= i < j < |rs| :: rs[i].obs.id != rs[j].obs.id
  }

  /** A committed registry: sequences increase, identifiers never repeat. */
  ghost predicate Committed(rs: seq<Reading>) {
    SequenceSorted(rs) && DistinctIds(rs) && forall i | 0 <= i < |rs| :: rs[i].sequence > 0
  }

  function HighSequence(rs: seq<Reading>): nat {
    if |rs| == 0 then 0
    else Max(HighSequence(rs[..|rs| - 1]), rs[|rs| - 1].sequence)
  }

  lemma {:induction false} HighSequenceBounds(rs: seq<Reading>)
    ensures forall i | 0 <= i < |rs| :: rs[i].sequence <= HighSequence(rs)
    ensures HighSequence(rs) == 0 || exists i :: 0 <= i < |rs| && rs[i].sequence == HighSequence(rs)
  {
    if |rs| > 0 {
      HighSequenceBounds(rs[..|rs| - 1]);
      assert forall i | 0 <= i < |rs| - 1 :: rs[..|rs| - 1][i] == rs[i];
      if HighSequence(rs) == rs[|rs| - 1].sequence {
      } else {
        var i :| 0 <= i < |rs| - 1 && rs[..|rs| - 1][i].sequence == HighSequence(rs[..|rs| - 1]);
        assert rs[i].sequence == HighSequence(rs);
      }
    }
  }

  // ---------------------------------------------------------------- waiting

  predicate Waits(x: Reading, sensor: string, after: nat, high: nat) {
    after < x.sequence <= high && x.obs.sensor == sensor
  }

  /** The readings of a sensor above a cursor, in sequence order. */
  function Waiting(rs: seq<Reading>, sensor: string, after: nat, high: nat): seq<Reading> {
    if |rs| == 0 then []
    else
      var x := rs[|rs| - 1];
      Waiting(rs[..|rs| - 1], sensor, after, high) + if Waits(x, sensor, after, high) then [x] else []
  }

  /** Waiting selects exactly the matching readings ... */
  lemma {:induction false} WaitingMembers(rs: seq<Reading>, sensor: string, after: nat, high: nat)
    ensures forall x :: x in Waiting(rs, sensor, after, high) <==> x in rs && Waits(x, sensor, after, high)
  {
    if |rs| > 0 {
      var front, x := rs[..|rs| - 1], rs[|rs| - 1];
      WaitingMembers(front, sensor, after, high);
      assert forall y :: y in rs <==> y in front || y == x by {
        assert rs == front + [x];
      }
    }
  }

  /** ... and keeps their order. */
  lemma {:induction false} WaitingOrder(rs: seq<Reading>, sensor: string, after: nat, high: nat)
    requires SequenceSorted(rs)
    ensures SequenceSorted(Waiting(rs, sensor, after, high))
  {
    if |rs| > 0 {
      var front, x := rs[..|rs| - 1], rs[|rs| - 1];
      WaitingOrder(front, sensor, after, high);
      WaitingMembers(front, sensor, after, high);
      var w := Waiting(front, sensor, after, high);
      forall i | 0 <= i < |w| ensures w[i].sequence < x.sequence {
        assert w[i] in front;
      }
    }
  }

  lemma {:induction false} WaitingDistinct(rs: seq<Reading>, sensor: string, after: nat, high: nat)
    requires DistinctIds(rs)
    ensures DistinctIds(Waiting(rs, sensor, after, high))
  {
    if |rs| > 0 {
      var front, x := rs[..|rs| - 1], rs[|rs| - 1];
      WaitingDistinct(front, sensor, after, high);
      WaitingMembers(front, sensor, after, high);
      var w := Waiting(front, sensor, after, high);
      forall i | 0 <= i < |w| ensures w[i].obs.id != x.obs.id {
        assert w[i] in front;
      }
    }
  }

  lemma {:induction false} WaitingAppend(a: seq<Reading>, b: seq<Reading>, sensor: string, after: nat, high: nat)
    ensures Waiting(a + b, sensor, after, high) == Waiting(a, sensor, after, high) + Waiting(b, sensor, after, high)
    decreases |b|
  {
    if |b| == 0 {
      assert a + b == a;
    } else {
      assert (a + b)[..|a + b| - 1] == a + b[..|b| - 1];
      WaitingAppend(a, b[..|b| - 1], sensor, after, high);
    }
  }

  lemma {:induction false} NothingWaits(rs: seq<Reading>, sensor: string, after: nat, high: nat)
    requires forall i | 0 <= i < |rs| :: !Waits(rs[i], sensor, after, high)
    ensures Waiting(rs, sensor, after, high) == []
  {
    if |rs| > 0 {
      NothingWaits(rs[..|rs| - 1], sensor, after, high);
    }
  }

  /** Readings committed after the high mark was read do not enter the batch. */
  lemma {:induction false} LaterCommitsWait(rs: seq<Reading>, later: seq<Reading>, sensor: string, after: nat)
    requires SequenceSorted(rs + later) && Committed(rs)
    ensures Waiting(rs + later, sensor, after, HighSequence(rs)) == Waiting(rs, sensor, after, HighSequence(rs))
  {
    HighSequenceBounds(rs);
    forall i | 0 <= i < |later| ensures later[i].sequence > HighSequence(rs) || |rs| == 0 {
      assert (rs + later)[|rs| + i] == later[i];
      if |rs| > 0 {
        forall k | 0 <= k < |rs| ensures rs[k].sequence < later[i].sequence {
          assert (rs + later)[k] == rs[k];
        }
      }
    }
    WaitingAppend(rs, later, sensor, after, HighSequence(rs));
    NothingWaits(later, sensor, after, HighSequence(rs));
  }

  function CursorAfter(batch: seq<Reading>, cursor: nat): nat {
    if |batch| == 0 then cursor else batch[|batch| - 1].sequence
  }

  /** Taking the first b waiting readings and moving the cursor to the last of
    * them leaves exactly the others waiting. */
  lemma {:induction false} WaitingSplit(rs: seq<Reading>, sensor: string, after: nat, high: nat, b: nat)
    requires SequenceSorted(rs) && b <= |Waiting(rs, sensor, after, high)|
    ensures var w := Waiting(rs, sensor, after, high);
            && CursorAfter(w[..b], after) >= after
            && Waiting(rs, sensor, CursorAfter(w[..b], after), high) == w[b..]
  {
    if |rs| > 0 {
      var front, x := rs[..|rs| - 1], rs[|rs| - 1];
      var w, w' := Waiting(rs, sensor, after, high), Waiting(front, sensor, after, high);
      WaitingMembers(front, sensor, after, high);
      if b <= |w'| {
        WaitingSplit(front, sensor, after, high, b);
        assert w[..b] == w'[..b];
        assert b > 0 ==> w'[b - 1] in w' && w'[b - 1] in front;
      } else {
        assert w == w' + [x] && w[..b] == w;
        NothingWaits(front, sensor, x.sequence, high);
      }
    }
  }

  // ---------------------------------------------------------------- order of handling

  predicate Before(x: Obs, y: Obs) {
    x.at < y.at || (x.at == y.at && x.id < y.id)
  }

  ghost predicate TimeSorted(rs: seq<Reading>) {
    forall i, j | 0 <= i < j < |rs| :: Before(rs[i].obs, rs[j].obs)
  }

  function Insert(x: Reading, rs: seq<Reading>): (r: seq<Reading>)
    ensures multiset(r) == multiset(rs) + multiset{x}
  {
    if |rs| == 0 || !Before(x.obs, rs[|rs| - 1].obs) then rs + [x]
    else
      assert rs == rs[..|rs| - 1] + [rs[|rs| - 1]];
      Insert(x, rs[..|rs| - 1]) + [rs[|rs| - 1]]
  }

  /** ORDER BY observed_at, id. */
  function SortByTime(rs: seq<Reading>): (r: seq<Reading>)
    ensures multiset(r) == multiset(rs)
  {
    if |rs| == 0 then []
    else
      assert rs == rs[..|rs| - 1] + [rs[|rs| - 1]];
      Insert(rs[|rs| - 1], SortByTime(rs[..|rs| - 1]))
  }

  lemma {:induction false} SameMembers(a: seq<Reading>, b: seq<Reading>)
    requires multiset(a) == multiset(b)
    ensures |a| == |b| && forall x :: x in a <==> x in b
  {
    assert |multiset(a)| == |a| && |multiset(b)| == |b|;
    forall x ensures x in a <==> x in b {
      assert x in multiset(a) <==> x in multiset(b);
    }
  }

  lemma {:induction false} InsertSorted(x: Reading, rs: seq<Reading>)
    requires TimeSorted(rs) && forall y | y in rs :: y.obs.id != x.obs.id
    ensures TimeSorted(Insert(x, rs))
  {
    if |rs| == 0 || !Before(x.obs, rs[|rs| - 1].obs) {
      if |rs| > 0 {
        assert rs[|rs| - 1] in rs;
      }
    } else {
      var front := rs[..|rs| - 1];
      InsertSorted(x, front);
      var r := Insert(x, front);
      SameMembers(r, front + [x]);
      forall i | 0 <= i < |r| ensures Before(r[i].obs, rs[|rs| - 1].obs) {
        assert r[i] in front + [x];
      }
    }
  }

  lemma {:induction false} SortSorts(rs: seq<Reading>)
    requires DistinctIds(rs)
    ensures TimeSorted(SortByTime(rs))
  {
    if |rs| > 0 {
      var front, x := rs[..|rs| - 1], rs[|rs| - 1];
      SortSorts(front);
      SameMembers(SortByTime(front), front);
      InsertSorted(x, SortByTime(front));
    }
  }

  lemma {:induction false} InsertLast(x: Reading, rs: seq<Reading>)
    requires TimeSorted(rs + [x])
    ensures Insert(x, rs) == rs + [x]
  {
    if |rs| > 0 {
      assert (rs + [x])[|rs| - 1] == rs[|rs| - 1] && (rs + [x])[|rs|] == x;
    }
  }

  lemma {:induction false} SortOfSorted(rs: seq<Reading>)
    requires TimeSorted(rs)
    ensures SortByTime(rs) == rs
  {
    if |rs| > 0 {
      var front, x := rs[..|rs| - 1], rs[|rs| - 1];
      assert rs == front + [x];
      SortOfSorted(front);
      InsertLast(x, front);
    }
  }

  ghost function ObsSet(rs: seq<Reading>): set<Obs> {
    set x | x in rs :: x.obs
  }

  function ObsOf(rs: seq<Reading>): (r: seq<Obs>)
    ensures |r| == |rs| && forall i | 0 <= i < |rs| :: r[i] == rs[i].obs
  {
    seq(|rs|, i requires 0 <= i < |rs| => rs[i].obs)
  }

  /** A time-sorted sequence is determined by its set of observations. */
  lemma {:induction false} SortedIsUnique(a: seq<Reading>, b: seq<Reading>)
    requires TimeSorted(a) && TimeSorted(b) && ObsSet(a) == ObsSet(b)
    ensures ObsOf(a) == ObsOf(b)
    decreases |a|
  {
    if |a| == 0 {
      assert |b| > 0 ==> b[0].obs in ObsSet(b);
    } else {
      assert a[|a| - 1].obs in ObsSet(a);
      assert |b| > 0;
      var x, y := a[|a| - 1].obs, b[|b| - 1].obs;
      assert y in ObsSet(b);
      assert x == y by {
        var i :| 0 <= i < |b| && b[i].obs == x;
        var j :| 0 <= j < |a| && a[j].obs == y;
      }
      FrontSet(a);
      FrontSet(b);
      SortedIsUnique(a[..|a| - 1], b[..|b| - 1]);
      assert ObsOf(a) == ObsOf(a[..|a| - 1]) + [x];
      assert ObsOf(b) == ObsOf(b[..|b| - 1]) + [y];
    }
  }

  lemma {:induction false} FrontSet(a: seq<Reading>)
    requires TimeSorted(a) && |a| > 0
    ensures ObsSet(a[..|a| - 1]) == ObsSet(a) - {a[|a| - 1].obs}
  {
    var front := a[..|a| - 1];
    forall o ensures o in ObsSet(front) <==> o in ObsSet(a) && o != a[|a| - 1].obs {
      if o in ObsSet(front) {
        var i :| 0 <= i < |front| && front[i].obs == o;
        assert a[i].obs == o && a[i] in a;
      }
      if o in ObsSet(a) && o != a[|a| - 1].obs {
        var i :| 0 <= i < |a| && a[i].obs == o;
        assert front[i] in front;
      }
    }
  }

  // ---------------------------------------------------------------- baseline of a rate

  predicate IsCandidate(o: Obs, p: Params, current: Obs) {
    && o.sensor == p.sensor && o.sensorType == "water-level" && o.unit == "m"
    && current.at - p.riseWindow * SECOND <= o.at <= current.at - p.riseMin * SECOND
  }

  /** The earliest usable observation far enough, and not too far, back. */
  function Baseline(rs: seq<Reading>, p: Params, current: Obs): (b: Option<Obs>)
    ensures b.Some? ==> IsCandidate(b.value, p, current) && b.value in ObsSet(rs)
    ensures b.None? ==> forall x | x in rs :: !IsCandidate(x.obs, p, current)
    ensures b.Some? ==> forall x | x in rs && IsCandidate(x.obs, p, current) :: !Before(x.obs, b.value)
  {
    if |rs| == 0 then None
    else
      var front, x := rs[..|rs| - 1], rs[|rs| - 1];
      var b := Baseline(front, p, current);
      assert rs == front + [x];
      assert x in rs && forall y | y in front :: y in rs;
      if IsCandidate(x.obs, p, current) && (b.None? || Before(x.obs, b.value)) then Some(x.obs) else b
  }

  function Rate(p: Params, current: Obs, baseline: Obs): real
    requires baseline.at < current.at
  {
    (current.value - baseline.value) / ((current.at - baseline.at) as real / SECOND as real) * p.risePeriod as real
  }

  function RateAt(rs: seq<Reading>, p: Params, current: Obs): Option<real>
    requires ValidParams(p)
  {
    match Baseline(rs, p, current)
    case None => None
    case Some(b) => Some(Rate(p, current, b))
  }

  /** o is a water level of the sensor, far enough and not too far before current. */
  predicate InWindow(o: Obs, p: Params, current: Obs) {
    && o.sensor == p.sensor && o.sensorType == "water-level" && o.unit == "m"
    && p.riseMin * SECOND <= current.at - o.at <= p.riseWindow * SECOND
  }

  /** Of all committed observations in the window b is the earliest, and of several at
    * that time the one with the lowest identifier. */
  ghost predicate IsBaseline(b: Obs, rs: seq<Reading>, p: Params, current: Obs) {
    && b in ObsSet(rs) && InWindow(b, p, current)
    && forall o | o in ObsSet(rs) && InWindow(o, p, current) :: b.at < o.at || (b.at == o.at && b.id <= o.id)
  }

  lemma {:induction false} OneObsPerId(rs: seq<Reading>, a: Obs, b: Obs)
    requires DistinctIds(rs) && a in ObsSet(rs) && b in ObsSet(rs) && a.id == b.id
    ensures a == b
  {
    var i :| 0 <= i < |rs| && rs[i].obs == a;
    var j :| 0 <= j < |rs| && rs[j].obs == b;
  }

  lemma {:induction false} BaselineIsEarliest(rs: seq<Reading>, p: Params, current: Obs, b: Obs)
    requires DistinctIds(rs)
    ensures Baseline(rs, p, current) == Some(b) <==> IsBaseline(b, rs, p, current)
  {
    var found := Baseline(rs, p, current);
    if found.Some? && IsBaseline(b, rs, p, current) {
      var i :| i in rs && i.obs == b;
      if found.value.id == b.id {
        OneObsPerId(rs, found.value, b);
      }
    }
  }

  /** The rate's definition, without a division: over the time between them, the level
    * rises by so much per period. */
  ghost predicate IsRate(rate: real, p: Params, current: Obs, b: Obs) {
    rate * (current.at - b.at) as real == (current.value - b.value) * (p.risePeriod * SECOND) as real
  }

  lemma {:induction false} Quotients(difference: real, dt: real, second: real, period: real)
    requires dt > 0.0 && second > 0.0
    ensures difference / (dt / second) * period * dt == difference * (period * second)
    ensures difference / (dt / second) * dt == difference * second
  {
    var seconds := dt / second;
    assert seconds * second == dt;
    assert difference / seconds * seconds == difference;
  }

  lemma {:induction false} OneQuotient(a: real, b: real, dt: real)
    requires dt > 0.0
    ensures a * dt == b * dt <==> a == b
    ensures a * dt > 0.0 <==> a > 0.0
  {
  }

  lemma {:induction false} RateSolves(p: Params, current: Obs, b: Obs, rate: real)
    requires b.at < current.at
    ensures IsRate(rate, p, current, b) <==> rate == Rate(p, current, b)
  {
    var dt := (current.at - b.at) as real;
    Quotients(current.value - b.value, dt, SECOND as real, p.risePeriod as real);
    assert (p.risePeriod * SECOND) as real == p.risePeriod as real * SECOND as real;
    OneQuotient(rate, Rate(p, current, b), dt);
  }

  /** A rate is what the level has risen since the baseline, per period; there is one
    * exactly if there is a baseline. */
  lemma {:induction false} RateIsExact(rs: seq<Reading>, p: Params, current: Obs, rate: real)
    requires ValidParams(p) && DistinctIds(rs)
    ensures RateAt(rs, p, current) == Some(rate)
            <==> exists b :: IsBaseline(b, rs, p, current) && IsRate(rate, p, current, b)
  {
    var found := Baseline(rs, p, current);
    if found.Some? {
      BaselineIsEarliest(rs, p, current, found.value);
      RateSolves(p, current, found.value, rate);
    }
    forall b | IsBaseline(b, rs, p, current) ensures found == Some(b) {
      BaselineIsEarliest(rs, p, current, b);
    }
  }

  /** Water that stands higher than at the baseline rises, lower water falls. */
  lemma {:induction false} RisingIsPositive(rs: seq<Reading>, p: Params, current: Obs, b: Obs)
    requires ValidParams(p) && DistinctIds(rs) && IsBaseline(b, rs, p, current)
    ensures RateAt(rs, p, current).Some?
    ensures RateAt(rs, p, current).value > 0.0 <==> current.value > b.value
  {
    BaselineIsEarliest(rs, p, current, b);
    var rate := Rate(p, current, b);
    RateSolves(p, current, b, rate);
    OneQuotient(rate, 0.0, (current.at - b.at) as real);
    OneQuotient(current.value - b.value, 0.0, (p.risePeriod * SECOND) as real);
  }

  /** The baseline depends on which observations are committed, not on the order
    * in which they arrived. */
  lemma {:induction false} BaselineIgnoresOrder(a: seq<Reading>, b: seq<Reading>, p: Params, current: Obs)
    requires ObsSet(a) == ObsSet(b) && DistinctIds(a)
    ensures Baseline(a, p, current) == Baseline(b, p, current)
  {
    var x, y := Baseline(a, p, current), Baseline(b, p, current);
    if x.Some? {
      var i :| i in b && i.obs == x.value;
    }
    if y.Some? {
      var i :| i in a && i.obs == y.value;
      var j :| j in a && j.obs == x.value;
      assert x.value.id == y.value.id ==> i == j;
    }
  }
}
