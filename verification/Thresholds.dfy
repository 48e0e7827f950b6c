/** When samples raise a severity and when they do not, told by their values and times
  * alone. */
module Thresholds {
  import opened Wrappers
  import opened Clock
  import opened Conditions

  predicate InZone(value: real, band: Band, s: Severity) {
    match s
    case Normal => value < band.warning
    case Warning => band.warning <= value < band.critical
    case Critical => band.critical <= value
  }

  function ZoneOf(value: real, band: Band): (s: Severity)
    requires ValidBand(band)
    ensures InZone(value, band, s)
  {
    if value >= band.critical then Critical else if value >= band.warning then Warning else Normal
  }

  predicate ZoneAt(ticks: seq<Tick>, k: nat, band: Band, s: Severity) {
    k < |ticks| && ticks[k].Sample? && InZone(ticks[k].value, band, s)
  }

  /** Samples a to b lie in the zone of s all along, with no break, and span the hold. */
  ghost predicate HeldZone(ticks: seq<Tick>, a: nat, b: nat, band: Band, hold: int, s: Severity) {
    && s != Normal && a <= b && ZoneAt(ticks, a, band, s) && ZoneAt(ticks, b, band, s)
    && ticks[b].at - ticks[a].at >= hold * SECOND && AllInZone(ticks, a, b, band, s)
  }

  ghost predicate HeldWithin(ticks: seq<Tick>, j: nat, i: nat, band: Band, hold: int) {
    exists a: nat, b: nat, s :: j <= a && b <= i && HeldZone(ticks, a, b, band, hold, s)
  }

  predicate InOrder(ticks: seq<Tick>, a: nat, b: nat) {
    a < b < |ticks| && ticks[a].Sample? && ticks[b].Sample? ==> ticks[a].at <= ticks[b].at
  }

  ghost predicate Timed(ticks: seq<Tick>) {
    forall a: nat, b: nat :: InOrder(ticks, a, b)
  }

  /** Tick k is a sample at or above the warning threshold. */
  predicate HighAt(ticks: seq<Tick>, k: nat, band: Band) {
    k < |ticks| && ticks[k].Sample? && ticks[k].value >= band.warning
  }

  ghost predicate High(ticks: seq<Tick>, j: nat, i: nat, band: Band) {
    j <= i < |ticks| && forall k: nat | j <= k <= i :: HighAt(ticks, k, band)
  }

  function State(ticks: seq<Tick>, n: nat, band: Band, hold: int): Condition
    requires n <= |ticks|
  {
    Replay(CALM, ticks[..n], band, hold)
  }

  lemma {:induction false} NextState(ticks: seq<Tick>, i: nat, band: Band, hold: int)
    requires i < |ticks| && ticks[i].Sample?
    ensures var c := State(ticks, i, band, hold);
            State(ticks, i + 1, band, hold)
            == Advance(c, true, Classify(ticks[i].value, band, c.severity), ticks[i].at, hold)
  {
    assert ticks[..i + 1][..i] == ticks[..i];
  }

  // ---------------------------------------------------------------- the stretch of one zone

  /** Where the zone of sample i began, not before j. */
  function ZoneStart(ticks: seq<Tick>, j: nat, i: nat, band: Band, s: Severity): (z: nat)
    requires j <= i
    ensures j <= z <= i
  {
    if j < i && ZoneAt(ticks, i - 1, band, s) then ZoneStart(ticks, j, i - 1, band, s) else i
  }

  ghost predicate AllInZone(ticks: seq<Tick>, a: nat, i: nat, band: Band, s: Severity) {
    forall k: nat | a <= k <= i :: ZoneAt(ticks, k, band, s)
  }

  lemma {:induction false} ZoneStartIsFirst(ticks: seq<Tick>, j: nat, i: nat, band: Band, s: Severity)
    requires j <= i && ZoneAt(ticks, i, band, s)
    ensures var z := ZoneStart(ticks, j, i, band, s);
            && AllInZone(ticks, z, i, band, s)
            && (forall a: nat | j <= a <= i && AllInZone(ticks, a, i, band, s) :: z <= a)
  {
    if j < i && ZoneAt(ticks, i - 1, band, s) {
      ZoneStartIsFirst(ticks, j, i - 1, band, s);
      forall a: nat | j <= a <= i && AllInZone(ticks, a, i, band, s) ensures ZoneStart(ticks, j, i, band, s) <= a {
        if a < i {
          assert AllInZone(ticks, a, i - 1, band, s);
        }
      }
    }
  }

  lemma {:induction false} OneZone(value: real, band: Band, s: Severity, t: Severity)
    requires ValidBand(band) && InZone(value, band, s) && InZone(value, band, t)
    ensures s == t
  {
  }

  /** While nothing has opened since j, the zone of the last sample has waited since it
    * began, for less than the hold, and no zone was held. */
  ghost predicate Waits(ticks: seq<Tick>, j: nat, i: nat, band: Band, hold: int)
    requires ValidBand(band) && High(ticks, j, i, band)
  {
    assert HighAt(ticks, i, band);
    var s := ZoneOf(ticks[i].value, band);
    var z := ZoneStart(ticks, j, i, band, s);
    && z < |ticks| && ticks[z].Sample?
    && State(ticks, i + 1, band, hold) == Condition(Normal, Some(Pending(s, ticks[z].at)))
    && ticks[i].at - ticks[z].at < hold * SECOND && !HeldWithin(ticks, j, i, band, hold)
  }

  ghost predicate Opened(ticks: seq<Tick>, j: nat, i: nat, band: Band, hold: int)
    requires i < |ticks|
  {
    State(ticks, i + 1, band, hold).severity != Normal && HeldWithin(ticks, j, i, band, hold)
  }

  lemma {:induction false} StaysAbnormal(ticks: seq<Tick>, i: nat, band: Band, hold: int)
    requires ValidBand(band) && HighAt(ticks, i, band) && State(ticks, i, band, hold).severity != Normal
    ensures State(ticks, i + 1, band, hold).severity != Normal
  {
    NextState(ticks, i, band, hold);
  }

  /** A zone held up to i began no earlier than the zone of i. */
  lemma {:induction false} HeldUpTo(ticks: seq<Tick>, j: nat, i: nat, band: Band, hold: int, a: nat, b: nat,
                                    s: Severity)
    requires ValidBand(band) && Timed(ticks) && j <= a && b <= i && HeldZone(ticks, a, b, band, hold, s)
    requires i < |ticks| && ticks[i].Sample?
    ensures b < i ==> HeldWithin(ticks, j, i - 1, band, hold)
    ensures b == i ==>
              var z := ZoneStart(ticks, j, i, band, s);
              z < |ticks| && ticks[z].Sample? && ticks[i].at - ticks[z].at >= hold * SECOND
  {
    if b == i {
      OneZone(ticks[i].value, band, s, ZoneOf(ticks[i].value, band));
      ZoneStartIsFirst(ticks, j, i, band, s);
      var z := ZoneStart(ticks, j, i, band, s);
      assert ZoneAt(ticks, z, band, s) && InOrder(ticks, z, a);
    }
  }

  lemma {:induction false} WiderHeld(ticks: seq<Tick>, j: nat, i: nat, n: nat, band: Band, hold: int)
    requires HeldWithin(ticks, j, i, band, hold) && i <= n
    ensures HeldWithin(ticks, j, n, band, hold)
  {
  }

  /** From a calm or waiting condition, sample i either waits on or opens. */
  lemma {:induction false} StretchStep(ticks: seq<Tick>, j: nat, i: nat, band: Band, hold: int)
    requires ValidBand(band) && Timed(ticks) && High(ticks, j, i, band)
    requires if i == j then State(ticks, j, band, hold) == CALM
             else High(ticks, j, i - 1, band) && Waits(ticks, j, i - 1, band, hold)
    ensures Waits(ticks, j, i, band, hold) || Opened(ticks, j, i, band, hold)
  {
    assert HighAt(ticks, i, band);
    var s := ZoneOf(ticks[i].value, band);
    var z := ZoneStart(ticks, j, i, band, s);
    NextState(ticks, i, band, hold);
    ZoneStartIsFirst(ticks, j, i, band, s);
    assert ZoneAt(ticks, z, band, s);
    SinceZoneStart(ticks, j, i, band, hold, s);
    if ticks[i].at - ticks[z].at >= hold * SECOND {
      assert HeldZone(ticks, z, i, band, hold, s);
    } else if HeldWithin(ticks, j, i, band, hold) {
      var a: nat, b: nat, t :| j <= a && b <= i && HeldZone(ticks, a, b, band, hold, t);
      HeldUpTo(ticks, j, i, band, hold, a, b, t);
      OneZoneHeld(ticks, i, a, b, band, hold, t);
    }
  }

  lemma {:induction false} OneZoneHeld(ticks: seq<Tick>, i: nat, a: nat, b: nat, band: Band, hold: int, t: Severity)
    requires ValidBand(band) && HeldZone(ticks, a, b, band, hold, t)
    ensures b == i ==> i < |ticks| && ticks[i].Sample? && t == ZoneOf(ticks[i].value, band)
  {
  }

  /** What sample i waits for, it has waited for since its zone began. */
  lemma {:induction false} SinceZoneStart(ticks: seq<Tick>, j: nat, i: nat, band: Band, hold: int, s: Severity)
    requires ValidBand(band) && High(ticks, j, i, band) && ZoneAt(ticks, i, band, s)
    requires if i == j then State(ticks, j, band, hold) == CALM
             else High(ticks, j, i - 1, band) && Waits(ticks, j, i - 1, band, hold)
    ensures var c, z := State(ticks, i, band, hold), ZoneStart(ticks, j, i, band, s);
            && c.severity == Normal && z < |ticks| && ticks[z].Sample?
            && ticks[z].at
               == if c.pending.Some? && c.pending.value.severity == s then c.pending.value.since else ticks[i].at
  {
    if i > j {
      assert HighAt(ticks, i - 1, band);
      if ZoneAt(ticks, i - 1, band, s) {
        OneZone(ticks[i - 1].value, band, s, ZoneOf(ticks[i - 1].value, band));
      }
    }
  }

  lemma {:induction false} Stretch(ticks: seq<Tick>, j: nat, i: nat, band: Band, hold: int)
    requires ValidBand(band) && Timed(ticks) && High(ticks, j, i, band) && State(ticks, j, band, hold) == CALM
    ensures Waits(ticks, j, i, band, hold) || Opened(ticks, j, i, band, hold)
  {
    if i == j {
      StretchStep(ticks, j, i, band, hold);
    } else {
      assert HighAt(ticks, i, band);
      Stretch(ticks, j, i - 1, band, hold);
      if Waits(ticks, j, i - 1, band, hold) {
        StretchStep(ticks, j, i, band, hold);
      } else {
        StaysAbnormal(ticks, i, band, hold);
        WiderHeld(ticks, j, i - 1, i, band, hold);
      }
    }
  }

  /** Samples that stay at or above the warning threshold open a calm condition exactly
    * if, somewhere among them, one zone (from warning up to critical, or from critical
    * up) is held without a break for the whole hold. Crossing the critical threshold,
    * up or down, starts the wait again. */
  lemma {:induction false} OpensExactly(ticks: seq<Tick>, j: nat, i: nat, band: Band, hold: int)
    requires ValidBand(band) && Timed(ticks) && High(ticks, j, i, band) && State(ticks, j, band, hold) == CALM
    ensures State(ticks, i + 1, band, hold).severity != Normal <==> HeldWithin(ticks, j, i, band, hold)
  {
    Stretch(ticks, j, i, band, hold);
  }

  // ---------------------------------------------------------------- from any state

  lemma {:induction false} StaysHigh(ticks: seq<Tick>, a: nat, i: nat, band: Band, hold: int)
    requires ValidBand(band) && High(ticks, a, i, band) && State(ticks, a, band, hold).severity != Normal
    ensures State(ticks, i, band, hold).severity != Normal
    decreases i
  {
    if a < i {
      assert HighAt(ticks, i - 1, band);
      StaysHigh(ticks, a, i - 1, band, hold);
      StaysAbnormal(ticks, i - 1, band, hold);
    }
  }

  lemma {:induction false} ZoneIsHigh(ticks: seq<Tick>, a: nat, i: nat, band: Band, s: Severity)
    requires ValidBand(band) && s != Normal && a <= i < |ticks| && AllInZone(ticks, a, i, band, s)
    ensures High(ticks, a, i, band)
  {
    forall k: nat | a <= k <= i ensures HighAt(ticks, k, band) {
      assert ZoneAt(ticks, k, band, s);
    }
  }

  /** While the condition is normal, or for a critical value, the target is the zone. */
  lemma {:induction false} TargetIsZone(ticks: seq<Tick>, k: nat, band: Band, hold: int, s: Severity)
    requires ValidBand(band) && ZoneAt(ticks, k, band, s) && s != Normal
    requires s == Critical || State(ticks, k, band, hold).severity == Normal
    ensures Target(ticks, k, band, hold) == Some(s)
  {
  }

  lemma {:induction false} HeldIsUnbroken(ticks: seq<Tick>, a: nat, i: nat, band: Band, hold: int, s: Severity)
    requires ValidBand(band) && HeldZone(ticks, a, i, band, hold, s)
    requires s == Critical || State(ticks, i, band, hold).severity == Normal
    ensures UnbrokenRun(ticks, a, i, s, band, hold)
  {
    forall k: nat | a <= k <= i ensures Target(ticks, k, band, hold) == Some(s) {
      assert ZoneAt(ticks, k, band, s);
      if s != Critical && State(ticks, k, band, hold).severity != Normal {
        assert AllInZone(ticks, k, i, band, s);
        ZoneIsHigh(ticks, k, i, band, s);
        StaysHigh(ticks, k, i, band, hold);
      }
      TargetIsZone(ticks, k, band, hold, s);
    }
  }

  /** A zone held without a break for the whole hold is reached, whatever came before. */
  lemma {:induction false} HeldIsReached(ticks: seq<Tick>, a: nat, i: nat, band: Band, hold: int, s: Severity)
    requires ValidBand(band) && Timed(ticks) && HeldZone(ticks, a, i, band, hold, s)
    ensures Rank(State(ticks, i + 1, band, hold).severity) >= Rank(s)
  {
    assert ZoneAt(ticks, i, band, s);
    if s == Critical || State(ticks, i, band, hold).severity == Normal {
      HeldIsUnbroken(ticks, a, i, band, hold, s);
      assert Target(ticks, i, band, hold) == Some(s);
      HoldIsExact(ticks, i, band, hold);
      var start := RunStart(ticks, i, band, hold);
      assert start <= a && InOrder(ticks, start, a);
    } else {
      ZoneIsHigh(ticks, i, i, band, s);
      StaysAbnormal(ticks, i, band, hold);
    }
  }

  /** Below the warning threshold by more than the hysteresis, or below it and not
    * abnormal before, a condition is calm at once. */
  lemma {:induction false} LowIsCalm(ticks: seq<Tick>, i: nat, band: Band, hold: int)
    requires ValidBand(band) && i < |ticks| && ticks[i].Sample?
    requires || ticks[i].value < band.warning - band.hysteresis
             || (ticks[i].value < band.warning && State(ticks, i, band, hold).severity == Normal)
    ensures State(ticks, i + 1, band, hold) == CALM
  {
    NextState(ticks, i, band, hold);
  }

  // ---------------------------------------------------------------- water that is high and opens nothing

  /** Samples at the warning and at the critical threshold by turns, each `gap` after the
    * one before. */
  function ByTurns(n: nat, band: Band, gap: nat): seq<Tick> {
    if n == 0 then []
    else ByTurns(n - 1, band, gap) + [Sample(if n % 2 == 1 then band.warning else band.critical, n * gap)]
  }

  lemma {:induction false} TurnAt(n: nat, k: nat, band: Band, gap: nat)
    requires k < n
    ensures |ByTurns(n, band, gap)| == n
    ensures ByTurns(n, band, gap)[k] == Sample(if k % 2 == 0 then band.warning else band.critical, (k + 1) * gap)
  {
    if k < n - 1 {
      TurnAt(n - 1, k, band, gap);
    } else if n > 1 {
      TurnAt(n - 1, 0, band, gap);
    }
  }

  lemma {:induction false} TurnsWait(n: nat, band: Band, gap: nat, hold: int)
    requires ValidBand(band) && gap < hold * SECOND && n > 0
    ensures Replay(CALM, ByTurns(n, band, gap), band, hold)
            == Condition(Normal, Some(Pending(if n % 2 == 1 then Warning else Critical, n * gap)))
  {
    var front, last := ByTurns(n - 1, band, gap), Sample(if n % 2 == 1 then band.warning else band.critical, n * gap);
    assert (front + [last])[..|front|] == front;
    if n > 1 {
      TurnsWait(n - 1, band, gap, hold);
    }
  }

  /** Such samples never fall below the warning threshold, however many there are and
    * however much longer than the hold they last, and open nothing: it is not enough
    * to stay above the warning threshold for the hold. */
  lemma {:induction false} TurnsOpenNothing(n: nat, band: Band, gap: nat, hold: int)
    requires ValidBand(band) && 0 < gap < hold * SECOND && n > 1
    ensures var ticks := ByTurns(n, band, gap);
            && High(ticks, 0, n - 1, band) && HighAt(ticks, 0, band) && HighAt(ticks, n - 1, band)
            && ticks[n - 1].at - ticks[0].at == (n - 1) * gap
            && State(ticks, n, band, hold).severity == Normal
  {
    var ticks := ByTurns(n, band, gap);
    TurnAt(n, 0, band, gap);
    TurnAt(n, n - 1, band, gap);
    forall k: nat | k <= n - 1 ensures HighAt(ticks, k, band) {
      TurnAt(n, k, band, gap);
    }
    TurnsWait(n, band, gap, hold);
    assert ticks[..n] == ticks;
  }
}
