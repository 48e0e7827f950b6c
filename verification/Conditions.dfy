/** One monitored condition of a rule: classification with hysteresis, and the
  * hold that delays opening and escalation. Everything here is independent of
  * tables; the rule machine and the alert store reuse it. */
module Conditions {
  import opened Wrappers
  import opened Clock

  datatype Severity = Normal | Warning | Critical

  function Rank(s: Severity): nat {
    match s
    case Normal => 0
    case Warning => 1
    case Critical => 2
  }

  datatype Band = Band(warning: real, critical: real, hysteresis: real)

  predicate ValidBand(b: Band) {
    0.0 <= b.hysteresis < b.critical - b.warning
  }

  function Classify(value: real, band: Band, previous: Severity): Severity {
    if value >= band.critical || (previous == Critical && value >= band.critical - band.hysteresis) then Critical
    else if value >= band.warning || (previous != Normal && value >= band.warning - band.hysteresis) then Warning
    else Normal
  }

  /** The value at which a severity starts. */
  function Threshold(band: Band, s: Severity): real
    requires s != Normal
  {
    if s == Critical then band.critical else band.warning
  }

  /** A severity is reached at its threshold, and kept down to the hysteresis below it;
    * nothing else counts. */
  lemma {:induction false} ClassifyIsExact(value: real, band: Band, previous: Severity, s: Severity)
    requires ValidBand(band) && s != Normal
    ensures Rank(Classify(value, band, previous)) >= Rank(s) <==>
              || value >= Threshold(band, s)
              || (Rank(previous) >= Rank(s) && value >= Threshold(band, s) - band.hysteresis)
  {
  }

  datatype Pending = Pending(severity: Severity, since: Time)

  datatype Condition = Condition(severity: Severity, pending: Option<Pending>)

  const CALM := Condition(Normal, None)

  /** What a classified target does to a condition. `held` is false for the
    * stale condition, which has already waited. */
  function Advance(c: Condition, held: bool, target: Severity, at: Time, hold: int): Condition {
    if target == c.severity then c.(pending := None)
    else if held && target != Normal && !(c.severity == Critical && target == Warning) then
      var since := if c.pending.Some? && c.pending.value.severity == target then c.pending.value.since else at;
      if at - since < hold * SECOND then Condition(c.severity, Some(Pending(target, since)))
      else Condition(target, None)
    else Condition(target, None)
  }

  function Interrupt(c: Condition): Condition {
    c.(pending := None)
  }

  /** What a condition sees: a usable sample, or something that breaks a hold. */
  datatype Tick = Break | Sample(value: real, at: Time)

  function Observe(c: Condition, t: Tick, band: Band, hold: int): Condition {
    match t
    case Break => Interrupt(c)
    case Sample(v, at) => Advance(c, true, Classify(v, band, c.severity), at, hold)
  }

  function Replay(c: Condition, ticks: seq<Tick>, band: Band, hold: int): Condition {
    if |ticks| == 0 then c
    else Observe(Replay(c, ticks[..|ticks| - 1], band, hold), ticks[|ticks| - 1], band, hold)
  }

  lemma {:induction false} ReplayAppend(c: Condition, a: seq<Tick>, b: seq<Tick>, band: Band, hold: int)
    ensures Replay(c, a + b, band, hold) == Replay(Replay(c, a, band, hold), b, band, hold)
    decreases |b|
  {
    if |b| == 0 {
      assert a + b == a;
    } else {
      assert (a + b)[..|a + b| - 1] == a + b[..|b| - 1];
      ReplayAppend(c, a, b[..|b| - 1], band, hold);
    }
  }

  // ---------------------------------------------------------------- hold

  /** The severity that tick i was classified as, given everything before it;
    * a break asks for nothing. */
  function Target(ticks: seq<Tick>, i: nat, band: Band, hold: int): Option<Severity>
    requires i < |ticks|
  {
    match ticks[i]
    case Break => None
    case Sample(v, _) => Some(Classify(v, band, Replay(CALM, ticks[..i], band, hold).severity))
  }

  /** Ticks j..i are all samples classified as t. */
  ghost predicate UnbrokenRun(ticks: seq<Tick>, j: nat, i: nat, t: Severity, band: Band, hold: int) {
    j <= i < |ticks| && forall k | j <= k <= i :: Target(ticks, k, band, hold) == Some(t)
  }

  /** The first tick of the maximal unbroken run that ends at i. */
  function RunStart(ticks: seq<Tick>, i: nat, band: Band, hold: int): (j: nat)
    requires i < |ticks|
    ensures j <= i && (ticks[i].Sample? ==> ticks[j].Sample?)
  {
    if i > 0 && Target(ticks, i - 1, band, hold) == Target(ticks, i, band, hold) then RunStart(ticks, i - 1, band, hold)
    else i
  }

  /** j..i is an unbroken run and no longer one ends at i. */
  ghost predicate MaximalRun(ticks: seq<Tick>, j: nat, i: nat, t: Severity, band: Band, hold: int) {
    && UnbrokenRun(ticks, j, i, t, band, hold)
    && forall k: nat | UnbrokenRun(ticks, k, i, t, band, hold) :: j <= k
  }

  lemma {:induction false} RunStartIsMaximal(ticks: seq<Tick>, i: nat, t: Severity, band: Band, hold: int)
    requires i < |ticks| && Target(ticks, i, band, hold) == Some(t)
    ensures MaximalRun(ticks, RunStart(ticks, i, band, hold), i, t, band, hold)
  {
    if i > 0 && Target(ticks, i - 1, band, hold) == Target(ticks, i, band, hold) {
      RunStartIsMaximal(ticks, i - 1, t, band, hold);
      forall k: nat | UnbrokenRun(ticks, k, i, t, band, hold) ensures RunStart(ticks, i, band, hold) <= k {
        if k < i {
          assert UnbrokenRun(ticks, k, i - 1, t, band, hold);
        }
      }
    } else {
      assert i > 0 ==> Target(ticks, i - 1, band, hold) != Some(t);
    }
  }

  /** After a sample the condition is either at the sample's severity, or waits
    * for it since the start of the unbroken run. After a break nothing waits. */
  lemma {:induction false} PendingIsTheRun(ticks: seq<Tick>, i: nat, band: Band, hold: int)
    requires i < |ticks|
    ensures var after := Replay(CALM, ticks[..i + 1], band, hold);
            if ticks[i].Break? then after.pending == None
            else
              var t := Target(ticks, i, band, hold).value;
              after == Condition(t, None)
              || after == Condition(Replay(CALM, ticks[..i], band, hold).severity,
                                    Some(Pending(t, ticks[RunStart(ticks, i, band, hold)].at)))
    decreases i
  {
    assert ticks[..i + 1][..i] == ticks[..i];
    if i > 0 {
      PendingIsTheRun(ticks, i - 1, band, hold);
    }
  }

  /** What waits before sample i, when i asks for more than the current severity:
    * its own target since the start of the run, or nothing of use. */
  lemma {:induction false} WaitingBefore(ticks: seq<Tick>, i: nat, band: Band, hold: int)
    requires i < |ticks| && ticks[i].Sample?
    requires Rank(Target(ticks, i, band, hold).value) > Rank(Replay(CALM, ticks[..i], band, hold).severity)
    ensures var before := Replay(CALM, ticks[..i], band, hold);
            var start := RunStart(ticks, i, band, hold);
            if before.pending.Some? && before.pending.value.severity == Target(ticks, i, band, hold).value
            then before.pending.value.since == ticks[start].at
            else start == i
  {
    if i > 0 {
      PendingIsTheRun(ticks, i - 1, band, hold);
    }
  }

  lemma {:induction false} AdvanceUp(c: Condition, t: Severity, at: Time, hold: int, start: Time)
    requires Rank(t) > Rank(c.severity)
    requires if c.pending.Some? && c.pending.value.severity == t then c.pending.value.since == start else start == at
    ensures Advance(c, true, t, at, hold)
            == if at - start >= hold * SECOND then Condition(t, None)
               else Condition(c.severity, Some(Pending(t, start)))
  {
  }

  /** Hold is exact. A condition opens or escalates to t at a sample if and only
    * if the maximal unbroken run of samples classified t that ends there spans
    * the hold; until then it waits since the start of that run. Recovery and
    * downgrade are immediate. */
  lemma {:induction false} HoldIsExact(ticks: seq<Tick>, i: nat, band: Band, hold: int)
    requires i < |ticks| && ticks[i].Sample?
    ensures MaximalRun(ticks, RunStart(ticks, i, band, hold), i, Target(ticks, i, band, hold).value, band, hold)
    ensures var before := Replay(CALM, ticks[..i], band, hold);
            var after := Replay(CALM, ticks[..i + 1], band, hold);
            var t := Target(ticks, i, band, hold).value;
            var start := ticks[RunStart(ticks, i, band, hold)].at;
            if Rank(t) > Rank(before.severity) then
              && (after.severity == t <==> ticks[i].at - start >= hold * SECOND)
              && (after.severity != t ==> after == Condition(before.severity, Some(Pending(t, start))))
            else after == Condition(t, None)
  {
    var before := Replay(CALM, ticks[..i], band, hold);
    var t := Target(ticks, i, band, hold).value;
    RunStartIsMaximal(ticks, i, t, band, hold);
    assert Replay(CALM, ticks[..i + 1], band, hold) == Advance(before, true, t, ticks[i].at, hold) by {
      assert ticks[..i + 1][..i] == ticks[..i];
    }
    if Rank(t) > Rank(before.severity) {
      WaitingBefore(ticks, i, band, hold);
      AdvanceUp(before, t, ticks[i].at, hold, ticks[RunStart(ticks, i, band, hold)].at);
    }
  }

  // ---------------------------------------------------------------- no chatter

  ghost predicate Within(ticks: seq<Tick>, low: real, high: real) {
    forall k | 0 <= k < |ticks| && ticks[k].Sample? :: low <= ticks[k].value <= high
  }

  function SeverityAfter(c: Condition, ticks: seq<Tick>, n: nat, band: Band, hold: int): Severity
    requires n <= |ticks|
  {
    Replay(c, ticks[..n], band, hold).severity
  }

  /** How many of the first n ticks changed the severity. */
  function ChangeCount(c: Condition, ticks: seq<Tick>, n: nat, band: Band, hold: int): nat
    requires n <= |ticks|
  {
    if n == 0 then 0
    else ChangeCount(c, ticks, n - 1, band, hold)
         + if SeverityAfter(c, ticks, n - 1, band, hold) == SeverityAfter(c, ticks, n, band, hold) then 0 else 1
  }

  ghost predicate Climbing(c: Condition, ticks: seq<Tick>, n: nat, band: Band, hold: int)
    requires n <= |ticks|
  {
    forall k | 0 <= k < n ::
      Rank(SeverityAfter(c, ticks, k, band, hold)) <= Rank(SeverityAfter(c, ticks, k + 1, band, hold))
  }

  ghost predicate Falling(c: Condition, ticks: seq<Tick>, n: nat, band: Band, hold: int)
    requires n <= |ticks|
  {
    forall k | 0 <= k < n ::
      Rank(SeverityAfter(c, ticks, k, band, hold)) >= Rank(SeverityAfter(c, ticks, k + 1, band, hold))
  }

  /** Samples of at least `low` can never lower a condition below s. */
  predicate Floor(band: Band, s: Severity, low: real) {
    s == Normal || low >= Threshold(band, s) - band.hysteresis
  }

  /** Samples of at most `high` can never raise a condition above s. */
  predicate Ceiling(band: Band, s: Severity, high: real) {
    s == Critical || high < Threshold(band, if s == Normal then Warning else Critical)
  }

  lemma {:induction false} OneStep(c: Condition, t: Tick, band: Band, hold: int, low: real, high: real)
    requires ValidBand(band) && high - low <= band.hysteresis
    requires t.Sample? ==> low <= t.value <= high
    ensures var s := Observe(c, t, band, hold).severity;
            && (Rank(s) > Rank(c.severity) ==> Floor(band, s, low))
            && (Rank(s) < Rank(c.severity) ==> Ceiling(band, s, high))
            && (Floor(band, c.severity, low) ==> Rank(s) >= Rank(c.severity))
            && (Ceiling(band, c.severity, high) ==> Rank(s) <= Rank(c.severity))
  {
  }

  lemma {:induction false} ChatterPrefix(c: Condition, ticks: seq<Tick>, n: nat, band: Band, hold: int, low: real,
                                         high: real)
    requires n <= |ticks| && ValidBand(band) && high - low <= band.hysteresis && Within(ticks, low, high)
    ensures var s0, s := c.severity, SeverityAfter(c, ticks, n, band, hold);
            var changes := ChangeCount(c, ticks, n, band, hold);
            || (changes == 0 && s == s0 && Climbing(c, ticks, n, band, hold) && Falling(c, ticks, n, band, hold))
            || (changes <= Rank(s) - Rank(s0) && Floor(band, s, low) && Climbing(c, ticks, n, band, hold))
            || (changes <= Rank(s0) - Rank(s) && Ceiling(band, s, high) && Falling(c, ticks, n, band, hold))
    decreases n
  {
    if n > 0 {
      ChatterPrefix(c, ticks, n - 1, band, hold, low, high);
      var before := Replay(c, ticks[..n - 1], band, hold);
      assert ticks[..n][..n - 1] == ticks[..n - 1];
      OneStep(before, ticks[n - 1], band, hold, low, high);
    }
  }

  /** No chatter: while the samples span no more than the hysteresis, severity
    * changes at most twice and always in one direction, for any hold. */
  lemma {:induction false} NoChatter(c: Condition, ticks: seq<Tick>, band: Band, hold: int, low: real, high: real)
    requires ValidBand(band) && high - low <= band.hysteresis && Within(ticks, low, high)
    ensures ChangeCount(c, ticks, |ticks|, band, hold) <= 2
    ensures Climbing(c, ticks, |ticks|, band, hold) || Falling(c, ticks, |ticks|, band, hold)
  {
    ChatterPrefix(c, ticks, |ticks|, band, hold, low, high);
  }

  // ---------------------------------------------------------------- the changes themselves

  function ChangeTo(before: Condition, after: Condition): seq<Severity> {
    if before.severity == after.severity then [] else [after.severity]
  }

  /** The severities that the ticks lead to, one for each change. */
  function ChangedTo(c: Condition, ticks: seq<Tick>, band: Band, hold: int): seq<Severity> {
    if |ticks| == 0 then []
    else
      var front := ticks[..|ticks| - 1];
      ChangedTo(c, front, band, hold) + ChangeTo(Replay(c, front, band, hold), Replay(c, ticks, band, hold))
  }

  lemma {:induction false} ChangedToSnoc(c: Condition, ticks: seq<Tick>, band: Band, hold: int)
    requires |ticks| > 0
    ensures var front := ticks[..|ticks| - 1];
            ChangedTo(c, ticks, band, hold)
            == ChangedTo(c, front, band, hold) + ChangeTo(Replay(c, front, band, hold), Replay(c, ticks, band, hold))
  {
  }

  lemma {:induction false} ChangedToAppend(c: Condition, a: seq<Tick>, b: seq<Tick>, band: Band, hold: int)
    ensures ChangedTo(c, a + b, band, hold)
            == ChangedTo(c, a, band, hold) + ChangedTo(Replay(c, a, band, hold), b, band, hold)
    decreases |b|
  {
    if |b| == 0 {
      assert a + b == a;
    } else {
      var front := b[..|b| - 1];
      assert (a + b)[..|a + b| - 1] == a + front;
      ChangedToAppend(c, a, front, band, hold);
      ReplayAppend(c, a, front, band, hold);
      ReplayAppend(c, a, b, band, hold);
    }
  }

  ghost predicate Ascending(path: seq<Severity>) {
    forall i, j | 0 <= i < j < |path| :: Rank(path[i]) < Rank(path[j])
  }

  ghost predicate Descending(path: seq<Severity>) {
    forall i, j | 0 <= i < j < |path| :: Rank(path[i]) > Rank(path[j])
  }

  /** From `first` through `severities` to `last`, always up or always down; there
    * are then at most two of them. */
  ghost predicate OneWay(first: Severity, severities: seq<Severity>, last: Severity) {
    var path := [first] + severities;
    |severities| <= 2 && path[|path| - 1] == last && (Ascending(path) || Descending(path))
  }

  lemma {:induction false} PathSnoc(path: seq<Severity>, s: Severity)
    requires |path| > 0
    ensures Ascending(path) && Rank(path[|path| - 1]) < Rank(s) ==> Ascending(path + [s])
    ensures Descending(path) && Rank(path[|path| - 1]) > Rank(s) ==> Descending(path + [s])
  {
  }

  lemma {:induction false} ClimbingFront(c: Condition, ticks: seq<Tick>, n: nat, band: Band, hold: int)
    requires 0 < n <= |ticks|
    ensures var s, t := SeverityAfter(c, ticks, n - 1, band, hold), SeverityAfter(c, ticks, n, band, hold);
            && (Climbing(c, ticks, n, band, hold) ==> Climbing(c, ticks, n - 1, band, hold) && Rank(s) <= Rank(t))
            && (Falling(c, ticks, n, band, hold) ==> Falling(c, ticks, n - 1, band, hold) && Rank(s) >= Rank(t))
  {
    assert n - 1 + 1 == n;
  }

  /** c's severity and where the first n ticks lead it. */
  function PathOf(c: Condition, ticks: seq<Tick>, n: nat, band: Band, hold: int): (path: seq<Severity>)
    requires n <= |ticks|
    ensures |path| > 0
  {
    [c.severity] + ChangedTo(c, ticks[..n], band, hold)
  }

  lemma {:induction false} PathGrows(c: Condition, ticks: seq<Tick>, n: nat, band: Band, hold: int)
    requires 0 < n <= |ticks|
    ensures var s, t := SeverityAfter(c, ticks, n - 1, band, hold), SeverityAfter(c, ticks, n, band, hold);
            PathOf(c, ticks, n, band, hold) == PathOf(c, ticks, n - 1, band, hold) + if s == t then [] else [t]
  {
    assert ticks[..n][..n - 1] == ticks[..n - 1];
    ChangedToSnoc(c, ticks[..n], band, hold);
  }

  /** The changes among the first n ticks, ending at the severity after them. */
  lemma {:induction false} ChangedPath(c: Condition, ticks: seq<Tick>, n: nat, band: Band, hold: int)
    requires n <= |ticks|
    ensures var path := PathOf(c, ticks, n, band, hold);
            && |path| == 1 + ChangeCount(c, ticks, n, band, hold)
            && path[|path| - 1] == SeverityAfter(c, ticks, n, band, hold)
            && (Climbing(c, ticks, n, band, hold) ==> Ascending(path))
            && (Falling(c, ticks, n, band, hold) ==> Descending(path))
  {
    if n > 0 {
      ChangedPath(c, ticks, n - 1, band, hold);
      PathGrows(c, ticks, n, band, hold);
      ClimbingFront(c, ticks, n, band, hold);
      PathSnoc(PathOf(c, ticks, n - 1, band, hold), SeverityAfter(c, ticks, n, band, hold));
    }
  }

  /** No chatter, told by the changes. */
  lemma {:induction false} ChangesGoOneWay(c: Condition, ticks: seq<Tick>, band: Band, hold: int, low: real, high: real)
    requires ValidBand(band) && high - low <= band.hysteresis && Within(ticks, low, high)
    ensures OneWay(c.severity, ChangedTo(c, ticks, band, hold), Replay(c, ticks, band, hold).severity)
  {
    NoChatter(c, ticks, band, hold, low, high);
    ChangedPath(c, ticks, |ticks|, band, hold);
    assert ticks[..|ticks|] == ticks;
  }
}
