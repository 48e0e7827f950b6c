/** A rule's history told by its readings alone: which are accepted, what the level and
  * rise conditions see of them, and what severity that comes to. */
module RuleHistory {
  import opened Wrappers
  import opened Clock
  import opened Conditions
  import opened Thresholds
  import opened Rules
  import opened Readings
  import opened RuleMachine
  import opened RuleTheorems

  // ---------------------------------------------------------------- which readings are accepted

  /** A water level in metres, neither from before the rule nor from the future nor older
    * than the stale limit, and later than every reading accepted so far. */
  predicate Acceptable(r: Rule, o: Obs, now: Time, accepted: seq<Last>) {
    && o.sensorType == "water-level" && o.unit == "m"
    && r.updatedAt <= o.at <= now && now - o.at <= r.params.stale * SECOND
    && forall i | 0 <= i < |accepted| :: accepted[i].at < o.at
  }

  function LastTime(accepted: seq<Last>): Option<Time> {
    if |accepted| == 0 then None else Some(accepted[|accepted| - 1].at)
  }

  lemma {:induction false} LatestDecides(m: Machine, r: Rule, inputs: seq<Input>, o: Obs, now: Time)
    requires m.progress.last.None?
    ensures var xs, last := AcceptedIn(m, r, inputs), Run(m, r, inputs).progress.last;
            && last == (if |xs| == 0 then None else Some(xs[|xs| - 1]))
            && (Usable(r, last, o, now) <==> Acceptable(r, o, now, xs))
  {
    AcceptedTimesIncrease(m, r, inputs);
  }

  /** Over any history since a rule change, exactly the acceptable readings are accepted,
    * with their own identifiers and values, and the stored last reading is the last of
    * them. */
  lemma {:induction false} AcceptedExactly(cursor: nat, r: Rule, inputs: seq<Input>, i: Input)
    ensures var xs := AcceptedIn(Reset(cursor), r, inputs);
            && AcceptedIn(Reset(cursor), r, inputs + [i])
               == (if i.Arrive? && Acceptable(r, i.reading.obs, i.now, xs)
                   then xs + [Last(i.reading.obs.at, i.reading.obs.id, i.reading.obs.value)] else xs)
            && Run(Reset(cursor), r, inputs).progress.last == (if |xs| == 0 then None else Some(xs[|xs| - 1]))
  {
    assert (inputs + [i])[..|inputs|] == inputs;
    AcceptedTimesIncrease(Reset(cursor), r, inputs);
    if i.Arrive? {
      LatestDecides(Reset(cursor), r, inputs, i.reading.obs, i.now);
    }
  }

  // ---------------------------------------------------------------- what the conditions see

  /** The last reading accepted so far, or else the rule change, is stale. */
  predicate Silent(r: Rule, accepted: seq<Last>, now: Time) {
    now - (if |accepted| == 0 then r.updatedAt else accepted[|accepted| - 1].at) >= r.params.stale * SECOND
  }

  /** It is the first reading, or comes more than the stale limit after the last. */
  predicate AfterGap(r: Rule, accepted: seq<Last>, o: Obs) {
    |accepted| == 0 || o.at - accepted[|accepted| - 1].at > r.params.stale * SECOND
  }

  /** What the level condition sees of one more input: a sample for an accepted reading,
    * behind a break if it comes after a gap, and a break for a verdict of silence. */
  function LevelSees(r: Rule, accepted: seq<Last>, i: Input): seq<Tick> {
    match i
    case Arrive(x, _, now) =>
      if !Acceptable(r, x.obs, now, accepted) then []
      else if AfterGap(r, accepted, x.obs) then [Break, Sample(x.obs.value, x.obs.at)]
      else [Sample(x.obs.value, x.obs.at)]
    case Verdict(now) => if Silent(r, accepted, now) then [Break] else []
  }

  /** What the rise condition sees: rates, and a break where there is no baseline. */
  function RiseSees(r: Rule, accepted: seq<Last>, i: Input): seq<Tick> {
    match i
    case Arrive(x, rate, now) =>
      var tick := if rate.Some? then Sample(rate.value, x.obs.at) else Break;
      if !Acceptable(r, x.obs, now, accepted) then []
      else if AfterGap(r, accepted, x.obs) then [Break, tick] else [tick]
    case Verdict(now) => if Silent(r, accepted, now) then [Break] else []
  }

  lemma {:induction false} LevelTickIsSeen(m: Machine, r: Rule, xs: seq<Last>, i: Input)
    requires m.progress.last == if |xs| == 0 then None else Some(xs[|xs| - 1])
    requires i.Arrive? ==> (Usable(r, m.progress.last, i.reading.obs, i.now)
                            <==> Acceptable(r, i.reading.obs, i.now, xs))
    ensures LevelTick(m, r, i) == LevelSees(r, xs, i)
  {
    if i.Arrive? {
      var sample := Sample(i.reading.obs.value, i.reading.obs.at);
      assert [Break] + [sample] == [Break, sample] && [] + [sample] == [sample];
    }
  }

  lemma {:induction false} RiseTickIsSeen(m: Machine, r: Rule, xs: seq<Last>, i: Input)
    requires m.progress.last == if |xs| == 0 then None else Some(xs[|xs| - 1])
    requires i.Arrive? ==> (Usable(r, m.progress.last, i.reading.obs, i.now)
                            <==> Acceptable(r, i.reading.obs, i.now, xs))
    ensures RiseTick(m, r, i) == RiseSees(r, xs, i)
  {
    if i.Arrive? {
      var tick := if i.rate.Some? then Sample(i.rate.value, i.reading.obs.at) else Break;
      assert [Break] + [tick] == [Break, tick] && [] + [tick] == [tick];
    }
  }

  /** Both conditions see exactly that. */
  lemma {:induction false} TicksExactly(cursor: nat, r: Rule, inputs: seq<Input>, i: Input)
    ensures var m, xs := Reset(cursor), AcceptedIn(Reset(cursor), r, inputs);
            && LevelTicks(m, r, inputs + [i]) == LevelTicks(m, r, inputs) + LevelSees(r, xs, i)
            && RiseTicks(m, r, inputs + [i]) == RiseTicks(m, r, inputs) + RiseSees(r, xs, i)
  {
    var m, xs, after := Reset(cursor), AcceptedIn(Reset(cursor), r, inputs), Run(Reset(cursor), r, inputs);
    assert after.progress.last == if |xs| == 0 then None else Some(xs[|xs| - 1]) by {
      AcceptedTimesIncrease(m, r, inputs);
    }
    if i.Arrive? {
      LatestDecides(m, r, inputs, i.reading.obs, i.now);
    }
    LevelTickIsSeen(after, r, xs, i);
    RiseTickIsSeen(after, r, xs, i);
    TicksOfBoth(m, r, inputs, i);
  }

  lemma {:induction false} TicksOfBoth(m: Machine, r: Rule, inputs: seq<Input>, i: Input)
    ensures LevelTicks(m, r, inputs + [i]) == LevelTicks(m, r, inputs) + LevelTick(Run(m, r, inputs), r, i)
    ensures RiseTicks(m, r, inputs + [i]) == RiseTicks(m, r, inputs) + RiseTick(Run(m, r, inputs), r, i)
  {
    assert (inputs + [i])[..|inputs|] == inputs;
  }

  // ---------------------------------------------------------------- no hold over a gap

  /** Samples next to each other are in order and at most the stale limit apart. */
  predicate Near(ticks: seq<Tick>, k: nat, stale: int) {
    k + 1 < |ticks| && ticks[k].Sample? && ticks[k + 1].Sample? ==>
      0 < ticks[k + 1].at - ticks[k].at <= stale * SECOND
  }

  predicate NotAfter(ticks: seq<Tick>, k: nat, last: Option<Time>) {
    k < |ticks| && ticks[k].Sample? ==> last.Some? && ticks[k].at <= last.value
  }

  /** What the ticks of a history have in common, when the last reading was at `last`. */
  ghost predicate Fit(ticks: seq<Tick>, last: Option<Time>, stale: int) {
    && Timed(ticks)
    && (forall k: nat :: Near(ticks, k, stale))
    && (forall k: nat :: NotAfter(ticks, k, last))
    && (|ticks| > 0 && ticks[|ticks| - 1].Sample? ==> last == Some(ticks[|ticks| - 1].at))
  }

  lemma {:induction false} FitBreak(ticks: seq<Tick>, last: Option<Time>, stale: int, now: Option<Time>)
    requires Fit(ticks, last, stale) && (last.Some? ==> now.Some? && last.value <= now.value)
    ensures Fit(ticks + [Break], now, stale)
  {
    var more := ticks + [Break];
    forall a: nat, b: nat ensures InOrder(more, a, b) {
      assert InOrder(ticks, a, b);
    }
    forall k: nat ensures Near(more, k, stale) {
      assert Near(ticks, k, stale);
    }
    forall k: nat ensures NotAfter(more, k, now) {
      assert NotAfter(ticks, k, last);
    }
  }

  lemma {:induction false} FitSample(ticks: seq<Tick>, last: Option<Time>, stale: int, value: real, at: Time)
    requires Fit(ticks, last, stale) && (last.Some? ==> last.value < at)
    requires |ticks| > 0 && ticks[|ticks| - 1].Sample? ==> last.Some? && at - last.value <= stale * SECOND
    ensures Fit(ticks + [Sample(value, at)], Some(at), stale)
  {
    var more := ticks + [Sample(value, at)];
    forall a: nat, b: nat ensures InOrder(more, a, b) {
      assert InOrder(ticks, a, b) && NotAfter(ticks, a, last);
    }
    forall k: nat ensures Near(more, k, stale) {
      assert Near(ticks, k, stale);
    }
    forall k: nat ensures NotAfter(more, k, Some(at)) {
      assert NotAfter(ticks, k, last);
    }
  }

  /** One more reading, seen as a sample or a break, perhaps behind a break. */
  lemma {:induction false} FitReading(ticks: seq<Tick>, last: Option<Time>, stale: int, tick: Tick, at: Time, gap: bool)
    requires Fit(ticks, last, stale) && (last.Some? ==> last.value < at)
    requires tick.Break? || tick == Sample(tick.value, at)
    requires gap || (last.Some? && at - last.value <= stale * SECOND)
    ensures Fit(ticks + if gap then [Break, tick] else [tick], Some(at), stale)
  {
    if gap {
      FitBreak(ticks, last, stale, last);
      assert ticks + [Break, tick] == (ticks + [Break]) + [tick];
    }
    var before := if gap then ticks + [Break] else ticks;
    if tick.Break? {
      FitBreak(before, last, stale, Some(at));
    } else {
      FitSample(before, last, stale, tick.value, at);
    }
  }

  lemma {:induction false} NothingFits(stale: int)
    ensures Fit([], None, stale)
  {
    forall a: nat, b: nat ensures InOrder([], a, b) {
    }
    forall k: nat ensures Near([], k, stale) && NotAfter([], k, None) {
    }
  }

  lemma {:induction false} FitStep(r: Rule, ticks: seq<Tick>, rises: seq<Tick>, xs: seq<Last>, i: Input,
                                   more: seq<Last>)
    requires Fit(ticks, LastTime(xs), r.params.stale) && Fit(rises, LastTime(xs), r.params.stale)
    requires more == if i.Arrive? && Acceptable(r, i.reading.obs, i.now, xs)
                     then xs + [Last(i.reading.obs.at, i.reading.obs.id, i.reading.obs.value)] else xs
    ensures Fit(ticks + LevelSees(r, xs, i), LastTime(more), r.params.stale)
    ensures Fit(rises + RiseSees(r, xs, i), LastTime(more), r.params.stale)
  {
    assert ticks + [] == ticks && rises + [] == rises;
    match i
    case Arrive(x, rate, now) =>
      if Acceptable(r, x.obs, now, xs) {
        var tick := if rate.Some? then Sample(rate.value, x.obs.at) else Break;
        var gap := AfterGap(r, xs, x.obs);
        FitReading(ticks, LastTime(xs), r.params.stale, Sample(x.obs.value, x.obs.at), x.obs.at, gap);
        FitReading(rises, LastTime(xs), r.params.stale, tick, x.obs.at, gap);
      }
    case Verdict(now) =>
      FitBreak(ticks, LastTime(xs), r.params.stale, LastTime(xs));
      FitBreak(rises, LastTime(xs), r.params.stale, LastTime(xs));
  }

  lemma {:induction false} TicksFit(cursor: nat, r: Rule, inputs: seq<Input>)
    ensures var m, last := Reset(cursor), LastTime(AcceptedIn(Reset(cursor), r, inputs));
            Fit(LevelTicks(m, r, inputs), last, r.params.stale) && Fit(RiseTicks(m, r, inputs), last, r.params.stale)
  {
    var m := Reset(cursor);
    if |inputs| == 0 {
      NothingFits(r.params.stale);
    } else {
      var front, i := inputs[..|inputs| - 1], inputs[|inputs| - 1];
      assert inputs == front + [i];
      TicksFit(cursor, r, front);
      TicksExactly(cursor, r, front, i);
      AcceptedExactly(cursor, r, front, i);
      FitStep(r, LevelTicks(m, r, front), RiseTicks(m, r, front), AcceptedIn(m, r, front), i,
              AcceptedIn(m, r, front + [i]));
    }
  }

  /** No hold is measured over a gap: in an unbroken run each reading follows the one
    * before within the stale limit. */
  lemma {:induction false} HoldSpansNoGap(cursor: nat, r: Rule, inputs: seq<Input>, rising: bool, j: nat, i: nat,
                                           t: Severity, k: nat)
    requires var m, p := Reset(cursor), r.params;
             var ticks := if rising then RiseTicks(m, r, inputs) else LevelTicks(m, r, inputs);
             UnbrokenRun(ticks, j, i, t, if rising then p.rise else p.level, p.hold) && j <= k < i
    ensures var m := Reset(cursor);
            var ticks := if rising then RiseTicks(m, r, inputs) else LevelTicks(m, r, inputs);
            && ticks[k].Sample? && ticks[k + 1].Sample?
            && 0 < ticks[k + 1].at - ticks[k].at <= r.params.stale * SECOND
  {
    var m, p := Reset(cursor), r.params;
    var ticks := if rising then RiseTicks(m, r, inputs) else LevelTicks(m, r, inputs);
    TicksFit(cursor, r, inputs);
    assert Near(ticks, k, p.stale);
    var band := if rising then p.rise else p.level;
    assert Target(ticks, k, band, p.hold) == Some(t) && Target(ticks, k + 1, band, p.hold) == Some(t);
  }

  // ---------------------------------------------------------------- what severity that comes to

  /** Tick i is the last sample. */
  ghost predicate LastSample(ticks: seq<Tick>, i: nat) {
    i < |ticks| && ticks[i].Sample? && forall k | i < k < |ticks| :: ticks[k] == Break
  }

  lemma {:induction false} BreaksKeep(ticks: seq<Tick>, i: nat, n: nat, band: Band, hold: int)
    requires i < n <= |ticks| && forall k | i < k < n :: ticks[k] == Break
    ensures State(ticks, n, band, hold).severity == State(ticks, i + 1, band, hold).severity
  {
    if i + 1 < n {
      BreaksKeep(ticks, i, n - 1, band, hold);
      assert ticks[..n][..n - 1] == ticks[..n - 1];
    }
  }

  /** What the samples say of the severity s at the end. From any state, a zone held up
    * to the last sample is reached; a stretch at or above the warning threshold that
    * found the condition calm has opened it exactly if it held a zone; and a low last
    * sample leaves it normal. */
  ghost predicate Follows(ticks: seq<Tick>, i: nat, band: Band, hold: int, s: Severity)
    requires i < |ticks| && ticks[i].Sample?
  {
    && (forall a: nat, t: Severity :: HeldZone(ticks, a, i, band, hold, t) ==> Rank(s) >= Rank(t))
    && (forall j: nat :: Opens(ticks, j, i, band, hold, s))
    && (ticks[i].value < band.warning - band.hysteresis ==> s == Normal)
  }

  ghost predicate Opens(ticks: seq<Tick>, j: nat, i: nat, band: Band, hold: int, s: Severity)
    requires i < |ticks|
  {
    High(ticks, j, i, band) && State(ticks, j, band, hold) == CALM ==>
      (s != Normal <==> HeldWithin(ticks, j, i, band, hold))
  }

  lemma {:induction false} SeverityFollows(ticks: seq<Tick>, i: nat, band: Band, hold: int)
    requires ValidBand(band) && Timed(ticks) && LastSample(ticks, i)
    ensures Follows(ticks, i, band, hold, Replay(CALM, ticks, band, hold).severity)
  {
    var s := Replay(CALM, ticks, band, hold).severity;
    BreaksKeep(ticks, i, |ticks|, band, hold);
    assert ticks[..|ticks|] == ticks;
    forall a: nat, t: Severity | HeldZone(ticks, a, i, band, hold, t) ensures Rank(s) >= Rank(t) {
      HeldIsReached(ticks, a, i, band, hold, t);
    }
    forall j: nat ensures Opens(ticks, j, i, band, hold, s) {
      if High(ticks, j, i, band) && State(ticks, j, band, hold) == CALM {
        OpensExactly(ticks, j, i, band, hold);
      }
    }
    if ticks[i].value < band.warning - band.hysteresis {
      LowIsCalm(ticks, i, band, hold);
    }
  }

  /** The level severity follows the accepted readings ... */
  lemma {:induction false} LevelFollows(cursor: nat, r: Rule, inputs: seq<Input>, i: nat)
    requires ValidParams(r.params) && LastSample(LevelTicks(Reset(cursor), r, inputs), i)
    ensures Follows(LevelTicks(Reset(cursor), r, inputs), i, r.params.level, r.params.hold,
                    Run(Reset(cursor), r, inputs).trio.level.severity)
  {
    TicksFit(cursor, r, inputs);
    RunIsReplay(Reset(cursor), r, inputs);
    SeverityFollows(LevelTicks(Reset(cursor), r, inputs), i, r.params.level, r.params.hold);
  }

  /** ... and the rise severity their rates. */
  lemma {:induction false} RiseFollows(cursor: nat, r: Rule, inputs: seq<Input>, i: nat)
    requires ValidParams(r.params) && LastSample(RiseTicks(Reset(cursor), r, inputs), i)
    ensures Follows(RiseTicks(Reset(cursor), r, inputs), i, r.params.rise, r.params.hold,
                    Run(Reset(cursor), r, inputs).trio.rise.severity)
  {
    TicksFit(cursor, r, inputs);
    RunIsReplay(Reset(cursor), r, inputs);
    SeverityFollows(RiseTicks(Reset(cursor), r, inputs), i, r.params.rise, r.params.hold);
  }

  // ---------------------------------------------------------------- staleness

  /** A verdict leaves the stale condition at a warning exactly if the rule is silent,
    * and touches no other severity. */
  lemma {:induction false} StaleIsSilence(cursor: nat, r: Rule, inputs: seq<Input>, now: Time)
    ensures var m := Reset(cursor);
            var before, after := Run(m, r, inputs).trio, Run(m, r, inputs + [Verdict(now)]).trio;
            && after.stale.severity
               == (if Silent(r, AcceptedIn(m, r, inputs + [Verdict(now)]), now) then Warning else Normal)
            && after.level.severity == before.level.severity && after.rise.severity == before.rise.severity
  {
    assert (inputs + [Verdict(now)])[..|inputs|] == inputs;
    AcceptedTimesIncrease(Reset(cursor), r, inputs);
  }

  // ---------------------------------------------------------------- the readings taken

  /** A committed observation of the rule's sensor that an evaluation at time `now`
    * found acceptable as far as its own time, type and unit go. */
  ghost predicate Found(x: Last, rs: seq<Reading>, r: Rule, now: Time) {
    exists o: Obs :: o in ObsSet(rs) && FitsRule(o, r, now) && x == Last(o.at, o.id, o.value)
  }

  predicate FitsRule(o: Obs, r: Rule, now: Time) {
    && o.sensor == r.params.sensor && o.sensorType == "water-level" && o.unit == "m"
    && r.updatedAt <= o.at <= now && now - o.at <= r.params.stale * SECOND
  }

  /** Some evaluation found it among what was committed then. */
  ghost predicate FoundOnce(x: Last, r: Rule, snaps: seq<seq<Reading>>, nows: seq<Time>)
    requires |nows| == |snaps|
  {
    exists k: nat :: k < |snaps| && Found(x, snaps[k], r, nows[k])
  }

  ghost predicate AllFound(xs: seq<Last>, r: Rule, snaps: seq<seq<Reading>>, nows: seq<Time>)
    requires |nows| == |snaps|
  {
    forall i | 0 <= i < |xs| :: FoundOnce(xs[i], r, snaps, nows)
  }

  /** An arrival that an evaluation of rs at `now` may bring. */
  ghost predicate Brings(i: Input, rs: seq<Reading>, sensor: string, now: Time) {
    i.Arrive? ==> i.reading in rs && i.reading.obs.sensor == sensor && i.now == now
  }

  lemma {:induction false} EvaluationBrings(rs: seq<Reading>, r: Rule, cursor: nat, now: Time, k: nat)
    requires ValidParams(r.params) && k < |EvaluationInputs(rs, r, cursor, BATCH, now)|
    ensures Brings(EvaluationInputs(rs, r, cursor, BATCH, now)[k], rs, r.params.sensor, now)
  {
    var batch := Batch(rs, r, cursor, HighSequence(rs), BATCH);
    WaitingMembers(rs, r.params.sensor, cursor, HighSequence(rs));
    SameMembers(SortByTime(batch), batch);
    if k < |batch| {
      var x := SortByTime(batch)[k];
      assert x in batch;
      var n :| 0 <= n < |batch| && batch[n] == x;
      assert x in Waiting(rs, r.params.sensor, cursor, HighSequence(rs));
    }
  }

  lemma {:induction false} AcceptedAppend(m: Machine, r: Rule, a: seq<Input>, b: seq<Input>)
    ensures AcceptedIn(m, r, a + b) == AcceptedIn(m, r, a) + AcceptedIn(Run(m, r, a), r, b)
    decreases |b|
  {
    if |b| == 0 {
      assert a + b == a;
    } else {
      var front := b[..|b| - 1];
      assert (a + b)[..|a + b| - 1] == a + front;
      AcceptedAppend(m, r, a, front);
      RunAppend(m, r, a, front);
    }
  }

  lemma {:induction false} AcceptedAreFound(m: Machine, r: Rule, rs: seq<Reading>, now: Time, inputs: seq<Input>,
                                            i: nat)
    requires forall k | 0 <= k < |inputs| :: Brings(inputs[k], rs, r.params.sensor, now)
    requires i < |AcceptedIn(m, r, inputs)|
    ensures Found(AcceptedIn(m, r, inputs)[i], rs, r, now)
  {
    var front, last := inputs[..|inputs| - 1], inputs[|inputs| - 1];
    if i < |AcceptedIn(m, r, front)| {
      AcceptedAreFound(m, r, rs, now, front, i);
    } else {
      assert Brings(last, rs, r.params.sensor, now);
      assert last.reading.obs in ObsSet(rs) && FitsRule(last.reading.obs, r, now);
    }
  }

  /** Every reading accepted in a run of evaluations was committed when one of them ran,
    * for the rule's sensor, as a water level in metres, and was at that time neither
    * older than the rule or the stale limit nor from the future. */
  lemma {:induction false} AcceptedWereFound(m: Machine, r: Rule, snaps: seq<seq<Reading>>, nows: seq<Time>)
    requires ValidParams(r.params) && |nows| == |snaps|
    ensures AllFound(AcceptedIn(m, r, AllInputs(m, r, snaps, nows)), r, snaps, nows)
  {
    if |snaps| > 0 {
      var n := |snaps| - 1;
      var before := AllInputs(m, r, snaps[..n], nows[..n]);
      AcceptedWereFound(m, r, snaps[..n], nows[..n]);
      var more := LastAccepted(m, r, snaps, nows);
      FoundAppend(AcceptedIn(m, r, before), more, r, snaps, nows);
    }
  }

  lemma {:induction false} LastAccepted(m: Machine, r: Rule, snaps: seq<seq<Reading>>, nows: seq<Time>)
    returns (more: seq<Last>)
    requires ValidParams(r.params) && |nows| == |snaps| > 0
    ensures var n := |snaps| - 1;
            && AcceptedIn(m, r, AllInputs(m, r, snaps, nows))
               == AcceptedIn(m, r, AllInputs(m, r, snaps[..n], nows[..n])) + more
            && FoundIn(more, snaps[n], r, nows[n])
  {
    var n := |snaps| - 1;
    var before := AllInputs(m, r, snaps[..n], nows[..n]);
    var cursor := Evaluations(m, r, snaps[..n], nows[..n]).progress.cursor;
    var inputs := EvaluationInputs(snaps[n], r, cursor, BATCH, nows[n]);
    AllInputsSnoc(m, r, snaps, nows);
    AcceptedOfBoth(m, r, AllInputs(m, r, snaps, nows), before, inputs);
    EvaluationFinds(Run(m, r, before), r, snaps[n], nows[n], cursor);
    more := AcceptedIn(Run(m, r, before), r, inputs);
  }

  lemma {:induction false} AcceptedOfBoth(m: Machine, r: Rule, all: seq<Input>, a: seq<Input>, b: seq<Input>)
    requires all == a + b
    ensures AcceptedIn(m, r, all) == AcceptedIn(m, r, a) + AcceptedIn(Run(m, r, a), r, b)
  {
    AcceptedAppend(m, r, a, b);
  }

  lemma {:induction false} AllInputsSnoc(m: Machine, r: Rule, snaps: seq<seq<Reading>>, nows: seq<Time>)
    requires ValidParams(r.params) && |nows| == |snaps| > 0
    ensures var n := |snaps| - 1;
            var cursor := Evaluations(m, r, snaps[..n], nows[..n]).progress.cursor;
            AllInputs(m, r, snaps, nows)
            == AllInputs(m, r, snaps[..n], nows[..n]) + EvaluationInputs(snaps[n], r, cursor, BATCH, nows[n])
  {
  }

  ghost predicate FoundIn(xs: seq<Last>, rs: seq<Reading>, r: Rule, now: Time) {
    forall i: nat :: FoundAt(xs, i, rs, r, now)
  }

  ghost predicate FoundAt(xs: seq<Last>, i: nat, rs: seq<Reading>, r: Rule, now: Time) {
    i < |xs| ==> Found(xs[i], rs, r, now)
  }

  lemma {:induction false} EvaluationFinds(m: Machine, r: Rule, rs: seq<Reading>, now: Time, cursor: nat)
    requires ValidParams(r.params)
    ensures FoundIn(AcceptedIn(m, r, EvaluationInputs(rs, r, cursor, BATCH, now)), rs, r, now)
  {
    var inputs := EvaluationInputs(rs, r, cursor, BATCH, now);
    forall k | 0 <= k < |inputs| ensures Brings(inputs[k], rs, r.params.sensor, now) {
      EvaluationBrings(rs, r, cursor, now, k);
    }
    forall i: nat ensures FoundAt(AcceptedIn(m, r, inputs), i, rs, r, now) {
      if i < |AcceptedIn(m, r, inputs)| {
        AcceptedAreFound(m, r, rs, now, inputs, i);
      }
    }
  }

  lemma {:induction false} FoundAppend(xs: seq<Last>, more: seq<Last>, r: Rule, snaps: seq<seq<Reading>>,
                                       nows: seq<Time>)
    requires |nows| == |snaps| > 0
    requires var n := |snaps| - 1; AllFound(xs, r, snaps[..n], nows[..n]) && FoundIn(more, snaps[n], r, nows[n])
    ensures AllFound(xs + more, r, snaps, nows)
  {
    var n, all := |snaps| - 1, xs + more;
    forall i | 0 <= i < |all| ensures FoundOnce(all[i], r, snaps, nows) {
      if i < |xs| {
        assert FoundOnce(xs[i], r, snaps[..n], nows[..n]);
        var k: nat :| k < n && Found(xs[i], snaps[..n][k], r, nows[..n][k]);
        assert Found(all[i], snaps[k], r, nows[k]);
      } else {
        assert FoundAt(more, i - |xs|, snaps[n], r, nows[n]);
        assert Found(all[i], snaps[n], r, nows[n]);
      }
    }
  }
}
