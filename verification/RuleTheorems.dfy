/** Results about one rule over any sequence of readings and evaluations. */
module RuleTheorems {
  import opened Wrappers
  import opened Clock
  import opened Conditions
  import opened Rules
  import opened Readings
  import opened RuleMachine

  // ---------------------------------------------------------------- hold, on rule histories

  lemma {:induction false} LevelTicksSnoc(m: Machine, r: Rule, inputs: seq<Input>, n: nat)
    requires n < |inputs|
    ensures inputs[..n + 1][..n] == inputs[..n]
    ensures Run(m, r, inputs[..n + 1]) == Step(Run(m, r, inputs[..n]), r, inputs[n])
    ensures LevelTicks(m, r, inputs[..n + 1])
            == LevelTicks(m, r, inputs[..n]) + LevelTick(Run(m, r, inputs[..n]), r, inputs[n])
    ensures RiseTicks(m, r, inputs[..n + 1])
            == RiseTicks(m, r, inputs[..n]) + RiseTick(Run(m, r, inputs[..n]), r, inputs[n])
  {
    assert inputs[..n + 1][..n] == inputs[..n];
  }

  /** The last of `ticks` is a sample that met severity `before` and left
    * `after`: it raised the severity exactly when the maximal unbroken run of
    * its classification spans the hold, and lowered it at once. */
  ghost predicate HoldDecides(ticks: seq<Tick>, before: Severity, after: Condition, value: real, at: Time, band: Band,
                              hold: int) {
    && |ticks| > 0
    && var t := Classify(value, band, before);
    var start := RunStart(ticks, |ticks| - 1, band, hold);
    && MaximalRun(ticks, start, |ticks| - 1, t, band, hold)
    && ticks[start].Sample?
    && if Rank(t) > Rank(before) then after.severity == (if at - ticks[start].at >= hold * SECOND then t else before)
       else after == Condition(t, None)
  }

  lemma {:induction false} LastSampleHold(base: seq<Tick>, tail: seq<Tick>, value: real, at: Time, band: Band,
                                          hold: int)
    requires tail == [Sample(value, at)] || tail == [Break, Sample(value, at)]
    ensures HoldDecides(base + tail, Replay(CALM, base, band, hold).severity, Replay(CALM, base + tail, band, hold),
                        value, at, band, hold)
  {
    var ticks := base + tail;
    var i := |ticks| - 1;
    if |tail| == 1 {
      assert ticks[..i] == base;
    } else {
      assert ticks[..i] == base + [Break];
      ReplayAppend(CALM, base, [Break], band, hold);
      ReplayPair(Replay(CALM, base, band, hold), Break, Break, band, hold);
    }
    assert ticks[..i + 1] == ticks;
    HoldIsExact(ticks, i, band, hold);
  }

  /** After any history since a rule change, hold decides each accepted reading.
    * Skipped readings and fresh verdicts are no ticks; gaps and stale verdicts
    * are breaks. */
  lemma {:induction false} LevelHoldIsExact(cursor: nat, r: Rule, inputs: seq<Input>, n: nat)
    requires n < |inputs| && inputs[n].Arrive?
    requires Usable(r, Run(Reset(cursor), r, inputs[..n]).progress.last, inputs[n].reading.obs, inputs[n].now)
    ensures HoldDecides(LevelTicks(Reset(cursor), r, inputs[..n + 1]),
                        Run(Reset(cursor), r, inputs[..n]).trio.level.severity,
                        Run(Reset(cursor), r, inputs[..n + 1]).trio.level,
                        inputs[n].reading.obs.value, inputs[n].reading.obs.at, r.params.level, r.params.hold)
  {
    var m, o := Reset(cursor), inputs[n].reading.obs;
    LevelTicksSnoc(m, r, inputs, n);
    RunIsReplay(m, r, inputs[..n]);
    RunIsReplay(m, r, inputs[..n + 1]);
    var tail := LevelTick(Run(m, r, inputs[..n]), r, inputs[n]);
    assert tail == [Sample(o.value, o.at)] || tail == [Break, Sample(o.value, o.at)];
    LastSampleHold(LevelTicks(m, r, inputs[..n]), tail, o.value, o.at, r.params.level, r.params.hold);
  }

  /** The same for the rise condition, where a missing baseline also breaks. */
  lemma {:induction false} RiseHoldIsExact(cursor: nat, r: Rule, inputs: seq<Input>, n: nat)
    requires n < |inputs| && inputs[n].Arrive? && inputs[n].rate.Some?
    requires Usable(r, Run(Reset(cursor), r, inputs[..n]).progress.last, inputs[n].reading.obs, inputs[n].now)
    ensures HoldDecides(RiseTicks(Reset(cursor), r, inputs[..n + 1]),
                        Run(Reset(cursor), r, inputs[..n]).trio.rise.severity,
                        Run(Reset(cursor), r, inputs[..n + 1]).trio.rise,
                        inputs[n].rate.value, inputs[n].reading.obs.at, r.params.rise, r.params.hold)
  {
    var m, v, at := Reset(cursor), inputs[n].rate.value, inputs[n].reading.obs.at;
    LevelTicksSnoc(m, r, inputs, n);
    RunIsReplay(m, r, inputs[..n]);
    RunIsReplay(m, r, inputs[..n + 1]);
    var tail := RiseTick(Run(m, r, inputs[..n]), r, inputs[n]);
    assert tail == [Sample(v, at)] || tail == [Break, Sample(v, at)];
    LastSampleHold(RiseTicks(m, r, inputs[..n]), tail, v, at, r.params.rise, r.params.hold);
  }

  // ---------------------------------------------------------------- accepted readings

  function AcceptedIn(m: Machine, r: Rule, inputs: seq<Input>): seq<Last> {
    if |inputs| == 0 then []
    else
      var front, i := inputs[..|inputs| - 1], inputs[|inputs| - 1];
      AcceptedIn(m, r, front)
      + if i.Arrive? && Usable(r, Run(m, r, front).progress.last, i.reading.obs, i.now)
        then [Accepted(i.reading.obs)] else []
  }

  ghost predicate Increasing(xs: seq<Last>) {
    forall i, j | 0 <= i < j < |xs| :: xs[i].at < xs[j].at
  }

  /** All of them are later than the reading the machine began with. */
  ghost predicate LaterThan(m: Machine, xs: seq<Last>) {
    m.progress.last.Some? ==> forall i | 0 <= i < |xs| :: m.progress.last.value.at < xs[i].at
  }

  function LatestOf(m: Machine, xs: seq<Last>): Option<Last> {
    if |xs| == 0 then m.progress.last else Some(xs[|xs| - 1])
  }

  lemma {:induction false} IncreasingSnoc(m: Machine, xs: seq<Last>, x: Last)
    requires Increasing(xs) && LaterThan(m, xs) && (LatestOf(m, xs).Some? ==> LatestOf(m, xs).value.at < x.at)
    ensures Increasing(xs + [x]) && LaterThan(m, xs + [x]) && LatestOf(m, xs + [x]) == Some(x)
  {
  }

  /** Observation times of accepted readings strictly increase over any run
    * between rule changes, and the stored last reading is the latest of them. */
  lemma {:induction false} AcceptedTimesIncrease(m: Machine, r: Rule, inputs: seq<Input>)
    ensures var xs := AcceptedIn(m, r, inputs);
            Increasing(xs) && LaterThan(m, xs) && Run(m, r, inputs).progress.last == LatestOf(m, xs)
  {
    if |inputs| > 0 {
      var front, i := inputs[..|inputs| - 1], inputs[|inputs| - 1];
      AcceptedTimesIncrease(m, r, front);
      if i.Arrive? && Usable(r, Run(m, r, front).progress.last, i.reading.obs, i.now) {
        IncreasingSnoc(m, AcceptedIn(m, r, front), Accepted(i.reading.obs));
      } else {
        NoneAccepted(m, r, front, i, inputs);
      }
    }
  }

  lemma {:induction false} NoneAccepted(m: Machine, r: Rule, front: seq<Input>, i: Input, inputs: seq<Input>)
    requires |inputs| > 0 && front == inputs[..|inputs| - 1] && i == inputs[|inputs| - 1]
    requires !(i.Arrive? && Usable(r, Run(m, r, front).progress.last, i.reading.obs, i.now))
    ensures AcceptedIn(m, r, inputs) == AcceptedIn(m, r, front)
    ensures Run(m, r, inputs).progress.last == Run(m, r, front).progress.last
  {
  }

  lemma {:induction false} ArrivalsPrefix(xs: seq<Reading>, n: nat, rs: seq<Reading>, p: Params, now: Time)
    requires ValidParams(p) && n <= |xs|
    ensures Arrivals(xs, rs, p, now)[..n] == Arrivals(xs[..n], rs, p, now)
  {
  }

  lemma {:induction false} ArrivalsAppend(xs: seq<Reading>, ys: seq<Reading>, rs: seq<Reading>, p: Params, now: Time)
    requires ValidParams(p)
    ensures Arrivals(xs + ys, rs, p, now) == Arrivals(xs, rs, p, now) + Arrivals(ys, rs, p, now)
  {
  }

  /** Of readings with equal observation times in one run, the usable one with
    * the lowest identifier is accepted. */
  lemma {:induction false} TiesGoToTheLowestId(m: Machine, r: Rule, xs: seq<Reading>, rs: seq<Reading>, now: Time,
                                               j: nat, i: nat)
    requires ValidParams(r.params) && TimeSorted(xs) && i < |xs| && j < |xs|
    requires xs[i].obs.at == xs[j].obs.at && xs[j].obs.id < xs[i].obs.id
    requires IsWaterLevel(xs[j].obs) && Timely(r, xs[j].obs, now)
    ensures !Usable(r, Run(m, r, Arrivals(xs, rs, r.params, now)[..i]).progress.last, xs[i].obs, now)
  {
    var inputs := Arrivals(xs, rs, r.params, now);
    assert j < i;
    assert inputs[..j + 1][..j] == inputs[..j];
    assert inputs[..j + 1][j] == inputs[j];
    var before, after := Run(m, r, inputs[..j]), Run(m, r, inputs[..j + 1]);
    assert after == Step(before, r, inputs[j]);
    assert after.progress.last.Some? && after.progress.last.value.at >= xs[j].obs.at;
    assert inputs[..i] == inputs[..j + 1] + inputs[j + 1..i];
    RunAppend(m, r, inputs[..j + 1], inputs[j + 1..i]);
    AcceptedTimesIncrease(after, r, inputs[j + 1..i]);
  }

  /** A reading the evaluator uses is one its own verdict already counts as stale
    * exactly if it is just as old as the limit. */
  lemma {:induction false} UsedThoughStale(r: Rule, last: Option<Last>, o: Obs, now: Time)
    requires Usable(r, last, o, now)
    ensures IsStale(r, Some(Accepted(o)), now) <==> now - o.at == r.params.stale * SECOND
  {
  }

  /** Such a reading opens a stale alert in the very run that accepts it, although
    * docs/alerting.md has stale readings skipped. */
  lemma {:induction false} LimitReading(r: Rule, x: Reading, rate: Option<real>, now: Time)
    requires x.obs == Obs(0, now - r.params.stale * SECOND, r.params.sensor, "water-level", "m", x.obs.value)
    requires ValidParams(r.params) && r.updatedAt <= now - r.params.stale * SECOND
    ensures var m, inputs := Reset(0), [Arrive(x, rate, now), Verdict(now)];
            && Run(m, r, inputs).progress.last == Some(Accepted(x.obs))
            && Run(m, r, inputs).trio.stale.severity == Warning
            && Change(Stale, Warning, now) in Changes(m, r, inputs)
  {
    var m, inputs := Reset(0), [Arrive(x, rate, now), Verdict(now)];
    UsedThoughStale(r, None, x.obs, now);
    assert inputs[..1] == [Arrive(x, rate, now)] && inputs[..1][..0] == [];
    assert Run(m, r, inputs[..1]) == Absorb(m, r, x, rate, now);
    assert StepChanges(Run(m, r, inputs[..1]), r, Verdict(now)) == [Change(Stale, Warning, now)];
    assert Changes(m, r, inputs) == Changes(m, r, inputs[..1]) + [Change(Stale, Warning, now)];
  }

  // ---------------------------------------------------------------- arrival order

  /** How many readings of the rule's sensor wait behind its cursor. */
  function Backlog(m: Machine, r: Rule, rs: seq<Reading>): nat {
    |Waiting(rs, r.params.sensor, m.progress.cursor, HighSequence(rs))|
  }

  ghost predicate SameButCursor(a: Machine, b: Machine) {
    a.trio == b.trio && a.progress.last == b.progress.last
  }

  ghost predicate SameInput(a: Input, b: Input) {
    match a
    case Verdict(now) => b == a
    case Arrive(x, rate, now) => b.Arrive? && x.obs == b.reading.obs && rate == b.rate && now == b.now
  }

  lemma {:induction false} SequenceNumbersDoNotMatter(m: Machine, r: Rule, a: seq<Input>, b: seq<Input>)
    requires |a| == |b| && forall i | 0 <= i < |a| :: SameInput(a[i], b[i])
    ensures SameButCursor(Run(m, r, a), Run(m, r, b))
    ensures Changes(m, r, a) == Changes(m, r, b)
  {
    if |a| > 0 {
      SequenceNumbersDoNotMatter(m, r, a[..|a| - 1], b[..|b| - 1]);
      assert SameInput(a[|a| - 1], b[|b| - 1]);
    }
  }

  /** Two registries that differ only in the order in which unhandled
    * observations arrived. */
  ghost predicate Rearranged(a: seq<Reading>, b: seq<Reading>, cursor: nat) {
    && Committed(a) && Committed(b) && |a| == |b|
    && ObsSet(a) == ObsSet(b)
    && forall i | 0 <= i < |a| :: a[i].sequence == b[i].sequence && (a[i].sequence <= cursor ==> a[i] == b[i])
  }

  lemma {:induction false} RearrangedPartner(a: seq<Reading>, b: seq<Reading>, cursor: nat, i: nat) returns (j: nat)
    requires Rearranged(a, b, cursor) && i < |a| && a[i].sequence > cursor
    ensures j < |b| && b[j].obs == a[i].obs && b[j].sequence > cursor
  {
    assert a[i] in a;
    assert a[i].obs in ObsSet(b);
    j :| 0 <= j < |b| && b[j].obs == a[i].obs;
    assert a[j] == b[j] ==> i == j;
  }

  lemma {:induction false} RearrangedWaiting(a: seq<Reading>, b: seq<Reading>, sensor: string, cursor: nat)
    requires Rearranged(a, b, cursor)
    ensures ObsSet(Waiting(a, sensor, cursor, HighSequence(a))) <= ObsSet(Waiting(b, sensor, cursor, HighSequence(b)))
  {
    var wa, wb := Waiting(a, sensor, cursor, HighSequence(a)), Waiting(b, sensor, cursor, HighSequence(b));
    WaitingMembers(a, sensor, cursor, HighSequence(a));
    WaitingMembers(b, sensor, cursor, HighSequence(b));
    HighSequenceBounds(b);
    forall x | x in wa ensures x.obs in ObsSet(wb) {
      var i :| 0 <= i < |a| && a[i] == x;
      var j := RearrangedPartner(a, b, cursor, i);
      assert b[j] in b && b[j] in wb;
    }
  }

  lemma {:induction false} RearrangedBatches(a: seq<Reading>, b: seq<Reading>, sensor: string, cursor: nat)
    requires Rearranged(a, b, cursor)
    ensures ObsOf(SortByTime(Waiting(a, sensor, cursor, HighSequence(a))))
            == ObsOf(SortByTime(Waiting(b, sensor, cursor, HighSequence(b))))
  {
    var wa, wb := Waiting(a, sensor, cursor, HighSequence(a)), Waiting(b, sensor, cursor, HighSequence(b));
    RearrangedWaiting(a, b, sensor, cursor);
    RearrangedWaiting(b, a, sensor, cursor);
    WaitingDistinct(a, sensor, cursor, HighSequence(a));
    WaitingDistinct(b, sensor, cursor, HighSequence(b));
    SortSorts(wa);
    SortSorts(wb);
    SameMembers(SortByTime(wa), wa);
    SameMembers(SortByTime(wb), wb);
    assert ObsSet(SortByTime(wa)) == ObsSet(wa) && ObsSet(SortByTime(wb)) == ObsSet(wb);
    SortedIsUnique(SortByTime(wa), SortByTime(wb));
  }

  lemma {:induction false} SameObsSameInputs(a: seq<Reading>, b: seq<Reading>, sa: seq<Reading>, sb: seq<Reading>,
                                             p: Params, now: Time)
    requires ValidParams(p) && ObsSet(a) == ObsSet(b) && DistinctIds(a) && ObsOf(sa) == ObsOf(sb)
    ensures |sa| == |sb|
    ensures forall i | 0 <= i < |sa| :: SameInput(Arrivals(sa, a, p, now)[i], Arrivals(sb, b, p, now)[i])
  {
    assert |sa| == |ObsOf(sa)| == |ObsOf(sb)| == |sb|;
    forall i | 0 <= i < |sa| ensures SameInput(Arrivals(sa, a, p, now)[i], Arrivals(sb, b, p, now)[i]) {
      assert sa[i].obs == ObsOf(sa)[i] == ObsOf(sb)[i] == sb[i].obs;
      BaselineIgnoresOrder(a, b, p, sa[i].obs);
    }
  }

  /** The inputs of a run differ only in sequence numbers. */
  ghost predicate SameInputs(a: seq<Input>, b: seq<Input>) {
    |a| == |b| && forall i | 0 <= i < |a| :: SameInput(a[i], b[i])
  }

  lemma {:induction false} RearrangedInputs(r: Rule, cursor: nat, a: seq<Reading>, b: seq<Reading>, now: Time)
    requires ValidParams(r.params) && Rearranged(a, b, cursor)
    requires |Waiting(a, r.params.sensor, cursor, HighSequence(a))| <= BATCH
    requires |Waiting(b, r.params.sensor, cursor, HighSequence(b))| <= BATCH
    ensures SameInputs(EvaluationInputs(a, r, cursor, BATCH, now), EvaluationInputs(b, r, cursor, BATCH, now))
  {
    var wa := Waiting(a, r.params.sensor, cursor, HighSequence(a));
    var wb := Waiting(b, r.params.sensor, cursor, HighSequence(b));
    assert Batch(a, r, cursor, HighSequence(a), BATCH) == wa && Batch(b, r, cursor, HighSequence(b), BATCH) == wb;
    RearrangedBatches(a, b, r.params.sensor, cursor);
    SameObsSameInputs(a, b, SortByTime(wa), SortByTime(wb), r.params, now);
  }

  /** Permuting the arrival order of at most one batch of readings leaves every
    * condition, the last accepted reading and every reported change as it is. */
  lemma {:induction false} ArrivalOrderIsIrrelevant(m: Machine, r: Rule, a: seq<Reading>, b: seq<Reading>, now: Time)
    requires ValidParams(r.params) && Rearranged(a, b, m.progress.cursor)
    requires Backlog(m, r, a) <= BATCH && Backlog(m, r, b) <= BATCH
    ensures SameButCursor(EvaluateRule(m, r, a, BATCH, now), EvaluateRule(m, r, b, BATCH, now))
    ensures Changes(m, r, EvaluationInputs(a, r, m.progress.cursor, BATCH, now))
            == Changes(m, r, EvaluationInputs(b, r, m.progress.cursor, BATCH, now))
  {
    var cursor := m.progress.cursor;
    RearrangedInputs(r, cursor, a, b, now);
    SequenceNumbersDoNotMatter(m, r, EvaluationInputs(a, r, cursor, BATCH, now),
                               EvaluationInputs(b, r, cursor, BATCH, now));
  }

  // ---------------------------------------------------------------- cursor

  lemma {:induction false} CursorBounds(m: Machine, r: Rule, xs: seq<Reading>, rs: seq<Reading>, now: Time)
    requires ValidParams(r.params)
    ensures var c := Run(m, r, Arrivals(xs, rs, r.params, now)).progress.cursor;
            && c >= m.progress.cursor
            && (forall i | 0 <= i < |xs| :: xs[i].sequence <= c)
            && (c == m.progress.cursor || exists i :: 0 <= i < |xs| && xs[i].sequence == c)
  {
    if |xs| > 0 {
      var front := xs[..|xs| - 1];
      ArrivalsPrefix(xs, |xs| - 1, rs, r.params, now);
      CursorBounds(m, r, front, rs, now);
      var c := Run(m, r, Arrivals(front, rs, r.params, now)).progress.cursor;
      if c != m.progress.cursor {
        var i :| 0 <= i < |front| && front[i].sequence == c;
        assert xs[i].sequence == c;
      }
      assert forall i | 0 <= i < |xs| - 1 :: xs[i] == front[i];
    }
  }

  /** The last reading of a batch has its highest sequence. */
  lemma {:induction false} LastIsHighest(rs: seq<Reading>, r: Rule, cursor: nat, limit: nat, x: Reading)
    requires Committed(rs) && x in Batch(rs, r, cursor, HighSequence(rs), limit)
    ensures var batch := Batch(rs, r, cursor, HighSequence(rs), limit);
            x.sequence <= batch[|batch| - 1].sequence && x.sequence > cursor
  {
    var w := Waiting(rs, r.params.sensor, cursor, HighSequence(rs));
    var batch := Batch(rs, r, cursor, HighSequence(rs), limit);
    WaitingMembers(rs, r.params.sensor, cursor, HighSequence(rs));
    WaitingOrder(rs, r.params.sensor, cursor, HighSequence(rs));
    var i :| 0 <= i < |batch| && batch[i] == x;
    assert w[i] == x && w[|batch| - 1] == batch[|batch| - 1] && x in w;
  }

  /** A cursor that has moved past readings of a batch stands at one of them, and
    * so at the last. */
  lemma {:induction false} CursorAtLast(rs: seq<Reading>, r: Rule, cursor: nat, limit: nat, xs: seq<Reading>, c: nat)
    requires Committed(rs) && |xs| == |Batch(rs, r, cursor, HighSequence(rs), limit)|
    requires forall x :: x in xs <==> x in Batch(rs, r, cursor, HighSequence(rs), limit)
    requires c >= cursor && (forall i | 0 <= i < |xs| :: xs[i].sequence <= c)
    requires c == cursor || exists i :: 0 <= i < |xs| && xs[i].sequence == c
    ensures c == CursorAfter(Batch(rs, r, cursor, HighSequence(rs), limit), cursor)
  {
    var batch := Batch(rs, r, cursor, HighSequence(rs), limit);
    if |batch| > 0 {
      var z := batch[|batch| - 1];
      assert z in batch;
      LastIsHighest(rs, r, cursor, limit, z);
      assert z in xs && c >= z.sequence;
      if c != cursor {
        var i :| 0 <= i < |xs| && xs[i].sequence == c;
        assert xs[i] in batch;
        LastIsHighest(rs, r, cursor, limit, xs[i]);
      }
    }
  }

  lemma {:induction false} VerdictKeepsCursor(m: Machine, r: Rule, front: seq<Input>, now: Time)
    ensures Run(m, r, front + [Verdict(now)]).progress == Run(m, r, front).progress
  {
    assert (front + [Verdict(now)])[..|front|] == front;
  }

  /** A run moves the cursor to the last arrival it took, whatever the order in
    * which it handled them. */
  lemma {:induction false} CursorAfterEvaluation(m: Machine, r: Rule, rs: seq<Reading>, limit: nat, now: Time)
    requires ValidParams(r.params) && Committed(rs)
    ensures EvaluateRule(m, r, rs, limit, now).progress.cursor
            == CursorAfter(Batch(rs, r, m.progress.cursor, HighSequence(rs), limit), m.progress.cursor)
  {
    var cursor := m.progress.cursor;
    var batch := Batch(rs, r, cursor, HighSequence(rs), limit);
    var xs := SortByTime(batch);
    var arrivals := Arrivals(xs, rs, r.params, now);
    CursorBounds(m, r, xs, rs, now);
    SameMembers(xs, batch);
    CursorAtLast(rs, r, cursor, limit, xs, Run(m, r, arrivals).progress.cursor);
    VerdictKeepsCursor(m, r, arrivals, now);
  }

  // ---------------------------------------------------------------- every reading once

  lemma {:induction false} WaitingJoin(rs: seq<Reading>, sensor: string, a: nat, b: nat, c: nat)
    requires SequenceSorted(rs) && a <= b <= c
    ensures Waiting(rs, sensor, a, c) == Waiting(rs, sensor, a, b) + Waiting(rs, sensor, b, c)
  {
    if |rs| > 0 {
      var front, x := rs[..|rs| - 1], rs[|rs| - 1];
      WaitingJoin(front, sensor, a, b, c);
      if x.sequence <= b {
        NothingWaits(front, sensor, b, c);
      }
    }
  }

  lemma {:induction false} TakeDrop(w: seq<Reading>, n: nat)
    requires n <= |w|
    ensures w == w[..n] + w[n..]
  {
  }

  lemma {:induction false} CancelSuffix(a: seq<Reading>, b: seq<Reading>, z: seq<Reading>)
    requires a + z == b + z
    ensures a == b
  {
    assert |a| == |a + z| - |z| == |b|;
    assert a == (a + z)[..|a|] && b == (b + z)[..|a|];
  }

  /** The first n waiting readings are what waits up to the last of them. */
  lemma {:induction false} FirstAreInterval(rs: seq<Reading>, sensor: string, cursor: nat, high: nat, n: nat)
    requires Committed(rs) && n <= |Waiting(rs, sensor, cursor, high)|
    requires CursorAfter(Waiting(rs, sensor, cursor, high)[..n], cursor) <= high || n == 0
    ensures var first := Waiting(rs, sensor, cursor, high)[..n];
            cursor <= CursorAfter(first, cursor) && Waiting(rs, sensor, cursor, CursorAfter(first, cursor)) == first
  {
    var w := Waiting(rs, sensor, cursor, high);
    WaitingSplit(rs, sensor, cursor, high, n);
    if n == 0 {
      NothingWaits(rs, sensor, cursor, cursor);
    } else {
      var next := CursorAfter(w[..n], cursor);
      WaitingJoin(rs, sensor, cursor, next, high);
      TakeDrop(w, n);
      CancelSuffix(Waiting(rs, sensor, cursor, next), w[..n], w[n..]);
    }
  }

  lemma {:induction false} WaitingBelowHigh(rs: seq<Reading>, sensor: string, cursor: nat, high: nat, n: nat)
    requires 0 < n <= |Waiting(rs, sensor, cursor, high)|
    ensures CursorAfter(Waiting(rs, sensor, cursor, high)[..n], cursor) <= high
  {
    WaitingMembers(rs, sensor, cursor, high);
    assert Waiting(rs, sensor, cursor, high)[n - 1] in Waiting(rs, sensor, cursor, high);
  }

  /** What a run takes is what waits between the old cursor and the new one. */
  lemma {:induction false} BatchIsInterval(rs: seq<Reading>, r: Rule, cursor: nat, limit: nat)
    requires Committed(rs)
    ensures var batch := Batch(rs, r, cursor, HighSequence(rs), limit);
            var next := CursorAfter(batch, cursor);
            && cursor <= next
            && (next == cursor || next <= HighSequence(rs))
            && Waiting(rs, r.params.sensor, cursor, next) == batch
  {
    var n := |Batch(rs, r, cursor, HighSequence(rs), limit)|;
    if n > 0 {
      WaitingBelowHigh(rs, r.params.sensor, cursor, HighSequence(rs), n);
    }
    FirstAreInterval(rs, r.params.sensor, cursor, HighSequence(rs), n);
  }

  /** The k-th registry, if there is one, is well formed and extends the one before. */
  ghost predicate ExtendsLast(snaps: seq<seq<Reading>>, k: nat) {
    k < |snaps| ==> Committed(snaps[k]) && (k > 0 ==> snaps[k - 1] <= snaps[k])
  }

  /** Registries seen by successive runs: each extends the one before. */
  ghost predicate Growing(snaps: seq<seq<Reading>>) {
    forall k: nat :: ExtendsLast(snaps, k)
  }

  /** The machine after one evaluation at each snapshot. */
  function Evaluations(m: Machine, r: Rule, snaps: seq<seq<Reading>>, nows: seq<Time>): Machine
    requires ValidParams(r.params) && |nows| == |snaps|
  {
    if |snaps| == 0 then m
    else
      var n := |snaps| - 1;
      EvaluateRule(Evaluations(m, r, snaps[..n], nows[..n]), r, snaps[n], BATCH, nows[n])
  }

  /** Everything those evaluations took, in the order they took it. */
  function Examined(m: Machine, r: Rule, snaps: seq<seq<Reading>>, nows: seq<Time>): seq<Reading>
    requires ValidParams(r.params) && |nows| == |snaps|
  {
    if |snaps| == 0 then []
    else
      var n := |snaps| - 1;
      var before := Evaluations(m, r, snaps[..n], nows[..n]);
      Examined(m, r, snaps[..n], nows[..n])
      + Batch(snaps[n], r, before.progress.cursor, HighSequence(snaps[n]), BATCH)
  }

  /** The inputs of those evaluations, one after another. */
  function AllInputs(m: Machine, r: Rule, snaps: seq<seq<Reading>>, nows: seq<Time>): seq<Input>
    requires ValidParams(r.params) && |nows| == |snaps|
  {
    if |snaps| == 0 then []
    else
      var n := |snaps| - 1;
      var cursor := Evaluations(m, r, snaps[..n], nows[..n]).progress.cursor;
      AllInputs(m, r, snaps[..n], nows[..n]) + EvaluationInputs(snaps[n], r, cursor, BATCH, nows[n])
  }

  /** One more evaluation appends its inputs and its changes. */
  lemma {:induction false} OneMoreEvaluation(m: Machine, r: Rule, snaps: seq<seq<Reading>>, nows: seq<Time>,
                                             rs: seq<Reading>, now: Time)
    requires ValidParams(r.params) && |nows| == |snaps|
    ensures var before := Evaluations(m, r, snaps, nows);
            var inputs := EvaluationInputs(rs, r, before.progress.cursor, BATCH, now);
            && Evaluations(m, r, snaps + [rs], nows + [now]) == EvaluateRule(before, r, rs, BATCH, now)
            && AllInputs(m, r, snaps + [rs], nows + [now]) == AllInputs(m, r, snaps, nows) + inputs
            && Changes(m, r, AllInputs(m, r, snaps, nows) + inputs)
               == Changes(m, r, AllInputs(m, r, snaps, nows)) + Changes(before, r, inputs)
  {
    assert (snaps + [rs])[..|snaps|] == snaps && (nows + [now])[..|snaps|] == nows;
    EvaluationsAreInputs(m, r, snaps, nows);
    ChangesAppend(m, r, AllInputs(m, r, snaps, nows),
                  EvaluationInputs(rs, r, Evaluations(m, r, snaps, nows).progress.cursor, BATCH, now));
  }

  lemma {:induction false} EvaluationsAreInputs(m: Machine, r: Rule, snaps: seq<seq<Reading>>, nows: seq<Time>)
    requires ValidParams(r.params) && |nows| == |snaps|
    ensures Evaluations(m, r, snaps, nows) == Run(m, r, AllInputs(m, r, snaps, nows))
  {
    if |snaps| > 0 {
      var n := |snaps| - 1;
      var front := AllInputs(m, r, snaps[..n], nows[..n]);
      EvaluationsAreInputs(m, r, snaps[..n], nows[..n]);
      var before := Run(m, r, front);
      var inputs := EvaluationInputs(snaps[n], r, before.progress.cursor, BATCH, nows[n]);
      assert AllInputs(m, r, snaps, nows) == front + inputs;
      assert Evaluations(m, r, snaps, nows) == Run(before, r, inputs);
      RunAppend(m, r, front, inputs);
    }
  }

  lemma {:induction false} GrowthKeepsHandled(a: seq<Reading>, b: seq<Reading>, sensor: string, low: nat, cursor: nat)
    requires Committed(a) && Committed(b) && a <= b && (cursor == low || cursor <= HighSequence(a))
    ensures Waiting(b, sensor, low, cursor) == Waiting(a, sensor, low, cursor)
  {
    assert b == a + b[|a|..];
    HighSequenceBounds(a);
    WaitingAppend(a, b[|a|..], sensor, low, cursor);
    forall i | 0 <= i < |b[|a|..]| ensures !Waits(b[|a|..][i], sensor, low, cursor) {
      assert b[|a|..][i] == b[|a| + i];
      if cursor != low && HighSequence(a) > 0 {
        var k :| 0 <= k < |a| && a[k].sequence == HighSequence(a);
        assert a[k] == b[k];
      }
    }
    NothingWaits(b[|a|..], sensor, low, cursor);
  }

  lemma {:induction false} GrowingFront(snaps: seq<seq<Reading>>)
    requires Growing(snaps) && |snaps| > 0
    ensures Growing(snaps[..|snaps| - 1]) && Committed(snaps[|snaps| - 1])
    ensures |snaps| > 1 ==> Committed(snaps[|snaps| - 2]) && snaps[|snaps| - 2] <= snaps[|snaps| - 1]
  {
    var front := snaps[..|snaps| - 1];
    forall k: nat ensures ExtendsLast(front, k) {
      assert ExtendsLast(snaps, k);
    }
    assert ExtendsLast(snaps, |snaps| - 1);
    assert |snaps| > 1 ==> ExtendsLast(snaps, |snaps| - 2);
  }

  lemma {:induction false} GrowthKeepsHigh(a: seq<Reading>, b: seq<Reading>)
    requires a <= b
    ensures HighSequence(a) <= HighSequence(b)
  {
    HighSequenceBounds(a);
    HighSequenceBounds(b);
    if HighSequence(a) > 0 {
      var i :| 0 <= i < |a| && a[i].sequence == HighSequence(a);
      assert b[i] == a[i];
    }
  }

  /** The readings taken are exactly the sensor's committed readings between two
    * cursors, each once and in sequence order. */
  ghost predicate TakenExactly(taken: seq<Reading>, rs: seq<Reading>, sensor: string, low: nat, cursor: nat) {
    && low <= cursor
    && (cursor == low || cursor <= HighSequence(rs))
    && taken == Waiting(rs, sensor, low, cursor)
  }

  /** The committed readings of the sensor with a sequence number above low and up to
    * high, each of them once and in sequence order. */
  ghost predicate EachOnce(taken: seq<Reading>, rs: seq<Reading>, sensor: string, low: nat, high: nat) {
    && (forall x :: x in taken <==> x in rs && x.obs.sensor == sensor && low < x.sequence <= high)
    && forall i, j | 0 <= i < j < |taken| :: taken[i].sequence < taken[j].sequence
  }

  lemma {:induction false} WaitingIsEachOnce(rs: seq<Reading>, sensor: string, low: nat, high: nat)
    requires Committed(rs)
    ensures EachOnce(Waiting(rs, sensor, low, high), rs, sensor, low, high)
  {
    WaitingMembers(rs, sensor, low, high);
    WaitingOrder(rs, sensor, low, high);
  }

  /** What was taken from a registry is seen unchanged in any later one. */
  lemma {:induction false} TakenStays(taken: seq<Reading>, a: seq<Reading>, b: seq<Reading>, sensor: string, low: nat,
                                      cursor: nat)
    requires Committed(a) && Committed(b) && a <= b && TakenExactly(taken, a, sensor, low, cursor)
    ensures TakenExactly(taken, b, sensor, low, cursor)
  {
    GrowthKeepsHandled(a, b, sensor, low, cursor);
    GrowthKeepsHigh(a, b);
  }

  /** One more evaluation takes the next interval of waiting readings. */
  lemma {:induction false} NextInterval(before: Machine, r: Rule, taken: seq<Reading>, low: nat, rs: seq<Reading>,
                                        now: Time)
    requires ValidParams(r.params) && Committed(rs)
    requires TakenExactly(taken, rs, r.params.sensor, low, before.progress.cursor)
    ensures TakenExactly(taken + Batch(rs, r, before.progress.cursor, HighSequence(rs), BATCH), rs, r.params.sensor,
                         low, EvaluateRule(before, r, rs, BATCH, now).progress.cursor)
  {
    CursorAfterEvaluation(before, r, rs, BATCH, now);
    BatchIsInterval(rs, r, before.progress.cursor, BATCH);
    WaitingJoin(rs, r.params.sensor, low, before.progress.cursor,
                EvaluateRule(before, r, rs, BATCH, now).progress.cursor);
  }

  lemma {:induction false} ExaminedSnoc(m: Machine, r: Rule, snaps: seq<seq<Reading>>, nows: seq<Time>)
    requires ValidParams(r.params) && |nows| == |snaps| > 0
    ensures var n := |snaps| - 1;
            var before := Evaluations(m, r, snaps[..n], nows[..n]);
            && Evaluations(m, r, snaps, nows) == EvaluateRule(before, r, snaps[n], BATCH, nows[n])
            && Examined(m, r, snaps, nows)
               == Examined(m, r, snaps[..n], nows[..n])
                  + Batch(snaps[n], r, before.progress.cursor, HighSequence(snaps[n]), BATCH)
  {
  }

  /** Over any number of evaluations of a growing registry, the readings taken
    * are exactly the sensor's committed readings between the starting cursor and
    * the current one, each once and in sequence order. */
  lemma {:induction false} ExaminedExactlyOnce(m: Machine, r: Rule, snaps: seq<seq<Reading>>, nows: seq<Time>)
    requires ValidParams(r.params) && |nows| == |snaps| > 0 && Growing(snaps)
    ensures TakenExactly(Examined(m, r, snaps, nows), snaps[|snaps| - 1], r.params.sensor, m.progress.cursor,
                         Evaluations(m, r, snaps, nows).progress.cursor)
    ensures EachOnce(Examined(m, r, snaps, nows), snaps[|snaps| - 1], r.params.sensor, m.progress.cursor,
                     Evaluations(m, r, snaps, nows).progress.cursor)
  {
    ExaminedIsInterval(m, r, snaps, nows);
    GrowingFront(snaps);
    WaitingIsEachOnce(snaps[|snaps| - 1], r.params.sensor, m.progress.cursor,
                      Evaluations(m, r, snaps, nows).progress.cursor);
  }

  lemma {:induction false} ExaminedIsInterval(m: Machine, r: Rule, snaps: seq<seq<Reading>>, nows: seq<Time>)
    requires ValidParams(r.params) && |nows| == |snaps| > 0 && Growing(snaps)
    ensures TakenExactly(Examined(m, r, snaps, nows), snaps[|snaps| - 1], r.params.sensor, m.progress.cursor,
                         Evaluations(m, r, snaps, nows).progress.cursor)
  {
    var n, low := |snaps| - 1, m.progress.cursor;
    var front, earlier := snaps[..n], nows[..n];
    var before, taken := Evaluations(m, r, front, earlier), Examined(m, r, front, earlier);
    GrowingFront(snaps);
    if n > 0 {
      ExaminedIsInterval(m, r, front, earlier);
      TakenStays(taken, snaps[n - 1], snaps[n], r.params.sensor, low, before.progress.cursor);
    } else {
      NothingWaits(snaps[n], r.params.sensor, low, low);
    }
    NextInterval(before, r, taken, low, snaps[n], nows[n]);
    ExaminedSnoc(m, r, snaps, nows);
  }

  lemma {:induction false} OneRunDrains(m: Machine, r: Rule, rs: seq<Reading>, now: Time)
    requires ValidParams(r.params) && Committed(rs)
    ensures Backlog(EvaluateRule(m, r, rs, BATCH, now), r, rs) == Max(0, Backlog(m, r, rs) - BATCH)
  {
    CursorAfterEvaluation(m, r, rs, BATCH, now);
    WaitingSplit(rs, r.params.sensor, m.progress.cursor, HighSequence(rs), Min(Backlog(m, r, rs), BATCH));
  }

  /** n waiting readings are gone after k runs exactly when 1000 k >= n. */
  lemma {:induction false} DrainsInCeilingRuns(m: Machine, r: Rule, rs: seq<Reading>, nows: seq<Time>)
    requires ValidParams(r.params) && Committed(rs)
    ensures Backlog(Evaluations(m, r, seq(|nows|, _ => rs), nows), r, rs) == Max(0, Backlog(m, r, rs) - |nows| * 1000)
  {
    if |nows| > 0 {
      var n := |nows| - 1;
      assert seq(|nows|, _ => rs)[..n] == seq(n, _ => rs);
      DrainsInCeilingRuns(m, r, rs, nows[..n]);
      OneRunDrains(Evaluations(m, r, seq(n, _ => rs), nows[..n]), r, rs, nows[n]);
    }
  }

  lemma {:induction false} JudgeTwice(m: Machine, r: Rule, now: Time)
    ensures Judge(Judge(m, r, now), r, now) == Judge(m, r, now)
    ensures StepChanges(Judge(m, r, now), r, Verdict(now)) == []
  {
  }

  /** Repeating an evaluation at the same time, when nothing waits any more,
    * changes nothing and reports nothing. */
  lemma {:induction false} RepeatIsIdle(m: Machine, r: Rule, rs: seq<Reading>, now: Time)
    requires ValidParams(r.params) && Committed(rs) && Backlog(m, r, rs) <= BATCH
    ensures var once := EvaluateRule(m, r, rs, BATCH, now);
            && EvaluateRule(once, r, rs, BATCH, now) == once
            && Changes(once, r, EvaluationInputs(rs, r, once.progress.cursor, BATCH, now)) == []
  {
    OneRunDrains(m, r, rs, now);
    var inputs := EvaluationInputs(rs, r, m.progress.cursor, BATCH, now);
    var once := EvaluateRule(m, r, rs, BATCH, now);
    JudgeTwice(Run(m, r, inputs[..|inputs| - 1]), r, now);
    var again := EvaluationInputs(rs, r, once.progress.cursor, BATCH, now);
    assert again == [Verdict(now)] by {
      assert Batch(rs, r, once.progress.cursor, HighSequence(rs), BATCH) == [];
    }
    assert again[..0] == [];
    assert Run(once, r, again[..0]) == once && Changes(once, r, again[..0]) == [];
  }

  // ---------------------------------------------------------------- batching

  ghost predicate Agree(a: Machine, b: Machine) {
    a.trio.level == b.trio.level && a.trio.rise == b.trio.rise && a.progress == b.progress
  }

  function NotStale(cs: seq<Change>): seq<Change> {
    if |cs| == 0 then []
    else NotStale(cs[..|cs| - 1]) + if cs[|cs| - 1].kind == Stale then [] else [cs[|cs| - 1]]
  }

  lemma {:induction false} NotStaleAppend(a: seq<Change>, b: seq<Change>)
    ensures NotStale(a + b) == NotStale(a) + NotStale(b)
    decreases |b|
  {
    if |b| == 0 {
      assert a + b == a;
    } else {
      assert (a + b)[..|a + b| - 1] == a + b[..|b| - 1];
      NotStaleAppend(a, b[..|b| - 1]);
    }
  }

  lemma {:induction false} NoneStale(cs: seq<Change>)
    requires forall i | 0 <= i < |cs| :: cs[i].kind != Stale
    ensures NotStale(cs) == cs
  {
    if |cs| > 0 {
      NoneStale(cs[..|cs| - 1]);
      assert cs == cs[..|cs| - 1] + [cs[|cs| - 1]];
    }
  }

  ghost predicate AllArrive(inputs: seq<Input>) {
    forall i | 0 <= i < |inputs| :: inputs[i].Arrive?
  }

  /** Readings act alike on machines that differ only in staleness. */
  lemma {:induction false} StalenessDoesNotMatter(a: Machine, b: Machine, r: Rule, inputs: seq<Input>)
    requires Agree(a, b) && AllArrive(inputs)
    ensures Agree(Run(a, r, inputs), Run(b, r, inputs))
    ensures Changes(a, r, inputs) == Changes(b, r, inputs)
    ensures forall i | 0 <= i < |Changes(a, r, inputs)| :: Changes(a, r, inputs)[i].kind != Stale
  {
    if |inputs| > 0 {
      StalenessDoesNotMatter(a, b, r, inputs[..|inputs| - 1]);
    }
  }

  /** Once a reading younger than the limit is accepted, the rule stays fresh. */
  lemma {:induction false} FreshnessLasts(m: Machine, r: Rule, inputs: seq<Input>, now: Time)
    requires !IsStale(r, m.progress.last, now) && AllArrive(inputs)
    requires forall i | 0 <= i < |inputs| :: inputs[i].now == now
    ensures !IsStale(r, Run(m, r, inputs).progress.last, now)
    decreases |inputs|
  {
    if |inputs| > 0 {
      FreshnessLasts(m, r, inputs[..|inputs| - 1], now);
      var before, i := Run(m, r, inputs[..|inputs| - 1]), inputs[|inputs| - 1];
      assert i.now == now && i.Arrive?;
    }
  }

  /** One evaluation after another over the same registry, with these limits. */
  function BoundedRuns(m: Machine, r: Rule, rs: seq<Reading>, limits: seq<nat>, now: Time): Machine
    requires ValidParams(r.params)
  {
    if |limits| == 0 then m
    else EvaluateRule(BoundedRuns(m, r, rs, limits[..|limits| - 1], now), r, rs, limits[|limits| - 1], now)
  }

  function BoundedChanges(m: Machine, r: Rule, rs: seq<Reading>, limits: seq<nat>, now: Time): seq<Change>
    requires ValidParams(r.params)
  {
    if |limits| == 0 then []
    else
      var before := BoundedRuns(m, r, rs, limits[..|limits| - 1], now);
      BoundedChanges(m, r, rs, limits[..|limits| - 1], now)
      + Changes(before, r, EvaluationInputs(rs, r, before.progress.cursor, limits[|limits| - 1], now))
  }

  function Sum(limits: seq<nat>): nat {
    if |limits| == 0 then 0 else Sum(limits[..|limits| - 1]) + limits[|limits| - 1]
  }

  /** The readings wait in observation-time order, and after the first of them
    * the rule is fresh. */
  ghost predicate OrderlyBacklog(m: Machine, r: Rule, rs: seq<Reading>, now: Time)
    requires ValidParams(r.params)
  {
    var w := Waiting(rs, r.params.sensor, m.progress.cursor, HighSequence(rs));
    && |w| > 0 && TimeSorted(w)
    && !IsStale(r, Run(m, r, Arrivals(w[..1], rs, r.params, now)).progress.last, now)
  }

  /** A fresh verdict touches only the stale condition. */
  lemma {:induction false} FreshVerdict(m: Machine, r: Rule, a: seq<Input>, now: Time)
    requires AllArrive(a) && !IsStale(r, Run(m, r, a).progress.last, now)
    ensures Agree(Run(m, r, a + [Verdict(now)]), Run(m, r, a))
    ensures NotStale(Changes(m, r, a + [Verdict(now)])) == Changes(m, r, a)
  {
    var inputs := a + [Verdict(now)];
    assert inputs[..|inputs| - 1] == a;
    var cs := StepChanges(Run(m, r, a), r, Verdict(now));
    NotStaleAppend(Changes(m, r, a), cs);
    StalenessDoesNotMatter(m, m, r, a);
    NoneStale(Changes(m, r, a));
    assert |cs| == 1 ==> cs[..0] == [];
  }

  lemma {:induction false} OneBoundedRun(m: Machine, r: Rule, rs: seq<Reading>, limit: nat, now: Time, xs: seq<Reading>)
    requires ValidParams(r.params) && Committed(rs) && TimeSorted(xs)
    requires xs == Batch(rs, r, m.progress.cursor, HighSequence(rs), limit)
    requires !IsStale(r, Run(m, r, Arrivals(xs, rs, r.params, now)).progress.last, now)
    ensures Agree(EvaluateRule(m, r, rs, limit, now), Run(m, r, Arrivals(xs, rs, r.params, now)))
    ensures NotStale(Changes(m, r, EvaluationInputs(rs, r, m.progress.cursor, limit, now)))
            == Changes(m, r, Arrivals(xs, rs, r.params, now))
  {
    SortOfSorted(xs);
    FreshVerdict(m, r, Arrivals(xs, rs, r.params, now), now);
  }

  /** `now` runs from m on have handled exactly the first n waiting readings. */
  ghost predicate CaughtUp(m: Machine, r: Rule, rs: seq<Reading>, now: Time, n: nat, later: Machine, cs: seq<Change>)
    requires ValidParams(r.params)
  {
    var w := Waiting(rs, r.params.sensor, m.progress.cursor, HighSequence(rs));
    && n <= |w|
    && var a := Arrivals(w[..n], rs, r.params, now);
    && Agree(later, Run(m, r, a))
    && NotStale(cs) == Changes(m, r, a)
    && later.progress.cursor == CursorAfter(w[..n], m.progress.cursor)
  }

  /** Fresh after the first waiting reading means fresh after the first n. */
  lemma {:induction false} OrderlyStaysFresh(m: Machine, r: Rule, rs: seq<Reading>, now: Time, n: nat)
    requires ValidParams(r.params) && OrderlyBacklog(m, r, rs, now)
    requires 0 < n <= Backlog(m, r, rs)
    ensures var first := Waiting(rs, r.params.sensor, m.progress.cursor, HighSequence(rs))[..n];
            !IsStale(r, Run(m, r, Arrivals(first, rs, r.params, now)).progress.last, now)
  {
    var w := Waiting(rs, r.params.sensor, m.progress.cursor, HighSequence(rs));
    var one, more := Arrivals(w[..1], rs, r.params, now), Arrivals(w[1..n], rs, r.params, now);
    assert w[..n] == w[..1] + w[1..n];
    ArrivalsAppend(w[..1], w[1..n], rs, r.params, now);
    RunAppend(m, r, one, more);
    FreshnessLasts(Run(m, r, one), r, more, now);
  }

  /** After the first `done` waiting readings, the next batch follows them. */
  lemma {:induction false} NextBatch(rs: seq<Reading>, r: Rule, cursor: nat, done: nat, limit: nat)
    requires Committed(rs) && done <= |Waiting(rs, r.params.sensor, cursor, HighSequence(rs))|
    ensures var w := Waiting(rs, r.params.sensor, cursor, HighSequence(rs));
            var n := Min(|w|, done + limit);
            var c := CursorAfter(w[..done], cursor);
            && Batch(rs, r, c, HighSequence(rs), limit) == w[done..n]
            && CursorAfter(w[done..n], c) == CursorAfter(w[..n], cursor)
            && (TimeSorted(w) ==> TimeSorted(w[done..n]))
  {
    var w := Waiting(rs, r.params.sensor, cursor, HighSequence(rs));
    var n := Min(|w|, done + limit);
    WaitingSplit(rs, r.params.sensor, cursor, HighSequence(rs), done);
    Middle(w, done, n);
  }

  lemma {:induction false} Middle(w: seq<Reading>, a: nat, b: nat)
    requires a <= b <= |w|
    ensures w[a..][..b - a] == w[a..b] && |w[a..]| == |w| - a
    ensures a == b ==> w[..b] == w[..a]
    ensures a < b ==> w[a..b][b - a - 1] == w[..b][b - 1]
  {
  }

  /** Two stretches of readings, handled by agreeing machines, are one stretch. */
  lemma {:induction false} Stretches(m: Machine, r: Rule, first: seq<Input>, second: seq<Input>, before: Machine,
                                     cs: seq<Change>)
    requires AllArrive(second) && Agree(before, Run(m, r, first)) && NotStale(cs) == Changes(m, r, first)
    ensures Agree(Run(before, r, second), Run(m, r, first + second))
    ensures NotStale(cs) + Changes(before, r, second) == Changes(m, r, first + second)
  {
    RunAppend(m, r, first, second);
    ChangesAppend(m, r, first, second);
    StalenessDoesNotMatter(before, Run(m, r, first), r, second);
  }

  lemma {:induction false} ArrivalsCut(w: seq<Reading>, a: nat, b: nat, rs: seq<Reading>, p: Params, now: Time)
    requires ValidParams(p) && a <= b <= |w|
    ensures Arrivals(w[..b], rs, p, now) == Arrivals(w[..a], rs, p, now) + Arrivals(w[a..b], rs, p, now)
  {
    assert w[..b] == w[..a] + w[a..b];
    ArrivalsAppend(w[..a], w[a..b], rs, p, now);
  }

  /** What a further run of this limit makes of `before` and its changes. */
  ghost predicate RunsOn(r: Rule, rs: seq<Reading>, now: Time, before: Machine, cs: seq<Change>, limit: nat,
                         after: Machine,
                         ds: seq<Change>)
    requires ValidParams(r.params)
  {
    && after == EvaluateRule(before, r, rs, limit, now)
    && ds == cs + Changes(before, r, EvaluationInputs(rs, r, before.progress.cursor, limit, now))
  }

  lemma {:induction false} OneMoreRun(m: Machine, r: Rule, rs: seq<Reading>, now: Time, done: nat, before: Machine,
                                      cs: seq<Change>, limit: nat, after: Machine, ds: seq<Change>)
    requires ValidParams(r.params) && Committed(rs) && OrderlyBacklog(m, r, rs, now) && limit > 0
    requires CaughtUp(m, r, rs, now, done, before, cs) && RunsOn(r, rs, now, before, cs, limit, after, ds)
    ensures CaughtUp(m, r, rs, now, Min(Backlog(m, r, rs), done + limit), after, ds)
  {
    var w := Waiting(rs, r.params.sensor, m.progress.cursor, HighSequence(rs));
    var n := Min(|w|, done + limit);
    var xs := w[done..n];
    var first, second := Arrivals(w[..done], rs, r.params, now), Arrivals(xs, rs, r.params, now);
    NextBatch(rs, r, m.progress.cursor, done, limit);
    ArrivalsCut(w, done, n, rs, r.params, now);
    Stretches(m, r, first, second, before, cs);
    OrderlyStaysFresh(m, r, rs, now, n);
    OneBoundedRun(before, r, rs, limit, now, xs);
    NotStaleAppend(cs, Changes(before, r, EvaluationInputs(rs, r, before.progress.cursor, limit, now)));
    CursorAfterEvaluation(before, r, rs, limit, now);
  }

  lemma {:induction false} BoundedSnoc(m: Machine, r: Rule, rs: seq<Reading>, limits: seq<nat>, now: Time)
    requires ValidParams(r.params) && |limits| > 0
    ensures var front, limit := limits[..|limits| - 1], limits[|limits| - 1];
            && RunsOn(r, rs, now, BoundedRuns(m, r, rs, front, now), BoundedChanges(m, r, rs, front, now), limit,
                      BoundedRuns(m, r, rs, limits, now), BoundedChanges(m, r, rs, limits, now))
            && Sum(limits) == Sum(front) + limit
  {
  }

  lemma {:induction false} MinAdds(b: nat, s: nat, l: nat)
    ensures Min(b, Min(b, s) + l) == Min(b, s + l)
  {
  }

  lemma {:induction false} NothingCaughtUp(m: Machine, r: Rule, rs: seq<Reading>, now: Time)
    requires ValidParams(r.params)
    ensures CaughtUp(m, r, rs, now, 0, m, [])
  {
  }

  lemma {:induction false} BoundedRunsCatchUp(m: Machine, r: Rule, rs: seq<Reading>, limits: seq<nat>, now: Time)
    requires ValidParams(r.params) && Committed(rs) && OrderlyBacklog(m, r, rs, now)
    requires forall i | 0 <= i < |limits| :: limits[i] > 0
    ensures CaughtUp(m, r, rs, now, Min(Backlog(m, r, rs), Sum(limits)),
                     BoundedRuns(m, r, rs, limits, now), BoundedChanges(m, r, rs, limits, now))
  {
    if |limits| == 0 {
      NothingCaughtUp(m, r, rs, now);
    } else {
      var front, limit := limits[..|limits| - 1], limits[|limits| - 1];
      BoundedRunsCatchUp(m, r, rs, front, now);
      BoundedSnoc(m, r, rs, limits, now);
      MinAdds(Backlog(m, r, rs), Sum(front), limit);
      OneMoreRun(m, r, rs, now, Min(Backlog(m, r, rs), Sum(front)), BoundedRuns(m, r, rs, front, now),
                 BoundedChanges(m, r, rs, front, now), limit, BoundedRuns(m, r, rs, limits, now),
                 BoundedChanges(m, r, rs, limits, now));
    }
  }

  /** Batching is transparent: cutting an orderly backlog into runs of any
    * positive sizes gives the same level and rise conditions, the same progress
    * and the same level and rise changes as one unbounded run. */
  lemma {:induction false} BatchingIsTransparent(m: Machine, r: Rule, rs: seq<Reading>, limits: seq<nat>, now: Time)
    requires ValidParams(r.params) && Committed(rs) && OrderlyBacklog(m, r, rs, now)
    requires forall i | 0 <= i < |limits| :: limits[i] > 0
    requires Sum(limits) >= Backlog(m, r, rs)
    ensures Agree(BoundedRuns(m, r, rs, limits, now), EvaluateRule(m, r, rs, Backlog(m, r, rs), now))
    ensures NotStale(BoundedChanges(m, r, rs, limits, now))
            == NotStale(Changes(m, r, EvaluationInputs(rs, r, m.progress.cursor, Backlog(m, r, rs), now)))
  {
    BoundedRunsCatchUp(m, r, rs, limits, now);
    var w := Waiting(rs, r.params.sensor, m.progress.cursor, HighSequence(rs));
    assert w[..|w|] == w;
    OrderlyStaysFresh(m, r, rs, now, |w|);
    OneBoundedRun(m, r, rs, |w|, now, w);
  }

  // ---------------------------------------------------------------- no chatter

  /** The severities a rule's changes of one kind lead to, in order. */
  function SeveritiesOf(cs: seq<Change>, kind: Kind): seq<Severity> {
    if |cs| == 0 then []
    else
      var last := cs[|cs| - 1];
      SeveritiesOf(cs[..|cs| - 1], kind) + if last.kind == kind then [last.severity] else []
  }

  lemma {:induction false} SeveritiesAppend(a: seq<Change>, b: seq<Change>, kind: Kind)
    ensures SeveritiesOf(a + b, kind) == SeveritiesOf(a, kind) + SeveritiesOf(b, kind)
    decreases |b|
  {
    if |b| == 0 {
      assert a + b == a;
    } else {
      assert (a + b)[..|a + b| - 1] == a + b[..|b| - 1];
      SeveritiesAppend(a, b[..|b| - 1], kind);
    }
  }

  lemma {:induction false} SeveritiesOfDiff(kind: Kind, of: Kind, before: Condition, after: Condition, at: Time)
    ensures SeveritiesOf(Diff(of, before, after, at), kind) == if kind == of then ChangeTo(before, after) else []
  {
    assert Diff(of, before, after, at) != [] ==> Diff(of, before, after, at)[..0] == [];
  }

  lemma {:induction false} StepSeverities(m: Machine, r: Rule, i: Input, kind: Kind)
    requires kind != Stale
    ensures SeveritiesOf(StepChanges(m, r, i), kind)
            == if kind == Level then ChangeTo(m.trio.level, Step(m, r, i).trio.level)
               else ChangeTo(m.trio.rise, Step(m, r, i).trio.rise)
  {
    var after := Step(m, r, i).trio;
    match i
    case Arrive(x, _, _) =>
      SeveritiesAppend(Diff(Level, m.trio.level, after.level, x.obs.at), Diff(Rise, m.trio.rise, after.rise, x.obs.at),
                       kind);
      SeveritiesOfDiff(kind, Level, m.trio.level, after.level, x.obs.at);
      SeveritiesOfDiff(kind, Rise, m.trio.rise, after.rise, x.obs.at);
    case Verdict(now) => SeveritiesOfDiff(kind, Stale, m.trio.stale, after.stale, now);
  }

  /** A sample, perhaps after a break, or a break, or nothing. */
  predicate OneSampleAtMost(ticks: seq<Tick>) {
    |ticks| <= 1 || (|ticks| == 2 && ticks[0] == Break)
  }

  lemma {:induction false} TicksOfAnInput(m: Machine, r: Rule, i: Input)
    ensures OneSampleAtMost(LevelTick(m, r, i)) && OneSampleAtMost(RiseTick(m, r, i))
  {
  }

  lemma {:induction false} OneTick(c: Condition, ticks: seq<Tick>, band: Band, hold: int, d: Condition)
    requires OneSampleAtMost(ticks) && d == Replay(c, ticks, band, hold)
    ensures ChangedTo(c, ticks, band, hold) == ChangeTo(c, d)
  {
    if |ticks| > 0 {
      ChangedToSnoc(c, ticks, band, hold);
      if |ticks| == 2 {
        assert ticks[..1] == [Break];
        ChangedToSnoc(c, [Break], band, hold);
        assert [Break][..0] == [];
      } else {
        assert ticks[..0] == [];
      }
    }
  }

  /** One input records the changes of its ticks. */
  lemma {:induction false} StepTellsLevel(m: Machine, r: Rule, i: Input)
    ensures SeveritiesOf(StepChanges(m, r, i), Level)
            == ChangedTo(m.trio.level, LevelTick(m, r, i), r.params.level, r.params.hold)
  {
    var ticks, after := LevelTick(m, r, i), Step(m, r, i).trio.level;
    assert after == Replay(m.trio.level, ticks, r.params.level, r.params.hold) by {
      StepIsTicks(m, r, i);
    }
    assert OneSampleAtMost(ticks) by {
      TicksOfAnInput(m, r, i);
    }
    OneTick(m.trio.level, ticks, r.params.level, r.params.hold, after);
    StepSeverities(m, r, i, Level);
  }

  lemma {:induction false} StepTellsRise(m: Machine, r: Rule, i: Input)
    ensures SeveritiesOf(StepChanges(m, r, i), Rise)
            == ChangedTo(m.trio.rise, RiseTick(m, r, i), r.params.rise, r.params.hold)
  {
    var ticks, after := RiseTick(m, r, i), Step(m, r, i).trio.rise;
    assert after == Replay(m.trio.rise, ticks, r.params.rise, r.params.hold) by {
      StepIsTicks(m, r, i);
    }
    assert OneSampleAtMost(ticks) by {
      TicksOfAnInput(m, r, i);
    }
    OneTick(m.trio.rise, ticks, r.params.rise, r.params.hold, after);
    StepSeverities(m, r, i, Rise);
  }

  lemma {:induction false} TicksSnoc(m: Machine, r: Rule, inputs: seq<Input>)
    requires |inputs| > 0
    ensures var front, i := inputs[..|inputs| - 1], inputs[|inputs| - 1];
            && Changes(m, r, inputs) == Changes(m, r, front) + StepChanges(Run(m, r, front), r, i)
            && LevelTicks(m, r, inputs) == LevelTicks(m, r, front) + LevelTick(Run(m, r, front), r, i)
            && RiseTicks(m, r, inputs) == RiseTicks(m, r, front) + RiseTick(Run(m, r, front), r, i)
  {
  }

  /** The level changes a rule records are those of its ticks ... */
  lemma {:induction false} LevelChangesAreTickChanges(m: Machine, r: Rule, inputs: seq<Input>)
    ensures SeveritiesOf(Changes(m, r, inputs), Level)
            == ChangedTo(m.trio.level, LevelTicks(m, r, inputs), r.params.level, r.params.hold)
  {
    if |inputs| > 0 {
      var front, i := inputs[..|inputs| - 1], inputs[|inputs| - 1];
      var before := Run(m, r, front);
      TicksSnoc(m, r, inputs);
      LevelChangesAreTickChanges(m, r, front);
      RunIsReplay(m, r, front);
      StepTellsLevel(before, r, i);
      SeveritiesAppend(Changes(m, r, front), StepChanges(before, r, i), Level);
      ChangedToAppend(m.trio.level, LevelTicks(m, r, front), LevelTick(before, r, i), r.params.level, r.params.hold);
    }
  }

  /** ... and so are the rise changes. */
  lemma {:induction false} RiseChangesAreTickChanges(m: Machine, r: Rule, inputs: seq<Input>)
    ensures SeveritiesOf(Changes(m, r, inputs), Rise)
            == ChangedTo(m.trio.rise, RiseTicks(m, r, inputs), r.params.rise, r.params.hold)
  {
    if |inputs| > 0 {
      var front, i := inputs[..|inputs| - 1], inputs[|inputs| - 1];
      var before := Run(m, r, front);
      TicksSnoc(m, r, inputs);
      RiseChangesAreTickChanges(m, r, front);
      RunIsReplay(m, r, front);
      StepTellsRise(before, r, i);
      SeveritiesAppend(Changes(m, r, front), StepChanges(before, r, i), Rise);
      ChangedToAppend(m.trio.rise, RiseTicks(m, r, front), RiseTick(before, r, i), r.params.rise, r.params.hold);
    }
  }

  /** While readings span no more than the level hysteresis, whatever happens in
    * between, the recorded level changes are at most two and all in one direction. */
  lemma {:induction false} LevelDoesNotChatter(m: Machine, r: Rule, inputs: seq<Input>, low: real, high: real)
    requires ValidParams(r.params) && high - low <= r.params.level.hysteresis
    requires Within(LevelTicks(m, r, inputs), low, high)
    ensures OneWay(m.trio.level.severity, SeveritiesOf(Changes(m, r, inputs), Level),
                   Run(m, r, inputs).trio.level.severity)
  {
    RunIsReplay(m, r, inputs);
    LevelChangesAreTickChanges(m, r, inputs);
    ChangesGoOneWay(m.trio.level, LevelTicks(m, r, inputs), r.params.level, r.params.hold, low, high);
  }

  /** The same for the rates and the recorded rise changes. */
  lemma {:induction false} RiseDoesNotChatter(m: Machine, r: Rule, inputs: seq<Input>, low: real, high: real)
    requires ValidParams(r.params) && high - low <= r.params.rise.hysteresis
    requires Within(RiseTicks(m, r, inputs), low, high)
    ensures OneWay(m.trio.rise.severity, SeveritiesOf(Changes(m, r, inputs), Rise),
                   Run(m, r, inputs).trio.rise.severity)
  {
    RunIsReplay(m, r, inputs);
    RiseChangesAreTickChanges(m, r, inputs);
    ChangesGoOneWay(m.trio.rise, RiseTicks(m, r, inputs), r.params.rise, r.params.hold, low, high);
  }
}
