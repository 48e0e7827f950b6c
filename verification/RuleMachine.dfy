/** What one enabled rule does with its readings: the three condition records,
  * the sequence cursor and the last accepted reading, as one state machine. */
module RuleMachine {
  import opened Wrappers
  import opened Clock
  import opened Conditions
  import opened Rules
  import opened Readings

  datatype Last = Last(at: Time, id: nat, value: real)

  /** A row of alerting.rule_state. */
  datatype Progress = Progress(cursor: nat, last: Option<Last>)

  /** The three rows of alerting.condition_state of a rule. */
  datatype Trio = Trio(level: Condition, rise: Condition, stale: Condition)

  datatype Machine = Machine(trio: Trio, progress: Progress)

  const BATCH: nat := 1000

  /** The state a rule change leaves behind. */
  function Reset(cursor: nat): Machine {
    Machine(Trio(CALM, CALM, CALM), Progress(cursor, None))
  }

  function InterruptAll(t: Trio): Trio {
    Trio(Interrupt(t.level), Interrupt(t.rise), Interrupt(t.stale))
  }

  predicate IsWaterLevel(o: Obs) {
    o.sensorType == "water-level" && o.unit == "m"
  }

  /** Neither future, nor older than the rule, nor already stale. */
  predicate Timely(r: Rule, o: Obs, now: Time) {
    r.updatedAt <= o.at <= now && now - r.params.stale * SECOND <= o.at
  }

  predicate Usable(r: Rule, last: Option<Last>, o: Obs, now: Time) {
    IsWaterLevel(o) && Timely(r, o, now) && (last.Some? ==> o.at > last.value.at)
  }

  predicate Gap(r: Rule, last: Option<Last>, o: Obs) {
    last.None? || o.at - last.value.at > r.params.stale * SECOND
  }

  predicate IsStale(r: Rule, last: Option<Last>, now: Time) {
    now - (if last.Some? then last.value.at else r.updatedAt) >= r.params.stale * SECOND
  }

  function Accepted(o: Obs): Last {
    Last(o.at, o.id, o.value)
  }

  /** One pass of the reading loop. */
  function Absorb(m: Machine, r: Rule, x: Reading, rate: Option<real>, now: Time): Machine {
    var moved := m.progress.(cursor := Max(m.progress.cursor, x.sequence));
    if !Usable(r, m.progress.last, x.obs, now) then m.(progress := moved)
    else
      var p := r.params;
      var t := if Gap(r, m.progress.last, x.obs) then InterruptAll(m.trio) else m.trio;
      var level := Advance(t.level, true, Classify(x.obs.value, p.level, t.level.severity), x.obs.at, p.hold);
      var rise := match rate
                  case None => Interrupt(t.rise)
                  case Some(v) => Advance(t.rise, true, Classify(v, p.rise, t.rise.severity), x.obs.at, p.hold);
      Machine(Trio(level, rise, t.stale), moved.(last := Some(Accepted(x.obs))))
  }

  /** The staleness verdict that ends a rule's turn. */
  function Judge(m: Machine, r: Rule, now: Time): Machine {
    var stale := IsStale(r, m.progress.last, now);
    var c := Advance(m.trio.stale, false, if stale then Warning else Normal, now, r.params.hold);
    var t := m.trio.(stale := c);
    m.(trio := if stale then InterruptAll(t) else t)
  }

  datatype Input =
    | Arrive(reading: Reading, rate: Option<real>, now: Time)
    | Verdict(now: Time)

  function Step(m: Machine, r: Rule, i: Input): Machine {
    match i
    case Arrive(x, rate, now) => Absorb(m, r, x, rate, now)
    case Verdict(now) => Judge(m, r, now)
  }

  function Run(m: Machine, r: Rule, inputs: seq<Input>): Machine {
    if |inputs| == 0 then m else Step(Run(m, r, inputs[..|inputs| - 1]), r, inputs[|inputs| - 1])
  }

  lemma {:induction false} RunAppend(m: Machine, r: Rule, a: seq<Input>, b: seq<Input>)
    ensures Run(m, r, a + b) == Run(Run(m, r, a), r, b)
    decreases |b|
  {
    if |b| == 0 {
      assert a + b == a;
    } else {
      assert (a + b)[..|a + b| - 1] == a + b[..|b| - 1];
      RunAppend(m, r, a, b[..|b| - 1]);
    }
  }

  // ---------------------------------------------------------------- one evaluation

  function Arrivals(xs: seq<Reading>, rs: seq<Reading>, p: Params, now: Time): (inputs: seq<Input>)
    requires ValidParams(p)
    ensures |inputs| == |xs|
  {
    seq(|xs|, i requires 0 <= i < |xs| => Arrive(xs[i], RateAt(rs, p, xs[i].obs), now))
  }

  /** The waiting readings one run takes, in arrival order. */
  function Batch(rs: seq<Reading>, r: Rule, cursor: nat, high: nat, limit: nat): seq<Reading> {
    var w := Waiting(rs, r.params.sensor, cursor, high);
    w[..Min(|w|, limit)]
  }

  function EvaluationInputs(rs: seq<Reading>, r: Rule, cursor: nat, limit: nat, now: Time): seq<Input>
    requires ValidParams(r.params)
  {
    Arrivals(SortByTime(Batch(rs, r, cursor, HighSequence(rs), limit)), rs, r.params, now) + [Verdict(now)]
  }

  function EvaluateRule(m: Machine, r: Rule, rs: seq<Reading>, limit: nat, now: Time): Machine
    requires ValidParams(r.params)
  {
    Run(m, r, EvaluationInputs(rs, r, m.progress.cursor, limit, now))
  }

  // ---------------------------------------------------------------- what a run reports

  /** A severity change; the store writes exactly one alert event for each. */
  datatype Change = Change(kind: Kind, severity: Severity, at: Time)

  datatype Kind = Level | Rise | Stale

  function Diff(kind: Kind, before: Condition, after: Condition, at: Time): seq<Change> {
    if before.severity == after.severity then [] else [Change(kind, after.severity, at)]
  }

  function StepChanges(m: Machine, r: Rule, i: Input): seq<Change> {
    var after := Step(m, r, i).trio;
    match i
    case Arrive(x, _, _) =>
      Diff(Level, m.trio.level, after.level, x.obs.at) + Diff(Rise, m.trio.rise, after.rise, x.obs.at)
    case Verdict(now) => Diff(Stale, m.trio.stale, after.stale, now)
  }

  function Changes(m: Machine, r: Rule, inputs: seq<Input>): seq<Change> {
    if |inputs| == 0 then []
    else
      var front := inputs[..|inputs| - 1];
      Changes(m, r, front) + StepChanges(Run(m, r, front), r, inputs[|inputs| - 1])
  }

  lemma {:induction false} ChangesAppend(m: Machine, r: Rule, a: seq<Input>, b: seq<Input>)
    ensures Changes(m, r, a + b) == Changes(m, r, a) + Changes(Run(m, r, a), r, b)
    decreases |b|
  {
    if |b| == 0 {
      assert a + b == a;
    } else {
      var front := b[..|b| - 1];
      assert (a + b)[..|a + b| - 1] == a + front;
      ChangesAppend(m, r, a, front);
      RunAppend(m, r, a, front);
    }
  }

  // ---------------------------------------------------------------- histories as ticks

  /** What the level condition sees of an input. */
  function LevelTick(m: Machine, r: Rule, i: Input): seq<Tick> {
    match i
    case Arrive(x, _, now) =>
      if !Usable(r, m.progress.last, x.obs, now) then []
      else (if Gap(r, m.progress.last, x.obs) then [Break] else []) + [Sample(x.obs.value, x.obs.at)]
    case Verdict(now) => if IsStale(r, m.progress.last, now) then [Break] else []
  }

  /** What the rise condition sees of an input. */
  function RiseTick(m: Machine, r: Rule, i: Input): seq<Tick> {
    match i
    case Arrive(x, rate, now) =>
      if !Usable(r, m.progress.last, x.obs, now) then []
      else (if Gap(r, m.progress.last, x.obs) then [Break] else [])
           + [if rate.Some? then Sample(rate.value, x.obs.at) else Break]
    case Verdict(now) => if IsStale(r, m.progress.last, now) then [Break] else []
  }

  function LevelTicks(m: Machine, r: Rule, inputs: seq<Input>): seq<Tick> {
    if |inputs| == 0 then []
    else
      LevelTicks(m, r, inputs[..|inputs| - 1])
      + LevelTick(Run(m, r, inputs[..|inputs| - 1]), r, inputs[|inputs| - 1])
  }

  function RiseTicks(m: Machine, r: Rule, inputs: seq<Input>): seq<Tick> {
    if |inputs| == 0 then []
    else RiseTicks(m, r, inputs[..|inputs| - 1]) + RiseTick(Run(m, r, inputs[..|inputs| - 1]), r, inputs[|inputs| - 1])
  }

  lemma {:induction false} ReplayPair(c: Condition, a: Tick, b: Tick, band: Band, hold: int)
    ensures Replay(c, [a], band, hold) == Observe(c, a, band, hold)
    ensures Replay(c, [a, b], band, hold) == Observe(Observe(c, a, band, hold), b, band, hold)
  {
    assert [a][..0] == [] && [a, b][..1] == [a];
  }

  lemma {:induction false} StepIsTicks(m: Machine, r: Rule, i: Input)
    ensures Step(m, r, i).trio.level == Replay(m.trio.level, LevelTick(m, r, i), r.params.level, r.params.hold)
    ensures Step(m, r, i).trio.rise == Replay(m.trio.rise, RiseTick(m, r, i), r.params.rise, r.params.hold)
  {
    var p := r.params;
    match i
    case Arrive(x, rate, now) =>
      var sample, rise := Sample(x.obs.value, x.obs.at), if rate.Some? then Sample(rate.value, x.obs.at) else Break;
      ReplayPair(m.trio.level, sample, sample, p.level, p.hold);
      ReplayPair(m.trio.level, Break, sample, p.level, p.hold);
      ReplayPair(m.trio.rise, rise, rise, p.rise, p.hold);
      ReplayPair(m.trio.rise, Break, rise, p.rise, p.hold);
      assert [Break] + [sample] == [Break, sample] && [Break] + [rise] == [Break, rise];
    case Verdict(now) =>
      ReplayPair(m.trio.level, Break, Break, p.level, p.hold);
      ReplayPair(m.trio.rise, Break, Break, p.rise, p.hold);
  }

  /** The level and rise conditions are the replay of what they saw, so every
    * result about ticks is a result about rules. */
  lemma {:induction false} RunIsReplay(m: Machine, r: Rule, inputs: seq<Input>)
    ensures Run(m, r, inputs).trio.level
            == Replay(m.trio.level, LevelTicks(m, r, inputs), r.params.level, r.params.hold)
    ensures Run(m, r, inputs).trio.rise
            == Replay(m.trio.rise, RiseTicks(m, r, inputs), r.params.rise, r.params.hold)
  {
    if |inputs| > 0 {
      var front, i := inputs[..|inputs| - 1], inputs[|inputs| - 1];
      RunIsReplay(m, r, front);
      StepIsTicks(Run(m, r, front), r, i);
      ReplayAppend(m.trio.level, LevelTicks(m, r, front), LevelTick(Run(m, r, front), r, i), r.params.level,
                   r.params.hold);
      ReplayAppend(m.trio.rise, RiseTicks(m, r, front), RiseTick(Run(m, r, front), r, i), r.params.rise, r.params.hold);
    }
  }
}
