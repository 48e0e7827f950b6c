/** Whole evaluations, told of the tables: what does not depend on the order of
  * arrival, and what an evaluation that is repeated leaves alone. */
module EvaluationTheorems {
  import opened Wrappers
  import opened Clock
  import opened Conditions
  import opened Rules
  import opened Readings
  import opened RuleMachine
  import opened RuleTheorems
  import opened AlertLog
  import opened AlertDb
  import opened AlertInvariant
  import opened AlertRuns

  // ---------------------------------------------------------------- arrival order

  /** Every table is the same, alert rows, evidence and outbox included, except for
    * the sequence cursors of the rules. */
  ghost predicate SameButCursors(d: Db, e: Db) {
    && e == d.(states := e.states) && e.states.Keys == d.states.Keys
    && forall q | q in d.states :: d.states[q].last == e.states[q].last
  }

  lemma {:induction false} AbsorbIgnoresCursors(d: Db, e: Db, rid: RuleId, x: Reading, y: Reading, rate: Option<real>,
                                                now: Time)
    requires Registered(d, rid) && SameButCursors(d, e) && x.obs == y.obs
    ensures SameButCursors(AbsorbDb(d, rid, x, rate, now), AbsorbDb(e, rid, y, rate, now))
  {
    var r, last := d.rules[rid], d.states[rid].last;
    if Usable(r, last, x.obs, now) {
      var d0 := if Gap(r, last, x.obs) then SetTrio(d, rid, InterruptAll(d.conditions[rid])) else d;
      ConditionsIgnoreStates(d0, e.states, r, x.obs, rate, now);
    }
  }

  lemma {:induction false} JudgeIgnoresCursors(d: Db, e: Db, rid: RuleId, now: Time)
    requires Registered(d, rid) && SameButCursors(d, e)
    ensures SameButCursors(JudgeDb(d, rid, now), JudgeDb(e, rid, now))
  {
    var r, last := d.rules[rid], d.states[rid].last;
    TransitionIgnoresStates(d, e.states, r, Stale, if IsStale(r, last, now) then Warning else Normal, now, now,
                            StaleEvidence(if last.Some? then Some(last.value.at) else None));
  }

  lemma {:induction false} StepIgnoresCursors(d: Db, e: Db, rid: RuleId, i: Input, j: Input)
    requires Registered(d, rid) && SameButCursors(d, e) && SameInput(i, j)
    ensures SameButCursors(StepDb(d, rid, i), StepDb(e, rid, j))
  {
    match i
    case Arrive(x, rate, now) => AbsorbIgnoresCursors(d, e, rid, x, j.reading, rate, now);
    case Verdict(now) => JudgeIgnoresCursors(d, e, rid, now);
  }

  lemma {:induction false} RunIgnoresCursors(d: Db, e: Db, rid: RuleId, a: seq<Input>, b: seq<Input>)
    requires Registered(d, rid) && SameButCursors(d, e) && SameInputs(a, b)
    ensures SameButCursors(RunDb(d, rid, a), RunDb(e, rid, b))
  {
    if |a| > 0 {
      var n := |a| - 1;
      assert SameInput(a[n], b[n]);
      RunIgnoresCursors(d, e, rid, a[..n], b[..n]);
      StepIgnoresCursors(RunDb(d, rid, a[..n]), RunDb(e, rid, b[..n]), rid, a[n], b[n]);
    }
  }

  /** The readings waiting for rule q fit one run. */
  ghost predicate FitsOneRun(db: Db, q: RuleId, rs: seq<Reading>)
    requires Registered(db, q)
  {
    Backlog(MachineOf(db, q), db.rules[q], rs) <= BATCH
  }

  /** Two registries with the same observations behind each cursor, in any order,
    * and no more than one run handles. */
  ghost predicate Reordered(db: Db, todo: set<RuleId>, a: seq<Reading>, b: seq<Reading>)
    requires Evaluable(db) && todo <= db.rules.Keys
  {
    forall q | q in todo :: Rearranged(a, b, db.states[q].cursor) && FitsOneRun(db, q, a) && FitsOneRun(db, q, b)
  }

  lemma {:induction false} TurnIgnoresOrder(d: Db, e: Db, rid: RuleId, a: seq<Reading>, b: seq<Reading>, now: Time)
    requires Registered(d, rid) && ValidParams(d.rules[rid].params) && SameButCursors(d, e)
    requires d.states[rid] == e.states[rid]
    requires Rearranged(a, b, d.states[rid].cursor) && FitsOneRun(d, rid, a) && FitsOneRun(d, rid, b)
    ensures SameButCursors(EvaluateOne(d, rid, a, now), EvaluateOne(e, rid, b, now))
  {
    var r, cursor := d.rules[rid], d.states[rid].cursor;
    RearrangedInputs(r, cursor, a, b, now);
    RunIgnoresCursors(d, e, rid, EvaluationInputs(a, r, cursor, BATCH, now),
                      EvaluationInputs(b, r, cursor, BATCH, now));
  }

  /** A turn of one rule leaves the rows of the others alone. */
  lemma {:induction false} TurnKeepsOthers(d: Db, rid: RuleId, rs: seq<Reading>, now: Time, q: RuleId)
    requires Evaluable(d) && rid in d.rules && q in d.rules && q != rid
    ensures var e := EvaluateOne(d, rid, rs, now);
            Registered(e, q) && e.rules == d.rules && MachineOf(e, q) == MachineOf(d, q)
  {
    RunPatches(d, rid, EvaluationInputs(rs, d.rules[rid], d.states[rid].cursor, BATCH, now));
  }

  lemma {:induction false} TurnIsEvaluable(d: Db, rid: RuleId, rs: seq<Reading>, now: Time)
    requires Evaluable(d) && rid in d.rules
    ensures var e := EvaluateOne(d, rid, rs, now);
            Evaluable(e) && e.rules == d.rules
  {
    RunPatches(d, rid, EvaluationInputs(rs, d.rules[rid], d.states[rid].cursor, BATCH, now));
  }

  lemma {:induction false} EvaluateAllIgnoresOrder(d: Db, e: Db, todo: set<RuleId>, a: seq<Reading>, b: seq<Reading>,
                                                   now: Time)
    requires Evaluable(d) && Evaluable(e) && SameButCursors(d, e) && todo <= d.rules.Keys
    requires Reordered(d, todo, a, b) && forall q | q in todo :: d.states[q] == e.states[q]
    ensures SameButCursors(EvaluateAll(d, todo, a, now), EvaluateAll(e, todo, b, now))
    decreases |todo|
  {
    if todo != {} {
      var rid := Least(todo);
      var d1, e1 := EvaluateOne(d, rid, a, now), EvaluateOne(e, rid, b, now);
      TurnIsEvaluable(d, rid, a, now);
      TurnIsEvaluable(e, rid, b, now);
      TurnIgnoresOrder(d, e, rid, a, b, now);
      forall q | q in todo - {rid}
        ensures d1.states[q] == e1.states[q]
        ensures Rearranged(a, b, d1.states[q].cursor) && FitsOneRun(d1, q, a) && FitsOneRun(d1, q, b)
      {
        TurnKeepsOthers(d, rid, a, now, q);
        TurnKeepsOthers(e, rid, b, now, q);
      }
      EvaluateAllIgnoresOrder(d1, e1, todo - {rid}, a, b, now);
    }
  }

  /** Permuting the arrival order of what at most one run handles leaves every
    * condition, alert, event with its evidence and outbox row as it is: an
    * evaluation ends in the same tables but for the cursors. */
  lemma {:induction false} EvaluationIgnoresArrivalOrder(db: Db, a: seq<Reading>, b: seq<Reading>, now: Time,
                                                         busy: bool)
    requires Evaluable(db) && Reordered(db, EnabledRules(db), a, b)
    ensures SameButCursors(Evaluate(db, a, now, busy), Evaluate(db, b, now, busy))
  {
    EvaluateAllIgnoresOrder(db, db, EnabledRules(db), a, b, now);
  }

  // ---------------------------------------------------------------- repetition

  /** Nothing waits for the machine and its verdict at `now` is given. */
  ghost predicate Idle(m: Machine, r: Rule, rs: seq<Reading>, now: Time) {
    Backlog(m, r, rs) == 0 && Judge(m, r, now) == m
  }

  lemma {:induction false} IdleAfterRun(m: Machine, r: Rule, rs: seq<Reading>, now: Time)
    requires ValidParams(r.params) && Committed(rs) && Backlog(m, r, rs) <= BATCH
    ensures Idle(EvaluateRule(m, r, rs, BATCH, now), r, rs, now)
  {
    OneRunDrains(m, r, rs, now);
    var inputs := EvaluationInputs(rs, r, m.progress.cursor, BATCH, now);
    JudgeTwice(Run(m, r, inputs[..|inputs| - 1]), r, now);
  }

  /** A verdict that is already given touches no table. */
  lemma {:induction false} JudgedIsSettled(db: Db, rid: RuleId, now: Time)
    requires Registered(db, rid) && Judge(MachineOf(db, rid), db.rules[rid], now) == MachineOf(db, rid)
    ensures JudgeDb(db, rid, now) == db
  {
    var r, s := db.rules[rid], db.states[rid];
    var target := if IsStale(r, s.last, now) then Warning else Normal;
    var ev := StaleEvidence(if s.last.Some? then Some(s.last.value.at) else None);
    assert Get(db.conditions[rid], Stale).severity == target;
    TransitionPatches(db, r, Stale, target, now, now, ev);
    assert db.conditions[rid := db.conditions[rid]] == db.conditions && db.states[rid := s] == db.states;
  }

  lemma {:induction false} IdleTurn(db: Db, rid: RuleId, rs: seq<Reading>, now: Time)
    requires Registered(db, rid) && ValidParams(db.rules[rid].params)
             && Idle(MachineOf(db, rid), db.rules[rid], rs, now)
    ensures EvaluateOne(db, rid, rs, now) == db
  {
    var inputs := EvaluationInputs(rs, db.rules[rid], db.states[rid].cursor, BATCH, now);
    assert inputs == [Verdict(now)] by {
      assert Batch(rs, db.rules[rid], db.states[rid].cursor, HighSequence(rs), BATCH) == [];
    }
    assert inputs[..0] == [];
    assert RunDb(db, rid, inputs) == JudgeDb(db, rid, now);
    JudgedIsSettled(db, rid, now);
  }

  lemma {:induction false} IdleEvaluation(db: Db, todo: set<RuleId>, rs: seq<Reading>, now: Time)
    requires Evaluable(db) && todo <= db.rules.Keys
    requires forall q | q in todo :: Idle(MachineOf(db, q), db.rules[q], rs, now)
    ensures EvaluateAll(db, todo, rs, now) == db
    decreases |todo|
  {
    if todo != {} {
      IdleTurn(db, Least(todo), rs, now);
      IdleEvaluation(db, todo - {Least(todo)}, rs, now);
    }
  }

  ghost predicate AllFitOneRun(db: Db, rs: seq<Reading>)
    requires Evaluable(db)
  {
    forall q | q in EnabledRules(db) :: FitsOneRun(db, q, rs)
  }

  /** Repeating an evaluation at the same time, when no more waited than one run
    * handles, changes no table at all: no condition, cursor, alert, event or outbox
    * row. */
  lemma {:induction false} RepetitionChangesNothing(db: Db, rs: seq<Reading>, now: Time)
    requires Inv(db) && Evaluable(db) && Committed(rs) && AllFitOneRun(db, rs)
    ensures var once := Evaluate(db, rs, now, false);
            Evaluable(once) && Evaluate(once, rs, now, false) == once
  {
    var todo := EnabledRules(db);
    var once := EvaluateAll(db, todo, rs, now);
    forall q | q in todo ensures Idle(MachineOf(once, q), once.rules[q], rs, now) {
      EvaluateAllIsPerRule(db, todo, rs, now, q);
      IdleAfterRun(MachineOf(db, q), db.rules[q], rs, now);
    }
    IdleEvaluation(once, todo, rs, now);
  }

  /** The same in a run of the system: the second of two evaluations is no step. */
  lemma {:induction false} RepeatedEvaluation(w: World, ops: seq<Op>, at: Time)
    requires Sound(w) && AllFitOneRun(After(w, ops).db, After(w, ops).readings)
    ensures var v, op := After(w, ops), Evaluation(at, false);
            Evaluable(Do(v, op).db) && Do(Do(v, op), op) == Do(v, op)
  {
    var v := After(w, ops);
    RepetitionChangesNothing(v.db, v.readings, at);
  }

  // ---------------------------------------------------------------- batching

  /** The events about level and rise, with their evidence. */
  function AboutReadings(alerts: seq<Alert>, events: seq<Event>): seq<Event> {
    if |events| == 0 then []
    else
      var n := |events| - 1;
      AboutReadings(alerts, events[..n])
      + if events[n].alert < |alerts| && alerts[events[n].alert].kind != Stale then [events[n]] else []
  }

  predicate SameAlert(a: Alert, b: Alert) {
    a.rule == b.rule && a.kind == b.kind && (a.kind != Stale ==> a == b)
  }

  ghost predicate SameAlerts(a: seq<Alert>, b: seq<Alert>) {
    |a| == |b| && forall i | 0 <= i < |a| :: SameAlert(a[i], b[i])
  }

  /** The logs tell the same of level and rise, and hold the same alerts of them. */
  ghost predicate LogsAlike(a: Log, b: Log) {
    SameAlerts(a.alerts, b.alerts) && AboutReadings(a.alerts, a.events) == AboutReadings(b.alerts, b.events)
  }

  ghost predicate ConditionsAlike(a: map<RuleId, Trio>, b: map<RuleId, Trio>) {
    a.Keys == b.Keys && forall q | q in a :: a[q].level == b[q].level && a[q].rise == b[q].rise
  }

  /** Everything is the same but what there is about staleness. */
  ghost predicate AlikeButStaleness(d: Db, e: Db) {
    && d.rules == e.rules && d.versions == e.versions && d.states == e.states
    && ConditionsAlike(d.conditions, e.conditions) && LogsAlike(d.log, e.log)
  }

  lemma {:induction false} AlikeOn(c: Db, d: Db, e: Db)
    requires AlikeButStaleness(c, d)
    ensures AlikeButStaleness(d, c) && (AlikeButStaleness(d, e) ==> AlikeButStaleness(c, e))
  {
  }

  ghost predicate NamesAll(log: Log) {
    forall k: nat :: NamesAlert(log, k)
  }

  lemma {:induction false} AboutStands(a: seq<Alert>, b: seq<Alert>, events: seq<Event>)
    requires SameSubjects(a, b) && forall k | 0 <= k < |events| :: events[k].alert < |a|
    ensures AboutReadings(a, events) == AboutReadings(b, events)
  {
    if |events| > 0 {
      AboutStands(a, b, events[..|events| - 1]);
    }
  }

  /** One more event, and alerts that keep their subjects. */
  lemma {:induction false} AboutAppend(log: Log, alerts: seq<Alert>, e: Event)
    requires NamesAll(log) && SameSubjects(log.alerts, alerts) && e.alert < |alerts|
    ensures var after := Append(log.(alerts := alerts), e);
            && NamesAll(after)
            && AboutReadings(alerts, after.events)
               == AboutReadings(log.alerts, log.events) + if alerts[e.alert].kind != Stale then [e] else []
  {
    var after := Append(log.(alerts := alerts), e);
    assert after.events[..|log.events|] == log.events;
    forall k: nat ensures NamesAlert(after, k) {
      assert NamesAlert(log, k);
    }
    forall k | 0 <= k < |log.events| ensures log.events[k].alert < |log.alerts| {
      assert NamesAlert(log, k);
    }
    AboutStands(log.alerts, alerts, log.events);
  }

  lemma {:induction false} FindActiveAlike(a: seq<Alert>, b: seq<Alert>, rid: RuleId, kind: Kind)
    requires SameAlerts(a, b) && kind != Stale
    ensures FindActive(a, rid, kind) == FindActive(b, rid, kind)
  {
    if |a| > 0 {
      assert SameAlert(a[|a| - 1], b[|b| - 1]);
      FindActiveAlike(a[..|a| - 1], b[..|b| - 1], rid, kind);
    }
  }

  lemma {:induction false} ChangeTells(log: Log, i: nat, alert: Alert, e: Event)
    requires NamesAll(log) && i < |log.alerts| && e.alert == i
    requires alert.rule == log.alerts[i].rule && alert.kind == log.alerts[i].kind != Stale
    ensures var u := Append(log.(alerts := log.alerts[i := alert]), e);
            NamesAll(u) && AboutReadings(u.alerts, u.events) == AboutReadings(log.alerts, log.events) + [e]
  {
    var alerts := log.alerts[i := alert];
    assert alerts[e.alert] == alert;
    AboutAppend(log, alerts, e);
  }

  lemma {:induction false} SameChange(a: seq<Alert>, b: seq<Alert>, i: nat, alert: Alert)
    requires SameAlerts(a, b) && i < |a|
    ensures SameAlerts(a[i := alert], b[i := alert])
  {
  }

  /** The same event and the same changed alert in both logs. */
  lemma {:induction false} ChangeAlike(a: Log, b: Log, i: nat, alert: Alert, e: Event)
    requires LogsAlike(a, b) && NamesAll(a) && NamesAll(b) && i < |a.alerts| && e.alert == i
    requires alert.rule == a.alerts[i].rule && alert.kind == a.alerts[i].kind != Stale
    ensures var u, w := Append(a.(alerts := a.alerts[i := alert]), e), Append(b.(alerts := b.alerts[i := alert]), e);
            LogsAlike(u, w) && NamesAll(u) && NamesAll(w)
  {
    assert SameAlert(a.alerts[i], b.alerts[i]);
    SameChange(a.alerts, b.alerts, i, alert);
    ChangeTells(a, i, alert, e);
    ChangeTells(b, i, alert, e);
  }

  lemma {:induction false} OpenAlike(a: Log, b: Log, alert: Alert, details: Details)
    requires LogsAlike(a, b) && NamesAll(a) && NamesAll(b)
    ensures LogsAlike(Open(a, alert, details), Open(b, alert, details))
    ensures NamesAll(Open(a, alert, details)) && NamesAll(Open(b, alert, details))
  {
    AboutAppend(a, a.alerts + [alert], Event(|a.alerts|, Opened, details));
    AboutAppend(b, b.alerts + [alert], Event(|b.alerts|, Opened, details));
  }

  /** The same change of level or rise, reported in both logs. */
  lemma {:induction false} ReportAlike(a: Log, b: Log, r: Rule, k: Kind, target: Severity, at: Time, now: Time,
                                       ev: Evidence)
    requires LogsAlike(a, b) && NamesAll(a) && NamesAll(b) && k != Stale
    ensures LogsAlike(Report(a, r, k, target, at, now, ev), Report(b, r, k, target, at, now, ev))
    ensures NamesAll(Report(a, r, k, target, at, now, ev)) && NamesAll(Report(b, r, k, target, at, now, ev))
  {
    FindActiveAlike(a.alerts, b.alerts, r.params.id, k);
    var active := FindActive(a.alerts, r.params.id, k);
    var details := Transitioned(target, at, r.version, ev);
    if active.Some? {
      var i := active.value;
      assert SameAlert(a.alerts[i], b.alerts[i]);
      if target == Normal {
        ChangeAlike(a, b, i, a.alerts[i].(resolvedAt := Some(now)), Event(i, Resolved, details));
      } else {
        ChangeAlike(a, b, i, a.alerts[i].(severity := target),
                    Event(i, if target == Critical then Escalated else Downgraded, details));
      }
    } else if target != Normal {
      OpenAlike(a, b, Alert(r.params.id, r.version, k, target, now, None, None), details);
    }
  }

  lemma {:induction false} TransitionAlike(d: Db, e: Db, r: Rule, k: Kind, target: Severity, at: Time, now: Time,
                                           ev: Evidence)
    requires r.params.id in d.conditions && AlikeButStaleness(d, e) && k != Stale && NamesAll(d.log) && NamesAll(e.log)
    ensures var u, w := Transition(d, r, k, target, at, now, ev), Transition(e, r, k, target, at, now, ev);
            AlikeButStaleness(u, w) && NamesAll(u.log) && NamesAll(w.log)
  {
    TransitionAdvances(d, r, k, target, at, now, ev);
    TransitionAdvances(e, r, k, target, at, now, ev);
    assert Get(d.conditions[r.params.id], k) == Get(e.conditions[r.params.id], k);
    ReportAlike(d.log, e.log, r, k, target, at, now, ev);
  }

  lemma {:induction false} AbsorbConditionsAlike(d: Db, e: Db, r: Rule, o: Obs, rate: Option<real>, now: Time)
    requires r.params.id in d.conditions && AlikeButStaleness(d, e) && NamesAll(d.log) && NamesAll(e.log)
    ensures var u, w := AbsorbConditions(d, r, o, rate, now), AbsorbConditions(e, r, o, rate, now);
            AlikeButStaleness(u, w) && NamesAll(u.log) && NamesAll(w.log)
  {
    var p, rid := r.params, r.params.id;
    var target, ev := Classify(o.value, p.level, d.conditions[rid].level.severity), LevelEvidence(o.id, o.at, o.value);
    TransitionAlike(d, e, r, Level, target, o.at, now, ev);
    if rate.Some? {
      var u, w := Transition(d, r, Level, target, o.at, now, ev), Transition(e, r, Level, target, o.at, now, ev);
      TransitionAlike(u, w, r, Rise, Classify(rate.value, p.rise, u.conditions[rid].rise.severity), o.at, now,
                      RiseEvidence(o.id, o.at, o.value, rate.value));
    }
  }

  lemma {:induction false} AbsorbAlike(d: Db, e: Db, rid: RuleId, x: Reading, rate: Option<real>, now: Time)
    requires Registered(d, rid) && AlikeButStaleness(d, e) && NamesAll(d.log) && NamesAll(e.log)
    ensures var u, w := AbsorbDb(d, rid, x, rate, now), AbsorbDb(e, rid, x, rate, now);
            AlikeButStaleness(u, w) && NamesAll(u.log) && NamesAll(w.log)
  {
    var r, last := d.rules[rid], d.states[rid].last;
    if Usable(r, last, x.obs, now) {
      var d0 := if Gap(r, last, x.obs) then SetTrio(d, rid, InterruptAll(d.conditions[rid])) else d;
      var e0 := if Gap(r, last, x.obs) then SetTrio(e, rid, InterruptAll(e.conditions[rid])) else e;
      AbsorbConditionsAlike(d0, e0, r, x.obs, rate, now);
    }
  }

  lemma {:induction false} ArrivalsAlike(d: Db, e: Db, rid: RuleId, inputs: seq<Input>)
    requires Registered(d, rid) && AlikeButStaleness(d, e) && NamesAll(d.log) && NamesAll(e.log) && AllArrive(inputs)
    ensures AlikeButStaleness(RunDb(d, rid, inputs), RunDb(e, rid, inputs))
    ensures NamesAll(RunDb(d, rid, inputs).log) && NamesAll(RunDb(e, rid, inputs).log)
  {
    if |inputs| > 0 {
      var n := |inputs| - 1;
      assert inputs[n].Arrive?;
      ArrivalsAlike(d, e, rid, inputs[..n]);
      AbsorbAlike(RunDb(d, rid, inputs[..n]), RunDb(e, rid, inputs[..n]), rid, inputs[n].reading, inputs[n].rate,
                  inputs[n].now);
    }
  }

  /** A fresh verdict touches only what there is about staleness. */
  lemma {:induction false} FreshVerdictAlike(d: Db, rid: RuleId, now: Time)
    requires Registered(d, rid) && NamesAll(d.log) && !IsStale(d.rules[rid], d.states[rid].last, now)
    ensures AlikeButStaleness(JudgeDb(d, rid, now), d) && NamesAll(JudgeDb(d, rid, now).log)
  {
    var r, last := d.rules[rid], d.states[rid].last;
    var ev := StaleEvidence(if last.Some? then Some(last.value.at) else None);
    TransitionAdvances(d, r, Stale, Normal, now, now, ev);
    var active := FindActive(d.log.alerts, rid, Stale);
    if active.Some? {
      var i := active.value;
      AboutAppend(d.log, d.log.alerts[i := d.log.alerts[i].(resolvedAt := Some(now))],
                  Event(i, Resolved, Transitioned(Normal, now, r.version, ev)));
    }
  }

  lemma {:induction false} RunDbAppend(d: Db, rid: RuleId, a: seq<Input>, b: seq<Input>)
    requires Registered(d, rid)
    ensures RunDb(d, rid, a + b) == RunDb(RunDb(d, rid, a), rid, b)
    decreases |b|
  {
    if |b| == 0 {
      assert a + b == a;
    } else {
      var front, i := b[..|b| - 1], b[|b| - 1];
      RunDbAppend(d, rid, a, front);
      assert b == front + [i] && a + b == (a + front) + [i];
      RunDbSnoc(d, rid, a + front, i);
      RunDbSnoc(RunDb(d, rid, a), rid, front, i);
    }
  }

  lemma {:induction false} RunDbSnoc(d: Db, rid: RuleId, front: seq<Input>, i: Input)
    requires Registered(d, rid)
    ensures RunDb(d, rid, front + [i]) == StepDb(RunDb(d, rid, front), rid, i)
  {
    assert (front + [i])[..|front|] == front;
  }

  /** One turn that takes at most `limit` readings. */
  function EvaluateWith(db: Db, rid: RuleId, rs: seq<Reading>, limit: nat, now: Time): Db
    requires Registered(db, rid) && ValidParams(db.rules[rid].params)
  {
    RunDb(db, rid, EvaluationInputs(rs, db.rules[rid], db.states[rid].cursor, limit, now))
  }

  /** One turn after another over the same registry, with these limits. */
  function BoundedTurns(db: Db, rid: RuleId, rs: seq<Reading>, limits: seq<nat>, now: Time): (d: Db)
    requires Registered(db, rid) && ValidParams(db.rules[rid].params)
    ensures Registered(d, rid) && d.rules == db.rules
  {
    if |limits| == 0 then db
    else EvaluateWith(BoundedTurns(db, rid, rs, limits[..|limits| - 1], now), rid, rs, limits[|limits| - 1], now)
  }

  lemma {:induction false} TurnsAreRuns(db: Db, rid: RuleId, rs: seq<Reading>, limits: seq<nat>, now: Time)
    requires Registered(db, rid) && ValidParams(db.rules[rid].params)
    ensures MachineOf(BoundedTurns(db, rid, rs, limits, now), rid)
            == BoundedRuns(MachineOf(db, rid), db.rules[rid], rs, limits, now)
  {
    if |limits| > 0 {
      var front, limit := limits[..|limits| - 1], limits[|limits| - 1];
      var before := BoundedTurns(db, rid, rs, front, now);
      TurnsAreRuns(db, rid, rs, front, now);
      RunPatches(before, rid, EvaluationInputs(rs, db.rules[rid], before.states[rid].cursor, limit, now));
    }
  }

  /** The arrivals of the first n waiting readings, in arrival order. */
  function FirstArrivals(db: Db, rid: RuleId, rs: seq<Reading>, n: nat, now: Time): seq<Input>
    requires Registered(db, rid) && ValidParams(db.rules[rid].params)
             && n <= Backlog(MachineOf(db, rid), db.rules[rid], rs)
  {
    Arrivals(Waiting(rs, db.rules[rid].params.sensor, db.states[rid].cursor, HighSequence(rs))[..n], rs,
             db.rules[rid].params, now)
  }

  /** A turn at a cursor behind the first `done` readings takes the next ones, in
    * arrival order, and gives its verdict. */
  lemma {:induction false} TurnTakesNext(d: Db, rid: RuleId, rs: seq<Reading>, cursor: nat, done: nat, limit: nat,
                                         now: Time)
    requires Registered(d, rid) && ValidParams(d.rules[rid].params) && Committed(rs)
    requires done <= |Waiting(rs, d.rules[rid].params.sensor, cursor, HighSequence(rs))|
    requires var w := Waiting(rs, d.rules[rid].params.sensor, cursor, HighSequence(rs));
             TimeSorted(w) && d.states[rid].cursor == CursorAfter(w[..done], cursor)
    ensures var p := d.rules[rid].params;
            var w := Waiting(rs, p.sensor, cursor, HighSequence(rs));
            var more := Arrivals(w[done..Min(|w|, done + limit)], rs, p, now);
            EvaluateWith(d, rid, rs, limit, now) == JudgeDb(RunDb(d, rid, more), rid, now)
  {
    var r := d.rules[rid];
    var w := Waiting(rs, r.params.sensor, cursor, HighSequence(rs));
    var n := Min(|w|, done + limit);
    NextBatch(rs, r, cursor, done, limit);
    SortOfSorted(w[done..n]);
    var more := Arrivals(w[done..n], rs, r.params, now);
    RunDbAppend(d, rid, more, [Verdict(now)]);
    VerdictLast(RunDb(d, rid, more), rid, now);
  }

  /** The first n readings are the first `done` and then the next ones. */
  lemma {:induction false} FirstAndNext(db: Db, rid: RuleId, rs: seq<Reading>, done: nat, n: nat, now: Time)
    requires Registered(db, rid) && ValidParams(db.rules[rid].params)
    requires done <= n <= Backlog(MachineOf(db, rid), db.rules[rid], rs)
    ensures var w := Waiting(rs, db.rules[rid].params.sensor, db.states[rid].cursor, HighSequence(rs));
            RunDb(db, rid, FirstArrivals(db, rid, rs, n, now))
            == RunDb(RunDb(db, rid, FirstArrivals(db, rid, rs, done, now)), rid,
                     Arrivals(w[done..n], rs, db.rules[rid].params, now))
  {
    var w := Waiting(rs, db.rules[rid].params.sensor, db.states[rid].cursor, HighSequence(rs));
    ArrivalsCut(w, done, n, rs, db.rules[rid].params, now);
    RunDbAppend(db, rid, FirstArrivals(db, rid, rs, done, now), Arrivals(w[done..n], rs, db.rules[rid].params, now));
  }

  lemma {:induction false} FreshAfterFirst(db: Db, rid: RuleId, rs: seq<Reading>, n: nat, now: Time)
    requires Registered(db, rid) && ValidParams(db.rules[rid].params)
    requires OrderlyBacklog(MachineOf(db, rid), db.rules[rid], rs, now)
    requires 0 < n <= Backlog(MachineOf(db, rid), db.rules[rid], rs)
    ensures !IsStale(db.rules[rid], RunDb(db, rid, FirstArrivals(db, rid, rs, n, now)).states[rid].last, now)
  {
    OrderlyStaysFresh(MachineOf(db, rid), db.rules[rid], rs, now, n);
    RunPatches(db, rid, FirstArrivals(db, rid, rs, n, now));
  }

  /** d has come as far as db after its first n readings, but for staleness. */
  ghost predicate CameTo(db: Db, d: Db, rid: RuleId, rs: seq<Reading>, n: nat, now: Time)
    requires Registered(db, rid) && ValidParams(db.rules[rid].params)
  {
    && n <= Backlog(MachineOf(db, rid), db.rules[rid], rs)
    && var goal := RunDb(db, rid, FirstArrivals(db, rid, rs, n, now));
    Registered(d, rid) && AlikeButStaleness(d, goal) && NamesAll(d.log) && NamesAll(goal.log)
  }

  /** One more turn from there. */
  lemma {:induction false} TurnGoesOn(db: Db, d: Db, rid: RuleId, rs: seq<Reading>, done: nat, limit: nat, now: Time,
                                      after: Db, n: nat)
    requires Registered(db, rid) && ValidParams(db.rules[rid].params) && Committed(rs) && limit > 0
    requires OrderlyBacklog(MachineOf(db, rid), db.rules[rid], rs, now) && CameTo(db, d, rid, rs, done, now)
    requires var w := Waiting(rs, db.rules[rid].params.sensor, db.states[rid].cursor, HighSequence(rs));
             d.states[rid].cursor == CursorAfter(w[..done], db.states[rid].cursor)
    requires after == EvaluateWith(d, rid, rs, limit, now)
    requires n == Min(Backlog(MachineOf(db, rid), db.rules[rid], rs), done + limit)
    ensures CameTo(db, after, rid, rs, n, now)
  {
    var p := db.rules[rid].params;
    var w := Waiting(rs, p.sensor, db.states[rid].cursor, HighSequence(rs));
    var more := Arrivals(w[done..n], rs, p, now);
    var before, goal := RunDb(db, rid, FirstArrivals(db, rid, rs, done, now)),
        RunDb(db, rid, FirstArrivals(db, rid, rs, n, now));
    var handled := RunDb(d, rid, more);
    FirstAndNext(db, rid, rs, done, n, now);
    ArrivalsAlike(d, before, rid, more);
    FreshAfterFirst(db, rid, rs, n, now);
    TurnTakesNext(d, rid, rs, db.states[rid].cursor, done, limit, now);
    FreshVerdictAlike(handled, rid, now);
    AlikeOn(JudgeDb(handled, rid, now), handled, goal);
  }

  lemma {:induction false} VerdictLast(d: Db, rid: RuleId, now: Time)
    requires Registered(d, rid)
    ensures RunDb(d, rid, [Verdict(now)]) == JudgeDb(d, rid, now)
  {
    assert [Verdict(now)][..0] == [];
  }

  lemma {:induction false} CameNowhere(db: Db, rid: RuleId, rs: seq<Reading>, now: Time)
    requires Registered(db, rid) && ValidParams(db.rules[rid].params) && NamesAll(db.log)
    ensures CameTo(db, db, rid, rs, 0, now)
  {
    assert FirstArrivals(db, rid, rs, 0, now) == [];
  }

  lemma {:induction false} TurnsCursor(db: Db, rid: RuleId, rs: seq<Reading>, limits: seq<nat>, now: Time)
    requires Registered(db, rid) && ValidParams(db.rules[rid].params) && Committed(rs)
    requires OrderlyBacklog(MachineOf(db, rid), db.rules[rid], rs, now)
    requires forall i | 0 <= i < |limits| :: limits[i] > 0
    ensures var w := Waiting(rs, db.rules[rid].params.sensor, db.states[rid].cursor, HighSequence(rs));
            BoundedTurns(db, rid, rs, limits, now).states[rid].cursor
            == CursorAfter(w[..Min(|w|, Sum(limits))], db.states[rid].cursor)
  {
    TurnsAreRuns(db, rid, rs, limits, now);
    BoundedRunsCatchUp(MachineOf(db, rid), db.rules[rid], rs, limits, now);
  }

  lemma {:induction false} TurnsSnoc(db: Db, rid: RuleId, rs: seq<Reading>, limits: seq<nat>, now: Time)
    requires Registered(db, rid) && ValidParams(db.rules[rid].params) && |limits| > 0
    ensures var front, limit := limits[..|limits| - 1], limits[|limits| - 1];
            && BoundedTurns(db, rid, rs, limits, now)
               == EvaluateWith(BoundedTurns(db, rid, rs, front, now), rid, rs, limit, now)
            && Sum(limits) == Sum(front) + limit
  {
  }

  lemma {:induction false} TurnsCatchUp(db: Db, rid: RuleId, rs: seq<Reading>, limits: seq<nat>, now: Time)
    requires Registered(db, rid) && ValidParams(db.rules[rid].params) && Committed(rs) && NamesAll(db.log)
    requires OrderlyBacklog(MachineOf(db, rid), db.rules[rid], rs, now)
    requires forall i | 0 <= i < |limits| :: limits[i] > 0
    ensures CameTo(db, BoundedTurns(db, rid, rs, limits, now), rid, rs,
                   Min(Backlog(MachineOf(db, rid), db.rules[rid], rs), Sum(limits)), now)
  {
    if |limits| == 0 {
      CameNowhere(db, rid, rs, now);
    } else {
      var front, limit := limits[..|limits| - 1], limits[|limits| - 1];
      TurnsCatchUp(db, rid, rs, front, now);
      TurnsCursor(db, rid, rs, front, now);
      TurnsSnoc(db, rid, rs, limits, now);
      MinAdds(Backlog(MachineOf(db, rid), db.rules[rid], rs), Sum(front), limit);
      TurnGoesOn(db, BoundedTurns(db, rid, rs, front, now), rid, rs,
                 Min(Backlog(MachineOf(db, rid), db.rules[rid], rs), Sum(front)), limit, now,
                 BoundedTurns(db, rid, rs, limits, now),
                     Min(Backlog(MachineOf(db, rid), db.rules[rid], rs), Sum(limits)));
    }
  }

  /** Batching is transparent to the tables: cutting an orderly backlog into turns of
    * any positive sizes leaves the same progress, the same level and rise conditions,
    * the same alerts of them, and the same events about them with their evidence, in
    * the same order, as one turn over all of it. */
  lemma {:induction false} BatchingLeavesTheSameTables(db: Db, rid: RuleId, rs: seq<Reading>, limits: seq<nat>,
                                                       now: Time)
    requires Inv(db) && Registered(db, rid) && ValidParams(db.rules[rid].params) && Committed(rs)
    requires OrderlyBacklog(MachineOf(db, rid), db.rules[rid], rs, now)
    requires forall i | 0 <= i < |limits| :: limits[i] > 0
    requires Sum(limits) >= Backlog(MachineOf(db, rid), db.rules[rid], rs)
    ensures AlikeButStaleness(BoundedTurns(db, rid, rs, limits, now),
                              EvaluateWith(db, rid, rs, Backlog(MachineOf(db, rid), db.rules[rid], rs), now))
  {
    assert Holds(LogFaithful, db);
    var b := Backlog(MachineOf(db, rid), db.rules[rid], rs);
    var whole := [b];
    assert whole[..0] == [] && Sum(whole[..0]) == 0 && Sum(whole) == b;
    assert BoundedTurns(db, rid, rs, whole[..0], now) == db;
    TurnsCatchUp(db, rid, rs, limits, now);
    TurnsCatchUp(db, rid, rs, whole, now);
    AlikeOn(EvaluateWith(db, rid, rs, b, now), RunDb(db, rid, FirstArrivals(db, rid, rs, b, now)),
            BoundedTurns(db, rid, rs, limits, now));
    AlikeOn(BoundedTurns(db, rid, rs, limits, now), RunDb(db, rid, FirstArrivals(db, rid, rs, b, now)),
            EvaluateWith(db, rid, rs, b, now));
  }
}
