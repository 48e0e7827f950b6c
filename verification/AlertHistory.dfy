/** An alert over time: what of it never changes, and which operation each of its dates
  * comes from. */
module AlertHistory {
  import opened Wrappers
  import opened Clock
  import opened Conditions
  import opened Rules
  import opened Readings
  import opened RuleMachine
  import opened AlertLog
  import opened AlertDb
  import opened AlertInvariant
  import opened AlertRuns

  // ---------------------------------------------------------------- one evaluation

  /** What an evaluation at `now` may make of an alert: it may grade it while it is
    * unresolved, and resolve it, at that time. */
  predicate Carries(a: Alert, b: Alert, now: Time) {
    && b.rule == a.rule && b.version == a.version && b.kind == a.kind && b.openedAt == a.openedAt
    && b.receipt == a.receipt
    && if a.resolvedAt.Some? then b == a else b.resolvedAt.None? || b.resolvedAt == Some(now)
  }

  /** An alert that the evaluation opened. */
  predicate Begins(b: Alert, now: Time) {
    b.openedAt == now && b.receipt.None? && (b.resolvedAt.None? || b.resolvedAt == Some(now))
  }

  predicate CarriedAt(a: seq<Alert>, b: seq<Alert>, now: Time, i: nat) {
    i < |b| ==> if i < |a| then Carries(a[i], b[i], now) else Begins(b[i], now)
  }

  ghost predicate Carried(a: seq<Alert>, b: seq<Alert>, now: Time) {
    |a| <= |b| && forall i: nat :: CarriedAt(a, b, now, i)
  }

  lemma {:induction false} CarriedOn(a: seq<Alert>, b: seq<Alert>, c: seq<Alert>, now: Time)
    requires Carried(a, b, now) && Carried(b, c, now)
    ensures Carried(a, c, now)
  {
    forall i: nat ensures CarriedAt(a, c, now, i) {
      assert CarriedAt(a, b, now, i) && CarriedAt(b, c, now, i);
    }
  }

  lemma {:induction false} NothingCarried(a: seq<Alert>, now: Time)
    ensures Carried(a, a, now)
  {
    forall i: nat ensures CarriedAt(a, a, now, i) {
    }
  }

  lemma {:induction false} ReportCarries(log: Log, r: Rule, k: Kind, target: Severity, at: Time, now: Time,
                                         ev: Evidence)
    ensures Carried(log.alerts, Report(log, r, k, target, at, now, ev).alerts, now)
  {
    var b := Report(log, r, k, target, at, now, ev).alerts;
    forall i: nat ensures CarriedAt(log.alerts, b, now, i) {
    }
  }

  lemma {:induction false} TransitionCarries(db: Db, r: Rule, k: Kind, target: Severity, at: Time, now: Time,
                                             ev: Evidence)
    requires r.params.id in db.conditions
    ensures Carried(db.log.alerts, Transition(db, r, k, target, at, now, ev).log.alerts, now)
  {
    TransitionAdvances(db, r, k, target, at, now, ev);
    ReportCarries(db.log, r, k, target, at, now, ev);
    NothingCarried(db.log.alerts, now);
  }

  lemma {:induction false} AbsorbCarries(db: Db, rid: RuleId, x: Reading, rate: Option<real>, now: Time)
    requires Registered(db, rid)
    ensures Carried(db.log.alerts, AbsorbDb(db, rid, x, rate, now).log.alerts, now)
  {
    var r, last, o := db.rules[rid], db.states[rid].last, x.obs;
    NothingCarried(db.log.alerts, now);
    if Usable(r, last, o, now) {
      var d := if Gap(r, last, o) then SetTrio(db, rid, InterruptAll(db.conditions[rid])) else db;
      var target, ev := Classify(o.value, r.params.level, d.conditions[rid].level.severity),
          LevelEvidence(o.id, o.at, o.value);
      TransitionCarries(d, r, Level, target, o.at, now, ev);
      var u := Transition(d, r, Level, target, o.at, now, ev);
      if rate.Some? {
        var rise, rev := Classify(rate.value, r.params.rise, u.conditions[rid].rise.severity),
                         RiseEvidence(o.id, o.at, o.value, rate.value);
        TransitionCarries(u, r, Rise, rise, o.at, now, rev);
        CarriedOn(db.log.alerts, u.log.alerts, Transition(u, r, Rise, rise, o.at, now, rev).log.alerts, now);
      }
    }
  }

  lemma {:induction false} StepCarries(db: Db, rid: RuleId, i: Input)
    requires Registered(db, rid)
    ensures Carried(db.log.alerts, StepDb(db, rid, i).log.alerts, i.now)
  {
    match i
    case Arrive(x, rate, now) => AbsorbCarries(db, rid, x, rate, now);
    case Verdict(now) =>
      var r, last := db.rules[rid], db.states[rid].last;
      TransitionCarries(db, r, Stale, if IsStale(r, last, now) then Warning else Normal, now, now,
                        StaleEvidence(if last.Some? then Some(last.value.at) else None));
  }

  predicate AllNow(inputs: seq<Input>, now: Time) {
    forall k | 0 <= k < |inputs| :: inputs[k].now == now
  }

  lemma {:induction false} RunCarries(db: Db, rid: RuleId, inputs: seq<Input>, now: Time)
    requires Registered(db, rid) && AllNow(inputs, now)
    ensures Carried(db.log.alerts, RunDb(db, rid, inputs).log.alerts, now)
  {
    if |inputs| == 0 {
      NothingCarried(db.log.alerts, now);
    } else {
      var front, i := inputs[..|inputs| - 1], inputs[|inputs| - 1];
      var d := RunDb(db, rid, front);
      RunCarries(db, rid, front, now);
      StepCarries(d, rid, i);
      CarriedOn(db.log.alerts, d.log.alerts, StepDb(d, rid, i).log.alerts, now);
    }
  }

  lemma {:induction false} EvaluateAllCarries(db: Db, todo: set<RuleId>, rs: seq<Reading>, now: Time)
    requires Evaluable(db) && todo <= db.rules.Keys
    ensures Carried(db.log.alerts, EvaluateAll(db, todo, rs, now).log.alerts, now)
    decreases |todo|
  {
    if todo == {} {
      NothingCarried(db.log.alerts, now);
    } else {
      var rid := Least(todo);
      var d := EvaluateOne(db, rid, rs, now);
      LeastGoesFirst(db, todo, rs, now);
      RunCarries(db, rid, EvaluationInputs(rs, db.rules[rid], db.states[rid].cursor, BATCH, now), now);
      EvaluateAllCarries(d, todo - {rid}, rs, now);
      CarriedOn(db.log.alerts, d.log.alerts, EvaluateAll(d, todo - {rid}, rs, now).log.alerts, now);
    }
  }

  // ---------------------------------------------------------------- any operation

  /** The operation resolves alerts of the rule at time t. */
  predicate Resolves(op: Op, rid: RuleId, t: Time) {
    op == Evaluation(t, false) || (op.Save? && op.params.id == rid && op.at == t)
  }

  /** What an operation may do to alert i: only an evaluation grades it, only an
    * evaluation or a save of its own rule resolves it, at its own time, only an
    * acknowledgment of it gives it a receipt, its own; and nothing is ever undone. */
  predicate Explains(op: Op, a: Alert, b: Alert, i: nat) {
    && b.rule == a.rule && b.version == a.version && b.kind == a.kind && b.openedAt == a.openedAt
    && (b.severity != a.severity ==> op.Evaluation? && a.resolvedAt.None?)
    && (if a.resolvedAt.Some? then b.resolvedAt == a.resolvedAt
        else b.resolvedAt.Some? ==> Resolves(op, a.rule, b.resolvedAt.value))
    && (if a.receipt.Some? then b.receipt == a.receipt
        else b.receipt.Some? ==> op == Acknowledgment(i, b.receipt.value))
  }

  /** Only an evaluation opens alerts, dated at its own time. */
  predicate Opens(op: Op, b: Alert) {
    && op == Evaluation(b.openedAt, false) && b.receipt.None?
    && (b.resolvedAt.None? || b.resolvedAt == Some(b.openedAt))
  }

  predicate ExplainedAt(op: Op, a: seq<Alert>, b: seq<Alert>, i: nat) {
    i < |b| ==> if i < |a| then Explains(op, a[i], b[i], i) else Opens(op, b[i])
  }

  lemma {:induction false} EvaluationExplains(w: World, at: Time, i: nat)
    requires Sound(w)
    ensures |w.db.log.alerts| <= |Do(w, Evaluation(at, false)).db.log.alerts|
    ensures ExplainedAt(Evaluation(at, false), w.db.log.alerts, Do(w, Evaluation(at, false)).db.log.alerts, i)
  {
    EvaluateAllCarries(w.db, EnabledRules(w.db), w.readings, at);
    assert CarriedAt(w.db.log.alerts, Do(w, Evaluation(at, false)).db.log.alerts, at, i);
  }

  /** A rule that is new has no unresolved alert. */
  lemma {:induction false} NewRuleHasNone(db: Db, rid: RuleId, i: nat)
    requires Inv(db) && rid !in db.rules && i < |db.log.alerts|
    ensures db.log.alerts[i].rule == rid ==> db.log.alerts[i].resolvedAt.Some?
  {
    assert Holds(AlertsAgree, db);
  }

  lemma {:induction false} SaveCarries(db: Db, p: Params, expected: int, seed: bool, now: Time, high: nat, i: nat)
    requires Inv(db) && i < |db.log.alerts|
    ensures var a, b := db.log.alerts, SaveRule(db, p, expected, seed, now, high).0.log.alerts;
            && |a| == |b|
            && (b[i] == a[i] || (!seed && a[i].rule == p.id && a[i].resolvedAt.None?
                                 && b[i] == a[i].(resolvedAt := Some(now))))
  {
    assert Holds(LogFaithful, db);
    var d := SaveRule(db, p, expected, seed, now, high).0;
    if d != db {
      RetireKeepsLog(db.log, p.id, |db.log.alerts|, now, if p.id in db.rules then db.rules[p.id].version + 1 else 1);
      if p.id !in db.rules {
        NewRuleHasNone(db, p.id, i);
      }
    }
  }

  lemma {:induction false} SaveAddsNone(db: Db, p: Params, expected: int, seed: bool, now: Time, high: nat)
    ensures |SaveRule(db, p, expected, seed, now, high).0.log.alerts| == |db.log.alerts|
  {
  }

  /** Every operation does to every alert only what it may. */
  lemma {:induction false} StepExplains(w: World, op: Op, i: nat)
    requires Sound(w)
    ensures |w.db.log.alerts| <= |Do(w, op).db.log.alerts|
    ensures ExplainedAt(op, w.db.log.alerts, Do(w, op).db.log.alerts, i)
  {
    match op
    case Commit(more) =>
    case Evaluation(at, busy) =>
      if !busy {
        EvaluationExplains(w, at, i);
      }
    case Save(p, expected, at) =>
      SaveAddsNone(w.db, p, expected, false, at, HighSequence(w.readings));
      if i < |w.db.log.alerts| {
        SaveCarries(w.db, p, expected, false, at, HighSequence(w.readings), i);
      }
    case Seeding(p, version, at) =>
      SaveAddsNone(w.db, p, version, true, at, HighSequence(w.readings));
      if i < |w.db.log.alerts| {
        SaveCarries(w.db, p, version, true, at, HighSequence(w.readings), i);
      }
    case Acknowledgment(n, receipt) =>
  }

  // ---------------------------------------------------------------- whole runs

  /** Some operation among them resolved alerts of the rule at time t. */
  ghost predicate ResolvedBy(ops: seq<Op>, rid: RuleId, t: Time) {
    exists k :: 0 <= k < |ops| && Resolves(ops[k], rid, t)
  }

  /** The dates and the receipt of alert i come from operations of the run. */
  ghost predicate Dated(ops: seq<Op>, a: Alert, i: nat) {
    && Evaluation(a.openedAt, false) in ops
    && (a.resolvedAt.Some? ==> ResolvedBy(ops, a.rule, a.resolvedAt.value))
    && (a.receipt.Some? ==> Acknowledgment(i, a.receipt.value) in ops)
  }

  lemma {:induction false} DatedStill(front: seq<Op>, op: Op, a: Alert, b: Alert, i: nat)
    requires Dated(front, a, i) && Explains(op, a, b, i)
    ensures Dated(front + [op], b, i)
  {
    var ops := front + [op];
    assert forall o | o in front :: o in ops;
    assert op in ops;
    if b.resolvedAt.Some? {
      if a.resolvedAt.Some? {
        var k :| 0 <= k < |front| && Resolves(front[k], a.rule, a.resolvedAt.value);
        assert Resolves(ops[k], b.rule, b.resolvedAt.value);
      } else {
        assert Resolves(ops[|front|], b.rule, b.resolvedAt.value);
      }
    }
  }

  lemma {:induction false} DatedFirst(front: seq<Op>, op: Op, b: Alert, i: nat)
    requires Opens(op, b)
    ensures Dated(front + [op], b, i)
  {
    var ops := front + [op];
    assert op in ops;
    assert b.resolvedAt.Some? ==> Resolves(ops[|front|], b.rule, b.resolvedAt.value);
  }

  /** In every reachable state, every alert was opened at the time of an evaluation of
    * the run, resolved, if it is, at the time of an evaluation or of a save of its rule,
    * and its receipt, if it has one, is that of an acknowledgment of it. */
  lemma {:induction false} DatesAreExplained(ops: seq<Op>, i: nat)
    requires i < |After(Start(), ops).db.log.alerts|
    ensures Dated(ops, After(Start(), ops).db.log.alerts[i], i)
  {
    if |ops| > 0 {
      var front, op := ops[..|ops| - 1], ops[|ops| - 1];
      var v := After(Start(), front);
      assert ops == front + [op];
      StepExplains(v, op, i);
      if i < |v.db.log.alerts| {
        DatesAreExplained(front, i);
        DatedStill(front, op, v.db.log.alerts[i], Do(v, op).db.log.alerts[i], i);
      } else {
        DatedFirst(front, op, Do(v, op).db.log.alerts[i], i);
      }
    }
  }

  /** What of an alert stays for good. */
  predicate Stays(a: Alert, b: Alert) {
    && b.rule == a.rule && b.version == a.version && b.kind == a.kind && b.openedAt == a.openedAt
    && (a.resolvedAt.Some? ==> b.resolvedAt == a.resolvedAt && b.severity == a.severity)
    && (a.receipt.Some? ==> b.receipt == a.receipt)
  }

  /** Along every run alerts keep their rule, version, kind and opening time; once they
    * are resolved, their resolution and severity; once acknowledged, the first receipt. */
  lemma {:induction false} AlertsStay(w: World, ops: seq<Op>, i: nat)
    requires Sound(w) && i < |w.db.log.alerts|
    ensures i < |After(w, ops).db.log.alerts| && Stays(w.db.log.alerts[i], After(w, ops).db.log.alerts[i])
  {
    if |ops| > 0 {
      var v := After(w, ops[..|ops| - 1]);
      AlertsStay(w, ops[..|ops| - 1], i);
      StepExplains(v, ops[|ops| - 1], i);
      assert After(w, ops) == Do(v, ops[|ops| - 1]);
    }
  }

  // ---------------------------------------------------------------- acknowledgments

  predicate ValidReceipt(receipt: Receipt) {
    |receipt.actor| > 0 && !(|receipt.actor| > 128) && !(|receipt.note| > 2000)
  }

  /** An acknowledgment fails exactly if its receipt is invalid, and tells exactly if the
    * alert exists; the first one gives the alert its receipt, with one event that says
    * who and what, a later one nothing. */
  lemma {:induction false} AcknowledgedOnce(db: Db, i: nat, receipt: Receipt)
    ensures var (d, result) := Acknowledge(db, i, receipt);
            var known := i < |db.log.alerts|;
            && (result.Err? <==> !ValidReceipt(receipt))
            && (result.Ok? ==> result.value == known)
            && (if ValidReceipt(receipt) && known && db.log.alerts[i].receipt.None? then
                  && |d.log.alerts| == |db.log.alerts| && d.log.alerts[i].receipt == Some(receipt)
                  && d.log.events == db.log.events + [Event(i, Acknowledged, Received(receipt.actor, receipt.note))]
                  && d.log.outbox == db.log.outbox
                else d == db)
  {
  }
}
