/** The event log and the delivery of its outbox together: every row that the
  * alerting tables add is one row of the lease protocol. */
module Notifications {
  import opened Wrappers
  import opened Clock
  import opened Conditions
  import opened Rules
  import opened Readings
  import opened RuleMachine
  import opened AlertLog
  import opened AlertDb
  import opened AlertInvariant
  import opened AlertRuns
  import P = OutboxProtocol

  // ---------------------------------------------------------------- the log is append-only

  /** Events and outbox rows are only ever added at the end. */
  ghost predicate Grows(a: Log, b: Log) {
    a.events <= b.events && a.outbox <= b.outbox
  }

  lemma {:induction false} GrowsOn(a: Log, b: Log, c: Log)
    requires Grows(a, b) && Grows(b, c)
    ensures Grows(a, c)
  {
  }

  lemma {:induction false} TransitionGrows(db: Db, r: Rule, k: Kind, target: Severity, at: Time, now: Time,
                                           ev: Evidence)
    requires r.params.id in db.conditions
    ensures Grows(db.log, Transition(db, r, k, target, at, now, ev).log)
  {
    TransitionAdvances(db, r, k, target, at, now, ev);
  }

  lemma {:induction false} AbsorbGrows(db: Db, rid: RuleId, x: Reading, rate: Option<real>, now: Time)
    requires Registered(db, rid)
    ensures Grows(db.log, AbsorbDb(db, rid, x, rate, now).log)
  {
    var r, last, o := db.rules[rid], db.states[rid].last, x.obs;
    if Usable(r, last, o, now) {
      var d := if Gap(r, last, o) then SetTrio(db, rid, InterruptAll(db.conditions[rid])) else db;
      var target, ev := Classify(o.value, r.params.level, d.conditions[rid].level.severity),
          LevelEvidence(o.id, o.at, o.value);
      TransitionGrows(d, r, Level, target, o.at, now, ev);
      var u := Transition(d, r, Level, target, o.at, now, ev);
      if rate.Some? {
        TransitionGrows(u, r, Rise, Classify(rate.value, r.params.rise, u.conditions[rid].rise.severity), o.at, now,
                        RiseEvidence(o.id, o.at, o.value, rate.value));
      }
    }
  }

  lemma {:induction false} StepGrows(db: Db, rid: RuleId, i: Input)
    requires Registered(db, rid)
    ensures Grows(db.log, StepDb(db, rid, i).log)
  {
    match i
    case Arrive(x, rate, now) => AbsorbGrows(db, rid, x, rate, now);
    case Verdict(now) =>
      var r, last := db.rules[rid], db.states[rid].last;
      TransitionGrows(db, r, Stale, if IsStale(r, last, now) then Warning else Normal, now, now,
                      StaleEvidence(if last.Some? then Some(last.value.at) else None));
  }

  lemma {:induction false} RunGrows(db: Db, rid: RuleId, inputs: seq<Input>)
    requires Registered(db, rid)
    ensures Grows(db.log, RunDb(db, rid, inputs).log)
  {
    if |inputs| > 0 {
      var front, i := inputs[..|inputs| - 1], inputs[|inputs| - 1];
      RunGrows(db, rid, front);
      StepGrows(RunDb(db, rid, front), rid, i);
    }
  }

  lemma {:induction false} EvaluateAllGrows(db: Db, todo: set<RuleId>, rs: seq<Reading>, now: Time)
    requires Evaluable(db) && todo <= db.rules.Keys
    ensures Grows(db.log, EvaluateAll(db, todo, rs, now).log)
    decreases |todo|
  {
    if todo != {} {
      var rid := Least(todo);
      LeastGoesFirst(db, todo, rs, now);
      RunGrows(db, rid, EvaluationInputs(rs, db.rules[rid], db.states[rid].cursor, BATCH, now));
      EvaluateAllGrows(EvaluateOne(db, rid, rs, now), todo - {rid}, rs, now);
    }
  }

  lemma {:induction false} RetireGrows(log: Log, rid: RuleId, n: nat, at: Time, version: int)
    requires n <= |log.alerts|
    ensures Grows(log, Retire(log, rid, n, at, version))
  {
    if n > 0 {
      RetireGrows(log, rid, n - 1, at, version);
    }
  }

  lemma {:induction false} SaveGrows(db: Db, p: Params, expected: int, seed: bool, now: Time, high: nat)
    ensures Grows(db.log, SaveRule(db, p, expected, seed, now, high).0.log)
  {
    RetireGrows(db.log, p.id, |db.log.alerts|, now, if p.id in db.rules then db.rules[p.id].version + 1 else 1);
  }

  lemma {:induction false} DoGrows(w: World, op: Op)
    requires Sound(w)
    ensures Grows(w.db.log, Do(w, op).db.log)
  {
    match op
    case Commit(more) =>
    case Evaluation(at, busy) => EvaluateAllGrows(w.db, EnabledRules(w.db), w.readings, at);
    case Save(p, expected, at) => SaveGrows(w.db, p, expected, false, at, HighSequence(w.readings));
    case Seeding(p, version, at) => SaveGrows(w.db, p, version, true, at, HighSequence(w.readings));
    case Acknowledgment(i, receipt) =>
  }

  /** Along every run no event and no outbox row is ever changed or removed. */
  lemma {:induction false} LogIsAppendOnly(w: World, ops: seq<Op>, i: nat, j: nat)
    requires Sound(w) && i <= j <= |ops|
    ensures Grows(After(w, ops[..i]).db.log, After(w, ops[..j]).db.log)
  {
    if i < j {
      LogIsAppendOnly(w, ops, i, j - 1);
      AfterPrefix(w, ops, j);
      DoGrows(After(w, ops[..j - 1]), ops[j - 1]);
      GrowsOn(After(w, ops[..i]).db.log, After(w, ops[..j - 1]).db.log, After(w, ops[..j]).db.log);
    }
  }

  // ---------------------------------------------------------------- both together

  /** An operation of the alerting system, whose transaction began `age` before its
    * rows are seen, or a step of the delivery. */
  datatype Step = Alerting(op: Op, age: nat) | Delivering(step: P.Step)

  /** The operations among the steps. */
  function Ops(steps: seq<Step>): seq<Op> {
    if |steps| == 0 then []
    else
      var last := steps[|steps| - 1];
      Ops(steps[..|steps| - 1]) + if last.Alerting? then [last.op] else []
  }

  ghost function LogAfter(steps: seq<Step>): Log {
    After(Start(), Ops(steps)).db.log
  }

  /** How many outbox rows an operation adds. */
  ghost function Added(steps: seq<Step>, op: Op): nat {
    var w := After(Start(), Ops(steps));
    DoGrows(w, op);
    |Do(w, op).db.log.outbox| - |w.db.log.outbox|
  }

  /** What the delivery sees: its own steps, and one new row for each row added to the
    * outbox. Rows come from nowhere else. */
  ghost function Deliveries(steps: seq<Step>): seq<P.Step> {
    if |steps| == 0 then []
    else
      var front, last := steps[..|steps| - 1], steps[|steps| - 1];
      Deliveries(front)
      + match last
        case Alerting(op, age) => Enqueues(Added(front, op), age)
        case Delivering(step) => if step.Enqueue? then [] else [step]
  }

  function Enqueues(n: nat, age: nat): seq<P.Step> {
    if n == 0 then [] else Enqueues(n - 1, age) + [P.Enqueue(age)]
  }

  lemma {:induction false} EnqueuesAdd(now: Time, before: seq<P.Step>, n: nat, age: nat)
    ensures |P.Run(now, before + Enqueues(n, age)).rows| == |P.Run(now, before).rows| + n
  {
    if n == 0 {
      assert before + Enqueues(0, age) == before;
    } else {
      EnqueuesAdd(now, before, n - 1, age);
      EnqueueAddsOne(now, before + Enqueues(n - 1, age), age);
      assert before + Enqueues(n, age) == (before + Enqueues(n - 1, age)) + [P.Enqueue(age)];
    }
  }

  lemma {:induction false} EnqueueAddsOne(now: Time, before: seq<P.Step>, age: nat)
    ensures |P.Run(now, before + [P.Enqueue(age)]).rows| == |P.Run(now, before).rows| + 1
  {
    P.RunNext(now, before, P.Enqueue(age));
  }

  lemma {:induction false} OtherStepsKeepRows(now: Time, before: seq<P.Step>, step: P.Step)
    requires !step.Enqueue?
    ensures |P.Run(now, before + [step]).rows| == |P.Run(now, before).rows|
  {
    P.RunNext(now, before, step);
  }

  lemma {:induction false} OpsSnoc(front: seq<Step>, last: Step)
    ensures Ops(front + [last]) == Ops(front) + if last.Alerting? then [last.op] else []
    ensures Deliveries(front + [last])
            == Deliveries(front) + match last
                                   case Alerting(op, age) => Enqueues(Added(front, op), age)
                                   case Delivering(step) => if step.Enqueue? then [] else [step]
    ensures last.Alerting? ==>
              After(Start(), Ops(front + [last])) == Do(After(Start(), Ops(front)), last.op)
  {
    assert (front + [last])[..|front|] == front;
    if last.Alerting? {
      assert (Ops(front) + [last.op])[..|Ops(front)|] == Ops(front);
    }
  }

  /** In every run the delivery has exactly one row for each row of the outbox. */
  lemma {:induction false} RowsMatch(now: Time, steps: seq<Step>)
    ensures |P.Run(now, Deliveries(steps)).rows| == |LogAfter(steps).outbox|
  {
    if |steps| > 0 {
      var front, last := steps[..|steps| - 1], steps[|steps| - 1];
      RowsMatch(now, front);
      assert steps == front + [last];
      OpsSnoc(front, last);
      match last
      case Alerting(op, age) => EnqueuesAdd(now, Deliveries(front), Added(front, op), age);
      case Delivering(step) =>
        if step.Enqueue? {
          assert Deliveries(front) + [] == Deliveries(front);
        } else {
          OtherStepsKeepRows(now, Deliveries(front), step);
        }
        assert Ops(front) + [] == Ops(front);
    }
  }

  /** Every event that is not an acknowledgment has exactly one row of the delivery,
    * acknowledgments have none, and the row counts as delivered only after a 2xx
    * answer for it. */
  lemma {:induction false} EveryEventIsDeliveredOnce(now: Time, steps: seq<Step>, k: nat)
    requires k < |LogAfter(steps).events|
    ensures var log, w := LogAfter(steps), P.Run(now, Deliveries(steps));
            var rows := set j: nat | j < |w.rows| && j < |log.outbox| && log.outbox[j] == k;
            if log.events[k].action == Acknowledged then rows == {}
            else exists j :: rows == {j} && j < |w.rows| && (w.rows[j].delivered.Some? ==> j in w.accepted)
  {
    var log, w := LogAfter(steps), P.Run(now, Deliveries(steps));
    RowsMatch(now, steps);
    assert Holds(LogFaithful, After(Start(), Ops(steps)).db);
    var j := OutboxRow(log, |w.rows|, k);
    if log.events[k].action != Acknowledged && w.rows[j].delivered.Some? {
      P.DeliveredWasAccepted(now, Deliveries(steps), j);
    }
  }

  /** The outbox row of an event, if it has one. */
  lemma {:induction false} OutboxRow(log: Log, n: nat, k: nat) returns (j: nat)
    requires Faithful(log) && k < |log.events| && n == |log.outbox|
    ensures var rows := set i: nat | i < n && i < |log.outbox| && log.outbox[i] == k;
            if log.events[k].action == Acknowledged then rows == {} else rows == {j} && j < n
  {
    DeliverableIsExact(log.events);
    j := 0;
    if log.events[k].action != Acknowledged {
      assert k in log.outbox;
      j :| 0 <= j < |log.outbox| && log.outbox[j] == k;
    }
  }
}
