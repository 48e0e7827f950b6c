/** The evidence of alert events is real: it names readings that are committed, with
  * their own times and values, and rates as their definition has them. */
module EvidenceTheorems {
  import opened Wrappers
  import opened Clock
  import opened Conditions
  import opened Rules
  import opened Readings
  import opened RuleMachine
  import opened AlertLog
  import opened AlertDb
  import opened AlertInvariant
  import opened AlertRuns
  import opened RuleHistory

  /** A committed water level of the rule's sensor, as the evidence has it. */
  ghost predicate Shows(rs: seq<Reading>, p: Params, id: nat, at: Time, value: real) {
    exists o: Obs :: o in ObsSet(rs) && IsWaterOf(o, p) && o.id == id && o.at == at && o.value == value
  }

  predicate IsWaterOf(o: Obs, p: Params) {
    o.sensor == p.sensor && o.sensorType == "water-level" && o.unit == "m"
  }

  /** The rate of a committed water level, at some time at which n readings were
    * committed. */
  ghost predicate ShowsRate(rs: seq<Reading>, p: Params, id: nat, at: Time, value: real, rate: real) {
    exists o: Obs, n: nat :: RateThen(rs, p, o, n, rate) && IsWaterOf(o, p) && o.id == id && o.at == at
        && o.value == value
  }

  ghost predicate RateThen(rs: seq<Reading>, p: Params, o: Obs, n: nat, rate: real) {
    ValidParams(p) && o in ObsSet(rs) && n <= |rs| && RateAt(rs[..n], p, o) == Some(rate)
  }

  /** What evidence for a condition of this kind has to be. */
  ghost predicate Real(rs: seq<Reading>, p: Params, k: Kind, ev: Evidence) {
    match ev
    case LevelEvidence(id, at, value) => k == Level && Shows(rs, p, id, at, value)
    case RiseEvidence(id, at, value, rate) => k == Rise && ShowsRate(rs, p, id, at, value, rate)
    case StaleEvidence(last) => k == Stale && (last.Some? ==> exists id, value :: Shows(rs, p, id, last.value, value))
  }

  lemma {:induction false} LaterObs(a: seq<Reading>, b: seq<Reading>)
    requires a <= b
    ensures ObsSet(a) <= ObsSet(b)
  {
    forall o | o in ObsSet(a) ensures o in ObsSet(b) {
      var x :| x in a && x.obs == o;
      assert x in b;
    }
  }

  lemma {:induction false} StaysReal(a: seq<Reading>, b: seq<Reading>, p: Params, k: Kind, ev: Evidence)
    requires a <= b && Real(a, p, k, ev)
    ensures Real(b, p, k, ev)
  {
    LaterObs(a, b);
    match ev
    case LevelEvidence(id, at, value) =>
    case RiseEvidence(id, at, value, rate) =>
      var o: Obs, n: nat :| RateThen(a, p, o, n, rate) && IsWaterOf(o, p) && o.id == id && o.at == at
          && o.value == value;
      assert a[..n] == b[..n];
      assert RateThen(b, p, o, n, rate);
    case StaleEvidence(last) =>
      if last.Some? {
        var id, value :| Shows(a, p, id, last.value, value);
        assert Shows(b, p, id, last.value, value);
      }
  }

  // ---------------------------------------------------------------- the invariant

  /** Event k, if it is a transition, names a snapshot of its alert's rule and shows real
    * evidence for it. */
  ghost predicate RealAt(versions: Versions, log: Log, rs: seq<Reading>, k: nat) {
    k < |log.events| && log.events[k].details.Transitioned? ==>
      var e := log.events[k];
      && e.alert < |log.alerts| && (log.alerts[e.alert].rule, e.details.version) in versions
      && Real(rs, versions[(log.alerts[e.alert].rule, e.details.version)].params, log.alerts[e.alert].kind,
              e.details.evidence)
  }

  ghost predicate AllReal(versions: Versions, log: Log, rs: seq<Reading>) {
    forall k: nat :: RealAt(versions, log, rs, k)
  }

  /** The stored last reading of a rule is a committed one. */
  ghost predicate LastIsReal(r: Rule, last: Option<Last>, rs: seq<Reading>) {
    last.Some? ==> Shows(rs, r.params, last.value.id, last.value.at, last.value.value)
  }

  ghost predicate LastsAreReal(db: Db, rs: seq<Reading>) {
    forall rid | rid in db.rules && rid in db.states :: LastIsReal(db.rules[rid], db.states[rid].last, rs)
  }

  ghost predicate Witnessed(db: Db, rs: seq<Reading>) {
    AllReal(db.versions, db.log, rs) && LastsAreReal(db, rs)
  }

  lemma {:induction false} AppendReal(versions: Versions, log: Log, more: Versions, after: Log, e: Event,
                                      rs: seq<Reading>)
    requires AllReal(versions, log, rs) && Faithful(log)
    requires SameSubjects(log.alerts, after.alerts) && after.events == log.events + [e]
    requires forall v | v in versions :: v in more && more[v] == versions[v]
    requires RealAt(more, after, rs, |log.events|)
    ensures AllReal(more, after, rs)
  {
    forall k: nat ensures RealAt(more, after, rs, k) {
      assert RealAt(versions, log, rs, k) && NamesAlert(log, k);
    }
  }

  lemma {:induction false} LiveSnapshot(db: Db, r: Rule)
    requires Inv(db) && Live(db, r)
    ensures (r.params.id, r.version) in db.versions && db.versions[(r.params.id, r.version)] == r
            && ValidParams(r.params)
  {
    assert Holds(TablesComplete, db);
  }

  /** A transition with real evidence leaves real evidence. */
  lemma {:induction false} TransitionReal(db: Db, r: Rule, k: Kind, target: Severity, at: Time, now: Time, ev: Evidence,
                                          rs: seq<Reading>)
    requires Inv(db) && Live(db, r) && AllReal(db.versions, db.log, rs) && Real(rs, r.params, k, ev)
    ensures AllReal(db.versions, Transition(db, r, k, target, at, now, ev).log, rs)
    ensures Transition(db, r, k, target, at, now, ev).versions == db.versions
  {
    TransitionAdvances(db, r, k, target, at, now, ev);
    if AdvanceOf(db, r, k, target, at).severity != Get(db.conditions[r.params.id], k).severity {
      var log := Report(db.log, r, k, target, at, now, ev);
      InvMeansDue(db, r, k, target);
      LiveSnapshot(db, r);
      assert Holds(LogFaithful, db);
      var e := ReportEvent(db.log, r, k, target, at, now, ev);
      assert log.events[|db.log.events|] == e;
      AppendReal(db.versions, db.log, db.versions, log, e, rs);
    }
  }

  /** What an evaluation of rs brings a rule: committed readings of its sensor, with the
    * rate they have there. */
  ghost predicate Offers(i: Input, rs: seq<Reading>, p: Params)
    requires ValidParams(p)
  {
    i.Arrive? ==> i.reading in rs && i.reading.obs.sensor == p.sensor && i.rate == RateAt(rs, p, i.reading.obs)
  }

  lemma {:induction false} ReadingIsReal(rs: seq<Reading>, r: Rule, x: Reading, rate: Option<real>)
    requires ValidParams(r.params) && Offers(Arrive(x, rate, 0), rs, r.params) && IsWaterLevel(x.obs)
    ensures Shows(rs, r.params, x.obs.id, x.obs.at, x.obs.value)
    ensures Real(rs, r.params, Level, LevelEvidence(x.obs.id, x.obs.at, x.obs.value))
    ensures rate.Some? ==> Real(rs, r.params, Rise, RiseEvidence(x.obs.id, x.obs.at, x.obs.value, rate.value))
  {
    assert x.obs in ObsSet(rs);
    if rate.Some? {
      assert rs[..|rs|] == rs;
      assert RateThen(rs, r.params, x.obs, |rs|, rate.value);
    }
  }

  lemma {:induction false} AbsorbConditionsReal(db: Db, r: Rule, x: Reading, rate: Option<real>, now: Time,
                                                rs: seq<Reading>)
    requires Inv(db) && Live(db, r) && ValidParams(r.params) && AllReal(db.versions, db.log, rs)
    requires Offers(Arrive(x, rate, 0), rs, r.params) && IsWaterLevel(x.obs)
    ensures AllReal(db.versions, AbsorbConditions(db, r, x.obs, rate, now).log, rs)
    ensures AbsorbConditions(db, r, x.obs, rate, now).versions == db.versions
  {
    var p, rid, o := r.params, r.params.id, x.obs;
    var target, ev := Classify(o.value, p.level, db.conditions[rid].level.severity), LevelEvidence(o.id, o.at, o.value);
    ReadingIsReal(rs, r, x, rate);
    TransitionReal(db, r, Level, target, o.at, now, ev, rs);
    TransitionKeepsInv(db, r, Level, target, o.at, now, ev);
    var d := Transition(db, r, Level, target, o.at, now, ev);
    if rate.Some? {
      TransitionReal(d, r, Rise, Classify(rate.value, p.rise, d.conditions[rid].rise.severity), o.at, now,
                     RiseEvidence(o.id, o.at, o.value, rate.value), rs);
    }
  }

  lemma {:induction false} AbsorbReal(db: Db, rid: RuleId, x: Reading, rate: Option<real>, now: Time, rs: seq<Reading>)
    requires Inv(db) && Registered(db, rid) && ValidParams(db.rules[rid].params) && AllReal(db.versions, db.log, rs)
    requires Offers(Arrive(x, rate, 0), rs, db.rules[rid].params)
    requires LastIsReal(db.rules[rid], db.states[rid].last, rs)
    ensures var d := AbsorbDb(db, rid, x, rate, now);
            AllReal(db.versions, d.log, rs) && d.versions == db.versions
                && LastIsReal(db.rules[rid], d.states[rid].last, rs)
  {
    var r, s, t := db.rules[rid], db.states[rid], db.conditions[rid];
    if Usable(r, s.last, x.obs, now) {
      var d0 := if Gap(r, s.last, x.obs) then SetTrio(db, rid, InterruptAll(t)) else db;
      assert Inv(d0) by {
        PendingKeepsInv(db, rid, InterruptAll(t));
      }
      AbsorbConditionsReal(d0, r, x, rate, now, rs);
      ReadingIsReal(rs, r, x, rate);
    }
  }

  lemma {:induction false} JudgeReal(db: Db, rid: RuleId, now: Time, rs: seq<Reading>)
    requires Inv(db) && Registered(db, rid) && AllReal(db.versions, db.log, rs)
    requires LastIsReal(db.rules[rid], db.states[rid].last, rs)
    ensures AllReal(db.versions, JudgeDb(db, rid, now).log, rs) && JudgeDb(db, rid, now).versions == db.versions
    ensures JudgeDb(db, rid, now).states == db.states
  {
    var r, s := db.rules[rid], db.states[rid];
    var ev := StaleEvidence(if s.last.Some? then Some(s.last.value.at) else None);
    TransitionReal(db, r, Stale, if IsStale(r, s.last, now) then Warning else Normal, now, now, ev, rs);
  }

  ghost predicate AllOffered(inputs: seq<Input>, rs: seq<Reading>, p: Params)
    requires ValidParams(p)
  {
    forall k | 0 <= k < |inputs| :: Offers(inputs[k], rs, p)
  }

  lemma {:induction false} RunReal(db: Db, rid: RuleId, inputs: seq<Input>, rs: seq<Reading>)
    requires Inv(db) && Registered(db, rid) && ValidParams(db.rules[rid].params)
    requires AllReal(db.versions, db.log, rs) && LastIsReal(db.rules[rid], db.states[rid].last, rs)
    requires AllOffered(inputs, rs, db.rules[rid].params)
    ensures var d := RunDb(db, rid, inputs);
            AllReal(db.versions, d.log, rs) && d.versions == db.versions
                && LastIsReal(db.rules[rid], d.states[rid].last, rs)
  {
    if |inputs| > 0 {
      var front, i := inputs[..|inputs| - 1], inputs[|inputs| - 1];
      var d := RunDb(db, rid, front);
      RunReal(db, rid, front, rs);
      RunKeepsInv(db, rid, front);
      assert Offers(i, rs, db.rules[rid].params);
      match i
      case Arrive(x, rate, now) => AbsorbReal(d, rid, x, rate, now, rs);
      case Verdict(now) => JudgeReal(d, rid, now, rs);
    }
  }

  lemma {:induction false} EvaluationOffers(rs: seq<Reading>, r: Rule, cursor: nat, now: Time)
    requires ValidParams(r.params)
    ensures AllOffered(EvaluationInputs(rs, r, cursor, BATCH, now), rs, r.params)
  {
    var inputs := EvaluationInputs(rs, r, cursor, BATCH, now);
    forall k | 0 <= k < |inputs| ensures Offers(inputs[k], rs, r.params) {
      EvaluationBrings(rs, r, cursor, now, k);
    }
  }

  lemma {:induction false} EvaluateOneReal(db: Db, rid: RuleId, rs: seq<Reading>, now: Time)
    requires Inv(db) && Evaluable(db) && rid in db.rules && Witnessed(db, rs)
    ensures Witnessed(EvaluateOne(db, rid, rs, now), rs)
  {
    var r, s := db.rules[rid], db.states[rid];
    var inputs := EvaluationInputs(rs, r, s.cursor, BATCH, now);
    EvaluationOffers(rs, r, s.cursor, now);
    RunReal(db, rid, inputs, rs);
    RunPatches(db, rid, inputs);
  }

  lemma {:induction false} EvaluateAllReal(db: Db, todo: set<RuleId>, rs: seq<Reading>, now: Time)
    requires Inv(db) && Evaluable(db) && todo <= db.rules.Keys && Witnessed(db, rs)
    ensures Witnessed(EvaluateAll(db, todo, rs, now), rs)
    decreases |todo|
  {
    if todo != {} {
      var rid := Least(todo);
      LeastGoesFirst(db, todo, rs, now);
      EvaluateOneReal(db, rid, rs, now);
      RunKeepsInv(db, rid, EvaluationInputs(rs, db.rules[rid], db.states[rid].cursor, BATCH, now));
      EvaluateAllReal(EvaluateOne(db, rid, rs, now), todo - {rid}, rs, now);
    }
  }

  // ---------------------------------------------------------------- the other operations

  lemma {:induction false} CommitReal(db: Db, rs: seq<Reading>, more: seq<Reading>)
    requires Witnessed(db, rs)
    ensures Witnessed(db, rs + more)
  {
    LaterObs(rs, rs + more);
    forall k: nat ensures RealAt(db.versions, db.log, rs + more, k) {
      assert RealAt(db.versions, db.log, rs, k);
      if k < |db.log.events| && db.log.events[k].details.Transitioned? {
        var e := db.log.events[k];
        StaysReal(rs, rs + more, db.versions[(db.log.alerts[e.alert].rule, e.details.version)].params,
                  db.log.alerts[e.alert].kind, e.details.evidence);
      }
    }
    forall rid | rid in db.rules && rid in db.states
      ensures LastIsReal(db.rules[rid], db.states[rid].last, rs + more)
    {
      assert LastIsReal(db.rules[rid], db.states[rid].last, rs);
    }
  }

  /** An event that is no transition, and alerts that keep their subjects. */
  lemma {:induction false} QuietReal(versions: Versions, log: Log, alerts: seq<Alert>, e: Event, rs: seq<Reading>)
    requires AllReal(versions, log, rs) && Faithful(log) && SameSubjects(log.alerts, alerts) && !e.details.Transitioned?
    ensures AllReal(versions, Append(log.(alerts := alerts), e), rs)
  {
    AppendReal(versions, log, versions, Append(log.(alerts := alerts), e), e, rs);
  }

  lemma {:induction false} RetireReal(versions: Versions, log: Log, rid: RuleId, n: nat, at: Time, version: int,
                                      rs: seq<Reading>)
    requires AllReal(versions, log, rs) && Faithful(log) && n <= |log.alerts|
    ensures AllReal(versions, Retire(log, rid, n, at, version), rs)
  {
    if n > 0 {
      RetireReal(versions, log, rid, n - 1, at, version, rs);
      RetireKeepsLog(log, rid, n - 1, at, version);
      RetireOneReal(versions, Retire(log, rid, n - 1, at, version), rid, n - 1, at, version, rs);
    }
  }

  lemma {:induction false} RetireOneReal(versions: Versions, log: Log, rid: RuleId, i: nat, at: Time, version: int,
                                         rs: seq<Reading>)
    requires AllReal(versions, log, rs) && Faithful(log) && i < |log.alerts|
    ensures AllReal(versions, RetireOne(log, rid, i, at, version), rs)
  {
    QuietReal(versions, log, log.alerts[i := log.alerts[i].(resolvedAt := Some(at))],
              Event(i, ConfigurationChanged, Reconfigured(version)), rs);
  }

  lemma {:induction false} MoreVersions(versions: Versions, more: Versions, log: Log, rs: seq<Reading>)
    requires AllReal(versions, log, rs) && forall v | v in versions :: v in more && more[v] == versions[v]
    ensures AllReal(more, log, rs)
  {
    forall k: nat ensures RealAt(more, log, rs, k) {
      assert RealAt(versions, log, rs, k);
    }
  }

  lemma {:induction false} ChangeReal(db: Db, row: Rule, high: nat, rs: seq<Reading>)
    requires Inv(db) && Witnessed(db, rs)
    requires row.version == if row.params.id in db.rules then db.rules[row.params.id].version + 1 else 1
    ensures Witnessed(ChangeRule(db, row, high), rs)
  {
    assert Holds(LogFaithful, db) && Holds(TablesComplete, db);
    var versions := db.versions[(row.params.id, row.version) := row];
    assert forall v | v in db.versions :: v in versions && versions[v] == db.versions[v] by {
      SnapshotsGrow(db.rules, db.versions, row);
    }
    MoreVersions(db.versions, versions, db.log, rs);
    RetireReal(versions, db.log, row.params.id, |db.log.alerts|, row.updatedAt, row.version, rs);
    LastsAfterChange(db, row, high, rs);
  }

  lemma {:induction false} LastsAfterChange(db: Db, row: Rule, high: nat, rs: seq<Reading>)
    requires LastsAreReal(db, rs)
    ensures LastsAreReal(ChangeRule(db, row, high), rs)
  {
    var d := ChangeRule(db, row, high);
    forall rid | rid in d.rules && rid in d.states ensures LastIsReal(d.rules[rid], d.states[rid].last, rs) {
      assert rid != row.params.id ==> LastIsReal(db.rules[rid], db.states[rid].last, rs);
    }
  }

  lemma {:induction false} SaveReal(db: Db, p: Params, expected: int, seed: bool, now: Time, high: nat,
                                    rs: seq<Reading>)
    requires Inv(db) && Witnessed(db, rs)
    ensures Witnessed(SaveRule(db, p, expected, seed, now, high).0, rs)
  {
    ChangeReal(db, Rule(p, if p.id in db.rules then db.rules[p.id].version + 1 else 1, now), high, rs);
  }

  lemma {:induction false} AcknowledgeReal(db: Db, i: nat, receipt: Receipt, rs: seq<Reading>)
    requires Inv(db) && Witnessed(db, rs)
    ensures Witnessed(Acknowledge(db, i, receipt).0, rs)
  {
    if Acknowledge(db, i, receipt).0 != db {
      assert Holds(LogFaithful, db);
      QuietReal(db.versions, db.log, db.log.alerts[i := db.log.alerts[i].(receipt := Some(receipt))],
                Event(i, Acknowledged, Received(receipt.actor, receipt.note)), rs);
    }
  }

  lemma {:induction false} DoReal(w: World, op: Op)
    requires Sound(w) && Witnessed(w.db, w.readings)
    ensures Witnessed(Do(w, op).db, Do(w, op).readings)
  {
    match op
    case Commit(more) => CommitReal(w.db, w.readings, more);
    case Evaluation(at, busy) => EvaluateAllReal(w.db, EnabledRules(w.db), w.readings, at);
    case Save(p, expected, at) => SaveReal(w.db, p, expected, false, at, HighSequence(w.readings), w.readings);
    case Seeding(p, version, at) => SaveReal(w.db, p, version, true, at, HighSequence(w.readings), w.readings);
    case Acknowledgment(i, receipt) => AcknowledgeReal(w.db, i, receipt, w.readings);
  }

  lemma {:induction false} RunsAreWitnessed(ops: seq<Op>)
    ensures Witnessed(After(Start(), ops).db, After(Start(), ops).readings)
  {
    if |ops| == 0 {
      forall k: nat ensures RealAt(EMPTY_DB.versions, EMPTY_DB.log, [], k) {
      }
    } else {
      RunsAreWitnessed(ops[..|ops| - 1]);
      DoReal(After(Start(), ops[..|ops| - 1]), ops[|ops| - 1]);
    }
  }

  /** Every transition in a reachable log, whatever its direction, shows evidence of its
    * own kind that names a committed water level of the rule's sensor with its own time
    * and value, for the rise condition with the rate it had among the readings committed
    * at some time, or, for staleness, the time of such a reading. */
  lemma {:induction false} EvidenceIsReal(ops: seq<Op>, k: nat)
    requires k < |After(Start(), ops).db.log.events|
    requires After(Start(), ops).db.log.events[k].details.Transitioned?
    ensures var w := After(Start(), ops);
            var e, alerts := w.db.log.events[k], w.db.log.alerts;
            && e.alert < |alerts| && (alerts[e.alert].rule, e.details.version) in w.db.versions
            && Real(w.readings, w.db.versions[(alerts[e.alert].rule, e.details.version)].params, alerts[e.alert].kind,
                    e.details.evidence)
  {
    RunsAreWitnessed(ops);
    var w := After(Start(), ops);
    assert RealAt(w.db.versions, w.db.log, w.readings, k);
  }

  /** The stored last reading of every rule is a committed water level of its sensor. */
  lemma {:induction false} StoredLastIsReal(ops: seq<Op>, rid: RuleId)
    requires rid in After(Start(), ops).db.rules
    ensures var w := After(Start(), ops);
            rid in w.db.states && LastIsReal(w.db.rules[rid], w.db.states[rid].last, w.readings)
  {
    RunsAreWitnessed(ops);
    assert Holds(TablesComplete, After(Start(), ops).db);
  }
}
