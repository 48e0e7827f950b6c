/** The alerting database as its functions and triggers update it in place. Each
  * method is proved against the table function of the same name in AlertDb. */
module AlertStore {
  import opened Wrappers
  import opened Clock
  import opened Conditions
  import opened Rules
  import opened Readings
  import opened RuleMachine
  import opened AlertLog
  import opened AlertDb
  import AlertInvariant
  import AlertRuns

  class Store {
    var rules: map<RuleId, Rule>
    var versions: map<(RuleId, int), Rule>
    var states: map<RuleId, Progress>
    var conditions: map<RuleId, Trio>
    var alerts: seq<Alert>
    var events: seq<Event>
    var outbox: seq<nat>

    ghost function Contents(): Db
      reads this
    {
      Db(rules, versions, states, conditions, Log(alerts, events, outbox))
    }

    constructor ()
      ensures Contents() == EMPTY_DB
    {
      rules, versions, states, conditions := map[], map[], map[], map[];
      alerts, events, outbox := [], [], [];
    }

    method RecordEvent(e: Event)
      modifies this`events, this`outbox
      ensures Contents() == old(Contents()).(log := Append(old(Contents().log), e))
    {
      var id := |events|;
      events := events + [e];
      if e.action != Acknowledged {
        outbox := outbox + [id];
      }
    }

    method SetOne(rid: RuleId, k: Kind, c: Condition)
      requires rid in conditions
      modifies this`conditions
      ensures Contents() == SetCondition(old(Contents()), rid, k, c)
    {
      conditions := conditions[rid := Set(conditions[rid], k, c)];
    }

    /** The second half of a transition: alert row, event and outbox. */
    method DoReport(r: Rule, k: Kind, target: Severity, at: Time, now: Time, ev: Evidence)
      modifies this`alerts, this`events, this`outbox
      ensures Contents() == old(Contents()).(log := Report(old(Contents().log), r, k, target, at, now, ev))
    {
      var rid := r.params.id;
      var details := Transitioned(target, at, r.version, ev);
      var active := FindActive(alerts, rid, k);
      if target == Normal {
        if active.Some? {
          alerts := alerts[active.value := alerts[active.value].(resolvedAt := Some(now))];
          RecordEvent(Event(active.value, Resolved, details));
        }
      } else if active.None? {
        var id := |alerts|;
        alerts := alerts + [Alert(rid, r.version, k, target, now, None, None)];
        RecordEvent(Event(id, Opened, details));
      } else {
        alerts := alerts[active.value := alerts[active.value].(severity := target)];
        RecordEvent(Event(active.value, if target == Critical then Escalated else Downgraded, details));
      }
    }

    method DoHold(r: Rule, k: Kind, target: Severity, at: Time) returns (wait: bool)
      requires r.params.id in conditions
      modifies this
      ensures (Contents(), wait) == HoldOn(old(Contents()), r, k, target, at)
    {
      var s := Get(conditions[r.params.id], k);
      if target == Normal || k == Stale || (s.severity == Critical && target == Warning) {
        return false;
      }
      var since := at;
      if s.pending.Some? && s.pending.value.severity == target {
        since := s.pending.value.since;
      }
      SetOne(r.params.id, k, s.(pending := Some(Pending(target, since))));
      wait := at - since < r.params.hold * SECOND;
    }

    method DoTransition(r: Rule, k: Kind, target: Severity, at: Time, now: Time, ev: Evidence)
      requires r.params.id in conditions
      modifies this
      ensures Contents() == Transition(old(Contents()), r, k, target, at, now, ev)
    {
      var rid := r.params.id;
      var s := Get(conditions[rid], k);
      if target == s.severity {
        SetOne(rid, k, s.(pending := None));
        return;
      }
      var wait := DoHold(r, k, target, at);
      if wait {
        return;
      }
      DoReport(r, k, target, at, now, ev);
      SetOne(rid, k, Condition(target, None));
    }

    /** One usable reading. The rate of rise is looked up among all committed
      * readings. */
    method HandleReading(r: Rule, last: Option<Last>, o: Obs, rs: seq<Reading>, now: Time)
      requires r.params.id in conditions && ValidParams(r.params)
      modifies this
      ensures var db, rid := old(Contents()), r.params.id;
              var d := if Gap(r, last, o) then SetTrio(db, rid, InterruptAll(db.conditions[rid])) else db;
              Contents() == AbsorbConditions(d, r, o, RateAt(rs, r.params, o), now)
    {
      var rid := r.params.id;
      if Gap(r, last, o) {
        conditions := conditions[rid := InterruptAll(conditions[rid])];
      }
      var target := Classify(o.value, r.params.level, conditions[rid].level.severity);
      DoTransition(r, Level, target, o.at, now, LevelEvidence(o.id, o.at, o.value));
      var baseline := Baseline(rs, r.params, o);
      if baseline.Some? {
        var rate := Rate(r.params, o, baseline.value);
        target := Classify(rate, r.params.rise, conditions[rid].rise.severity);
        DoTransition(r, Rise, target, o.at, now, RiseEvidence(o.id, o.at, o.value, rate));
      } else {
        SetOne(rid, Rise, Interrupt(conditions[rid].rise));
      }
    }

    /** One pass of the reading loop, with the rule's progress s held locally. */
    method HandleArrival(r: Rule, s: Progress, x: Reading, rs: seq<Reading>, now: Time) returns (t: Progress)
      requires r.params.id in conditions && ValidParams(r.params) && r.params.id in rules && rules[r.params.id] == r
      modifies this
      ensures states == old(states) && rules == old(rules) && r.params.id in conditions
      ensures var rid, db := r.params.id, old(Contents());
              Contents().(states := states[rid := t])
              == AbsorbDb(db.(states := db.states[rid := s]), rid, x, RateAt(rs, r.params, x.obs), now)
    {
      ghost var rid, db, rate := r.params.id, Contents(), RateAt(rs, r.params, x.obs);
      t := s.(cursor := Max(s.cursor, x.sequence));
      ghost var held := db.states[rid := s];
      if Usable(r, s.last, x.obs, now) {
        HandleReading(r, s.last, x.obs, rs, now);
        t := t.(last := Some(Accepted(x.obs)));
        ghost var d := if Gap(r, s.last, x.obs) then SetTrio(db, rid, InterruptAll(db.conditions[rid])) else db;
        AlertInvariant.ConditionsIgnoreStates(d, held, r, x.obs, rate, now);
      }
      assert held[rid := t] == states[rid := t];
    }

    method HandleBatch(r: Rule, s: Progress, batch: seq<Reading>, rs: seq<Reading>, now: Time) returns (t: Progress)
      requires Registered(Contents(), r.params.id) && ValidParams(r.params) && rules[r.params.id] == r
      modifies this
      ensures states == old(states) && rules == old(rules) && r.params.id in conditions
      ensures var rid, db := r.params.id, old(Contents());
              Contents().(states := states[rid := t])
              == RunDb(db.(states := db.states[rid := s]), rid, Arrivals(batch, rs, r.params, now))
    {
      ghost var rid, inputs := r.params.id, Arrivals(batch, rs, r.params, now);
      ghost var db := Contents().(states := states[rid := s]);
      t := s;
      var i := 0;
      while i < |batch|
        invariant 0 <= i <= |batch|
        invariant states == old(states) && rules == old(rules) && rid in conditions
        invariant RunDb(db, rid, inputs[..i]) == Contents().(states := states[rid := t])
      {
        assert inputs[..i + 1][..i] == inputs[..i];
        t := HandleArrival(r, t, batch[i], rs, now);
        i := i + 1;
      }
      assert inputs[..i] == inputs;
    }

    /** One turn of the rule loop: a bounded batch in observation-time order, the
      * stored progress, and the staleness verdict. */
    method EvaluateRule(rid: RuleId, rs: seq<Reading>, now: Time)
      requires Registered(Contents(), rid) && ValidParams(rules[rid].params)
      modifies this
      ensures Contents() == EvaluateOne(old(Contents()), rid, rs, now)
    {
      var r, s := rules[rid], states[rid];
      assert states[rid := s] == states;
      var batch := SortByTime(Batch(rs, r, s.cursor, HighSequence(rs), BATCH));
      s := HandleBatch(r, s, batch, rs, now);
      states := states[rid := s];
      GiveVerdict(rid, now);
      ghost var inputs := Arrivals(batch, rs, r.params, now);
      assert (inputs + [Verdict(now)])[..|inputs|] == inputs;
    }

    method GiveVerdict(rid: RuleId, now: Time)
      requires Registered(Contents(), rid)
      modifies this
      ensures Contents() == JudgeDb(old(Contents()), rid, now)
    {
      var r, last := rules[rid], states[rid].last;
      var stale := IsStale(r, last, now);
      DoTransition(r, Stale, if stale then Warning else Normal, now, now,
                   StaleEvidence(if last.Some? then Some(last.value.at) else None));
      if stale {
        conditions := conditions[rid := InterruptAll(conditions[rid])];
      }
    }

    /** alerting.evaluate: every enabled rule takes its turn, in order. */
    method Evaluate(rs: seq<Reading>, now: Time, busy: bool)
      requires AlertRuns.Evaluable(Contents())
      modifies this
      ensures Contents() == AlertRuns.Evaluate(old(Contents()), rs, now, busy)
    {
      if busy {
        return;
      }
      var todo := set rid | rid in rules && rules[rid].params.enabled;
      ghost var goal := AlertRuns.EvaluateAll(Contents(), todo, rs, now);
      while todo != {}
        invariant AlertRuns.Evaluable(Contents()) && todo <= rules.Keys
        invariant AlertRuns.EvaluateAll(Contents(), todo, rs, now) == goal
        decreases todo
      {
        ghost var least := AlertRuns.LeastOf(todo);
        var rid :| rid in todo && forall y | y in todo :: rid <= y;
        AlertRuns.EvaluateNext(Contents(), todo, rs, now, rid);
        EvaluateRule(rid, rs, now);
        todo := todo - {rid};
      }
    }

    // -------------------------------------------------------------- rule changes

    /** The triggers that follow an inserted or updated rule row. */
    method RuleChanged(row: Rule, high: nat)
      modifies this
      ensures Contents() == ChangeRule(old(Contents()), row, high)
    {
      var rid := row.params.id;
      ghost var log := Contents().log;
      rules := rules[rid := row];
      versions := versions[(rid, row.version) := row];
      var i := 0;
      while i < |alerts|
        invariant 0 <= i <= |alerts| == |log.alerts|
        invariant Contents().log == Retire(log, rid, i, row.updatedAt, row.version)
        invariant rules == old(rules)[rid := row] && versions == old(versions)[(rid, row.version) := row]
        invariant states == old(states) && conditions == old(conditions)
      {
        if alerts[i].rule == rid && alerts[i].resolvedAt.None? {
          alerts := alerts[i := alerts[i].(resolvedAt := Some(row.updatedAt))];
          RecordEvent(Event(i, ConfigurationChanged, Reconfigured(row.version)));
        }
        i := i + 1;
      }
      states := states[rid := Progress(high, None)];
      conditions := conditions[rid := Trio(CALM, CALM, CALM)];
    }

    method Save(p: Params, expected: int, seed: bool, now: Time, high: nat) returns (result: Result<Rule, SaveError>)
      modifies this
      ensures (Contents(), result) == SaveRule(old(Contents()), p, expected, seed, now, high)
    {
      if !ValidParams(p) || expected < 0 {
        return Err(InvalidRule);
      }
      if p.id in rules {
        var live := rules[p.id];
        if seed {
          return Ok(live);
        }
        if live.version != expected {
          return Err(Conflict);
        }
        if live.params.sensor != p.sensor {
          return Err(InvalidRule);
        }
        var row := Rule(p, live.version + 1, now);
        RuleChanged(row, high);
        return Ok(row);
      }
      if expected != 0 || exists rid | rid in rules :: rules[rid].params.sensor == p.sensor {
        return Err(Conflict);
      }
      var row := Rule(p, 1, now);
      RuleChanged(row, high);
      return Ok(row);
    }

    /** An initial rule file is checked whole before anything is saved. */
    method CheckSeeds(seeds: seq<Seed>) returns (ok: bool)
      ensures ok == AcceptableSeeds(seeds)
    {
      if |seeds| > 1000 {
        return false;
      }
      var ids: set<RuleId>, sensors: set<string> := {}, {};
      for i := 0 to |seeds|
        invariant AcceptableSeeds(seeds[..i])
        invariant ids == set k | 0 <= k < i :: seeds[k].params.id
        invariant sensors == set k | 0 <= k < i :: seeds[k].params.sensor
      {
        var s := seeds[i];
        if !ValidParams(s.params) || s.version != 0 || s.params.id in ids || s.params.sensor in sensors {
          return false;
        }
        ids, sensors := ids + {s.params.id}, sensors + {s.params.sensor};
      }
      assert seeds[..|seeds|] == seeds;
      ok := true;
    }

    /** The whole file is checked first; then rules are saved one by one. */
    method LoadSeeds(seeds: seq<Seed>, moments: seq<Moment>) returns (ok: bool)
      requires |moments| == |seeds|
      modifies this
      ensures (Contents(), ok) == SeedRules(old(Contents()), seeds, moments)
    {
      ok := CheckSeeds(seeds);
      if !ok {
        return;
      }
      assert seeds[..|seeds|] == seeds && moments[..|seeds|] == moments;
      var i := 0;
      while i < |seeds|
        invariant 0 <= i <= |seeds|
        invariant (Contents(), true) == SeedAll(old(Contents()), seeds[..i], moments[..i])
      {
        assert seeds[..i + 1][..i] == seeds[..i] && moments[..i + 1][..i] == moments[..i];
        var result := Save(seeds[i].params, seeds[i].version, true, moments[i].now, moments[i].high);
        if result.Err? {
          SeedingStops(old(Contents()), seeds, moments, i + 1);
          return false;
        }
        i := i + 1;
      }
    }

    method DoAcknowledge(i: nat, receipt: Receipt) returns (result: Result<bool, ()>)
      modifies this
      ensures (Contents(), result) == Acknowledge(old(Contents()), i, receipt)
    {
      if !(1 <= |receipt.actor| <= 128) || |receipt.note| > 2000 {
        return Err(());
      }
      if i < |alerts| && alerts[i].receipt.None? {
        alerts := alerts[i := alerts[i].(receipt := Some(receipt))];
        RecordEvent(Event(i, Acknowledged, Received(receipt.actor, receipt.note)));
      }
      return Ok(i < |alerts|);
    }
  }

  /** Once a seed fails, the later ones are not tried. */
  lemma {:induction false} SeedingStops(db: Db, seeds: seq<Seed>, moments: seq<Moment>, n: nat)
    requires |moments| == |seeds| && n <= |seeds| && !SeedAll(db, seeds[..n], moments[..n]).1
    ensures SeedAll(db, seeds, moments) == SeedAll(db, seeds[..n], moments[..n])
    decreases |seeds|
  {
    if n < |seeds| {
      var k := |seeds| - 1;
      assert seeds[..k][..n] == seeds[..n] && moments[..k][..n] == moments[..n];
      SeedingStops(db, seeds[..k], moments[..k], n);
    } else {
      assert seeds[..n] == seeds && moments[..n] == moments;
    }
  }
}
