/** Every database function keeps the alerting invariant, and does to each rule
  * exactly what the rule machine does. */
module AlertInvariant {
  import opened Wrappers
  import opened Clock
  import opened Conditions
  import opened Rules
  import opened Readings
  import opened RuleMachine
  import opened AlertLog
  import opened AlertDb

  function AdvanceOf(db: Db, r: Rule, k: Kind, target: Severity, at: Time): Condition
    requires r.params.id in db.conditions
  {
    Advance(Get(db.conditions[r.params.id], k), k != Stale, target, at, r.params.hold)
  }

  lemma {:induction false} SetTwice(db: Db, log: Log, rid: RuleId, k: Kind, a: Condition, b: Condition)
    requires rid in db.conditions
    ensures SetCondition(SetCondition(db, rid, k, a).(log := log), rid, k, b)
            == SetCondition(db.(log := log), rid, k, b)
  {
    var t := db.conditions[rid];
    assert Set(Set(t, k, a), k, b) == Set(t, k, b);
    assert db.conditions[rid := Set(t, k, a)][rid := Set(t, k, b)] == db.conditions[rid := Set(t, k, b)];
  }

  /** The hold either waits, or leaves what the transition then overwrites. */
  lemma {:induction false} HoldOnAdvances(db: Db, r: Rule, k: Kind, target: Severity, at: Time, log: Log)
    requires r.params.id in db.conditions && target != Get(db.conditions[r.params.id], k).severity
    ensures var rid := r.params.id;
            var (held, wait) := HoldOn(db, r, k, target, at);
            var c := AdvanceOf(db, r, k, target, at);
            && held.log == db.log
            && (wait ==> held == SetCondition(db, rid, k, c) && c.severity == Get(db.conditions[rid], k).severity)
            && (!wait ==> c == Condition(target, None)
                          && SetCondition(held.(log := log), rid, k, c) == SetCondition(db.(log := log), rid, k, c))
  {
    var rid := r.params.id;
    var s := Get(db.conditions[rid], k);
    if !(target == Normal || k == Stale || (s.severity == Critical && target == Warning)) {
      var since := if s.pending.Some? && s.pending.value.severity == target then s.pending.value.since else at;
      SetTwice(db, log, rid, k, s.(pending := Some(Pending(target, since))), Condition(target, None));
    }
  }

  /** A transition advances one condition and reports exactly its severity changes. */
  lemma {:induction false} TransitionAdvances(db: Db, r: Rule, k: Kind, target: Severity, at: Time, now: Time,
                                              ev: Evidence)
    requires r.params.id in db.conditions
    ensures var rid := r.params.id;
            var s, c := Get(db.conditions[rid], k), AdvanceOf(db, r, k, target, at);
            var log := if c.severity == s.severity then db.log else Report(db.log, r, k, target, at, now, ev);
            Transition(db, r, k, target, at, now, ev) == SetCondition(db.(log := log), rid, k, c)
    ensures var c := AdvanceOf(db, r, k, target, at);
            c.severity == target || c.severity == Get(db.conditions[r.params.id], k).severity
  {
    if target != Get(db.conditions[r.params.id], k).severity {
      HoldOnAdvances(db, r, k, target, at, Report(db.log, r, k, target, at, now, ev));
    }
  }

  lemma {:induction false} TransitionIgnoresStates(db: Db, states: map<RuleId, Progress>, r: Rule, k: Kind,
                                                   target: Severity, at: Time, now: Time, ev: Evidence)
    requires r.params.id in db.conditions
    ensures Transition(db.(states := states), r, k, target, at, now, ev)
            == Transition(db, r, k, target, at, now, ev).(states := states)
  {
    TransitionAdvances(db, r, k, target, at, now, ev);
    TransitionAdvances(db.(states := states), r, k, target, at, now, ev);
  }

  /** Conditions and the log do not depend on stored progress. */
  lemma {:induction false} ConditionsIgnoreStates(db: Db, states: map<RuleId, Progress>, r: Rule, o: Obs,
                                                  rate: Option<real>, now: Time)
    requires r.params.id in db.conditions
    ensures AbsorbConditions(db.(states := states), r, o, rate, now)
            == AbsorbConditions(db, r, o, rate, now).(states := states)
  {
    var p := r.params;
    var target := Classify(o.value, p.level, db.conditions[p.id].level.severity);
    var ev := LevelEvidence(o.id, o.at, o.value);
    TransitionIgnoresStates(db, states, r, Level, target, o.at, now, ev);
    if rate.Some? {
      var d := Transition(db, r, Level, target, o.at, now, ev);
      var rise := Classify(rate.value, p.rise, d.conditions[p.id].rise.severity);
      TransitionIgnoresStates(d, states, r, Rise, rise, o.at, now, RiseEvidence(o.id, o.at, o.value, rate.value));
    }
  }

  // ---------------------------------------------------------------- one report

  lemma {:induction false} SetGet(t: Trio, k: Kind, c: Condition, j: Kind)
    ensures Get(Set(t, k, c), j) == if j == k then c else Get(t, j)
  {
  }

  /** A report whose target differs from the active alert's severity. */
  ghost predicate Due(log: Log, r: Rule, k: Kind, target: Severity) {
    var active := FindActive(log.alerts, r.params.id, k);
    if active.Some? then log.alerts[active.value].severity != target else target != Normal
  }

  lemma {:induction false} ReportKeepsLog(log: Log, r: Rule, k: Kind, target: Severity, at: Time, now: Time,
                                          ev: Evidence)
    requires Faithful(log) && OneActive(log.alerts) && Due(log, r, k, target)
    requires forall i | 0 <= i < |log.alerts| :: log.alerts[i].severity != Normal
    ensures Faithful(Report(log, r, k, target, at, now, ev))
    ensures OneActive(Report(log, r, k, target, at, now, ev).alerts)
  {
    var active := FindActive(log.alerts, r.params.id, k);
    var details := Transitioned(target, at, r.version, ev);
    if target == Normal {
      CloseIsFaithful(log, active.value, now, Resolved, details);
    } else if active.None? {
      OpenIsFaithful(log, Alert(r.params.id, r.version, k, target, now, None, None), details);
    } else {
      GradeIsFaithful(log, active.value, target, details);
    }
  }

  lemma {:induction false} ReportTells(log: Log, r: Rule, k: Kind, target: Severity, at: Time, now: Time, ev: Evidence,
                                       rid: RuleId)
    requires Faithful(log) && Due(log, r, k, target)
    ensures Reported(Report(log, r, k, target, at, now, ev), rid)
            == Reported(log, rid) + if rid == r.params.id then [Change(k, target, at)] else []
  {
    var active := FindActive(log.alerts, r.params.id, k);
    var details := Transitioned(target, at, r.version, ev);
    if target == Normal {
      var i := active.value;
      AppendReports(log, log.alerts[i := log.alerts[i].(resolvedAt := Some(now))], Event(i, Resolved, details), rid);
    } else if active.None? {
      var a := Alert(r.params.id, r.version, k, target, now, None, None);
      AppendReports(log, log.alerts + [a], Event(|log.alerts|, Opened, details), rid);
    } else {
      var i := active.value;
      AppendReports(log, log.alerts[i := log.alerts[i].(severity := target)],
                    Event(i, if target == Critical then Escalated else Downgraded, details), rid);
    }
  }

  /** db holds this version of a rule, with its state rows. */
  predicate Live(db: Db, r: Rule) {
    Registered(db, r.params.id) && db.rules[r.params.id] == r
  }

  lemma {:induction false} InvMeansDue(db: Db, r: Rule, k: Kind, target: Severity)
    requires Inv(db) && Live(db, r) && target != Get(db.conditions[r.params.id], k).severity
    ensures Due(db.log, r, k, target)
  {
    assert Holds(AlertsAgree, db);
  }

  lemma {:induction false} ReportNames(db: Db, r: Rule, k: Kind, target: Severity, at: Time, now: Time, ev: Evidence)
    requires Inv(db) && Live(db, r) && target != Get(db.conditions[r.params.id], k).severity
    ensures AlertsNameSnapshots(db.versions, Report(db.log, r, k, target, at, now, ev).alerts)
  {
    assert Holds(TablesComplete, db) && Holds(AlertsAgree, db);
    InvMeansDue(db, r, k, target);
  }

  lemma {:induction false} ReportMatches(db: Db, r: Rule, k: Kind, target: Severity, at: Time, now: Time, ev: Evidence,
                                         c: Condition)
    requires Inv(db) && Live(db, r) && c.severity == target != Get(db.conditions[r.params.id], k).severity
    ensures AlertsMatch(db.rules, db.conditions[r.params.id := Set(db.conditions[r.params.id], k, c)],
                        Report(db.log, r, k, target, at, now, ev).alerts)
  {
    assert Holds(AlertsAgree, db) && Holds(IndexUnique, db);
    var rid := r.params.id;
    var alerts := Report(db.log, r, k, target, at, now, ev).alerts;
    InvMeansDue(db, r, k, target);
    forall i | 0 <= i < |alerts| && alerts[i].resolvedAt.None?
      ensures var a := alerts[i];
              a.rule in db.rules && a.rule in db.conditions && a.version == db.rules[a.rule].version
              && Get(db.conditions[rid := Set(db.conditions[rid], k, c)][a.rule], a.kind).severity == a.severity
    {
      SetGet(db.conditions[rid], k, c, alerts[i].kind);
      if i < |db.log.alerts| && FindActive(db.log.alerts, rid, k) != Some(i) {
        assert alerts[i] == db.log.alerts[i];
        assert !(alerts[i].rule == rid && alerts[i].kind == k);
      }
    }
  }

  lemma {:induction false} ReportAnswers(db: Db, r: Rule, k: Kind, target: Severity, at: Time, now: Time, ev: Evidence,
                                         c: Condition)
    requires Inv(db) && Live(db, r) && c.severity == target != Get(db.conditions[r.params.id], k).severity
    ensures AbnormalHasAlert(db.conditions[r.params.id := Set(db.conditions[r.params.id], k, c)],
                             Report(db.log, r, k, target, at, now, ev).alerts)
  {
    assert Holds(AlertsAgree, db);
    var rid := r.params.id;
    var conditions := db.conditions[rid := Set(db.conditions[rid], k, c)];
    var alerts := Report(db.log, r, k, target, at, now, ev).alerts;
    InvMeansDue(db, r, k, target);
    var active := FindActive(db.log.alerts, rid, k);
    forall q, j | q in conditions && Get(conditions[q], j).severity != Normal ensures FindActive(alerts, q, j).Some? {
      SetGet(db.conditions[rid], k, c, j);
      var i := if q == rid && j == k then (if active.Some? then active.value else |db.log.alerts|)
               else FindActive(db.log.alerts, q, j).value;
      assert IsActive(alerts[i], q, j);
    }
  }

  /** The event a report appends. */
  lemma {:induction false} ReportEvent(log: Log, r: Rule, k: Kind, target: Severity, at: Time, now: Time, ev: Evidence)
    returns (e: Event)
    requires Due(log, r, k, target)
    ensures var l := Report(log, r, k, target, at, now, ev);
            && l.events == log.events + [e] && SameSubjects(log.alerts, l.alerts)
            && e.alert < |l.alerts| && l.alerts[e.alert].rule == r.params.id && l.alerts[e.alert].kind == k
            && e.details == Transitioned(target, at, r.version, ev)
    ensures e.action == Opened ==> target != Normal && FindActive(log.alerts, r.params.id, k).None?
    ensures e.action == Escalated ==> target == Critical && FindActive(log.alerts, r.params.id, k).Some?
  {
    e := Report(log, r, k, target, at, now, ev).events[|log.events|];
  }

  /** Alerts that keep their subjects and snapshots that stay keep old evidence. */
  lemma {:induction false} AppendJustified(versions: Versions, log: Log, more: Versions, after: Log, e: Event)
    requires Justified(versions, log) && Faithful(log) && JustifiedEvent(more, after.alerts, e)
    requires SameSubjects(log.alerts, after.alerts) && after.events == log.events + [e]
    requires forall v | v in versions :: v in more && more[v] == versions[v]
    ensures Justified(more, after)
  {
    forall k: nat ensures JustifiedAt(more, after, k) {
      assert JustifiedAt(versions, log, k) && NamesAlert(log, k);
    }
  }

  /** A transition towards more severity must carry evidence for it. */
  ghost predicate Warranted(db: Db, r: Rule, k: Kind, target: Severity, at: Time, ev: Evidence)
    requires r.params.id in db.conditions
  {
    Rank(target) > Rank(Get(db.conditions[r.params.id], k).severity) ==> Justifies(r, k, target, at, ev)
  }

  lemma {:induction false} ReportKeepsInv(db: Db, r: Rule, k: Kind, target: Severity, at: Time, now: Time, ev: Evidence,
                                          c: Condition)
    requires Inv(db) && Live(db, r) && c.severity == target != Get(db.conditions[r.params.id], k).severity
    requires Warranted(db, r, k, target, at, ev)
    ensures Inv(SetCondition(db.(log := Report(db.log, r, k, target, at, now, ev)), r.params.id, k, c))
  {
    var log := Report(db.log, r, k, target, at, now, ev);
    var d := SetCondition(db.(log := log), r.params.id, k, c);
    InvMeansDue(db, r, k, target);
    forall clause ensures Holds(clause, d) {
      assert Holds(clause, db);
      match clause
      case TablesComplete =>
      case LogFaithful =>
        assert Holds(IndexUnique, db) && Holds(AlertsAgree, db);
        ReportKeepsLog(db.log, r, k, target, at, now, ev);
      case IndexUnique =>
        assert Holds(LogFaithful, db) && Holds(AlertsAgree, db);
        ReportKeepsLog(db.log, r, k, target, at, now, ev);
      case AlertsAgree =>
        ReportNames(db, r, k, target, at, now, ev);
        ReportMatches(db, r, k, target, at, now, ev, c);
        ReportAnswers(db, r, k, target, at, now, ev, c);
      case EvidenceJustifies =>
        assert Holds(LogFaithful, db) && Holds(TablesComplete, db) && Holds(AlertsAgree, db);
        var e := ReportEvent(db.log, r, k, target, at, now, ev);
        assert JustifiedEvent(db.versions, log.alerts, e);
        AppendJustified(db.versions, db.log, db.versions, log, e);
    }
  }

  ghost predicate SameSeverities(a: Trio, b: Trio) {
    forall k :: Get(a, k).severity == Get(b, k).severity
  }

  /** Pending holds may change while severities do not. */
  lemma {:induction false} PendingKeepsInv(db: Db, rid: RuleId, t: Trio)
    requires Inv(db) && Registered(db, rid) && SameSeverities(t, db.conditions[rid])
    ensures Inv(SetTrio(db, rid, t))
  {
    var d := SetTrio(db, rid, t);
    forall clause ensures Holds(clause, d) {
      assert Holds(clause, db);
      if clause == AlertsAgree {
        forall q, k | q in d.conditions && Get(d.conditions[q], k).severity != Normal
          ensures FindActive(db.log.alerts, q, k).Some?
        {
          assert Get(db.conditions[q], k).severity != Normal;
        }
      }
    }
  }

  lemma {:induction false} TransitionKeepsInv(db: Db, r: Rule, k: Kind, target: Severity, at: Time, now: Time,
                                              ev: Evidence)
    requires Inv(db) && Live(db, r) && Warranted(db, r, k, target, at, ev)
    ensures Inv(Transition(db, r, k, target, at, now, ev))
  {
    var rid := r.params.id;
    var c := AdvanceOf(db, r, k, target, at);
    TransitionAdvances(db, r, k, target, at, now, ev);
    if c.severity == Get(db.conditions[rid], k).severity {
      PendingKeepsInv(db, rid, Set(db.conditions[rid], k, c));
    } else {
      ReportKeepsInv(db, r, k, target, at, now, ev, c);
    }
  }

  /** A transition reports its change of severity, for its own rule only. */
  lemma {:induction false} TransitionTells(db: Db, r: Rule, k: Kind, target: Severity, at: Time, now: Time,
                                           ev: Evidence, q: RuleId)
    requires Inv(db) && Live(db, r)
    ensures Reported(Transition(db, r, k, target, at, now, ev).log, q)
            == Reported(db.log, q)
               + if q == r.params.id
                 then Diff(k, Get(db.conditions[r.params.id], k), AdvanceOf(db, r, k, target, at), at) else []
  {
    TransitionAdvances(db, r, k, target, at, now, ev);
    if AdvanceOf(db, r, k, target, at).severity != Get(db.conditions[r.params.id], k).severity {
      InvMeansDue(db, r, k, target);
      assert Holds(LogFaithful, db);
      ReportTells(db.log, r, k, target, at, now, ev, q);
    }
  }

  // ---------------------------------------------------------------- one input, table by table

  /** db with one rule's state rows replaced by a machine, and another log. */
  function Patched(db: Db, rid: RuleId, m: Machine, log: Log): Db {
    db.(conditions := db.conditions[rid := m.trio], states := db.states[rid := m.progress], log := log)
  }

  lemma {:induction false} PatchTwice(db: Db, rid: RuleId, m: Machine, log: Log, n: Machine, more: Log)
    ensures Patched(Patched(db, rid, m, log), rid, n, more) == Patched(db, rid, n, more)
  {
    assert db.conditions[rid := m.trio][rid := n.trio] == db.conditions[rid := n.trio];
    assert db.states[rid := m.progress][rid := n.progress] == db.states[rid := n.progress];
  }

  lemma {:induction false} TransitionPatches(db: Db, r: Rule, k: Kind, target: Severity, at: Time, now: Time,
                                             ev: Evidence)
    requires r.params.id in db.conditions && r.params.id in db.states
    ensures var rid := r.params.id;
            var d := Transition(db, r, k, target, at, now, ev);
            d == Patched(db, rid, Machine(Set(db.conditions[rid], k, AdvanceOf(db, r, k, target, at)), db.states[rid]),
                         d.log)
  {
    TransitionAdvances(db, r, k, target, at, now, ev);
    assert db.states[r.params.id := db.states[r.params.id]] == db.states;
  }

  lemma {:induction false} AbsorbConditionsPatches(db: Db, r: Rule, o: Obs, rate: Option<real>, now: Time)
    requires r.params.id in db.conditions && r.params.id in db.states
    ensures var t, p, rid := db.conditions[r.params.id], r.params, r.params.id;
            var level := Advance(t.level, true, Classify(o.value, p.level, t.level.severity), o.at, p.hold);
            var rise := match rate
                        case None => Interrupt(t.rise)
                        case Some(v) => Advance(t.rise, true, Classify(v, p.rise, t.rise.severity), o.at, p.hold);
            var d := AbsorbConditions(db, r, o, rate, now);
            d == Patched(db, rid, Machine(Trio(level, rise, t.stale), db.states[rid]), d.log)
  {
    var t, p, rid := db.conditions[r.params.id], r.params, r.params.id;
    var target, ev := Classify(o.value, p.level, t.level.severity), LevelEvidence(o.id, o.at, o.value);
    TransitionPatches(db, r, Level, target, o.at, now, ev);
    var d := Transition(db, r, Level, target, o.at, now, ev);
    var m := MachineOf(d, rid);
    match rate
    case None =>
      PatchTwice(db, rid, m, d.log, Machine(m.trio.(rise := Interrupt(m.trio.rise)), m.progress), d.log);
    case Some(v) =>
      var rise, rev := Classify(v, p.rise, t.rise.severity), RiseEvidence(o.id, o.at, o.value, v);
      TransitionPatches(d, r, Rise, rise, o.at, now, rev);
      var e := Transition(d, r, Rise, rise, o.at, now, rev);
      PatchTwice(db, rid, m, d.log, MachineOf(e, rid), e.log);
  }

  /** One input does to the tables what the machine does to its state. */
  lemma {:induction false} StepPatches(db: Db, rid: RuleId, i: Input)
    requires Registered(db, rid)
    ensures StepDb(db, rid, i) == Patched(db, rid, Step(MachineOf(db, rid), db.rules[rid], i), StepDb(db, rid, i).log)
  {
    var r, s, t := db.rules[rid], db.states[rid], db.conditions[rid];
    assert db.conditions[rid := t] == db.conditions && db.states[rid := s] == db.states;
    match i
    case Arrive(x, rate, now) =>
      if Usable(r, s.last, x.obs, now) {
        var t0 := if Gap(r, s.last, x.obs) then InterruptAll(t) else t;
        var d0 := if Gap(r, s.last, x.obs) then SetTrio(db, rid, t0) else db;
        AbsorbConditionsPatches(d0, r, x.obs, rate, now);
        var d1 := AbsorbConditions(d0, r, x.obs, rate, now);
        var m := Step(MachineOf(db, rid), r, i);
        PatchTwice(db, rid, Machine(t0, s), db.log, MachineOf(d1, rid), d1.log);
        PatchTwice(db, rid, MachineOf(d1, rid), d1.log, m, d1.log);
      }
    case Verdict(now) =>
      var target := if IsStale(r, s.last, now) then Warning else Normal;
      var ev := StaleEvidence(if s.last.Some? then Some(s.last.value.at) else None);
      TransitionPatches(db, r, Stale, target, now, now, ev);
      var d := Transition(db, r, Stale, target, now, now, ev);
      PatchTwice(db, rid, MachineOf(d, rid), d.log, Machine(InterruptAll(d.conditions[rid]), s), d.log);
  }

  // ---------------------------------------------------------------- one input, invariant

  lemma {:induction false} StatesKeepInv(db: Db, rid: RuleId, p: Progress)
    requires Inv(db) && rid in db.rules
    ensures Inv(db.(states := db.states[rid := p]))
  {
    var d := db.(states := db.states[rid := p]);
    forall c ensures Holds(c, d) {
      assert Holds(c, db);
    }
  }

  lemma {:induction false} AbsorbConditionsKeepsInv(db: Db, r: Rule, o: Obs, rate: Option<real>, now: Time)
    requires Inv(db) && Live(db, r)
    ensures Inv(AbsorbConditions(db, r, o, rate, now))
  {
    var p, rid := r.params, r.params.id;
    var ev := LevelEvidence(o.id, o.at, o.value);
    var target := Classify(o.value, p.level, db.conditions[rid].level.severity);
    TransitionKeepsInv(db, r, Level, target, o.at, now, ev);
    var d := Transition(db, r, Level, target, o.at, now, ev);
    match rate
    case None =>
      var t := d.conditions[rid];
      assert SameSeverities(Set(t, Rise, Interrupt(t.rise)), t);
      PendingKeepsInv(d, rid, Set(t, Rise, Interrupt(t.rise)));
    case Some(v) =>
      TransitionKeepsInv(d, r, Rise, Classify(v, p.rise, d.conditions[rid].rise.severity), o.at, now,
                         RiseEvidence(o.id, o.at, o.value, v));
  }

  lemma {:induction false} AbsorbKeepsInv(db: Db, rid: RuleId, x: Reading, rate: Option<real>, now: Time)
    requires Inv(db) && Registered(db, rid)
    ensures Inv(AbsorbDb(db, rid, x, rate, now))
  {
    var r, s, t := db.rules[rid], db.states[rid], db.conditions[rid];
    var moved := s.(cursor := Max(s.cursor, x.sequence));
    if !Usable(r, s.last, x.obs, now) {
      StatesKeepInv(db, rid, moved);
    } else {
      var d0 := if Gap(r, s.last, x.obs) then SetTrio(db, rid, InterruptAll(t)) else db;
      assert Inv(d0) by {
        PendingKeepsInv(db, rid, InterruptAll(t));
      }
      AbsorbConditionsKeepsInv(d0, r, x.obs, rate, now);
      StatesKeepInv(AbsorbConditions(d0, r, x.obs, rate, now), rid, moved.(last := Some(Accepted(x.obs))));
    }
  }

  lemma {:induction false} JudgeKeepsInv(db: Db, rid: RuleId, now: Time)
    requires Inv(db) && Registered(db, rid)
    ensures Inv(JudgeDb(db, rid, now))
  {
    var r, s := db.rules[rid], db.states[rid];
    var target := if IsStale(r, s.last, now) then Warning else Normal;
    var ev := StaleEvidence(if s.last.Some? then Some(s.last.value.at) else None);
    TransitionKeepsInv(db, r, Stale, target, now, now, ev);
    var d := Transition(db, r, Stale, target, now, now, ev);
    PendingKeepsInv(d, rid, InterruptAll(d.conditions[rid]));
  }

  lemma {:induction false} StepKeepsInv(db: Db, rid: RuleId, i: Input)
    requires Inv(db) && Registered(db, rid)
    ensures Inv(StepDb(db, rid, i))
  {
    match i
    case Arrive(x, rate, now) => AbsorbKeepsInv(db, rid, x, rate, now);
    case Verdict(now) => JudgeKeepsInv(db, rid, now);
  }

  // ---------------------------------------------------------------- one input, report

  lemma {:induction false} AbsorbConditionsTells(db: Db, r: Rule, o: Obs, rate: Option<real>, now: Time, q: RuleId)
    requires Inv(db) && Live(db, r)
    ensures var t, d := db.conditions[r.params.id], AbsorbConditions(db, r, o, rate, now);
            var u := d.conditions[r.params.id];
            Reported(d.log, q)
            == Reported(db.log, q)
               + if q == r.params.id then Diff(Level, t.level, u.level, o.at) + Diff(Rise, t.rise, u.rise, o.at) else []
  {
    var p, rid := r.params, r.params.id;
    var ev := LevelEvidence(o.id, o.at, o.value);
    var target := Classify(o.value, p.level, db.conditions[rid].level.severity);
    TransitionTells(db, r, Level, target, o.at, now, ev, q);
    TransitionPatches(db, r, Level, target, o.at, now, ev);
    TransitionKeepsInv(db, r, Level, target, o.at, now, ev);
    var d := Transition(db, r, Level, target, o.at, now, ev);
    if rate.Some? {
      var rise, rev := Classify(rate.value, p.rise, d.conditions[rid].rise.severity),
          RiseEvidence(o.id, o.at, o.value, rate.value);
      TransitionTells(d, r, Rise, rise, o.at, now, rev, q);
      TransitionPatches(d, r, Rise, rise, o.at, now, rev);
    }
  }

  lemma {:induction false} StepTells(db: Db, rid: RuleId, i: Input, q: RuleId)
    requires Inv(db) && Registered(db, rid)
    ensures Reported(StepDb(db, rid, i).log, q)
            == Reported(db.log, q) + if q == rid then StepChanges(MachineOf(db, rid), db.rules[rid], i) else []
  {
    var r, s, t := db.rules[rid], db.states[rid], db.conditions[rid];
    StepPatches(db, rid, i);
    match i
    case Arrive(x, rate, now) =>
      if Usable(r, s.last, x.obs, now) {
        var d0 := if Gap(r, s.last, x.obs) then SetTrio(db, rid, InterruptAll(t)) else db;
        assert Inv(d0) by {
          PendingKeepsInv(db, rid, InterruptAll(t));
        }
        AbsorbConditionsTells(d0, r, x.obs, rate, now, q);
      }
    case Verdict(now) =>
      var target := if IsStale(r, s.last, now) then Warning else Normal;
      var ev := StaleEvidence(if s.last.Some? then Some(s.last.value.at) else None);
      TransitionTells(db, r, Stale, target, now, now, ev, q);
      TransitionPatches(db, r, Stale, target, now, now, ev);
  }

  // ---------------------------------------------------------------- any inputs

  /** The tables follow the rule machine ... */
  lemma {:induction false} RunPatches(db: Db, rid: RuleId, inputs: seq<Input>)
    requires Registered(db, rid)
    ensures RunDb(db, rid, inputs)
            == Patched(db, rid, Run(MachineOf(db, rid), db.rules[rid], inputs), RunDb(db, rid, inputs).log)
  {
    if |inputs| == 0 {
      assert db.conditions[rid := db.conditions[rid]] == db.conditions && db.states[rid := db.states[rid]] == db.states;
    } else {
      var front, i := inputs[..|inputs| - 1], inputs[|inputs| - 1];
      RunPatches(db, rid, front);
      var d := RunDb(db, rid, front);
      StepPatches(d, rid, i);
      PatchTwice(db, rid, MachineOf(d, rid), d.log, MachineOf(StepDb(d, rid, i), rid), StepDb(d, rid, i).log);
    }
  }

  /** ... keep the invariant ... */
  lemma {:induction false} RunKeepsInv(db: Db, rid: RuleId, inputs: seq<Input>)
    requires Inv(db) && Registered(db, rid)
    ensures Inv(RunDb(db, rid, inputs))
  {
    if |inputs| > 0 {
      RunKeepsInv(db, rid, inputs[..|inputs| - 1]);
      StepKeepsInv(RunDb(db, rid, inputs[..|inputs| - 1]), rid, inputs[|inputs| - 1]);
    }
  }

  lemma {:induction false} Joined(a: seq<Change>, b: seq<Change>, c: seq<Change>)
    ensures (a + b) + c == a + (b + c)
  {
  }

  /** What a run of rule rid reports of rule q. */
  function Told(q: RuleId, rid: RuleId, m: Machine, r: Rule, inputs: seq<Input>): seq<Change> {
    if q == rid then Changes(m, r, inputs) else []
  }

  lemma {:induction false} ToldSnoc(q: RuleId, rid: RuleId, m: Machine, r: Rule, front: seq<Input>, i: Input)
    ensures Told(q, rid, m, r, front + [i])
            == Told(q, rid, m, r, front) + if q == rid then StepChanges(Run(m, r, front), r, i) else []
  {
    assert (front + [i])[..|front|] == front;
  }

  /** ... and the log of the rule grows by exactly the machine's changes. */
  lemma {:induction false} RunTells(db: Db, rid: RuleId, inputs: seq<Input>, q: RuleId)
    requires Inv(db) && Registered(db, rid)
    ensures Reported(RunDb(db, rid, inputs).log, q)
            == Reported(db.log, q) + Told(q, rid, MachineOf(db, rid), db.rules[rid], inputs)
  {
    if |inputs| > 0 {
      var front, i := inputs[..|inputs| - 1], inputs[|inputs| - 1];
      RunTells(db, rid, front, q);
      TellsOneMore(db, rid, front, i, q);
      FrontAndLast(inputs);
    } else {
      NothingTold(db, rid, inputs, q);
    }
  }

  lemma {:induction false} FrontAndLast(inputs: seq<Input>)
    requires |inputs| > 0
    ensures inputs[..|inputs| - 1] + [inputs[|inputs| - 1]] == inputs
  {
  }

  lemma {:induction false} NothingTold(db: Db, rid: RuleId, inputs: seq<Input>, q: RuleId)
    requires Registered(db, rid) && |inputs| == 0
    ensures Reported(RunDb(db, rid, inputs).log, q)
            == Reported(db.log, q) + Told(q, rid, MachineOf(db, rid), db.rules[rid], inputs)
  {
  }

  lemma {:induction false} RunSnoc(db: Db, rid: RuleId, front: seq<Input>, i: Input)
    requires Registered(db, rid)
    ensures RunDb(db, rid, front + [i]) == StepDb(RunDb(db, rid, front), rid, i)
    ensures MachineOf(RunDb(db, rid, front), rid) == Run(MachineOf(db, rid), db.rules[rid], front)
  {
    assert (front + [i])[..|front|] == front;
    RunPatches(db, rid, front);
  }

  lemma {:induction false} TellsOneMore(db: Db, rid: RuleId, front: seq<Input>, i: Input, q: RuleId)
    requires Inv(db) && Registered(db, rid)
    requires Reported(RunDb(db, rid, front).log, q)
             == Reported(db.log, q) + Told(q, rid, MachineOf(db, rid), db.rules[rid], front)
    ensures Reported(RunDb(db, rid, front + [i]).log, q)
            == Reported(db.log, q) + Told(q, rid, MachineOf(db, rid), db.rules[rid], front + [i])
  {
    var m, r := MachineOf(db, rid), db.rules[rid];
    RunKeepsInv(db, rid, front);
    RunSnoc(db, rid, front, i);
    StepTells(RunDb(db, rid, front), rid, i, q);
    ToldSnoc(q, rid, m, r, front, i);
    Joined(Reported(db.log, q), Told(q, rid, m, r, front),
           if q == rid then StepChanges(Run(m, r, front), r, i) else []);
  }

  // ---------------------------------------------------------------- rule changes and acknowledgments

  /** `after` is `before` with the rule's unresolved alerts among the first n resolved. */
  ghost predicate Retired(before: seq<Alert>, after: seq<Alert>, rid: RuleId, n: nat, at: Time) {
    && |after| == |before|
    && forall i | 0 <= i < |before| ::
         after[i] == if i < n && before[i].rule == rid && before[i].resolvedAt.None?
                     then before[i].(resolvedAt := Some(at)) else before[i]
  }

  lemma {:induction false} RetiredStep(before: seq<Alert>, after: seq<Alert>, rid: RuleId, n: nat, at: Time)
    requires n < |before| && Retired(before, after, rid, n, at)
    ensures var a := after[n];
            var next := if a.rule == rid && a.resolvedAt.None? then after[n := a.(resolvedAt := Some(at))] else after;
            Retired(before, next, rid, n + 1, at)
  {
  }

  lemma {:induction false} RetireOneKeeps(before: seq<Alert>, log: Log, rid: RuleId, i: nat, at: Time, version: int)
    requires Faithful(log) && i < |log.alerts| && Retired(before, log.alerts, rid, i, at)
    ensures var l := RetireOne(log, rid, i, at, version);
            Faithful(l) && Retired(before, l.alerts, rid, i + 1, at)
  {
    RetiredStep(before, log.alerts, rid, i, at);
    if log.alerts[i].rule == rid && log.alerts[i].resolvedAt.None? {
      CloseIsFaithful(log, i, at, ConfigurationChanged, Reconfigured(version));
    }
  }

  lemma {:induction false} RetireKeepsLog(log: Log, rid: RuleId, n: nat, at: Time, version: int)
    requires Faithful(log) && n <= |log.alerts|
    ensures Faithful(Retire(log, rid, n, at, version))
    ensures Retired(log.alerts, Retire(log, rid, n, at, version).alerts, rid, n, at)
  {
    if n > 0 {
      RetireKeepsLog(log, rid, n - 1, at, version);
      RetireOneKeeps(log.alerts, Retire(log, rid, n - 1, at, version), rid, n - 1, at, version);
    }
  }

  lemma {:induction false} CloseJustified(versions: Versions, log: Log, i: nat, at: Time, action: Action,
                                          details: Details)
    requires Faithful(log) && Justified(versions, log) && i < |log.alerts| && !Raises(action)
    ensures Justified(versions, Close(log, i, at, action, details))
  {
    AppendJustified(versions, log, versions, Close(log, i, at, action, details), Event(i, action, details));
  }

  lemma {:induction false} MoreSnapshots(versions: Versions, more: Versions, log: Log)
    requires Justified(versions, log) && forall v | v in versions :: v in more && more[v] == versions[v]
    ensures Justified(more, log)
  {
    forall k: nat ensures JustifiedAt(more, log, k) {
      assert JustifiedAt(versions, log, k);
    }
  }

  lemma {:induction false} RetireOneJustified(versions: Versions, log: Log, rid: RuleId, i: nat, at: Time, version: int)
    requires Faithful(log) && Justified(versions, log) && i < |log.alerts|
    ensures Justified(versions, RetireOne(log, rid, i, at, version))
  {
    CloseJustified(versions, log, i, at, ConfigurationChanged, Reconfigured(version));
  }

  lemma {:induction false} RetireJustified(versions: Versions, log: Log, rid: RuleId, n: nat, at: Time, version: int)
    requires Faithful(log) && n <= |log.alerts| && Justified(versions, log)
    ensures Justified(versions, Retire(log, rid, n, at, version))
  {
    if n > 0 {
      var before := Retire(log, rid, n - 1, at, version);
      RetireJustified(versions, log, rid, n - 1, at, version);
      assert Faithful(before) by {
        RetireKeepsLog(log, rid, n - 1, at, version);
      }
      RetireOneJustified(versions, before, rid, n - 1, at, version);
    }
  }

  lemma {:induction false} CloseTells(log: Log, i: nat, at: Time, version: int, q: RuleId)
    requires Faithful(log) && i < |log.alerts|
    ensures Reported(Close(log, i, at, ConfigurationChanged, Reconfigured(version)), q) == Reported(log, q)
  {
    AppendReports(log, log.alerts[i := log.alerts[i].(resolvedAt := Some(at))],
                  Event(i, ConfigurationChanged, Reconfigured(version)), q);
  }

  /** Retiring appends configuration_changed events only. */
  lemma {:induction false} RetireAddsNoReports(log: Log, rid: RuleId, n: nat, at: Time, version: int, q: RuleId)
    requires Faithful(log) && n <= |log.alerts|
    ensures Reported(Retire(log, rid, n, at, version), q) == Reported(log, q)
  {
    if n > 0 {
      RetireAddsNoReports(log, rid, n - 1, at, version, q);
      RetireKeepsLog(log, rid, n - 1, at, version);
      CloseTells(Retire(log, rid, n - 1, at, version), n - 1, at, version, q);
    }
  }

  /** A row that may be stored: new, or the next version of its rule. */
  ghost predicate Storable(db: Db, row: Rule) {
    && ValidParams(row.params)
    && if row.params.id in db.rules
       then row.version == db.rules[row.params.id].version + 1
            && row.params.sensor == db.rules[row.params.id].params.sensor
       else row.version == 1 && !SensorTaken(db, row.params.sensor)
  }

  /** The next version extends the snapshots by one and changes none. */
  lemma {:induction false} SnapshotsGrow(rules: map<RuleId, Rule>, versions: Versions, row: Rule)
    requires Contiguous(rules, versions) && Current(rules, versions)
    requires row.version == if row.params.id in rules then rules[row.params.id].version + 1 else 1
    ensures (row.params.id, row.version) !in versions
    ensures Contiguous(rules[row.params.id := row], versions[(row.params.id, row.version) := row])
    ensures Current(rules[row.params.id := row], versions[(row.params.id, row.version) := row])
  {
    var rid := row.params.id;
    var more := versions[(rid, row.version) := row];
    assert rid in rules ==> (rid, rules[rid].version) in versions;
    forall q, v ensures (q, v) in more <==> q in rules[rid := row] && 1 <= v <= rules[rid := row][q].version {
      assert (q, v) in more <==> (q, v) in versions || (q == rid && v == row.version);
    }
  }

  lemma {:induction false} SensorsStayDistinct(rules: map<RuleId, Rule>, row: Rule)
    requires OneRulePerSensor(rules)
    requires if row.params.id in rules then row.params.sensor == rules[row.params.id].params.sensor
             else forall q | q in rules :: rules[q].params.sensor != row.params.sensor
    ensures OneRulePerSensor(rules[row.params.id := row])
  {
  }

  lemma {:induction false} RowsStayValid(rules: map<RuleId, Rule>, row: Rule)
    requires ValidRows(rules) && ValidParams(row.params)
    ensures ValidRows(rules[row.params.id := row])
  {
  }

  lemma {:induction false} FreshSensor(db: Db, row: Rule)
    requires Storable(db, row)
    ensures row.params.id !in db.rules ==> forall q | q in db.rules :: db.rules[q].params.sensor != row.params.sensor
  {
  }

  lemma {:induction false} KeysGrow(db: Db, row: Rule, high: nat)
    requires db.states.Keys == db.rules.Keys && db.conditions.Keys == db.rules.Keys
    ensures var d := ChangeRule(db, row, high);
            d.states.Keys == d.rules.Keys && d.conditions.Keys == d.rules.Keys
  {
  }

  lemma {:induction false} ChangeRuleKeepsTables(db: Db, row: Rule, high: nat)
    requires Tables(db) && Storable(db, row)
    ensures Tables(ChangeRule(db, row, high)) && (row.params.id, row.version) !in db.versions
  {
    SnapshotsGrow(db.rules, db.versions, row);
    RowsStayValid(db.rules, row);
    FreshSensor(db, row);
    SensorsStayDistinct(db.rules, row);
    KeysGrow(db, row, high);
  }

  lemma {:induction false} ChangeRuleAgrees(db: Db, row: Rule, high: nat)
    requires Inv(db) && Storable(db, row)
    ensures Agrees(ChangeRule(db, row, high))
  {
    var rid := row.params.id;
    var d := ChangeRule(db, row, high);
    assert Holds(AlertsAgree, db) && Holds(LogFaithful, db);
    RetireKeepsLog(db.log, rid, |db.log.alerts|, row.updatedAt, row.version);
    forall q, k | q in d.conditions && Get(d.conditions[q], k).severity != Normal
      ensures FindActive(d.log.alerts, q, k).Some?
    {
      assert q != rid;
      var i := FindActive(db.log.alerts, q, k).value;
      assert IsActive(d.log.alerts[i], q, k);
    }
  }

  /** A stored rule change resets the rule, closes its active alerts and keeps
    * everything else. */
  lemma {:induction false} ChangeRuleKeepsInv(db: Db, row: Rule, high: nat)
    requires Inv(db) && Storable(db, row)
    ensures Inv(ChangeRule(db, row, high))
  {
    var rid := row.params.id;
    var d := ChangeRule(db, row, high);
    forall c ensures Holds(c, d) {
      assert Holds(c, db);
      match c
      case TablesComplete => ChangeRuleKeepsTables(db, row, high);
      case LogFaithful => RetireKeepsLog(db.log, rid, |db.log.alerts|, row.updatedAt, row.version);
      case IndexUnique =>
        assert Holds(LogFaithful, db);
        RetireKeepsLog(db.log, rid, |db.log.alerts|, row.updatedAt, row.version);
      case AlertsAgree => ChangeRuleAgrees(db, row, high);
      case EvidenceJustifies =>
        assert Holds(LogFaithful, db) && Holds(TablesComplete, db);
        ChangeRuleKeepsTables(db, row, high);
        MoreSnapshots(db.versions, d.versions, db.log);
        RetireJustified(d.versions, db.log, rid, |db.log.alerts|, row.updatedAt, row.version);
    }
  }

  lemma {:induction false} SaveRuleKeeps(db: Db, p: Params, expected: int, seed: bool, now: Time, high: nat)
    requires Inv(db)
    ensures Inv(SaveRule(db, p, expected, seed, now, high).0)
  {
    if ValidParams(p) && expected >= 0 {
      if p.id in db.rules {
        if db.rules[p.id].params.sensor == p.sensor {
          ChangeRuleKeepsInv(db, Rule(p, db.rules[p.id].version + 1, now), high);
        }
      } else if !SensorTaken(db, p.sensor) {
        ChangeRuleKeepsInv(db, Rule(p, 1, now), high);
      }
    }
  }

  /** An acknowledgment touches only the receipt: no severity, no resolution. */
  lemma {:induction false} AcknowledgeKeeps(db: Db, i: nat, receipt: Receipt)
    requires Inv(db)
    ensures Inv(Acknowledge(db, i, receipt).0)
  {
    var d := Acknowledge(db, i, receipt).0;
    if d != db {
      var alerts := db.log.alerts[i := db.log.alerts[i].(receipt := Some(receipt))];
      var e := Event(i, Acknowledged, Received(receipt.actor, receipt.note));
      assert d.log == Append(db.log.(alerts := alerts), e);
      forall c ensures Holds(c, d) {
        assert Holds(c, db);
        match c
        case TablesComplete =>
        case LogFaithful => SignIsFaithful(db.log, i, receipt);
        case IndexUnique =>
        case AlertsAgree =>
          forall q, k | q in d.conditions && Get(d.conditions[q], k).severity != Normal
            ensures FindActive(d.log.alerts, q, k).Some?
          {
            var j := FindActive(db.log.alerts, q, k).value;
            assert IsActive(d.log.alerts[j], q, k);
          }
        case EvidenceJustifies =>
          assert Holds(LogFaithful, db);
          AppendJustified(db.versions, db.log, db.versions, d.log, e);
      }
    }
  }

  lemma {:induction false} AcknowledgeTells(db: Db, i: nat, receipt: Receipt, q: RuleId)
    requires Inv(db)
    ensures Reported(Acknowledge(db, i, receipt).0.log, q) == Reported(db.log, q)
  {
    if Acknowledge(db, i, receipt).0 != db {
      assert Holds(LogFaithful, db);
      AppendReports(db.log, db.log.alerts[i := db.log.alerts[i].(receipt := Some(receipt))],
                    Event(i, Acknowledged, Received(receipt.actor, receipt.note)), q);
    }
  }
}
