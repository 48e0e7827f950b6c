/** Runs of the whole alerting system: any interleaving of commits, evaluations,
  * rule edits, seeding and acknowledgments, and what holds in every state. */
module AlertRuns {
  import opened Wrappers
  import opened Clock
  import opened Conditions
  import opened Rules
  import opened Readings
  import opened RuleMachine
  import opened RuleTheorems
  import opened AlertLog
  import opened AlertDb
  import opened AlertInvariant

  // ---------------------------------------------------------------- the rule loop of evaluate

  lemma {:induction false} LeastOf(s: set<RuleId>) returns (x: RuleId)
    requires s != {}
    ensures x in s && forall y | y in s :: x <= y
    decreases |s|
  {
    x :| x in s;
    var rest := s - {x};
    if rest != {} {
      var z := LeastOf(rest);
      if z < x {
        x := z;
      }
    }
    assert forall y | y in s :: y in rest || y in s - rest;
  }

  ghost function Least(s: set<RuleId>): (x: RuleId)
    requires s != {}
    ensures x in s && forall y | y in s :: x <= y
  {
    assert exists x :: x in s && forall y | y in s :: x <= y by {
      var x := LeastOf(s);
    }
    var x :| x in s && forall y | y in s :: x <= y;
    x
  }

  function EnabledRules(db: Db): set<RuleId> {
    set rid | rid in db.rules && db.rules[rid].params.enabled
  }

  /** Every rule is stored whole and valid; what the loop needs of its tables. */
  ghost predicate Evaluable(db: Db) {
    forall rid | rid in db.rules :: Registered(db, rid) && ValidParams(db.rules[rid].params)
  }

  /** The rules of `todo` take their turns in identifier order. */
  ghost function EvaluateAll(db: Db, todo: set<RuleId>, rs: seq<Reading>, now: Time): (d: Db)
    requires Evaluable(db) && todo <= db.rules.Keys
    ensures d.rules == db.rules && Evaluable(d)
    decreases |todo|
  {
    if todo == {} then db
    else
      var rid := Least(todo);
      var d := EvaluateOne(db, rid, rs, now);
      assert Evaluable(d) by {
        RunPatches(db, rid, EvaluationInputs(rs, db.rules[rid], db.states[rid].cursor, BATCH, now));
      }
      EvaluateAll(d, todo - {rid}, rs, now)
  }

  lemma {:induction false} LeastGoesFirst(db: Db, todo: set<RuleId>, rs: seq<Reading>, now: Time)
    requires Evaluable(db) && todo <= db.rules.Keys && todo != {}
    ensures var rid := Least(todo);
            var d := EvaluateOne(db, rid, rs, now);
            && (forall x | x in todo && (forall y | y in todo :: x <= y) :: x == rid)
            && d.rules == db.rules && Evaluable(d)
            && EvaluateAll(db, todo, rs, now) == EvaluateAll(d, todo - {rid}, rs, now)
  {
    var rid := Least(todo);
    RunPatches(db, rid, EvaluationInputs(rs, db.rules[rid], db.states[rid].cursor, BATCH, now));
  }

  /** Whatever rule of `todo` has the lowest identifier goes first. */
  lemma {:induction false} EvaluateNext(db: Db, todo: set<RuleId>, rs: seq<Reading>, now: Time, rid: RuleId)
    requires Evaluable(db) && todo <= db.rules.Keys && rid in todo && forall y | y in todo :: rid <= y
    ensures var d := EvaluateOne(db, rid, rs, now);
            && d.rules == db.rules && Evaluable(d)
            && EvaluateAll(db, todo, rs, now) == EvaluateAll(d, todo - {rid}, rs, now)
  {
    LeastGoesFirst(db, todo, rs, now);
  }

  /** alerting.evaluate; it does nothing while another transaction holds the lock. */
  ghost function Evaluate(db: Db, rs: seq<Reading>, now: Time, busy: bool): Db
    requires Evaluable(db)
  {
    if busy then db else EvaluateAll(db, EnabledRules(db), rs, now)
  }

  lemma {:induction false} InvIsEvaluable(db: Db)
    requires Inv(db)
    ensures Evaluable(db)
  {
    assert Holds(TablesComplete, db);
  }

  lemma {:induction false} EvaluateAllKeepsInv(db: Db, todo: set<RuleId>, rs: seq<Reading>, now: Time)
    requires Inv(db) && Evaluable(db) && todo <= db.rules.Keys
    ensures Inv(EvaluateAll(db, todo, rs, now))
    ensures EvaluateAll(db, todo, rs, now).versions == db.versions
    decreases |todo|
  {
    if todo != {} {
      var rid := Least(todo);
      var inputs := EvaluationInputs(rs, db.rules[rid], db.states[rid].cursor, BATCH, now);
      RunKeepsInv(db, rid, inputs);
      RunPatches(db, rid, inputs);
      InvIsEvaluable(RunDb(db, rid, inputs));
      EvaluateAllKeepsInv(RunDb(db, rid, inputs), todo - {rid}, rs, now);
    }
  }

  /** Rule q had one turn of its machine, with its changes reported. */
  ghost predicate TurnTaken(db: Db, d: Db, q: RuleId, rs: seq<Reading>, now: Time)
    requires Registered(db, q) && ValidParams(db.rules[q].params)
  {
    var m, r := MachineOf(db, q), db.rules[q];
    && Registered(d, q)
    && MachineOf(d, q) == EvaluateRule(m, r, rs, BATCH, now)
    && Reported(d.log, q) == Reported(db.log, q) + Changes(m, r, EvaluationInputs(rs, r, m.progress.cursor, BATCH, now))
  }

  /** Nothing happened to rule q. */
  ghost predicate Untouched(db: Db, d: Db, q: RuleId)
    requires Registered(db, q)
  {
    Registered(d, q) && MachineOf(d, q) == MachineOf(db, q) && Reported(d.log, q) == Reported(db.log, q)
  }

  lemma {:induction false} QuietTurns(db: Db, d: Db, e: Db, q: RuleId, rs: seq<Reading>, now: Time)
    requires Registered(db, q) && ValidParams(db.rules[q].params) && Registered(d, q) && d.rules == db.rules
    ensures TurnTaken(db, d, q, rs, now) && Untouched(d, e, q) ==> TurnTaken(db, e, q, rs, now)
    ensures Untouched(db, d, q) && TurnTaken(d, e, q, rs, now) ==> TurnTaken(db, e, q, rs, now)
    ensures Untouched(db, d, q) && Untouched(d, e, q) ==> Untouched(db, e, q)
  {
  }

  lemma {:induction false} EvaluateOneIsPerRule(db: Db, rid: RuleId, rs: seq<Reading>, now: Time, q: RuleId)
    requires Inv(db) && Evaluable(db) && rid in db.rules && q in db.rules
    ensures var d := EvaluateOne(db, rid, rs, now);
            && Inv(d) && Evaluable(d) && d.rules == db.rules
            && if q == rid then TurnTaken(db, d, q, rs, now) else Untouched(db, d, q)
  {
    var inputs := EvaluationInputs(rs, db.rules[rid], db.states[rid].cursor, BATCH, now);
    RunKeepsInv(db, rid, inputs);
    RunPatches(db, rid, inputs);
    RunTells(db, rid, inputs, q);
    InvIsEvaluable(RunDb(db, rid, inputs));
  }

  /** An evaluation gives each enabled rule one turn of its own machine, reports
    * that machine's changes, and leaves every other rule alone. */
  lemma {:induction false} EvaluateAllIsPerRule(db: Db, todo: set<RuleId>, rs: seq<Reading>, now: Time, q: RuleId)
    requires Inv(db) && Evaluable(db) && todo <= db.rules.Keys && q in db.rules
    ensures var d := EvaluateAll(db, todo, rs, now);
            if q in todo then TurnTaken(db, d, q, rs, now) else Untouched(db, d, q)
    decreases |todo|
  {
    if todo != {} {
      var rid := Least(todo);
      var d := EvaluateOne(db, rid, rs, now);
      EvaluateOneIsPerRule(db, rid, rs, now, q);
      EvaluateAllIsPerRule(d, todo - {rid}, rs, now, q);
      QuietTurns(db, d, EvaluateAll(d, todo - {rid}, rs, now), q, rs, now);
    }
  }

  // ---------------------------------------------------------------- runs

  datatype World = World(db: Db, readings: seq<Reading>)

  datatype Op =
    | Commit(more: seq<Reading>)
    | Evaluation(at: Time, busy: bool)
    | Save(params: Params, expected: int, at: Time)
    | Seeding(params: Params, version: int, at: Time)
    | Acknowledgment(alert: nat, receipt: Receipt)

  /** A database in which the invariant holds, over a committed registry. */
  ghost predicate Sound(w: World) {
    Inv(w.db) && Evaluable(w.db) && Committed(w.readings)
  }

  ghost function Do(w: World, op: Op): World
    requires Evaluable(w.db)
  {
    match op
    case Commit(more) => if Committed(w.readings + more) then w.(readings := w.readings + more) else w
    case Evaluation(at, busy) => w.(db := Evaluate(w.db, w.readings, at, busy))
    case Save(p, expected, at) => w.(db := SaveRule(w.db, p, expected, false, at, HighSequence(w.readings)).0)
    case Seeding(p, version, at) => w.(db := SaveRule(w.db, p, version, true, at, HighSequence(w.readings)).0)
    case Acknowledgment(i, receipt) => w.(db := Acknowledge(w.db, i, receipt).0)
  }

  lemma {:induction false} DoIsSound(w: World, op: Op)
    requires Sound(w)
    ensures Sound(Do(w, op))
  {
    match op
    case Commit(more) =>
    case Evaluation(at, busy) => EvaluateAllKeepsInv(w.db, EnabledRules(w.db), w.readings, at);
    case Save(p, expected, at) =>
      SaveRuleKeeps(w.db, p, expected, false, at, HighSequence(w.readings));
      InvIsEvaluable(Do(w, op).db);
    case Seeding(p, version, at) =>
      SaveRuleKeeps(w.db, p, version, true, at, HighSequence(w.readings));
      InvIsEvaluable(Do(w, op).db);
    case Acknowledgment(i, receipt) =>
      AcknowledgeKeeps(w.db, i, receipt);
      InvIsEvaluable(Do(w, op).db);
  }

  ghost function After(w: World, ops: seq<Op>): (v: World)
    requires Sound(w)
    ensures Sound(v)
  {
    if |ops| == 0 then w
    else
      var v := After(w, ops[..|ops| - 1]);
      DoIsSound(v, ops[|ops| - 1]);
      Do(v, ops[|ops| - 1])
  }

  /** A freshly migrated database. */
  ghost function Start(): (w: World)
    ensures Sound(w)
  {
    assert forall c :: Holds(c, EMPTY_DB);
    World(EMPTY_DB, [])
  }

  // ---------------------------------------------------------------- what holds in every reachable state

  /** In every state reached by any interleaving, a condition is abnormal exactly
    * when an unresolved alert of that kind exists, and then there is exactly
    * one, with the condition's severity and the rule's current version. */
  lemma {:induction false} AbnormalExactlyWhenAlerted(ops: seq<Op>, rid: RuleId, k: Kind)
    ensures var db := After(Start(), ops).db;
            var active := set i: nat | i < |db.log.alerts| && IsActive(db.log.alerts[i], rid, k);
            rid in db.rules ==>
              var c := db.conditions[rid];
              && (Get(c, k).severity == Normal ==> active == {})
              && (Get(c, k).severity != Normal ==>
                    exists i :: active == {i} && db.log.alerts[i].severity == Get(c, k).severity
                                && db.log.alerts[i].version == db.rules[rid].version)
  {
    var db := After(Start(), ops).db;
    assert Holds(AlertsAgree, db) && Holds(IndexUnique, db);
    var active := set i: nat | i < |db.log.alerts| && IsActive(db.log.alerts[i], rid, k);
    if rid in db.rules {
      var found := FindActive(db.log.alerts, rid, k);
      if found.Some? {
        assert active == {found.value};
      } else {
        assert active == {};
      }
    }
  }

  /** The unique index on unresolved alerts holds in every reachable state. */
  lemma {:induction false} IndexNeverViolated(ops: seq<Op>)
    ensures OneActive(After(Start(), ops).db.log.alerts)
  {
    assert Holds(IndexUnique, After(Start(), ops).db);
  }

  /** Replaying an alert's events reconstructs the stored alert; the events are
    * one opening, strictly alternating gradings, at most one closing and at most
    * one acknowledgment; every other event has exactly one outbox row. */
  lemma {:induction false} LogReconstructsAlerts(ops: seq<Op>, i: nat)
    requires i < |After(Start(), ops).db.log.alerts|
    ensures var log := After(Start(), ops).db.log;
            var a, xs := log.alerts[i], ActionsOf(log.events, i);
            && StoryOf(log.events, i) == Known(a.severity, a.resolvedAt.None?, a.receipt.Some?)
            && (if a.resolvedAt.None? then OpenShape(xs) && EndsAt(xs, a.severity) else ClosedShape(xs))
            && AcknowledgmentsOf(log.events, i) == (if a.receipt.Some? then 1 else 0)
    ensures var log := After(Start(), ops).db.log;
            && (forall k: nat :: k in log.outbox <==> k < |log.events| && log.events[k].action != Acknowledged)
            && (forall j, k | 0 <= j < k < |log.outbox| :: log.outbox[j] < log.outbox[k])
  {
    var log := After(Start(), ops).db.log;
    assert Holds(LogFaithful, After(Start(), ops).db);
    assert AlertIsTold(log, i);
    StoryHasShape(log.events, i);
    DeliverableIsExact(log.events);
  }

  /** Every opening or escalation in a reachable log carries a reading, or a rate,
    * at or above the threshold its own rule snapshot sets for that severity, or
    * names a last reading at least the snapshot's stale limit old. */
  lemma {:induction false} EventsCarryEvidence(ops: seq<Op>, k: nat)
    requires k < |After(Start(), ops).db.log.events|
    ensures var db := After(Start(), ops).db;
            var e := db.log.events[k];
            e.details.Transitioned? && Raises(e.action) ==>
              && e.alert < |db.log.alerts|
              && var a := db.log.alerts[e.alert];
                 (a.rule, e.details.version) in db.versions
                 && Justifies(db.versions[(a.rule, e.details.version)], a.kind, e.details.severity,
                              e.details.conditionAt, e.details.evidence)
  {
    var db := After(Start(), ops).db;
    assert Holds(EvidenceJustifies, db) && Holds(LogFaithful, db);
    assert JustifiedAt(db.versions, db.log, k) && NamesAlert(db.log, k);
  }

  // ---------------------------------------------------------------- rule versions

  /** Snapshots are exactly versions 1..current and the last is the live rule. */
  lemma {:induction false} SnapshotsAreTheHistory(ops: seq<Op>, rid: RuleId, v: int)
    ensures var db := After(Start(), ops).db;
            && ((rid, v) in db.versions <==> rid in db.rules && 1 <= v <= db.rules[rid].version)
            && (rid in db.rules ==> (rid, db.rules[rid].version) in db.versions
                                    && db.versions[(rid, db.rules[rid].version)] == db.rules[rid])
  {
    assert Holds(TablesComplete, After(Start(), ops).db);
  }

  /** Rules only move to later versions, and no snapshot is ever changed. */
  ghost predicate Evolves(a: Db, b: Db) {
    && (forall v | v in a.versions :: v in b.versions && b.versions[v] == a.versions[v])
    && (forall rid | rid in a.rules ::
          && rid in b.rules && b.rules[rid].version >= a.rules[rid].version
          && (b.rules[rid].version == a.rules[rid].version ==> b.rules[rid] == a.rules[rid]))
  }

  lemma {:induction false} ChangeEvolves(db: Db, row: Rule, high: nat)
    requires Inv(db) && row.version == if row.params.id in db.rules then db.rules[row.params.id].version + 1 else 1
    ensures Evolves(db, ChangeRule(db, row, high))
  {
    assert Holds(TablesComplete, db);
    SnapshotsGrow(db.rules, db.versions, row);
  }

  lemma {:induction false} SaveEvolves(db: Db, p: Params, expected: int, seed: bool, now: Time, high: nat)
    requires Inv(db)
    ensures Evolves(db, SaveRule(db, p, expected, seed, now, high).0)
    ensures seed ==> forall rid | rid in db.rules ::
              rid in SaveRule(db, p, expected, seed, now, high).0.rules
              && SaveRule(db, p, expected, seed, now, high).0.rules[rid] == db.rules[rid]
  {
    ChangeEvolves(db, Rule(p, if p.id in db.rules then db.rules[p.id].version + 1 else 1, now), high);
  }

  lemma {:induction false} SaveAccepts(db: Db, p: Params, expected: int, now: Time, high: nat)
    ensures var (d, result) := SaveRule(db, p, expected, false, now, high);
            result.Ok? ==> p.id in d.rules && d.rules[p.id] == result.value == Rule(p, expected + 1, now)
                           && (if p.id in db.rules then db.rules[p.id].version == expected else expected == 0)
  {
  }

  /** Seeding one rule of a file never alters an existing rule. */
  lemma {:induction false} SeedingAltersNothing(w: World, p: Params, version: int, at: Time)
    requires Sound(w)
    ensures var d := Do(w, Seeding(p, version, at)).db;
            && Evolves(w.db, d)
            && (forall rid | rid in w.db.rules :: rid in d.rules && d.rules[rid] == w.db.rules[rid])
            && (p.id in w.db.rules ==> d == w.db)
  {
    SaveEvolves(w.db, p, version, true, at, HighSequence(w.readings));
  }

  /** Loading a whole file with nobody in between is a run of such operations. */
  function SeedOps(seeds: seq<Seed>, moments: seq<Moment>): seq<Op>
    requires |moments| == |seeds|
  {
    seq(|seeds|, i requires 0 <= i < |seeds| => Seeding(seeds[i].params, seeds[i].version, moments[i].now))
  }

  lemma {:induction false} SeedOpsSnoc(seeds: seq<Seed>, moments: seq<Moment>)
    requires |moments| == |seeds| > 0
    ensures var n := |seeds| - 1;
            SeedOps(seeds, moments)[..n] == SeedOps(seeds[..n], moments[..n])
            && SeedOps(seeds, moments)[n] == Seeding(seeds[n].params, seeds[n].version, moments[n].now)
  {
  }

  lemma {:induction false} OneMoreSeed(w: World, seeds: seq<Seed>, moments: seq<Moment>)
    requires Sound(w) && |moments| == |seeds| > 0
    ensures var n := |seeds| - 1;
            After(w, SeedOps(seeds, moments))
            == Do(After(w, SeedOps(seeds[..n], moments[..n])),
                  Seeding(seeds[n].params, seeds[n].version, moments[n].now))
  {
    SeedOpsSnoc(seeds, moments);
  }

  lemma {:induction false} Prefixes(seeds: seq<Seed>, moments: seq<Moment>, k: nat, n: nat)
    requires n <= k <= |seeds| == |moments|
    ensures seeds[..k][..n] == seeds[..n] && moments[..k][..n] == moments[..n]
    ensures seeds[..|seeds|] == seeds && moments[..|seeds|] == moments
  {
  }

  lemma {:induction false} SeedAllIsARun(w: World, seeds: seq<Seed>, moments: seq<Moment>) returns (n: nat)
    requires Sound(w) && |moments| == |seeds|
    requires forall i | 0 <= i < |moments| :: moments[i].high == HighSequence(w.readings)
    ensures n <= |seeds| && (SeedAll(w.db, seeds, moments).1 ==> n == |seeds|)
    ensures After(w, SeedOps(seeds[..n], moments[..n])) == w.(db := SeedAll(w.db, seeds, moments).0)
  {
    if |seeds| == 0 {
      n := 0;
    } else {
      var k := |seeds| - 1;
      n := SeedAllIsARun(w, seeds[..k], moments[..k]);
      Prefixes(seeds, moments, k, n);
      if SeedAll(w.db, seeds[..k], moments[..k]).1 {
        n := |seeds|;
        OneMoreSeed(w, seeds, moments);
      }
    }
  }

  lemma {:induction false} DoEvolves(w: World, op: Op)
    requires Sound(w)
    ensures Evolves(w.db, Do(w, op).db)
  {
    match op
    case Commit(more) =>
    case Evaluation(at, busy) => EvaluateAllKeepsInv(w.db, EnabledRules(w.db), w.readings, at);
    case Save(p, expected, at) => SaveEvolves(w.db, p, expected, false, at, HighSequence(w.readings));
    case Seeding(p, version, at) => SaveEvolves(w.db, p, version, true, at, HighSequence(w.readings));
    case Acknowledgment(i, receipt) =>
  }

  lemma {:induction false} AfterPrefix(w: World, ops: seq<Op>, j: nat)
    requires Sound(w) && 0 < j <= |ops|
    ensures After(w, ops[..j]) == Do(After(w, ops[..j - 1]), ops[j - 1])
  {
    assert ops[..j][..j - 1] == ops[..j - 1];
  }

  lemma {:induction false} EvolvesOn(a: Db, b: Db, c: Db)
    requires Evolves(a, b) && Evolves(b, c)
    ensures Evolves(a, c)
  {
  }

  lemma {:induction false} StepEvolves(w: World, ops: seq<Op>, j: nat)
    requires Sound(w) && 0 < j <= |ops|
    ensures Evolves(After(w, ops[..j - 1]).db, After(w, ops[..j]).db)
  {
    AfterPrefix(w, ops, j);
    DoEvolves(After(w, ops[..j - 1]), ops[j - 1]);
  }

  lemma {:induction false} RunEvolves(w: World, ops: seq<Op>, i: nat, j: nat)
    requires Sound(w) && i <= j <= |ops|
    ensures Evolves(After(w, ops[..i]).db, After(w, ops[..j]).db)
  {
    if i < j {
      RunEvolves(w, ops, i, j - 1);
      StepEvolves(w, ops, j);
      EvolvesOn(After(w, ops[..i]).db, After(w, ops[..j - 1]).db, After(w, ops[..j]).db);
    }
  }

  /** Whether the save at position i of a run is accepted. */
  ghost predicate Accepts(w: World, ops: seq<Op>, i: nat)
    requires Sound(w) && i < |ops|
  {
    var v := After(w, ops[..i]);
    ops[i].Save? && SaveRule(v.db, ops[i].params, ops[i].expected, false, ops[i].at, HighSequence(v.readings)).1.Ok?
  }

  /** Compare and swap: of all saves of a rule that expect the same version, in
    * any run, at most one is accepted. */
  lemma {:induction false} OneSavePerVersion(w: World, ops: seq<Op>, i: nat, j: nat)
    requires Sound(w) && i < |ops| && j < |ops| && Accepts(w, ops, i) && Accepts(w, ops, j)
    requires ops[i].params.id == ops[j].params.id && ops[i].expected == ops[j].expected
    ensures i == j
  {
    if i < j {
      SecondSaveFails(w, ops, i, j);
    } else if j < i {
      SecondSaveFails(w, ops, j, i);
    }
  }

  lemma {:induction false} SecondSaveFails(w: World, ops: seq<Op>, i: nat, j: nat)
    requires Sound(w) && i < j < |ops| && Accepts(w, ops, i)
    requires ops[j].Save? && ops[i].params.id == ops[j].params.id && ops[i].expected == ops[j].expected
    ensures !Accepts(w, ops, j)
  {
    var a, b := After(w, ops[..i]), After(w, ops[..j]);
    var p, expected := ops[i].params, ops[i].expected;
    SaveAccepts(a.db, p, expected, ops[i].at, HighSequence(a.readings));
    assert ops[..i + 1][..i] == ops[..i];
    assert After(w, ops[..i + 1]).db.rules[p.id].version == expected + 1;
    RunEvolves(w, ops, i + 1, j);
    SaveAccepts(b.db, ops[j].params, expected, ops[j].at, HighSequence(b.readings));
  }

  // ---------------------------------------------------------------- a rule between two changes

  ghost predicate HasTurn(v: World, op: Op, rid: RuleId) {
    op.Evaluation? && !op.busy && rid in v.db.rules && v.db.rules[rid].params.enabled
  }

  /** The registries seen by the evaluations that gave the rule a turn. */
  ghost function Snapshots(w: World, ops: seq<Op>, rid: RuleId): seq<seq<Reading>>
    requires Sound(w)
  {
    if |ops| == 0 then []
    else
      var v, op := After(w, ops[..|ops| - 1]), ops[|ops| - 1];
      Snapshots(w, ops[..|ops| - 1], rid)
      + if HasTurn(v, op, rid) then [v.readings] else []
  }

  ghost function Times(w: World, ops: seq<Op>, rid: RuleId): (ts: seq<Time>)
    requires Sound(w)
    ensures |ts| == |Snapshots(w, ops, rid)|
  {
    if |ops| == 0 then []
    else
      var v, op := After(w, ops[..|ops| - 1]), ops[|ops| - 1];
      Times(w, ops[..|ops| - 1], rid)
      + if HasTurn(v, op, rid) then [op.at] else []
  }

  lemma {:induction false} GrowingNone()
    ensures Growing([])
  {
    forall k: nat ensures ExtendsLast([], k) {
    }
  }

  lemma {:induction false} GrowingSnoc(snaps: seq<seq<Reading>>, rs: seq<Reading>)
    requires Growing(snaps) && Committed(rs) && forall k | 0 <= k < |snaps| :: snaps[k] <= rs
    ensures Growing(snaps + [rs])
  {
    forall k: nat ensures ExtendsLast(snaps + [rs], k) {
      assert ExtendsLast(snaps, k);
    }
  }

  lemma {:induction false} SnapshotsGrowInRuns(w: World, ops: seq<Op>, rid: RuleId)
    requires Sound(w)
    ensures Growing(Snapshots(w, ops, rid))
    ensures forall k | 0 <= k < |Snapshots(w, ops, rid)| :: Snapshots(w, ops, rid)[k] <= After(w, ops).readings
  {
    if |ops| == 0 {
      GrowingNone();
    } else {
      var front := ops[..|ops| - 1];
      SnapshotsGrowInRuns(w, front, rid);
      var ss, rs := Snapshots(w, front, rid), After(w, front).readings;
      GrowingSnoc(ss, rs);
      assert Snapshots(w, ops, rid) == if HasTurn(After(w, front), ops[|ops| - 1], rid) then ss + [rs] else ss;
      assert rs <= After(w, ops).readings;
    }
  }

  /** An operation that leaves a rule's row as it was leaves its machine as it
    * was, unless it is an evaluation that gives the rule a turn. */
  lemma {:induction false} DoIsPerRule(w: World, op: Op, rid: RuleId)
    requires Sound(w) && rid in w.db.rules && rid in Do(w, op).db.rules && Do(w, op).db.rules[rid] == w.db.rules[rid]
    ensures if HasTurn(w, op, rid)
            then TurnTaken(w.db, Do(w, op).db, rid, w.readings, op.at)
            else Untouched(w.db, Do(w, op).db, rid)
  {
    DoIsSound(w, op);
    match op
    case Commit(more) =>
    case Evaluation(at, busy) => EvaluateAllIsPerRule(w.db, EnabledRules(w.db), w.readings, at, rid);
    case Save(p, expected, at) => SaveIsPerRule(w.db, p, expected, false, at, HighSequence(w.readings), rid);
    case Seeding(p, version, at) => SaveIsPerRule(w.db, p, version, true, at, HighSequence(w.readings), rid);
    case Acknowledgment(i, receipt) => AcknowledgeTells(w.db, i, receipt, rid);
  }

  lemma {:induction false} SaveIsPerRule(db: Db, p: Params, expected: int, seed: bool, now: Time, high: nat,
                                         rid: RuleId)
    requires Inv(db) && Registered(db, rid)
    ensures var d := SaveRule(db, p, expected, seed, now, high).0;
            && rid in d.states && rid in d.conditions
            && Reported(d.log, rid) == Reported(db.log, rid)
            && (rid in d.rules && d.rules[rid] == db.rules[rid] ==> MachineOf(d, rid) == MachineOf(db, rid))
  {
    assert Holds(LogFaithful, db);
    var d := SaveRule(db, p, expected, seed, now, high).0;
    if d != db {
      var row := d.rules[p.id];
      RetireAddsNoReports(db.log, p.id, |db.log.alerts|, row.updatedAt, row.version, rid);
    }
  }

  /** A row whose version has not moved has not been changed in between. */
  lemma {:induction false} UnmovedVersion(w: World, ops: seq<Op>, rid: RuleId, n: nat)
    requires Sound(w) && rid in w.db.rules && n <= |ops|
    requires rid in After(w, ops).db.rules && After(w, ops).db.rules[rid].version == w.db.rules[rid].version
    ensures rid in After(w, ops[..n]).db.rules && After(w, ops[..n]).db.rules[rid] == w.db.rules[rid]
  {
    RunEvolves(w, ops, 0, n);
    RunEvolves(w, ops, n, |ops|);
    assert ops[..0] == [] && ops[..|ops|] == ops;
  }

  /** In d, rule rid stands where its machine m stands after evaluations at
    * these registries, and its log has grown from `base` by their changes. */
  ghost predicate StandsAt(d: Db, rid: RuleId, r: Rule, m: Machine, base: seq<Change>, snaps: seq<seq<Reading>>,
                           nows: seq<Time>)
    requires ValidParams(r.params) && |nows| == |snaps|
  {
    && Registered(d, rid)
    && MachineOf(d, rid) == Evaluations(m, r, snaps, nows)
    && Reported(d.log, rid) == base + Changes(m, r, AllInputs(m, r, snaps, nows))
  }

  lemma {:induction false} StandsAfterTurn(d: Db, e: Db, rid: RuleId, r: Rule, m: Machine, base: seq<Change>,
                                           snaps: seq<seq<Reading>>, nows: seq<Time>, rs: seq<Reading>, now: Time)
    requires ValidParams(r.params) && |nows| == |snaps| && StandsAt(d, rid, r, m, base, snaps, nows)
    requires d.rules[rid] == r && TurnTaken(d, e, rid, rs, now)
    ensures StandsAt(e, rid, r, m, base, snaps + [rs], nows + [now])
  {
    OneMoreEvaluation(m, r, snaps, nows, rs, now);
    var inputs := EvaluationInputs(rs, r, MachineOf(d, rid).progress.cursor, BATCH, now);
    var before, more := Changes(m, r, AllInputs(m, r, snaps, nows)), Changes(MachineOf(d, rid), r, inputs);
    assert Reported(e.log, rid) == (base + before) + more;
    Joined(base, before, more);
  }

  lemma {:induction false} StandsWhenUntouched(d: Db, e: Db, rid: RuleId, r: Rule, m: Machine, base: seq<Change>,
                                               snaps: seq<seq<Reading>>, nows: seq<Time>)
    requires ValidParams(r.params) && |nows| == |snaps| && StandsAt(d, rid, r, m, base, snaps, nows)
             && Untouched(d, e, rid)
    ensures StandsAt(e, rid, r, m, base, snaps, nows)
  {
  }

  lemma {:induction false} SnapshotsSnoc(w: World, front: seq<Op>, op: Op, rid: RuleId)
    requires Sound(w)
    ensures var v, ss, ts := After(w, front), Snapshots(w, front, rid), Times(w, front, rid);
            && After(w, front + [op]) == Do(v, op)
            && Snapshots(w, front + [op], rid) == (if HasTurn(v, op, rid) then ss + [v.readings] else ss)
            && Times(w, front + [op], rid) == (if HasTurn(v, op, rid) then ts + [op.at] else ts)
  {
    assert (front + [op])[..|front|] == front;
  }

  lemma {:induction false} FollowsOneMore(w: World, front: seq<Op>, op: Op, rid: RuleId)
    requires Sound(w) && rid in w.db.rules
    requires StandsAt(After(w, front).db, rid, w.db.rules[rid], MachineOf(w.db, rid), Reported(w.db.log, rid),
                      Snapshots(w, front, rid), Times(w, front, rid))
    requires After(w, front).db.rules[rid] == w.db.rules[rid]
    requires rid in Do(After(w, front), op).db.rules && Do(After(w, front), op).db.rules[rid] == w.db.rules[rid]
    ensures StandsAt(After(w, front + [op]).db, rid, w.db.rules[rid], MachineOf(w.db, rid), Reported(w.db.log, rid),
                     Snapshots(w, front + [op], rid), Times(w, front + [op], rid))
  {
    var v := After(w, front);
    SnapshotsSnoc(w, front, op, rid);
    DoIsPerRule(v, op, rid);
    var r, m, base := w.db.rules[rid], MachineOf(w.db, rid), Reported(w.db.log, rid);
    var ss, ts := Snapshots(w, front, rid), Times(w, front, rid);
    if HasTurn(v, op, rid) {
      StandsAfterTurn(v.db, Do(v, op).db, rid, r, m, base, ss, ts, v.readings, op.at);
    } else {
      StandsWhenUntouched(v.db, Do(v, op).db, rid, r, m, base, ss, ts);
    }
  }

  /** Between two changes of a rule, whatever else happens, its conditions,
    * cursor and last reading are those of its own machine evaluated at the
    * registries it saw, and its log is that machine's changes. Every result
    * about machines is therefore a result about the running system. */
  lemma {:induction false} RuleFollowsItsMachine(w: World, ops: seq<Op>, rid: RuleId)
    requires Sound(w) && rid in w.db.rules
    requires rid in After(w, ops).db.rules && After(w, ops).db.rules[rid].version == w.db.rules[rid].version
    ensures StandsAt(After(w, ops).db, rid, w.db.rules[rid], MachineOf(w.db, rid), Reported(w.db.log, rid),
                     Snapshots(w, ops, rid), Times(w, ops, rid))
    ensures Growing(Snapshots(w, ops, rid))
  {
    SnapshotsGrowInRuns(w, ops, rid);
    if |ops| > 0 {
      var k := |ops| - 1;
      assert ops == ops[..k] + [ops[k]];
      UnmovedVersion(w, ops, rid, k);
      UnmovedVersion(w, ops, rid, |ops|);
      assert ops[..|ops|] == ops;
      RuleFollowsItsMachine(w, ops[..k], rid);
      FollowsOneMore(w, ops[..k], ops[k], rid);
    }
  }

  /** A rule just changed is a reset machine at the highest committed sequence. */
  lemma {:induction false} ChangedRuleIsReset(w: World, p: Params, expected: int, at: Time)
    requires Sound(w) && SaveRule(w.db, p, expected, false, at, HighSequence(w.readings)).1.Ok?
    ensures var v := Do(w, Save(p, expected, at));
            Registered(v.db, p.id) && MachineOf(v.db, p.id) == Reset(HighSequence(w.readings))
            && forall k :: FindActive(v.db.log.alerts, p.id, k) == None
  {
    DoIsSound(w, Save(p, expected, at));
    assert Holds(LogFaithful, w.db);
    var row := SaveRule(w.db, p, expected, false, at, HighSequence(w.readings)).1.value;
    RetireKeepsLog(w.db.log, p.id, |w.db.log.alerts|, row.updatedAt, row.version);
  }
}
