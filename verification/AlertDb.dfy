/** The alerting tables and what each database function does to them. */
module AlertDb {
  import opened Wrappers
  import opened Clock
  import opened Conditions
  import opened Rules
  import opened Readings
  import opened RuleMachine
  import opened AlertLog

  datatype Db = Db(
    rules: map<RuleId, Rule>,
    versions: map<(RuleId, int), Rule>,
    states: map<RuleId, Progress>,
    conditions: map<RuleId, Trio>,
    log: Log)

  const EMPTY_DB := Db(map[], map[], map[], map[], Log([], [], []))

  function Get(t: Trio, k: Kind): Condition {
    match k
    case Level => t.level
    case Rise => t.rise
    case Stale => t.stale
  }

  function Set(t: Trio, k: Kind, c: Condition): Trio {
    match k
    case Level => t.(level := c)
    case Rise => t.(rise := c)
    case Stale => t.(stale := c)
  }

  function SetCondition(db: Db, rid: RuleId, k: Kind, c: Condition): Db
    requires rid in db.conditions
  {
    db.(conditions := db.conditions[rid := Set(db.conditions[rid], k, c)])
  }

  function SetTrio(db: Db, rid: RuleId, t: Trio): Db {
    db.(conditions := db.conditions[rid := t])
  }

  /** What a transition that is due does to alerts, events and the outbox. */
  function Report(log: Log, r: Rule, k: Kind, target: Severity, at: Time, now: Time, ev: Evidence): Log {
    var active := FindActive(log.alerts, r.params.id, k);
    var details := Transitioned(target, at, r.version, ev);
    if target == Normal then (if active.Some? then Close(log, active.value, now, Resolved, details) else log)
    else if active.None? then Open(log, Alert(r.params.id, r.version, k, target, now, None, None), details)
    else Grade(log, active.value, target, details)
  }

  /** The hold of a transition: the pending target is noted, and the flag
    * says whether it has to be held for longer. */
  function HoldOn(db: Db, r: Rule, k: Kind, target: Severity, at: Time): (Db, bool)
    requires r.params.id in db.conditions
  {
    var s := Get(db.conditions[r.params.id], k);
    if target == Normal || k == Stale || (s.severity == Critical && target == Warning) then (db, false)
    else
      var since := if s.pending.Some? && s.pending.value.severity == target then s.pending.value.since else at;
      (SetCondition(db, r.params.id, k, s.(pending := Some(Pending(target, since)))),
       at - since < r.params.hold * SECOND)
  }

  /** alerting.transition; the condition row must exist. */
  function Transition(db: Db, r: Rule, k: Kind, target: Severity, at: Time, now: Time, ev: Evidence): (d: Db)
    requires r.params.id in db.conditions
    ensures d.rules == db.rules && d.states == db.states && d.conditions.Keys == db.conditions.Keys
  {
    var rid := r.params.id;
    var s := Get(db.conditions[rid], k);
    if target == s.severity then SetCondition(db, rid, k, s.(pending := None))
    else
      var (held, wait) := HoldOn(db, r, k, target, at);
      if wait then held else SetCondition(held.(log := Report(held.log, r, k, target, at, now, ev)), rid, k,
                                          Condition(target, None))
  }

  /** A rule and its state rows exist. */
  predicate Registered(db: Db, rid: RuleId) {
    rid in db.rules && rid in db.states && rid in db.conditions && db.rules[rid].params.id == rid
  }

  /** The two transitions an accepted reading causes. */
  function AbsorbConditions(db: Db, r: Rule, o: Obs, rate: Option<real>, now: Time): (d: Db)
    requires r.params.id in db.conditions
    ensures d.rules == db.rules && d.states == db.states && d.conditions.Keys == db.conditions.Keys
  {
    var p, rid := r.params, r.params.id;
    var level := Classify(o.value, p.level, db.conditions[rid].level.severity);
    var d := Transition(db, r, Level, level, o.at, now, LevelEvidence(o.id, o.at, o.value));
    match rate
    case None => SetCondition(d, rid, Rise, Interrupt(d.conditions[rid].rise))
    case Some(v) =>
      Transition(d, r, Rise, Classify(v, p.rise, d.conditions[rid].rise.severity), o.at, now,
                 RiseEvidence(o.id, o.at, o.value, v))
  }

  function AbsorbDb(db: Db, rid: RuleId, x: Reading, rate: Option<real>, now: Time): (d: Db)
    requires Registered(db, rid)
    ensures Registered(d, rid) && d.rules == db.rules
  {
    var r, s := db.rules[rid], db.states[rid];
    var moved := s.(cursor := Max(s.cursor, x.sequence));
    if !Usable(r, s.last, x.obs, now) then db.(states := db.states[rid := moved])
    else
      var d0 := if Gap(r, s.last, x.obs) then SetTrio(db, rid, InterruptAll(db.conditions[rid])) else db;
      var d1 := AbsorbConditions(d0, r, x.obs, rate, now);
      d1.(states := d1.states[rid := moved.(last := Some(Accepted(x.obs)))])
  }

  function JudgeDb(db: Db, rid: RuleId, now: Time): (d: Db)
    requires Registered(db, rid)
    ensures Registered(d, rid) && d.rules == db.rules
  {
    var r, s := db.rules[rid], db.states[rid];
    var stale := IsStale(r, s.last, now);
    var d := Transition(db, r, Stale, if stale then Warning else Normal, now, now,
                        StaleEvidence(if s.last.Some? then Some(s.last.value.at) else None));
    if stale then SetTrio(d, rid, InterruptAll(d.conditions[rid])) else d
  }

  function StepDb(db: Db, rid: RuleId, i: Input): (d: Db)
    requires Registered(db, rid)
    ensures Registered(d, rid) && d.rules == db.rules
  {
    match i
    case Arrive(x, rate, now) => AbsorbDb(db, rid, x, rate, now)
    case Verdict(now) => JudgeDb(db, rid, now)
  }

  function RunDb(db: Db, rid: RuleId, inputs: seq<Input>): (d: Db)
    requires Registered(db, rid)
    ensures Registered(d, rid) && d.rules == db.rules
  {
    if |inputs| == 0 then db
    else StepDb(RunDb(db, rid, inputs[..|inputs| - 1]), rid, inputs[|inputs| - 1])
  }

  /** One turn of the rule loop of alerting.evaluate. */
  function EvaluateOne(db: Db, rid: RuleId, rs: seq<Reading>, now: Time): Db
    requires Registered(db, rid) && ValidParams(db.rules[rid].params)
  {
    RunDb(db, rid, EvaluationInputs(rs, db.rules[rid], db.states[rid].cursor, BATCH, now))
  }

  // ---------------------------------------------------------------- rule changes

  /** Closes alert i if it is an active alert of the rule. */
  function RetireOne(log: Log, rid: RuleId, i: nat, at: Time, version: int): (l: Log)
    requires i < |log.alerts|
    ensures |l.alerts| == |log.alerts|
  {
    if log.alerts[i].rule == rid && log.alerts[i].resolvedAt.None?
    then Close(log, i, at, ConfigurationChanged, Reconfigured(version)) else log
  }

  /** Closes the active alerts of a rule among the first n. */
  function Retire(log: Log, rid: RuleId, n: nat, at: Time, version: int): (l: Log)
    requires n <= |log.alerts|
    ensures |l.alerts| == |log.alerts|
  {
    if n == 0 then log else RetireOne(Retire(log, rid, n - 1, at, version), rid, n - 1, at, version)
  }

  /** The triggers of an inserted or updated rule row. */
  function ChangeRule(db: Db, row: Rule, high: nat): Db {
    var rid := row.params.id;
    Db(db.rules[rid := row],
       db.versions[(rid, row.version) := row],
       db.states[rid := Reset(high).progress],
       db.conditions[rid := Reset(high).trio],
       Retire(db.log, rid, |db.log.alerts|, row.updatedAt, row.version))
  }

  datatype SaveError = InvalidRule | Conflict

  predicate SensorTaken(db: Db, sensor: string) {
    exists rid | rid in db.rules :: db.rules[rid].params.sensor == sensor
  }

  /** SaveRule: `expected` is the version the caller read, 0 for a new rule. */
  function SaveRule(db: Db, p: Params, expected: int, seed: bool, now: Time, high: nat): (Db, Result<Rule, SaveError>) {
    if !ValidParams(p) || expected < 0 then (db, Err(InvalidRule))
    else if p.id in db.rules then
      var live := db.rules[p.id];
      if seed then (db, Ok(live))
      else if live.version != expected then (db, Err(Conflict))
      else if live.params.sensor != p.sensor then (db, Err(InvalidRule))
      else
        var row := Rule(p, live.version + 1, now);
        (ChangeRule(db, row, high), Ok(row))
    else if expected != 0 || SensorTaken(db, p.sensor) then (db, Err(Conflict))
    else
      var row := Rule(p, 1, now);
      (ChangeRule(db, row, high), Ok(row))
  }

  datatype Seed = Seed(params: Params, version: int)

  /** An initial rule file is taken only if all of it is valid. */
  predicate AcceptableSeeds(seeds: seq<Seed>) {
    && |seeds| <= 1000
    && (forall k | 0 <= k < |seeds| :: ValidParams(seeds[k].params) && seeds[k].version == 0)
    && (forall j, k | 0 <= j < k < |seeds| ::
          seeds[j].params.id != seeds[k].params.id && seeds[j].params.sensor != seeds[k].params.sensor)
  }

  /** When a transaction runs: its clock and the highest committed sequence. */
  datatype Moment = Moment(now: Time, high: nat)

  /** Seeds are saved one transaction at a time, each at its own moment, until one
    * fails. */
  function SeedAll(db: Db, seeds: seq<Seed>, moments: seq<Moment>): (Db, bool)
    requires |moments| == |seeds|
  {
    if |seeds| == 0 then (db, true)
    else
      var n := |seeds| - 1;
      var (d, ok) := SeedAll(db, seeds[..n], moments[..n]);
      if !ok then (d, false)
      else
        var (e, result) := SaveRule(d, seeds[n].params, seeds[n].version, true, moments[n].now, moments[n].high);
        (e, result.Ok?)
  }

  function SeedRules(db: Db, seeds: seq<Seed>, moments: seq<Moment>): (Db, bool)
    requires |moments| == |seeds|
  {
    if AcceptableSeeds(seeds) then SeedAll(db, seeds, moments) else (db, false)
  }

  // ---------------------------------------------------------------- acknowledgment

  /** Fails on an invalid actor or note; otherwise tells whether the alert exists. */
  function Acknowledge(db: Db, i: nat, receipt: Receipt): (Db, Result<bool, ()>) {
    if !(1 <= |receipt.actor| <= 128) || |receipt.note| > 2000 then (db, Err(()))
    else if i < |db.log.alerts| && db.log.alerts[i].receipt.None? then (db.(log := Sign(db.log, i, receipt)), Ok(true))
    else (db, Ok(i < |db.log.alerts|))
  }

  // ---------------------------------------------------------------- invariant

  type Versions = map<(RuleId, int), Rule>

  /** The snapshots are exactly versions 1..current of every rule ... */
  ghost predicate Contiguous(rules: map<RuleId, Rule>, versions: Versions) {
    forall rid, v :: (rid, v) in versions <==> rid in rules && 1 <= v <= rules[rid].version
  }

  /** ... and the last of them is the rule itself. */
  ghost predicate Current(rules: map<RuleId, Rule>, versions: Versions) {
    forall rid | rid in rules ::
      (rid, rules[rid].version) in versions && versions[(rid, rules[rid].version)] == rules[rid]
  }

  ghost predicate OneRulePerSensor(rules: map<RuleId, Rule>) {
    forall a, b | a in rules && b in rules && rules[a].params.sensor == rules[b].params.sensor :: a == b
  }

  ghost predicate ValidRows(rules: map<RuleId, Rule>) {
    forall rid | rid in rules :: rules[rid].params.id == rid && ValidParams(rules[rid].params)
  }

  ghost predicate Tables(db: Db) {
    && db.states.Keys == db.rules.Keys && db.conditions.Keys == db.rules.Keys && ValidRows(db.rules)
    && Contiguous(db.rules, db.versions) && Current(db.rules, db.versions) && OneRulePerSensor(db.rules)
  }

  /** The database's unique index on unresolved alerts. */
  ghost predicate OneActive(alerts: seq<Alert>) {
    forall i, j | 0 <= i < j < |alerts| && alerts[i].resolvedAt.None? && alerts[j].resolvedAt.None? ::
      alerts[i].rule != alerts[j].rule || alerts[i].kind != alerts[j].kind
  }

  /** Every alert names a snapshot of its rule. */
  ghost predicate AlertsNameSnapshots(versions: Versions, alerts: seq<Alert>) {
    forall i | 0 <= i < |alerts| :: alerts[i].severity != Normal && (alerts[i].rule, alerts[i].version) in versions
  }

  /** An unresolved alert has its condition's severity and its rule's version. */
  ghost predicate AlertsMatch(rules: map<RuleId, Rule>, conditions: map<RuleId, Trio>, alerts: seq<Alert>) {
    forall i | 0 <= i < |alerts| && alerts[i].resolvedAt.None? ::
      var a := alerts[i];
      a.rule in rules && a.rule in conditions && a.version == rules[a.rule].version
      && Get(conditions[a.rule], a.kind).severity == a.severity
  }

  /** An abnormal condition has an unresolved alert. */
  ghost predicate AbnormalHasAlert(conditions: map<RuleId, Trio>, alerts: seq<Alert>) {
    forall rid, k {:trigger FindActive(alerts, rid, k)} |
      rid in conditions && Get(conditions[rid], k).severity != Normal :: FindActive(alerts, rid, k).Some?
  }

  ghost predicate Agrees(db: Db) {
    && AlertsNameSnapshots(db.versions, db.log.alerts)
    && AlertsMatch(db.rules, db.conditions, db.log.alerts)
    && AbnormalHasAlert(db.conditions, db.log.alerts)
  }

  /** The last reading, or else the last change of the rule, is stale at `at`. */
  predicate SilentFor(r: Rule, last: Option<Time>, at: Time) {
    at - (if last.Some? then last.value else r.updatedAt) >= r.params.stale * SECOND
  }

  /** What a rise to `target` dated `at` must show of itself. */
  predicate Justifies(r: Rule, k: Kind, target: Severity, at: Time, ev: Evidence) {
    match k
    case Level =>
      ev.LevelEvidence? && ev.at == at && (target != Normal ==> ev.value >= Threshold(r.params.level, target))
    case Rise =>
      ev.RiseEvidence? && ev.at == at && (target != Normal ==> ev.rate >= Threshold(r.params.rise, target))
    case Stale =>
      ev.StaleEvidence? && (target != Normal ==> target == Warning && SilentFor(r, ev.lastObservedAt, at))
  }

  predicate Raises(a: Action) { a == Opened || a == Escalated }

  ghost predicate JustifiedEvent(versions: Versions, alerts: seq<Alert>, e: Event) {
    e.alert < |alerts| && e.details.Transitioned? && Raises(e.action) ==>
      && (alerts[e.alert].rule, e.details.version) in versions
      && Justifies(versions[(alerts[e.alert].rule, e.details.version)], alerts[e.alert].kind, e.details.severity,
                   e.details.conditionAt, e.details.evidence)
  }

  ghost predicate JustifiedAt(versions: Versions, log: Log, k: nat) {
    k < |log.events| ==> JustifiedEvent(versions, log.alerts, log.events[k])
  }

  /** Every opening or escalation carries evidence for its severity in the rule
    * snapshot it names: a value or rate at or above the threshold, or a silence of
    * at least the stale limit. */
  ghost predicate Justified(versions: Versions, log: Log) {
    forall k: nat :: JustifiedAt(versions, log, k)
  }

  /** The clauses of the invariant, to be asked for one at a time. */
  datatype Clause = TablesComplete | LogFaithful | IndexUnique | AlertsAgree | EvidenceJustifies

  ghost predicate Holds(c: Clause, db: Db) {
    match c
    case TablesComplete => Tables(db)
    case LogFaithful => Faithful(db.log)
    case IndexUnique => OneActive(db.log.alerts)
    case AlertsAgree => Agrees(db)
    case EvidenceJustifies => Justified(db.versions, db.log)
  }

  ghost predicate Inv(db: Db) {
    forall c :: Holds(c, db)
  }

  function MachineOf(db: Db, rid: RuleId): Machine
    requires rid in db.conditions && rid in db.states
  {
    Machine(db.conditions[rid], db.states[rid])
  }
}
