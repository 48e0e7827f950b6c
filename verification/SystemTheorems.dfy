/** The results about one rule, stated of the running system: from an accepted
  * save of a rule up to its next change, whatever else happens meanwhile. */
module SystemTheorems {
  import opened Clock
  import opened Conditions
  import opened Rules
  import opened Readings
  import opened RuleMachine
  import opened RuleTheorems
  import opened RuleHistory
  import opened AlertLog
  import opened AlertDb
  import opened AlertRuns

  /** A save of a rule that is accepted. */
  datatype Edit = Edit(params: Params, expected: int, at: Time)

  ghost predicate Accepted(w: World, e: Edit) {
    Sound(w) && SaveRule(w.db, e.params, e.expected, false, e.at, HighSequence(w.readings)).1.Ok?
  }

  ghost function Saved(w: World, e: Edit): (v: World)
    requires Accepted(w, e)
    ensures Sound(v) && Registered(v.db, e.params.id) && ValidParams(v.db.rules[e.params.id].params)
  {
    ChangedRuleIsReset(w, e.params, e.expected, e.at);
    DoIsSound(w, Save(e.params, e.expected, e.at));
    Do(w, Save(e.params, e.expected, e.at))
  }

  /** The rule has not been changed since. */
  ghost predicate Unchanged(w: World, e: Edit, ops: seq<Op>)
    requires Accepted(w, e)
  {
    var v, rid := Saved(w, e), e.params.id;
    Registered(After(v, ops).db, rid) && After(v, ops).db.rules[rid].version == v.db.rules[rid].version
  }

  ghost function TheRule(w: World, e: Edit): (r: Rule)
    requires Accepted(w, e)
    ensures r == Rule(e.params, e.expected + 1, e.at) && ValidParams(r.params)
  {
    SaveAccepts(w.db, e.params, e.expected, e.at, HighSequence(w.readings));
    Saved(w, e).db.rules[e.params.id]
  }

  /** Where the rule began: calm, at the highest committed sequence. */
  ghost function Origin(w: World): Machine {
    Reset(HighSequence(w.readings))
  }

  /** Everything the rule has been given since. */
  ghost function Since(w: World, e: Edit, ops: seq<Op>): seq<Input>
    requires Accepted(w, e)
  {
    AllInputs(Origin(w), TheRule(w, e), Snapshots(Saved(w, e), ops, e.params.id), Times(Saved(w, e), ops, e.params.id))
  }

  /** The rule's conditions, last reading and cursor are the outcome of what it has
    * been given since the save, and so are the alert events written for it. */
  lemma {:induction false} RuleIsItsHistory(w: World, e: Edit, ops: seq<Op>)
    requires Accepted(w, e) && Unchanged(w, e, ops)
    ensures var d := After(Saved(w, e), ops).db;
            && MachineOf(d, e.params.id) == Run(Origin(w), TheRule(w, e), Since(w, e, ops))
            && Reported(d.log, e.params.id)
               == Reported(Saved(w, e).db.log, e.params.id) + Changes(Origin(w), TheRule(w, e), Since(w, e, ops))
  {
    var v := Saved(w, e);
    ChangedRuleIsReset(w, e.params, e.expected, e.at);
    RuleFollowsItsMachine(v, ops, e.params.id);
    EvaluationsAreInputs(Origin(w), TheRule(w, e), Snapshots(v, ops, e.params.id), Times(v, ops, e.params.id));
  }

  /** Hold is exact in the running system: at every reading accepted since the
    * save, the level and, with a baseline, the rise condition take a higher
    * severity exactly if the unbroken run of that classification spans the hold. */
  lemma {:induction false} HoldIsExactInTheSystem(w: World, e: Edit, ops: seq<Op>, n: nat)
    requires Accepted(w, e) && Unchanged(w, e, ops)
    requires n < |Since(w, e, ops)| && Since(w, e, ops)[n].Arrive?
    requires var i := Since(w, e, ops)[n];
             Usable(TheRule(w, e), Run(Origin(w), TheRule(w, e), Since(w, e, ops)[..n]).progress.last, i.reading.obs,
                    i.now)
    ensures var m, r, inputs := Origin(w), TheRule(w, e), Since(w, e, ops);
            var before, after, o := Run(m, r, inputs[..n]).trio, Run(m, r, inputs[..n + 1]).trio, inputs[n].reading.obs;
            && HoldDecides(LevelTicks(m, r, inputs[..n + 1]), before.level.severity, after.level, o.value, o.at,
                           r.params.level, r.params.hold)
            && (inputs[n].rate.Some? ==>
                  HoldDecides(RiseTicks(m, r, inputs[..n + 1]), before.rise.severity, after.rise,
                              inputs[n].rate.value, o.at, r.params.rise, r.params.hold))
    ensures MachineOf(After(Saved(w, e), ops).db, e.params.id) == Run(Origin(w), TheRule(w, e), Since(w, e, ops))
  {
    RuleIsItsHistory(w, e, ops);
    LevelHoldIsExact(HighSequence(w.readings), TheRule(w, e), Since(w, e, ops), n);
    if Since(w, e, ops)[n].rate.Some? {
      RiseHoldIsExact(HighSequence(w.readings), TheRule(w, e), Since(w, e, ops), n);
    }
  }

  /** Every committed reading of the rule's sensor since the save, up to the rule's
    * cursor, has been examined exactly once, in order. */
  lemma {:induction false} ExaminedExactlyOnceInTheSystem(w: World, e: Edit, ops: seq<Op>)
    requires Accepted(w, e) && Unchanged(w, e, ops)
    ensures var v, rid := Saved(w, e), e.params.id;
            Examined(Origin(w), TheRule(w, e), Snapshots(v, ops, rid), Times(v, ops, rid))
            == Waiting(After(v, ops).readings, TheRule(w, e).params.sensor, HighSequence(w.readings),
                       After(v, ops).db.states[rid].cursor)
    ensures var v, rid := Saved(w, e), e.params.id;
            EachOnce(Examined(Origin(w), TheRule(w, e), Snapshots(v, ops, rid), Times(v, ops, rid)),
                     After(v, ops).readings, e.params.sensor, HighSequence(w.readings),
                     After(v, ops).db.states[rid].cursor)
  {
    WaitingIsEachOnce(After(Saved(w, e), ops).readings, e.params.sensor, HighSequence(w.readings),
                      After(Saved(w, e), ops).db.states[e.params.id].cursor);
    var v, rid, r, m := Saved(w, e), e.params.id, TheRule(w, e), Origin(w);
    var snaps, nows, rs := Snapshots(v, ops, rid), Times(v, ops, rid), After(v, ops).readings;
    RuleIsItsHistory(w, e, ops);
    RuleFollowsItsMachine(v, ops, rid);
    EvaluationsAreInputs(m, r, snaps, nows);
    SnapshotsGrowInRuns(v, ops, rid);
    if |snaps| == 0 {
      NothingWaits(rs, r.params.sensor, m.progress.cursor, m.progress.cursor);
    } else {
      ExaminedExactlyOnce(m, r, snaps, nows);
      GrowingFront(snaps);
      GrowthKeepsHandled(snaps[|snaps| - 1], rs, r.params.sensor, m.progress.cursor,
                         After(v, ops).db.states[rid].cursor);
    }
  }

  // ---------------------------------------------------------------- alerts and water

  /** The severity of the unresolved alert of a rule and kind; normal if there is none. */
  function ActiveSeverity(alerts: seq<Alert>, rid: RuleId, k: Kind): Severity {
    var active := FindActive(alerts, rid, k);
    if active.Some? then alerts[active.value].severity else Normal
  }

  lemma {:induction false} ActiveIsCondition(w: World, rid: RuleId, k: Kind)
    requires Sound(w) && Registered(w.db, rid)
    ensures ActiveSeverity(w.db.log.alerts, rid, k) == Get(w.db.conditions[rid], k).severity
  {
    assert Holds(AlertsAgree, w.db);
  }

  /** What the level or the rise condition has seen since the save. */
  ghost function Seen(w: World, e: Edit, ops: seq<Op>, rising: bool): seq<Tick>
    requires Accepted(w, e)
  {
    if rising then RiseTicks(Origin(w), TheRule(w, e), Since(w, e, ops))
    else LevelTicks(Origin(w), TheRule(w, e), Since(w, e, ops))
  }

  /** The converse of the evidence that alerts carry: in the running system the
    * unresolved level alert follows the readings accepted since the save, and the rise
    * alert their rates. Values that stay in a zone, up to the last reading and for the
    * whole hold, have an alert of at least its severity; values that stay at or above
    * the warning threshold from calm on have one exactly if a zone was held; and a
    * value below the threshold by more than the hysteresis has none. */
  lemma {:induction false} AlertsFollowReadings(w: World, e: Edit, ops: seq<Op>, rising: bool, i: nat)
    requires Accepted(w, e) && Unchanged(w, e, ops) && LastSample(Seen(w, e, ops, rising), i)
    ensures Follows(Seen(w, e, ops, rising), i, if rising then e.params.rise else e.params.level, e.params.hold,
                    ActiveSeverity(After(Saved(w, e), ops).db.log.alerts, e.params.id, if rising then Rise else Level))
  {
    RuleIsItsHistory(w, e, ops);
    ActiveIsCondition(After(Saved(w, e), ops), e.params.id, if rising then Rise else Level);
    if rising {
      RiseFollows(HighSequence(w.readings), TheRule(w, e), Since(w, e, ops), i);
    } else {
      LevelFollows(HighSequence(w.readings), TheRule(w, e), Since(w, e, ops), i);
    }
  }

  /** What a hold is measured on has no gap: in the running system, too, neighbouring
    * readings of an unbroken run are at most the stale limit apart. */
  lemma {:induction false} SeenIsNear(w: World, e: Edit, ops: seq<Op>, rising: bool, k: nat)
    requires Accepted(w, e)
    ensures Near(Seen(w, e, ops, rising), k, e.params.stale)
  {
    TicksFit(HighSequence(w.readings), TheRule(w, e), Since(w, e, ops));
  }

  ghost function AcceptedSince(w: World, e: Edit, ops: seq<Op>): seq<Last>
    requires Accepted(w, e)
  {
    AcceptedIn(Origin(w), TheRule(w, e), Since(w, e, ops))
  }

  /** An accepted reading is a committed water level in metres of the rule's sensor, and
    * some evaluation found it neither older than the rule or the stale limit nor from
    * the future. */
  lemma {:induction false} AcceptedAreCommitted(w: World, e: Edit, ops: seq<Op>, i: nat)
    requires Accepted(w, e) && i < |AcceptedSince(w, e, ops)|
    ensures exists now :: now in Times(Saved(w, e), ops, e.params.id)
                          && Found(AcceptedSince(w, e, ops)[i], After(Saved(w, e), ops).readings, TheRule(w, e), now)
  {
    var v, rid, r, x := Saved(w, e), e.params.id, TheRule(w, e), AcceptedSince(w, e, ops)[i];
    var snaps, nows := Snapshots(v, ops, rid), Times(v, ops, rid);
    AcceptedWereFound(Origin(w), r, snaps, nows);
    assert FoundOnce(x, r, snaps, nows);
    var k: nat :| k < |snaps| && Found(x, snaps[k], r, nows[k]);
    SnapshotsGrowInRuns(v, ops, rid);
    FoundLater(x, snaps[k], After(v, ops).readings, r, nows[k]);
  }

  lemma {:induction false} FoundLater(x: Last, a: seq<Reading>, b: seq<Reading>, r: Rule, now: Time)
    requires Found(x, a, r, now) && a <= b
    ensures Found(x, b, r, now)
  {
    var o: Obs :| o in ObsSet(a) && FitsRule(o, r, now) && x == Last(o.at, o.id, o.value);
    var y :| y in a && y.obs == o;
    assert y in b;
  }

  lemma {:induction false} EvaluationLeavesRules(w: World, e: Edit, ops: seq<Op>, at: Time)
    requires Accepted(w, e) && Unchanged(w, e, ops)
    ensures Unchanged(w, e, ops + [Evaluation(at, false)])
    ensures e.params.id in After(Saved(w, e), ops).db.rules
            && After(Saved(w, e), ops).db.rules[e.params.id] == TheRule(w, e)
  {
    var v, op := Saved(w, e), Evaluation(at, false);
    SnapshotsSnoc(v, ops, op, e.params.id);
    InvIsEvaluable(Do(After(v, ops), op).db);
    UnmovedVersion(v, ops, e.params.id, |ops|);
    assert ops[..|ops|] == ops;
  }

  lemma {:induction false} TurnAppends(w: World, e: Edit, ops: seq<Op>, at: Time) returns (more: seq<Input>)
    requires Accepted(w, e) && e.params.enabled
    requires var db := After(Saved(w, e), ops).db; e.params.id in db.rules && db.rules[e.params.id] == TheRule(w, e)
    ensures |more| > 0 && more[|more| - 1] == Verdict(at)
    ensures Since(w, e, ops + [Evaluation(at, false)]) == Since(w, e, ops) + more
  {
    var v, rid, r := Saved(w, e), e.params.id, TheRule(w, e);
    var snaps, nows, rs := Snapshots(v, ops, rid), Times(v, ops, rid), After(v, ops).readings;
    SnapshotsSnoc(v, ops, Evaluation(at, false), rid);
    OneMoreEvaluation(Origin(w), r, snaps, nows, rs, at);
    more := EvaluationInputs(rs, r, Evaluations(Origin(w), r, snaps, nows).progress.cursor, BATCH, at);
  }

  /** One more evaluation that gives the rule a turn ends its history with a verdict. */
  lemma {:induction false} EvaluationEndsWithVerdict(w: World, e: Edit, ops: seq<Op>, at: Time)
    returns (front: seq<Input>)
    requires Accepted(w, e) && Unchanged(w, e, ops) && e.params.enabled
    ensures Unchanged(w, e, ops + [Evaluation(at, false)])
    ensures Since(w, e, ops + [Evaluation(at, false)]) == front + [Verdict(at)]
  {
    EvaluationLeavesRules(w, e, ops, at);
    var more := TurnAppends(w, e, ops, at);
    front := Since(w, e, ops) + more[..|more| - 1];
    CutLast(Since(w, e, ops), more);
  }

  lemma {:induction false} CutLast(a: seq<Input>, more: seq<Input>)
    requires |more| > 0
    ensures (a + more[..|more| - 1]) + [more[|more| - 1]] == a + more
  {
  }

  /** Missing data: after each evaluation of an enabled rule, whatever happened before,
    * it has an unresolved stale alert exactly if its last accepted reading, or else the
    * save, is at least the stale limit ago. */
  lemma {:induction false} StaleAlertIsSilence(w: World, e: Edit, ops: seq<Op>, at: Time)
    requires Accepted(w, e) && Unchanged(w, e, ops) && e.params.enabled
    ensures var all := ops + [Evaluation(at, false)];
            ActiveSeverity(After(Saved(w, e), all).db.log.alerts, e.params.id, Stale)
            == if Silent(TheRule(w, e), AcceptedSince(w, e, all), at) then Warning else Normal
  {
    var front := EvaluationEndsWithVerdict(w, e, ops, at);
    StaleAfter(w, e, ops + [Evaluation(at, false)], front, at);
  }

  lemma {:induction false} StaleAfter(w: World, e: Edit, all: seq<Op>, front: seq<Input>, at: Time)
    requires Accepted(w, e) && Unchanged(w, e, all) && Since(w, e, all) == front + [Verdict(at)]
    ensures ActiveSeverity(After(Saved(w, e), all).db.log.alerts, e.params.id, Stale)
            == if Silent(TheRule(w, e), AcceptedSince(w, e, all), at) then Warning else Normal
  {
    RuleIsItsHistory(w, e, all);
    ActiveIsCondition(After(Saved(w, e), all), e.params.id, Stale);
    StaleIsSilence(HighSequence(w.readings), TheRule(w, e), front, at);
  }
}
