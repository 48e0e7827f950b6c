/** Rule edits: exactly which saves are accepted, with which error the others fail, what
  * an accepted one leaves behind, and which files of initial rules go through. */
module RuleChanges {
  import opened Wrappers
  import opened Clock
  import opened Conditions
  import opened Rules
  import opened Readings
  import opened AlertLog
  import opened AlertDb
  import opened AlertInvariant
  import opened AlertRuns

  // ---------------------------------------------------------------- which parameters are valid

  predicate BandTaken(b: Band) {
    b.warning < b.critical && b.hysteresis >= 0.0 && b.hysteresis < b.critical - b.warning
  }

  /** The constraints of the table, one for each column. */
  predicate TableTakes(p: Params) {
    && BandTaken(p.level) && p.rise.warning > 0.0 && BandTaken(p.rise)
    && (1 <= p.risePeriod <= 86400) && (2 <= p.riseWindow <= 86400)
    && (p.riseMin >= 1 && p.riseMin < p.riseWindow)
    && (p.hold >= 0 && p.hold <= p.stale) && (p.riseMin <= p.stale <= 604800)
  }

  /** What the API takes for valid, the table takes, and the other way round: a save that
    * has been validated never fails a constraint. */
  lemma {:induction false} ValidationIsExact(p: Params)
    ensures ValidParams(p) <==> TableTakes(p)
  {
  }

  // ---------------------------------------------------------------- one save

  ghost predicate FreeSensor(db: Db, sensor: string) {
    forall rid | rid in db.rules :: db.rules[rid].params.sensor != sensor
  }

  /** The caller read the live version of the rule and keeps its sensor, or brings a new
    * rule, with version 0, for a sensor that has none. */
  ghost predicate UpToDate(db: Db, p: Params, expected: int) {
    if p.id in db.rules then expected == db.rules[p.id].version && p.sensor == db.rules[p.id].params.sensor
    else expected == 0 && FreeSensor(db, p.sensor)
  }

  /** Somebody else was faster, or has the sensor. */
  ghost predicate Outdated(db: Db, p: Params, expected: int) {
    if p.id in db.rules then expected != db.rules[p.id].version else expected != 0 || !FreeSensor(db, p.sensor)
  }

  lemma {:induction false} SensorIsTaken(db: Db, sensor: string)
    ensures SensorTaken(db, sensor) <==> !FreeSensor(db, sensor)
  {
  }

  /** A save succeeds exactly if it is valid and up to date, and conflicts exactly if it
    * is valid and outdated; every other is invalid. An accepted one stores the given
    * parameters under the next version, a failed one changes nothing. */
  lemma {:induction false} SaveSucceedsExactly(db: Db, p: Params, expected: int, now: Time, high: nat)
    ensures var (d, result) := SaveRule(db, p, expected, false, now, high);
            && (result.Ok? <==> ValidParams(p) && expected >= 0 && UpToDate(db, p, expected))
            && (result == Err(Conflict) <==> ValidParams(p) && expected >= 0 && Outdated(db, p, expected))
            && (result.Ok? ==> result.value == Rule(p, expected + 1, now) && d.rules == db.rules[p.id := result.value])
            && (result.Err? ==> d == db)
  {
    SensorIsTaken(db, p.sensor);
  }

  lemma {:induction false} LiveVersions(db: Db, rid: RuleId)
    requires Inv(db) && rid in db.rules
    ensures db.rules[rid].version >= 1
  {
    assert Holds(TablesComplete, db);
    assert (rid, db.rules[rid].version) in db.versions;
  }

  /** In the running system whoever saves a rule with its live version and its sensor,
    * and valid parameters, gets them stored under the next version; nobody else's rule
    * changes. */
  lemma {:induction false} LiveSaveIsAccepted(w: World, p: Params, at: Time)
    requires Sound(w) && p.id in w.db.rules
    ensures var live, v := w.db.rules[p.id], Do(w, Save(p, w.db.rules[p.id].version, at));
            v.db.rules == if ValidParams(p) && p.sensor == live.params.sensor
                          then w.db.rules[p.id := Rule(p, live.version + 1, at)] else w.db.rules
  {
    var expected := w.db.rules[p.id].version;
    LiveVersions(w.db, p.id);
    SaveSucceedsExactly(w.db, p, expected, at, HighSequence(w.readings));
  }

  /** And of the saves that expect one live version the first valid one is accepted: the
    * partner of AlertRuns.OneSavePerVersion, which says that no other is. */
  lemma {:induction false} FirstSaveIsAccepted(w: World, ops: seq<Op>, i: nat)
    requires Sound(w) && i < |ops| && ops[i].Save?
    requires var db := After(w, ops[..i]).db;
             var p := ops[i].params;
             ValidParams(p) && p.id in db.rules && ops[i].expected == db.rules[p.id].version
             && p.sensor == db.rules[p.id].params.sensor
    ensures Accepts(w, ops, i)
    ensures var p, rules := ops[i].params, After(w, ops[..i + 1]).db.rules;
            p.id in rules && rules[p.id] == Rule(p, ops[i].expected + 1, ops[i].at)
  {
    var v := After(w, ops[..i]);
    LiveVersions(v.db, ops[i].params.id);
    SaveSucceedsExactly(v.db, ops[i].params, ops[i].expected, ops[i].at, HighSequence(v.readings));
    assert ops[..i + 1][..i] == ops[..i];
  }

  // ---------------------------------------------------------------- what a change tells

  /** One configuration_changed event, naming the new version, for each unresolved alert
    * of the rule among the first n. */
  function Retirements(alerts: seq<Alert>, rid: RuleId, n: nat, version: int): seq<Event>
    requires n <= |alerts|
  {
    if n == 0 then []
    else
      Retirements(alerts, rid, n - 1, version)
      + if alerts[n - 1].rule == rid && alerts[n - 1].resolvedAt.None?
        then [Event(n - 1, ConfigurationChanged, Reconfigured(version))] else []
  }

  lemma {:induction false} RetireTells(log: Log, rid: RuleId, n: nat, at: Time, version: int)
    requires Faithful(log) && n <= |log.alerts|
    ensures Retire(log, rid, n, at, version).events == log.events + Retirements(log.alerts, rid, n, version)
  {
    if n > 0 {
      var before := Retire(log, rid, n - 1, at, version);
      RetireTells(log, rid, n - 1, at, version);
      assert Retired(log.alerts, before.alerts, rid, n - 1, at) by {
        RetireKeepsLog(log, rid, n - 1, at, version);
      }
      RetireOneTells(log.alerts, before, rid, n - 1, at, version);
      OneMoreRetirement(before.events, log.events, log.alerts, rid, n, version);
    }
  }

  lemma {:induction false} OneMoreRetirement(told: seq<Event>, base: seq<Event>, alerts: seq<Alert>, rid: RuleId,
                                             n: nat,
                                             version: int)
    requires 0 < n <= |alerts| && told == base + Retirements(alerts, rid, n - 1, version)
    ensures base + Retirements(alerts, rid, n, version)
            == told + if alerts[n - 1].rule == rid && alerts[n - 1].resolvedAt.None?
                      then [Event(n - 1, ConfigurationChanged, Reconfigured(version))] else []
  {
  }

  lemma {:induction false} RetireOneTells(before: seq<Alert>, log: Log, rid: RuleId, i: nat, at: Time, version: int)
    requires i < |log.alerts| && Retired(before, log.alerts, rid, i, at)
    ensures RetireOne(log, rid, i, at, version).events
            == log.events + if before[i].rule == rid && before[i].resolvedAt.None?
                            then [Event(i, ConfigurationChanged, Reconfigured(version))] else []
  {
  }

  lemma {:induction false} SaveChanges(w: World, p: Params, expected: int, at: Time) returns (d: Db)
    requires Sound(w) && ValidParams(p) && expected >= 0 && UpToDate(w.db, p, expected)
    ensures d == Do(w, Save(p, expected, at)).db
    ensures d == ChangeRule(w.db, Rule(p, expected + 1, at), HighSequence(w.readings))
  {
    SensorIsTaken(w.db, p.sensor);
    d := ChangeRule(w.db, Rule(p, expected + 1, at), HighSequence(w.readings));
  }

  /** An accepted edit resolves, at its own time, exactly the unresolved alerts of its
    * rule, each with one event that names the new version, and touches no other. */
  lemma {:induction false} SaveRetires(w: World, p: Params, expected: int, at: Time)
    requires Sound(w) && ValidParams(p) && expected >= 0 && UpToDate(w.db, p, expected)
    ensures var a, b := w.db.log, Do(w, Save(p, expected, at)).db.log;
            && Retired(a.alerts, b.alerts, p.id, |a.alerts|, at)
            && b.events == a.events + Retirements(a.alerts, p.id, |a.alerts|, expected + 1)
  {
    assert Holds(LogFaithful, w.db);
    var d := SaveChanges(w, p, expected, at);
    RetireKeepsLog(w.db.log, p.id, |w.db.log.alerts|, at, expected + 1);
    RetireTells(w.db.log, p.id, |w.db.log.alerts|, at, expected + 1);
  }

  // ---------------------------------------------------------------- initial rules

  /** The rule exists, or its sensor has none. */
  ghost predicate SeedFits(db: Db, s: Seed) {
    s.params.id in db.rules || FreeSensor(db, s.params.sensor)
  }

  ghost predicate SeedFitsAt(db: Db, seeds: seq<Seed>, k: nat) {
    k < |seeds| ==> SeedFits(db, seeds[k])
  }

  predicate ValidSeedAt(seeds: seq<Seed>, k: nat) {
    k < |seeds| ==> ValidParams(seeds[k].params) && seeds[k].version == 0
  }

  predicate SeedsDiffer(seeds: seq<Seed>, j: nat, k: nat) {
    j < k < |seeds| ==>
      seeds[j].params.id != seeds[k].params.id && seeds[j].params.sensor != seeds[k].params.sensor
  }

  ghost predicate GoodSeeds(seeds: seq<Seed>) {
    && (forall k: nat :: ValidSeedAt(seeds, k))
    && (forall j: nat, k: nat :: SeedsDiffer(seeds, j, k))
  }

  /** d has the rules of db as they were and each seed's, new where it was missing. */
  ghost predicate Seeded(db: Db, d: Db, seeds: seq<Seed>, moments: seq<Moment>)
    requires |moments| == |seeds|
  {
    && (forall rid | rid in db.rules :: rid in d.rules && d.rules[rid] == db.rules[rid])
    && (forall rid | rid in d.rules :: rid in db.rules || IsSeed(seeds, rid))
    && (forall k: nat :: SeedStored(db, d, seeds, moments, k))
  }

  ghost predicate IsSeed(seeds: seq<Seed>, rid: RuleId) {
    exists k: nat :: IsSeedAt(seeds, rid, k)
  }

  predicate IsSeedAt(seeds: seq<Seed>, rid: RuleId, k: nat) {
    k < |seeds| && seeds[k].params.id == rid
  }

  ghost predicate SeedStored(db: Db, d: Db, seeds: seq<Seed>, moments: seq<Moment>, k: nat)
    requires |moments| == |seeds|
  {
    k < |seeds| ==>
      && seeds[k].params.id in d.rules
      && (seeds[k].params.id !in db.rules ==> d.rules[seeds[k].params.id] == Rule(seeds[k].params, 1, moments[k].now))
  }

  lemma {:induction false} GoodFront(seeds: seq<Seed>)
    requires GoodSeeds(seeds) && |seeds| > 0
    ensures GoodSeeds(seeds[..|seeds| - 1])
  {
    var front := seeds[..|seeds| - 1];
    forall k: nat ensures ValidSeedAt(front, k) {
      assert ValidSeedAt(seeds, k);
    }
    forall j: nat, k: nat ensures SeedsDiffer(front, j, k) {
      assert SeedsDiffer(seeds, j, k);
    }
  }

  /** The last seed finds what db had to offer it. */
  lemma {:induction false} LastSeedFinds(db: Db, d: Db, seeds: seq<Seed>, moments: seq<Moment>)
    requires |moments| == |seeds| > 0 && GoodSeeds(seeds)
    requires var n := |seeds| - 1; Seeded(db, d, seeds[..n], moments[..n])
    ensures var s := seeds[|seeds| - 1];
            && (s.params.id in d.rules <==> s.params.id in db.rules)
            && (s.params.id !in d.rules ==> (FreeSensor(d, s.params.sensor) <==> FreeSensor(db, s.params.sensor)))
  {
    var n := |seeds| - 1;
    var s, front := seeds[n], seeds[..n];
    forall rid | rid in d.rules && rid !in db.rules
      ensures rid != s.params.id && d.rules[rid].params.sensor != s.params.sensor
    {
      var k: nat :| IsSeedAt(front, rid, k);
      assert SeedStored(db, d, front, moments[..n], k) && SeedsDiffer(seeds, k, n);
    }
  }

  lemma {:induction false} SeedOne(d: Db, s: Seed, m: Moment)
    requires ValidParams(s.params) && s.version == 0
    ensures var (e, result) := SaveRule(d, s.params, s.version, true, m.now, m.high);
            && (result.Ok? <==> SeedFits(d, s))
            && (result.Ok? ==> e.rules == if s.params.id in d.rules then d.rules
                                          else d.rules[s.params.id := Rule(s.params, 1, m.now)])
  {
    SensorIsTaken(d, s.params.sensor);
  }

  lemma {:induction false} OneMoreSeeded(db: Db, d: Db, e: Db, seeds: seq<Seed>, moments: seq<Moment>)
    requires |moments| == |seeds| > 0 && GoodSeeds(seeds)
    requires var n := |seeds| - 1; Seeded(db, d, seeds[..n], moments[..n])
    requires var s, m := seeds[|seeds| - 1], moments[|seeds| - 1];
             e.rules == if s.params.id in d.rules then d.rules else d.rules[s.params.id := Rule(s.params, 1, m.now)]
    ensures Seeded(db, e, seeds, moments)
  {
    var n := |seeds| - 1;
    var front, s := seeds[..n], seeds[n];
    LastSeedFinds(db, d, seeds, moments);
    forall rid | rid in e.rules ensures rid in db.rules || IsSeed(seeds, rid) {
      if rid in d.rules && rid !in db.rules {
        var k: nat :| IsSeedAt(front, rid, k);
        assert IsSeedAt(seeds, rid, k);
      } else if rid == s.params.id {
        assert IsSeedAt(seeds, rid, n);
      }
    }
    forall k: nat ensures SeedStored(db, e, seeds, moments, k) {
      assert SeedStored(db, d, front, moments[..n], k);
      if k < n {
        assert SeedsDiffer(seeds, k, n);
      }
    }
  }

  ghost predicate AllSeedsFit(db: Db, seeds: seq<Seed>) {
    forall k: nat :: SeedFitsAt(db, seeds, k)
  }

  lemma {:induction false} FitFront(db: Db, seeds: seq<Seed>)
    requires |seeds| > 0
    ensures AllSeedsFit(db, seeds)
            <==> SeedFits(db, seeds[|seeds| - 1]) && AllSeedsFit(db, seeds[..|seeds| - 1])
  {
    var front := seeds[..|seeds| - 1];
    if AllSeedsFit(db, seeds) {
      forall k: nat ensures SeedFitsAt(db, front, k) {
        assert SeedFitsAt(db, seeds, k);
      }
      assert SeedFitsAt(db, seeds, |seeds| - 1);
    } else {
      var k: nat :| !SeedFitsAt(db, seeds, k);
      assert k < |seeds| - 1 ==> !SeedFitsAt(db, front, k);
    }
  }

  /** Saving seeds one by one succeeds exactly if each finds its rule or a free sensor. */
  lemma {:induction false} SeedAllExactly(db: Db, seeds: seq<Seed>, moments: seq<Moment>)
    requires |moments| == |seeds| && GoodSeeds(seeds)
    ensures SeedAll(db, seeds, moments).1 <==> AllSeedsFit(db, seeds)
    ensures SeedAll(db, seeds, moments).1 ==> Seeded(db, SeedAll(db, seeds, moments).0, seeds, moments)
  {
    if |seeds| > 0 {
      var n := |seeds| - 1;
      var (d, ok) := SeedAll(db, seeds[..n], moments[..n]);
      GoodFront(seeds);
      SeedAllExactly(db, seeds[..n], moments[..n]);
      FitFront(db, seeds);
      assert ValidSeedAt(seeds, n);
      if ok {
        LastSeedFinds(db, d, seeds, moments);
        SeedOne(d, seeds[n], moments[n]);
        var (e, result) := SaveRule(d, seeds[n].params, seeds[n].version, true, moments[n].now, moments[n].high);
        if result.Ok? {
          OneMoreSeeded(db, d, e, seeds, moments);
        }
      }
    }
  }

  lemma {:induction false} AcceptableIsGood(seeds: seq<Seed>)
    ensures AcceptableSeeds(seeds) <==> |seeds| <= 1000 && GoodSeeds(seeds)
  {
    if AcceptableSeeds(seeds) {
      forall k: nat ensures ValidSeedAt(seeds, k) {
      }
      forall j: nat, k: nat ensures SeedsDiffer(seeds, j, k) {
      }
    }
    if GoodSeeds(seeds) {
      forall k | 0 <= k < |seeds| ensures ValidParams(seeds[k].params) && seeds[k].version == 0 {
        assert ValidSeedAt(seeds, k);
      }
      forall j, k | 0 <= j < k < |seeds|
        ensures seeds[j].params.id != seeds[k].params.id && seeds[j].params.sensor != seeds[k].params.sensor
      {
        assert SeedsDiffer(seeds, j, k);
      }
    }
  }

  /** A file of initial rules goes through exactly if it has at most a thousand valid
    * rules of version 0, with different identifiers and sensors, and each exists already
    * or finds its sensor without a rule. Then every rule of the file exists: as it was,
    * or new, as the file has it. */
  lemma {:induction false} SeedsSucceedExactly(db: Db, seeds: seq<Seed>, moments: seq<Moment>)
    requires |moments| == |seeds|
    ensures SeedRules(db, seeds, moments).1
            <==> |seeds| <= 1000 && GoodSeeds(seeds) && AllSeedsFit(db, seeds)
    ensures SeedRules(db, seeds, moments).1 ==> Seeded(db, SeedRules(db, seeds, moments).0, seeds, moments)
  {
    AcceptableIsGood(seeds);
    if AcceptableSeeds(seeds) {
      SeedAllExactly(db, seeds, moments);
    }
  }
}
