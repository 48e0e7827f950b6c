/** What the evaluator reads of what the writers commit: events joined with their
  * measurements, in any interleaving of writers and evaluations. */
module WrittenReadings {
  import opened Clock
  import O = Observations
  import R = Registry
  import W = Writers
  import opened Rules
  import opened Readings
  import opened RuleMachine
  import opened RuleTheorems
  import AlertRuns
  import Records

  /** UUIDs are numbered in the database's order. */
  ghost predicate Numbers(number: string -> nat) {
    forall a, b :: number(a) == number(b) ==> a == b
  }

  function ReadingOf(row: R.Row, m: O.Measurement, number: string -> nat): Reading {
    Reading(row.sequence, Obs(number(m.id), m.at, m.sensor, m.sensorType, m.unit, m.value))
  }

  /** The condition of the evaluator's join, for a rule's sensor. */
  predicate Joins(row: R.Row, m: O.Measurement, sensor: string) {
    m.id == row.id && m.at == row.at && m.sensor == sensor && O.Field(row.payload, O.SensorId) == O.JStr(sensor)
  }

  /** Each event with its measurement, in the order of sequence numbers. */
  function ReadingsOf(t: R.Tables, number: string -> nat): (rs: seq<Reading>)
    requires |t.measurements| == |t.events|
    ensures |rs| == |t.events|
  {
    seq(|t.events|, i requires 0 <= i < |t.events| => ReadingOf(t.events[i], t.measurements[i], number))
  }

  lemma {:induction false} TablesPair(t: R.Tables)
    requires R.Valid(t)
    ensures |t.measurements| == |t.events| && R.Paired(t.events, t.measurements) && R.DistinctIds(t.events)
    ensures R.Sequenced(t.events, t.next)
  {
    assert R.Holds(R.OneToOne, t) && R.Holds(R.IdsUnique, t) && R.Holds(R.SequencesIncrease, t);
  }

  /** The join yields each event with its own measurement and no other. */
  lemma {:induction false} JoinIsOneToOne(t: R.Tables, number: string -> nat, sensor: string, i: nat, j: nat)
    requires R.Valid(t) && i < |t.events| && j < |t.measurements|
    ensures |t.measurements| == |t.events|
    ensures Joins(t.events[i], t.measurements[j], sensor) <==> i == j && ReadingsOf(t, number)[i].obs.sensor == sensor
  {
    TablesPair(t);
    if i < j {
      assert t.events[i].id != t.events[j].id;
    } else if j < i {
      assert t.events[j].id != t.events[i].id;
    }
  }

  /** A valid registry reads as committed readings. */
  lemma {:induction false} ValidReadsCommitted(t: R.Tables, number: string -> nat)
    requires R.Valid(t) && Numbers(number)
    ensures |t.measurements| == |t.events| && Committed(ReadingsOf(t, number))
  {
    TablesPair(t);
    var rs := ReadingsOf(t, number);
    forall i, j | 0 <= i < j < |rs| ensures rs[i].obs.id != rs[j].obs.id {
      assert t.events[i].id != t.events[j].id;
    }
  }

  lemma {:induction false} ReadingsExtend(t: R.Tables, u: R.Tables, number: string -> nat)
    requires |t.measurements| == |t.events| && |u.measurements| == |u.events|
    requires t.events <= u.events && t.measurements <= u.measurements
    ensures ReadingsOf(t, number) <= ReadingsOf(u, number)
  {
  }

  /** What is committed after the first n steps of the writers. */
  function CommittedAt(steps: seq<W.Step>, n: nat): R.Tables
    requires n <= |steps|
  {
    W.Run(W.START, steps[..n], true).shared
  }

  ghost predicate GoodSteps(steps: seq<W.Step>) {
    forall k | 0 <= k < |steps| :: W.GoodStep(steps[k])
  }

  lemma {:induction false} CommittedIsValid(steps: seq<W.Step>, n: nat)
    requires GoodSteps(steps) && n <= |steps|
    ensures R.Valid(CommittedAt(steps, n)) && |CommittedAt(steps, n).measurements| == |CommittedAt(steps, n).events|
  {
    W.RunKeepsLaws(steps[..n]);
    assert W.Obeys(W.CommittedIsValid, W.Run(W.START, steps[..n], true));
    TablesPair(CommittedAt(steps, n));
  }

  /** Moments at which the evaluator runs, between steps of the writers. */
  ghost predicate Moments(steps: seq<W.Step>, times: seq<nat>) {
    && (forall i | 0 <= i < |times| :: times[i] <= |steps|)
    && (forall i, j | 0 <= i <= j < |times| :: times[i] <= times[j])
  }

  /** The readings committed at each of these moments. */
  ghost function ReadingSnapshots(steps: seq<W.Step>, times: seq<nat>,
                                  number: string -> nat): (snaps: seq<seq<Reading>>)
    requires GoodSteps(steps) && Moments(steps, times)
    ensures |snaps| == |times|
  {
    if |times| == 0 then []
    else
      var n := |times| - 1;
      CommittedIsValid(steps, times[n]);
      ReadingSnapshots(steps, times[..n], number) + [ReadingsOf(CommittedAt(steps, times[n]), number)]
  }

  lemma {:induction false} SnapshotAt(steps: seq<W.Step>, times: seq<nat>, number: string -> nat, i: nat)
    requires GoodSteps(steps) && Moments(steps, times) && i < |times|
    ensures |CommittedAt(steps, times[i]).measurements| == |CommittedAt(steps, times[i]).events|
    ensures ReadingSnapshots(steps, times, number)[i] == ReadingsOf(CommittedAt(steps, times[i]), number)
  {
    var n := |times| - 1;
    CommittedIsValid(steps, times[i]);
    if i < n {
      SnapshotAt(steps, times[..n], number, i);
    }
  }

  /** Under the writers' lock, successive evaluations read growing registries: what
    * their cursors rely on. */
  lemma {:induction false} WritersLetReadingsGrow(steps: seq<W.Step>, times: seq<nat>, number: string -> nat)
    requires GoodSteps(steps) && Moments(steps, times) && Numbers(number)
    ensures Growing(ReadingSnapshots(steps, times, number))
  {
    var snaps := ReadingSnapshots(steps, times, number);
    forall k: nat ensures ExtendsLast(snaps, k) {
      if k < |snaps| {
        SnapshotAt(steps, times, number, k);
        CommittedIsValid(steps, times[k]);
        ValidReadsCommitted(CommittedAt(steps, times[k]), number);
        if k > 0 {
          SnapshotAt(steps, times, number, k - 1);
          W.CommittedGrows(steps, times[k - 1], times[k]);
          ReadingsExtend(CommittedAt(steps, times[k - 1]), CommittedAt(steps, times[k]), number);
        }
      }
    }
  }

  /** Whatever the writers do in between, a rule's evaluations take each committed
    * reading of its sensor up to the cursor exactly once, in sequence order. */
  lemma {:induction false} WrittenReadingsExaminedOnce(m: Machine, r: Rule, steps: seq<W.Step>, times: seq<nat>,
                                                       nows: seq<Time>, number: string -> nat)
    requires ValidParams(r.params) && GoodSteps(steps) && Moments(steps, times) && Numbers(number)
    requires |nows| == |times| > 0
    ensures var snaps := ReadingSnapshots(steps, times, number);
            TakenExactly(Examined(m, r, snaps, nows), snaps[|snaps| - 1], r.params.sensor, m.progress.cursor,
                         Evaluations(m, r, snaps, nows).progress.cursor)
  {
    WritersLetReadingsGrow(steps, times, number);
    ExaminedExactlyOnce(m, r, ReadingSnapshots(steps, times, number), nows);
  }

  /** What writers commit between two moments is a commit that the alerting runs
    * accept: their guard never refuses it. */
  lemma {:induction false} WritersCommit(steps: seq<W.Step>, i: nat, j: nat, number: string -> nat, w: AlertRuns.World)
    returns (more: seq<Reading>)
    requires GoodSteps(steps) && i <= j <= |steps| && Numbers(number) && AlertRuns.Evaluable(w.db)
    requires |CommittedAt(steps, i).measurements| == |CommittedAt(steps, i).events|
    requires w.readings == ReadingsOf(CommittedAt(steps, i), number)
    ensures |CommittedAt(steps, j).measurements| == |CommittedAt(steps, j).events|
    ensures AlertRuns.Do(w, AlertRuns.Commit(more)) == w.(readings := ReadingsOf(CommittedAt(steps, j), number))
  {
    CommittedIsValid(steps, j);
    ValidReadsCommitted(CommittedAt(steps, j), number);
    W.CommittedGrows(steps, i, j);
    ReadingsExtend(CommittedAt(steps, i), CommittedAt(steps, j), number);
    var later := ReadingsOf(CommittedAt(steps, j), number);
    more := later[|w.readings|..];
    assert w.readings + more == later;
  }

  // ---------------------------------------------------------------- what was sent is what is read

  /** Writers insert what the routes ask for. */
  ghost predicate SendsValues(step: W.Step) {
    step.Insert? ==> Records.Canonical(step.entry)
  }

  ghost predicate SendValues(steps: seq<W.Step>) {
    forall k | 0 <= k < |steps| :: SendsValues(steps[k])
  }

  lemma {:induction false} ValuesAreGood(step: W.Step)
    requires SendsValues(step)
    ensures W.GoodStep(step)
  {
    if step.Insert? {
      Records.CanonicalIsHonest(step.entry);
      var es := [step.entry];
      assert R.WellFormed(es);
    }
  }

  /** Values are written, committed or not. */
  ghost predicate ValuesWritten(s: W.System) {
    Records.AllWritten(s.shared) && forall w: nat :: ViewWritten(s, w)
  }

  ghost predicate ViewWritten(s: W.System, w: nat) {
    W.IsWorking(s, w) ==> Records.AllWritten(s.writers[w].view)
  }

  lemma {:induction false} InsertWrites(s: W.System, w: nat, e: O.Entry, now: Time)
    requires ValuesWritten(s) && W.IsWorking(s, w) && Records.Canonical(e)
    ensures ValuesWritten(W.DoInsert(s, w, e, now))
  {
    var u, view := W.DoInsert(s, w, e, now), s.writers[w].view;
    assert ViewWritten(s, w);
    Records.WrittenKeeps(view, s.shared.next);
    Records.InsertKeepsHolding(view.(next := s.shared.next), e, now);
    Records.WrittenKeeps(s.shared, R.InsertOne(view.(next := s.shared.next), e, now).0.next);
    forall x: nat ensures ViewWritten(u, x) {
      assert ViewWritten(s, x);
    }
  }

  lemma {:induction false} CommitWrites(s: W.System, w: nat)
    requires W.Lawful(s) && ValuesWritten(s) && W.IsWorking(s, w)
    ensures ValuesWritten(W.DoCommit(s, w))
  {
    var u := W.DoCommit(s, w);
    W.CommitKeepsLaws(s, w);
    assert ViewWritten(s, w);
    Records.WrittenKeeps(s.writers[w].view, s.shared.next);
    forall x: nat ensures ViewWritten(u, x) {
      assert ViewWritten(s, x);
    }
  }

  lemma {:induction false} NextWrites(s: W.System, step: W.Step)
    requires W.Lawful(s) && ValuesWritten(s) && SendsValues(step)
    ensures ValuesWritten(W.Next(s, step, true))
  {
    var u := W.Next(s, step, true);
    match step
    case Insert(w, e, now) =>
      if W.IsWorking(s, w) {
        InsertWrites(s, w, e, now);
      }
    case Commit(w) =>
      if W.IsWorking(s, w) {
        CommitWrites(s, w);
      }
    case _ =>
      forall x: nat ensures ViewWritten(u, x) {
        assert ViewWritten(s, x);
      }
  }

  lemma {:induction false} SendersAreGood(steps: seq<W.Step>)
    requires SendValues(steps)
    ensures GoodSteps(steps)
  {
    forall k | 0 <= k < |steps| ensures W.GoodStep(steps[k]) {
      ValuesAreGood(steps[k]);
    }
  }

  lemma {:induction false} RunWrites(steps: seq<W.Step>)
    requires SendValues(steps)
    ensures ValuesWritten(W.Run(W.START, steps, true))
  {
    if |steps| > 0 {
      var front, last := steps[..|steps| - 1], steps[|steps| - 1];
      var before := W.Run(W.START, front, true);
      RunWrites(front);
      SendersAreGood(front);
      W.RunKeepsLaws(front);
      NextWrites(before, last);
      LastStep(steps);
    } else {
      NothingWritten();
    }
  }

  lemma {:induction false} LastStep(steps: seq<W.Step>)
    requires |steps| > 0
    ensures W.Run(W.START, steps, true)
            == W.Next(W.Run(W.START, steps[..|steps| - 1], true), steps[|steps| - 1], true)
  {
  }

  lemma {:induction false} NothingWritten()
    ensures ValuesWritten(W.START)
  {
    forall i: nat ensures Records.WrittenAt(W.START.shared, i) {
    }
    forall w: nat ensures ViewWritten(W.START, w) {
    }
  }

  /** Whatever the writers do in between, what the evaluator reads of a committed
    * observation is the value that its event decodes to, which is the value that was
    * sent: the same sensor, time, type, unit and number. */
  lemma {:induction false} EvaluatorReadsWhatWasSent(steps: seq<W.Step>, n: nat, number: string -> nat, i: nat)
    requires SendValues(steps) && n <= |steps| && i < |CommittedAt(steps, n).events|
    ensures |CommittedAt(steps, n).measurements| == |CommittedAt(steps, n).events|
    ensures var t := CommittedAt(steps, n);
            && Records.Decoded(t.events[i]).Some?
            && var v := Records.Decoded(t.events[i]).value;
               ReadingsOf(t, number)[i]
               == Reading(t.events[i].sequence, Obs(number(v.id), v.at, v.sensor, v.sensorType, v.unit, v.value))
  {
    RunWrites(steps[..n]);
    assert Records.AllWritten(CommittedAt(steps, n));
    Records.EveryRowReadsBack(CommittedAt(steps, n), i);
  }
}
