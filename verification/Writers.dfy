/** Writers as transactions: any number of them begin, lock, insert, commit or
  * abort in any order. Both write routes take the same transaction lock before
  * they take a sequence number, and readers rely on what that gives. */
module Writers {
  import opened Wrappers
  import opened Clock
  import opened Observations
  import opened Registry
  import opened Paging

  /** `base` is how many events were committed when the writer got the lock; its
    * view adds the rows it has inserted since. */
  datatype Phase = Waiting | Working(base: nat, view: Tables)

  /** `shared` is what is committed, with the identity sequence common to all. */
  datatype System = System(shared: Tables, lock: Option<nat>, writers: map<nat, Phase>)

  datatype Step =
    | Begin(w: nat)
    | Lock(w: nat)
    | Insert(w: nat, entry: Entry, now: Time)
    | Commit(w: nat)
    | Abort(w: nat)

  const START := System(Tables([], [], 1), None, map[])

  function Leave(s: System, w: nat): System {
    s.(lock := if s.lock == Some(w) then None else s.lock, writers := s.writers - {w})
  }

  predicate IsWorking(s: System, w: nat) {
    w in s.writers && s.writers[w].Working?
  }

  function DoInsert(s: System, w: nat, e: Entry, now: Time): System
    requires IsWorking(s, w)
  {
    var phase := s.writers[w];
    var (view, row) := InsertOne(phase.view.(next := s.shared.next), e, now);
    var burnt := s.(shared := s.shared.(next := view.next));
    if row.None? then Leave(burnt, w) else burnt.(writers := s.writers[w := phase.(view := view)])
  }

  function DoCommit(s: System, w: nat): System
    requires IsWorking(s, w)
  {
    var phase := s.writers[w];
    var rows := if phase.base <= |phase.view.events| then phase.view.events[phase.base..] else [];
    var ms := if phase.base <= |phase.view.measurements| then phase.view.measurements[phase.base..] else [];
    Leave(s.(shared := Tables(s.shared.events + rows, s.shared.measurements + ms, s.shared.next)), w)
  }

  /** A step that is not enabled does nothing; `locking` is false only to show
    * what the lock is for. */
  function Next(s: System, step: Step, locking: bool): System {
    match step
    case Begin(w) => if w in s.writers then s else s.(writers := s.writers[w := Waiting])
    case Lock(w) =>
      if w in s.writers && s.writers[w].Waiting? && (s.lock.None? || !locking)
      then s.(lock := Some(w), writers := s.writers[w := Working(|s.shared.events|, s.shared)]) else s
    case Insert(w, e, now) => if IsWorking(s, w) then DoInsert(s, w, e, now) else s
    case Commit(w) => if IsWorking(s, w) then DoCommit(s, w) else s
    case Abort(w) => if w in s.writers then Leave(s, w) else s
  }

  function Run(s: System, steps: seq<Step>, locking: bool): System {
    if |steps| == 0 then s else Next(Run(s, steps[..|steps| - 1], locking), steps[|steps| - 1], locking)
  }

  // ---------------------------------------------------------------- the invariant

  ghost predicate GoodView(shared: Tables, phase: Phase)
    requires phase.Working?
  {
    && phase.base == |shared.events| && Valid(phase.view) && phase.view.next <= shared.next
    && Extends(shared.(next := 0), phase.view)
  }

  datatype Law = CommittedIsValid | OnlyTheHolderWorks | ViewsAreGood

  ghost predicate Obeys(law: Law, s: System) {
    match law
    case CommittedIsValid => Valid(s.shared)
    case OnlyTheHolderWorks => forall w: nat | IsWorking(s, w) :: s.lock == Some(w)
    case ViewsAreGood => forall w: nat | IsWorking(s, w) :: GoodView(s.shared, s.writers[w])
  }

  ghost predicate Lawful(s: System) {
    forall law :: Obeys(law, s)
  }

  ghost predicate GoodStep(step: Step) {
    step.Insert? ==> WellFormed([step.entry])
  }

  lemma {:induction false} StartIsLawful()
    ensures Lawful(START)
  {
    forall law ensures Obeys(law, START) {
      if law.CommittedIsValid? {
        forall c ensures Holds(c, START.shared) {
        }
      }
    }
  }

  lemma {:induction false} LaterNext(t: Tables, next: nat)
    requires Valid(t) && t.next <= next
    ensures Valid(t.(next := next))
  {
    forall c ensures Holds(c, t.(next := next)) {
      assert Holds(c, t);
    }
  }

  lemma {:induction false} InsertKeepsViews(s: System, w: nat, e: Entry, now: Time)
    requires Lawful(s) && IsWorking(s, w) && WellFormed([e])
    ensures Lawful(DoInsert(s, w, e, now))
  {
    assert Obeys(CommittedIsValid, s) && Obeys(OnlyTheHolderWorks, s) && Obeys(ViewsAreGood, s);
    var phase := s.writers[w];
    var before := phase.view.(next := s.shared.next);
    var u := DoInsert(s, w, e, now);
    LaterNext(phase.view, s.shared.next);
    InsertOneKeeps(before, e, now);
    var view := InsertOne(before, e, now).0;
    LaterNext(s.shared, view.next);
    assert Extends(s.shared.(next := 0), view);
    forall law ensures Obeys(law, u) {
    }
  }

  lemma {:induction false} CommitExtends(shared: Tables, phase: Phase)
    requires phase.Working? && GoodView(shared, phase) && Valid(shared)
    ensures |phase.view.measurements| >= phase.base
    ensures shared.events + phase.view.events[phase.base..] == phase.view.events
    ensures shared.measurements + phase.view.measurements[phase.base..] == phase.view.measurements
  {
    assert Holds(OneToOne, shared);
  }

  lemma {:induction false} CommitKeepsLaws(s: System, w: nat)
    requires Lawful(s) && IsWorking(s, w)
    ensures Lawful(DoCommit(s, w))
    ensures DoCommit(s, w).shared == s.writers[w].view.(next := s.shared.next)
  {
    assert Obeys(CommittedIsValid, s) && Obeys(OnlyTheHolderWorks, s) && Obeys(ViewsAreGood, s);
    CommitExtends(s.shared, s.writers[w]);
    LaterNext(s.writers[w].view, s.shared.next);
    var u := DoCommit(s, w);
    forall x: nat ensures !IsWorking(u, x) {
      assert IsWorking(u, x) ==> IsWorking(s, x);
    }
    forall law ensures Obeys(law, u) {
    }
  }

  lemma {:induction false} NextKeepsLaws(s: System, step: Step)
    requires Lawful(s) && GoodStep(step)
    ensures Lawful(Next(s, step, true))
  {
    var u := Next(s, step, true);
    assert Obeys(CommittedIsValid, s) && Obeys(OnlyTheHolderWorks, s) && Obeys(ViewsAreGood, s);
    match step
    case Insert(w, e, now) =>
      if IsWorking(s, w) {
        InsertKeepsViews(s, w, e, now);
      }
    case Commit(w) =>
      if IsWorking(s, w) {
        CommitKeepsLaws(s, w);
      }
    case _ =>
      forall law ensures Obeys(law, u) {
      }
  }

  lemma {:induction false} RunKeepsLaws(steps: seq<Step>)
    requires forall i | 0 <= i < |steps| :: GoodStep(steps[i])
    ensures Lawful(Run(START, steps, true))
  {
    if |steps| == 0 {
      StartIsLawful();
    } else {
      RunKeepsLaws(steps[..|steps| - 1]);
      NextKeepsLaws(Run(START, steps[..|steps| - 1], true), steps[|steps| - 1]);
    }
  }

  // ---------------------------------------------------------------- sequence order is commit order

  /** In every reachable state a sequence number that is taken but not committed
    * is above every committed one. */
  lemma {:induction false} StagedIsAboveCommitted(steps: seq<Step>, w: nat, i: nat, j: nat)
    requires forall k | 0 <= k < |steps| :: GoodStep(steps[k])
    requires var s := Run(START, steps, true);
             IsWorking(s, w) && i < |s.shared.events| <= j < |s.writers[w].view.events|
    ensures var s := Run(START, steps, true);
            s.shared.events[i].sequence < s.writers[w].view.events[j].sequence < s.shared.next
  {
    var s := Run(START, steps, true);
    RunKeepsLaws(steps);
    assert Obeys(ViewsAreGood, s);
    assert Holds(SequencesIncrease, s.writers[w].view);
  }

  lemma {:induction false} NextCommitsAbove(s: System, step: Step)
    requires Lawful(s)
    ensures s.shared.events <= Next(s, step, true).shared.events
    ensures s.shared.measurements <= Next(s, step, true).shared.measurements
  {
  }

  lemma {:induction false} ValidAscends(t: Tables)
    requires Valid(t)
    ensures Ascending(t.events)
  {
    assert Holds(SequencesIncrease, t);
  }

  lemma {:induction false} CommittedGrows(steps: seq<Step>, i: nat, j: nat)
    requires i <= j <= |steps| && forall k | 0 <= k < |steps| :: GoodStep(steps[k])
    ensures Run(START, steps[..i], true).shared.events <= Run(START, steps[..j], true).shared.events
    ensures Run(START, steps[..i], true).shared.measurements <= Run(START, steps[..j], true).shared.measurements
    decreases j
  {
    if i < j {
      CommittedGrows(steps, i, j - 1);
      assert steps[..j][..j - 1] == steps[..j - 1];
      RunKeepsLaws(steps[..j - 1]);
      NextCommitsAbove(Run(START, steps[..j - 1], true), steps[j - 1]);
    }
  }

  /** What is committed after the first `times[i]` steps. */
  function Snapshots(steps: seq<Step>, times: seq<nat>): (r: seq<seq<Row>>)
    requires forall i | 0 <= i < |times| :: times[i] <= |steps|
    ensures |r| == |times| && forall i | 0 <= i < |r| :: r[i] == Run(START, steps[..times[i]], true).shared.events
  {
    seq(|times|, i requires 0 <= i < |times| => Run(START, steps[..times[i]], true).shared.events)
  }

  /** Under the lock, in every interleaving of any number of writers, rows are
    * committed in the order of their sequence numbers. */
  lemma {:induction false} SnapshotsGrow(steps: seq<Step>, times: seq<nat>)
    requires forall k | 0 <= k < |steps| :: GoodStep(steps[k])
    requires forall i | 0 <= i < |times| :: times[i] <= |steps|
    requires forall i, j | 0 <= i <= j < |times| :: times[i] <= times[j]
    ensures Growing(Snapshots(steps, times))
  {
    var snaps := Snapshots(steps, times);
    forall i: nat, j: nat ensures GrowsFrom(snaps, i, j) {
      if i <= j < |snaps| {
        RunKeepsLaws(steps[..times[j]]);
        assert Obeys(CommittedIsValid, Run(START, steps[..times[j]], true));
        ValidAscends(Run(START, steps[..times[j]], true).shared);
        CommittedGrows(steps, times[i], times[j]);
      }
    }
  }

  /** So a client that follows next cursors while writers run, whatever they do
    * and whenever it asks, skips nothing. */
  lemma {:induction false} PaginationNeverSkips(steps: seq<Step>, times: seq<nat>, after: nat, limit: nat)
    requires forall k | 0 <= k < |steps| :: GoodStep(steps[k])
    requires forall i | 0 <= i < |times| :: times[i] <= |steps|
    requires forall i, j | 0 <= i <= j < |times| :: times[i] <= times[j]
    requires limit > 0 && |times| > 0 && !Following(Snapshots(steps, times)[..|times| - 1], after, limit).done
    ensures var c := Following(Snapshots(steps, times), after, limit);
            var committed := Run(START, steps[..times[|times| - 1]], true).shared.events;
            && c.found == Between(committed, after, c.cursor)
            && (c.done ==> c.found == After(committed, after))
  {
    SnapshotsGrow(steps, times);
    FollowingCollects(Snapshots(steps, times), after, limit);
  }

  // ---------------------------------------------------------------- Put is such a transaction

  function Inserts(w: nat, es: seq<Entry>, clock: seq<Time>): seq<Step>
    requires |clock| == |es|
  {
    if |es| == 0 then [] else Inserts(w, es[..|es| - 1], clock[..|es| - 1]) + [Insert(w, es[|es| - 1], clock[|es| - 1])]
  }

  /** The system when a writer that holds the lock has got as far as `o`. */
  function Inserted(s: System, w: nat, t: Tables, o: Outcome): System {
    if o.1.Some? then s.(shared := t.(next := o.0.next), writers := s.writers[w := Working(|t.events|, o.0)])
    else Leave(s.(shared := t.(next := o.0.next)), w)
  }

  lemma {:induction false} SameNext(u: Tables)
    ensures u.(next := u.next) == u
  {
  }

  lemma {:induction false} InsertGoesOn(s: System, w: nat, t: Tables, o: Outcome, e: Entry, now: Time)
    requires s.lock == Some(w)
    ensures Next(Inserted(s, w, t, o), Insert(w, e, now), true) == Inserted(s, w, t, Then(o, e, now))
  {
    SameNext(o.0);
    if o.1.Some? {
      var u := InsertOne(o.0, e, now).0;
      assert s.writers[w := Working(|t.events|, o.0)][w := Working(|t.events|, u)]
             == s.writers[w := Working(|t.events|, u)];
      assert s.writers[w := Working(|t.events|, o.0)] - {w} == s.writers - {w};
    }
  }

  lemma {:induction false} InsertsSnoc(s: System, w: nat, es: seq<Entry>, clock: seq<Time>)
    requires |clock| == |es| > 0
    ensures var n := |es| - 1;
            Run(s, Inserts(w, es, clock), true)
            == Next(Run(s, Inserts(w, es[..n], clock[..n]), true), Insert(w, es[n], clock[n]), true)
  {
    var n := |es| - 1;
    var steps := Inserts(w, es[..n], clock[..n]);
    assert (steps + [Insert(w, es[n], clock[n])])[..|steps|] == steps;
  }

  lemma {:induction false} RunInserts(s: System, w: nat, t: Tables, es: seq<Entry>, clock: seq<Time>)
    requires |clock| == |es| && s.shared == t && s.lock == Some(w) && IsWorking(s, w)
             && s.writers[w] == Working(|t.events|, t)
    ensures Run(s, Inserts(w, es, clock), true) == Inserted(s, w, t, InsertAll(t, es, clock))
  {
    if |es| == 0 {
      SameNext(t);
      assert s.writers[w := Working(|t.events|, t)] == s.writers;
    } else {
      var n := |es| - 1;
      RunInserts(s, w, t, es[..n], clock[..n]);
      InsertsSnoc(s, w, es, clock);
      InsertGoesOn(s, w, t, InsertAll(t, es[..n], clock[..n]), es[n], clock[n]);
    }
  }

  lemma {:induction false} CommitAfterInserts(s: System, w: nat, t: Tables, u: Tables)
    requires w in s.writers && s.lock == Some(w) && s.shared == t.(next := u.next)
    requires s.writers[w] == Working(|t.events|, u) && Extends(t, u) && |t.measurements| == |t.events|
    ensures DoCommit(s, w) == Leave(s.(shared := u), w)
  {
    assert t.events + u.events[|t.events|..] == u.events;
    assert t.measurements + u.measurements[|t.events|..] == u.measurements;
  }

  lemma {:induction false} LeaveForgets(s: System, w: nat, phase: Phase, t: Tables)
    requires s.lock.None?
    ensures Leave(System(t, Some(w), s.writers[w := phase]), w) == Leave(s.(shared := t), w)
  {
    assert s.writers[w := phase] - {w} == s.writers - {w};
  }

  lemma {:induction false} CommitInserted(s: System, w: nat, t: Tables, u: Tables, rows: seq<Row>)
    requires s.lock == Some(w) && Extends(t, u) && |t.measurements| == |t.events|
    ensures Next(Inserted(s, w, t, (u, Some(rows))), Commit(w), true) == Leave(s.(shared := u), w)
  {
    var inserted := Inserted(s, w, t, (u, Some(rows)));
    CommitAfterInserts(inserted, w, t, u);
    assert inserted.writers - {w} == s.writers - {w};
  }

  /** Lock, insert everything and commit is Put, whoever else is waiting. */
  lemma {:induction false} PutIsATransaction(s: System, w: nat, es: seq<Entry>, clock: seq<Time>)
    requires |clock| == |es| && s.lock.None? && w in s.writers && s.writers[w].Waiting? && Valid(s.shared)
    ensures var inserted := Run(Next(s, Lock(w), true), Inserts(w, es, clock), true);
            Next(inserted, Commit(w), true) == System(Put(s.shared, es, clock).0, None, s.writers - {w})
  {
    var t := s.shared;
    var locked := System(t, Some(w), s.writers[w := Working(|t.events|, t)]);
    RunInserts(locked, w, t, es, clock);
    InsertAllAppends(t, es, clock);
    var (u, rows) := InsertAll(t, es, clock);
    assert |t.measurements| == |t.events| by {
      assert Holds(OneToOne, t);
    }
    if rows.Some? {
      CommitInserted(locked, w, t, u, rows.value);
    }
    LeaveForgets(s, w, Working(|t.events|, t), Put(t, es, clock).0);
  }

  /** Aborting instead, at any point, leaves nothing but the sequence values taken, and
    * frees the lock. */
  lemma {:induction false} AbortLeavesNothing(s: System, w: nat, es: seq<Entry>, clock: seq<Time>)
    requires |clock| == |es| && s.lock.None? && w in s.writers && s.writers[w].Waiting?
    ensures var inserted := Run(Next(s, Lock(w), true), Inserts(w, es, clock), true);
            Next(inserted, Abort(w), true)
            == System(s.shared.(next := InsertAll(s.shared, es, clock).0.next), None, s.writers - {w})
  {
    var t := s.shared;
    var locked := System(t, Some(w), s.writers[w := Working(|t.events|, t)]);
    RunInserts(locked, w, t, es, clock);
    var o := InsertAll(t, es, clock);
    var inserted := Inserted(locked, w, t, o);
    assert locked.writers - {w} == s.writers - {w};
    assert inserted.writers - {w} == s.writers - {w};
  }

  // ---------------------------------------------------------------- what the lock is for

  /** Without the lock two writers can commit against the order of their numbers:
    * a reader whose cursor stands at the first commit never sees the second. */
  lemma {:induction false} WithoutTheLockARecordIsSkipped(a: Entry, b: Entry, now: Time)
    requires a.id != b.id
    ensures var s4 := Next(Next(Next(Next(START, Begin(1), false), Begin(2), false), Lock(1), false), Lock(2), false);
            var early := Next(Next(Next(s4, Insert(1, a, now), false), Insert(2, b, now), false), Commit(2), false);
            var late := Next(early, Commit(1), false);
            && |early.shared.events| == 1 && |late.shared.events| == 2
            && late.shared.events[1].id == a.id
            && After(late.shared.events, early.shared.events[0].sequence) == []
  {
    var s4 := Next(Next(Next(Next(START, Begin(1), false), Begin(2), false), Lock(1), false), Lock(2), false);
    assert s4.shared == START.shared && s4.writers[1] == s4.writers[2] == Working(0, START.shared);
    var ra, rb := Row(1, a.id, a.at, a.payload, now), Row(2, b.id, b.at, b.payload, now);
    var s5 := Next(s4, Insert(1, a, now), false);
    assert s5.writers[1] == Working(0, Tables([ra], [a.measurement], 2));
    var s6 := Next(s5, Insert(2, b, now), false);
    assert s6.writers[2] == Working(0, Tables([rb], [b.measurement], 3));
    var early := Next(s6, Commit(2), false);
    assert early.shared.events == [rb] && early.writers[1] == s5.writers[1];
    var late := Next(early, Commit(1), false);
    assert late.shared.events == [rb, ra];
    assert [rb, ra][..1] == [rb] && After([rb], 2) == After([rb][..0], 2);
  }
}
