/** Any number of senders on one outbox. Each claims a row, posts it, records the
  * outcome, and may crash at any point or stall for any time in between. */
module OutboxProtocol {
  import opened Wrappers
  import opened Clock
  import opened Outbox

  /** `at` is when the row was leased; `answer` what the webhook said, once it did. */
  datatype Sender = Idle | Holding(id: nat, token: nat, at: Time, answer: Option<bool>)

  /** `touched` is when each row was inserted, last claimed or last finished;
    * `accepted` the rows the webhook has answered with a 2xx. */
  datatype World = World(
    now: Time,
    rows: seq<Delivery>,
    touched: seq<Time>,
    accepted: set<nat>,
    senders: map<nat, Sender>)

  datatype Step =
    | Pass(elapsed: nat)
    | Enqueue(age: nat)
    | Claim(sender: nat, locked: set<nat>, elapsed: nat)
    | Answer(sender: nat, ok: bool)
    | Finish(sender: nat, elapsed: nat)
    | Crash(sender: nat)

  function SenderOf(w: World, s: nat): Sender {
    if s in w.senders then w.senders[s] else Idle
  }

  predicate InBounds(w: World) {
    |w.touched| == |w.rows| && forall s | s in w.senders && w.senders[s].Holding? :: w.senders[s].id < |w.rows|
  }

  function DoClaim(w: World, s: nat, i: nat, elapsed: nat): World
    requires i < |w.rows| == |w.touched|
  {
    var now := w.now + elapsed;
    var row := Claimed(w.rows[i], now);
    w.(now := now, rows := w.rows[i := row], touched := w.touched[i := now],
       senders := w.senders[s := Holding(i, row.attempts, now, None)])
  }

  function DoFinish(w: World, s: nat, elapsed: nat): World
    requires SenderOf(w, s).Holding? && SenderOf(w, s).answer.Some? && SenderOf(w, s).id < |w.rows| == |w.touched|
  {
    var h := SenderOf(w, s);
    var now := w.now + elapsed;
    var row := w.rows[h.id];
    w.(now := now, rows := w.rows[h.id := Finished(row, h.token, h.answer.value, w.now, now)],
       touched := if Current(row, h.token) then w.touched[h.id := now] else w.touched,
       senders := w.senders[s := Idle])
  }

  /** A step that is not enabled does nothing. */
  function Next(w: World, step: Step): World
    requires InBounds(w)
  {
    match step
    case Pass(elapsed) => w.(now := w.now + elapsed)
    case Enqueue(age) => w.(rows := w.rows + [Fresh(w.now - age)], touched := w.touched + [w.now - age])
    case Claim(s, locked, elapsed) =>
      var i := Candidate(w.rows, w.now, locked);
      if SenderOf(w, s).Idle? && i.Some? then DoClaim(w, s, i.value, elapsed) else w.(now := w.now + elapsed)
    case Answer(s, ok) =>
      var h := SenderOf(w, s);
      if h.Holding? && h.answer.None? then
        w.(accepted := if ok then w.accepted + {h.id} else w.accepted,
           senders := w.senders[s := h.(answer := Some(ok))])
      else w
    case Finish(s, elapsed) =>
      if SenderOf(w, s).Holding? && SenderOf(w, s).answer.Some? then DoFinish(w, s, elapsed) else w
    case Crash(s) => w.(senders := w.senders[s := Idle])
  }

  // ---------------------------------------------------------------- what every run keeps

  /** When a row is due: at once when it is new, else sixty seconds after it was last
    * claimed or the delay of its attempts after it was last finished. */
  ghost predicate DueInTime(row: Delivery, touched: Time) {
    if row.attempts == 0 then row.due == touched
    else row.due == touched + 60 * SECOND || row.due == touched + Delay(row.attempts)
  }

  /** A sender holds a token its row has reached; while it is the latest token, the
    * row is undelivered and leased since the claim. */
  ghost predicate HeldProperly(w: World, s: nat) {
    var h := SenderOf(w, s);
    h.Holding? ==>
      && h.id < |w.rows| && 1 <= h.token <= w.rows[h.id].attempts && h.at <= w.now
      && (h.answer == Some(true) ==> h.id in w.accepted)
      && (h.token == w.rows[h.id].attempts ==> w.rows[h.id].delivered.None? && w.rows[h.id].due == h.at + LEASE)
  }

  /** No two senders hold the same token of a row. */
  ghost predicate Fenced(w: World) {
    forall s: nat, r: nat | SenderOf(w, s).Holding? && SenderOf(w, r).Holding? && SenderOf(w, s).id == SenderOf(w, r).id
                            && SenderOf(w, s).token == SenderOf(w, r).token :: s == r
  }

  datatype Law = Bounds | Timely | Held | OneHolder | OnlyAccepted

  ghost predicate Obeys(law: Law, w: World) {
    match law
    case Bounds => InBounds(w)
    case Timely =>
      |w.touched| == |w.rows|
      && forall i | 0 <= i < |w.rows| :: w.touched[i] <= w.now && DueInTime(w.rows[i], w.touched[i])
    case Held => forall s: nat :: HeldProperly(w, s)
    case OneHolder => Fenced(w)
    case OnlyAccepted =>
      forall i | 0 <= i < |w.rows| && w.rows[i].delivered.Some? :: i in w.accepted && w.rows[i].delivered.value <= w.now
  }

  ghost predicate Lawful(w: World) {
    forall law :: Obeys(law, w)
  }

  lemma {:induction false} ClaimKeeps(w: World, s: nat, i: nat, elapsed: nat)
    requires Lawful(w) && i < |w.rows| == |w.touched| && SenderOf(w, s).Idle? && Eligible(w.rows[i], w.now)
    ensures Lawful(DoClaim(w, s, i, elapsed))
  {
    assert Obeys(Bounds, w) && Obeys(Timely, w) && Obeys(Held, w) && Obeys(OneHolder, w) && Obeys(OnlyAccepted, w);
    var u := DoClaim(w, s, i, elapsed);
    assert forall r: nat | r != s :: SenderOf(u, r) == SenderOf(w, r);
    forall r: nat ensures HeldProperly(u, r) {
      assert HeldProperly(w, r);
    }
    forall r: nat, q: nat
      | SenderOf(u, r).Holding? && SenderOf(u, q).Holding? && SenderOf(u, r).id == SenderOf(u, q).id
        && SenderOf(u, r).token == SenderOf(u, q).token
      ensures r == q
    {
      assert HeldProperly(w, r) && HeldProperly(w, q);
    }
    forall law ensures Obeys(law, u) {
    }
  }

  lemma {:induction false} FinishKeeps(w: World, s: nat, elapsed: nat)
    requires Lawful(w) && |w.rows| == |w.touched|
    requires SenderOf(w, s).Holding? && SenderOf(w, s).answer.Some? && SenderOf(w, s).id < |w.rows|
    ensures Lawful(DoFinish(w, s, elapsed))
  {
    assert Obeys(Bounds, w) && Obeys(Timely, w) && Obeys(Held, w) && Obeys(OneHolder, w) && Obeys(OnlyAccepted, w);
    var u := DoFinish(w, s, elapsed);
    var h := SenderOf(w, s);
    assert HeldProperly(w, s);
    DelayBounds(h.token);
    assert forall r: nat | r != s :: SenderOf(u, r) == SenderOf(w, r);
    forall r: nat ensures HeldProperly(u, r) {
      assert HeldProperly(w, r);
    }
    forall law ensures Obeys(law, u) {
    }
  }

  lemma {:induction false} OtherStepsKeep(w: World, step: Step)
    requires Lawful(w) && InBounds(w) && !step.Claim? && !step.Finish?
    ensures Lawful(Next(w, step))
  {
    assert Obeys(Bounds, w) && Obeys(Timely, w) && Obeys(Held, w) && Obeys(OneHolder, w) && Obeys(OnlyAccepted, w);
    var u := Next(w, step);
    assert forall r: nat | SenderOf(u, r).Holding? ::
        && SenderOf(w, r).Holding? && SenderOf(w, r).id == SenderOf(u, r).id
        && SenderOf(w, r).token == SenderOf(u, r).token;
    forall r: nat ensures HeldProperly(u, r) {
      assert HeldProperly(w, r);
    }
    forall law ensures Obeys(law, u) {
    }
  }

  lemma {:induction false} NextKeeps(w: World, step: Step)
    requires Lawful(w) && InBounds(w)
    ensures Lawful(Next(w, step))
  {
    match step
    case Claim(s, locked, elapsed) =>
      var i := Candidate(w.rows, w.now, locked);
      if SenderOf(w, s).Idle? && i.Some? {
        ClaimKeeps(w, s, i.value, elapsed);
      } else {
        assert Next(w, step) == Next(w, Pass(elapsed));
        OtherStepsKeep(w, Pass(elapsed));
      }
    case Finish(s, elapsed) =>
      if SenderOf(w, s).Holding? && SenderOf(w, s).answer.Some? {
        FinishKeeps(w, s, elapsed);
      }
    case _ =>
      OtherStepsKeep(w, step);
  }

  function Start(now: Time): World {
    World(now, [], [], {}, map[])
  }

  lemma {:induction false} StartIsLawful(now: Time)
    ensures Lawful(Start(now))
  {
    forall law ensures Obeys(law, Start(now)) {
    }
  }

  lemma {:induction false} LawfulIsInBounds(w: World)
    requires Lawful(w)
    ensures InBounds(w)
  {
    assert Obeys(Bounds, w);
  }

  /** The world after some steps, if it is in bounds all the way, which it is. */
  ghost function Run(now: Time, steps: seq<Step>): (w: World)
    ensures Lawful(w) && InBounds(w)
  {
    StartIsLawful(now);
    if |steps| == 0 then
      LawfulIsInBounds(Start(now));
      Start(now)
    else
      var w := Run(now, steps[..|steps| - 1]);
      NextKeeps(w, steps[|steps| - 1]);
      LawfulIsInBounds(Next(w, steps[|steps| - 1]));
      Next(w, steps[|steps| - 1])
  }

  // ---------------------------------------------------------------- safety over every run

  /** Fencing: once a row has been claimed again, an earlier claimant's Finish
    * changes no row; the latest claimant's always takes effect, and is final if
    * the webhook accepted. */
  lemma {:induction false} OnlyTheLatestClaimantFinishes(now: Time, steps: seq<Step>, s: nat, elapsed: nat)
    requires SenderOf(Run(now, steps), s).Holding? && SenderOf(Run(now, steps), s).answer.Some?
    ensures var w := Run(now, steps);
            var u, h := Next(w, Finish(s, elapsed)), SenderOf(w, s);
            && h.id < |w.rows| && h.token <= w.rows[h.id].attempts
            && (h.token < w.rows[h.id].attempts ==> u.rows == w.rows)
            && (h.token == w.rows[h.id].attempts ==>
                  var row, due := w.rows[h.id], u.now + Delay(h.token);
                  u.rows == w.rows[h.id := if h.answer.value
                                           then row.(delivered := Some(w.now), due := due, failed := false)
                                           else row.(due := due, failed := true)])
  {
    var w := Run(now, steps);
    assert Obeys(Held, w);
    assert HeldProperly(w, s);
  }

  /** The lease: while sixty seconds have not passed since the latest claim of a
    * row and its claimant has neither finished nor crashed, nobody can claim it. */
  lemma {:induction false} LeaseExcludesOthers(now: Time, steps: seq<Step>, s: nat, locked: set<nat>)
    requires SenderOf(Run(now, steps), s).Holding?
    requires var w := Run(now, steps);
             var h := SenderOf(w, s);
             h.id < |w.rows| && h.token == w.rows[h.id].attempts && w.now < h.at + 60 * SECOND
    ensures var w := Run(now, steps);
            && Candidate(w.rows, w.now, locked) != Some(SenderOf(w, s).id)
            && forall r: nat | r != s && SenderOf(w, r).Holding? && SenderOf(w, r).id == SenderOf(w, s).id ::
                 SenderOf(w, r).token < SenderOf(w, s).token
  {
    var w := Run(now, steps);
    assert Obeys(Held, w) && Obeys(OneHolder, w);
    assert HeldProperly(w, s);
    forall r: nat | r != s && SenderOf(w, r).Holding? && SenderOf(w, r).id == SenderOf(w, s).id
      ensures SenderOf(w, r).token < SenderOf(w, s).token
    {
      assert HeldProperly(w, r);
    }
  }

  /** No row is claimed before it is due, nor within two seconds of when it was
    * last claimed or finished; of the due rows nobody else has locked the first
    * is taken. */
  lemma {:induction false} NoEarlyClaim(now: Time, steps: seq<Step>, s: nat, locked: set<nat>, elapsed: nat)
    requires SenderOf(Run(now, steps), s).Idle?
    ensures var w := Run(now, steps);
            var u := Next(w, Claim(s, locked, elapsed));
            match SenderOf(u, s)
            case Idle =>
              && u.rows == w.rows
              && forall i | 0 <= i < |w.rows| && i !in locked :: w.rows[i].delivered.Some? || w.now < w.rows[i].due
            case Holding(i, token, at, answer) =>
              && i < |w.rows| == |w.touched| && i !in locked && w.rows[i].delivered.None? && w.rows[i].due <= w.now
              && (w.rows[i].attempts > 0 ==> w.touched[i] + 2 * SECOND <= w.now)
              && (forall j | 0 <= j < i && j !in locked :: w.rows[j].delivered.Some? || w.now < w.rows[j].due)
              && token == w.rows[i].attempts + 1 == u.rows[i].attempts
                 && u.rows[i].due == at + 60 * SECOND == u.now + 60 * SECOND
              && forall j | 0 <= j < |w.rows| && j != i :: u.rows[j] == w.rows[j]
  {
    var w := Run(now, steps);
    assert Obeys(Timely, w);
    var i := Candidate(w.rows, w.now, locked);
    if i.Some? {
      assert DueInTime(w.rows[i.value], w.touched[i.value]);
      DelayBounds(w.rows[i.value].attempts);
    }
  }

  /** A row counts as delivered only after the webhook answered for that very row
    * with a 2xx. */
  lemma {:induction false} DeliveredWasAccepted(now: Time, steps: seq<Step>, i: nat)
    requires i < |Run(now, steps).rows| && Run(now, steps).rows[i].delivered.Some?
    ensures i in Run(now, steps).accepted && Run(now, steps).rows[i].delivered.value <= Run(now, steps).now
  {
    assert Obeys(OnlyAccepted, Run(now, steps));
  }

  lemma {:induction false} NextKeepsDelivered(w: World, step: Step, i: nat)
    requires Lawful(w) && InBounds(w) && i < |w.rows| && w.rows[i].delivered.Some?
    ensures i < |Next(w, step).rows| && Next(w, step).rows[i] == w.rows[i]
  {
    if step.Finish? {
      assert Obeys(Held, w);
      assert HeldProperly(w, step.sender);
    }
  }

  lemma {:induction false} RunNext(now: Time, steps: seq<Step>, step: Step)
    ensures Run(now, steps + [step]) == Next(Run(now, steps), step)
  {
    assert (steps + [step])[..|steps|] == steps;
  }

  /** Once set, the delivery time stays, and no attempt is made any more. */
  lemma {:induction false} DeliveredIsFinal(now: Time, steps: seq<Step>, more: seq<Step>, i: nat)
    requires i < |Run(now, steps).rows| && Run(now, steps).rows[i].delivered.Some?
    ensures i < |Run(now, steps + more).rows| && Run(now, steps + more).rows[i] == Run(now, steps).rows[i]
  {
    if |more| == 0 {
      assert steps + more == steps;
    } else {
      var n := |more| - 1;
      DeliveredIsFinal(now, steps, more[..n], i);
      RunNext(now, steps + more[..n], more[n]);
      assert steps + more == (steps + more[..n]) + [more[n]];
      NextKeepsDelivered(Run(now, steps + more[..n]), more[n], i);
    }
  }

  /** Retry is never put off for long: an undelivered row can be claimed 1024
    * seconds after it was last touched, at the latest. */
  lemma {:induction false} UndeliveredComesBack(now: Time, steps: seq<Step>, i: nat)
    requires i < |Run(now, steps).rows| && Run(now, steps).rows[i].delivered.None?
    ensures var w := Run(now, steps);
            && |w.touched| == |w.rows|
            && (w.rows[i].attempts == 0 ==> Eligible(w.rows[i], w.now))
            && (w.now >= w.touched[i] + 1024 * SECOND ==> Eligible(w.rows[i], w.now))
  {
    var w := Run(now, steps);
    assert Obeys(Timely, w);
    assert DueInTime(w.rows[i], w.touched[i]);
    DelayBounds(w.rows[i].attempts);
  }

  /** How long each undelivered row waits: it can be claimed from the time it is due,
    * which is at once when it is new, at the end of a lease, or after the delay of the
    * attempt that failed; the delay doubles from two seconds up to 1024. */
  lemma {:induction false} BackoffIsExact(now: Time, steps: seq<Step>, i: nat)
    requires i < |Run(now, steps).rows| && Run(now, steps).rows[i].delivered.None?
    ensures var w := Run(now, steps);
            && |w.touched| == |w.rows| && DueInTime(w.rows[i], w.touched[i])
            && (w.now >= w.rows[i].due <==> Eligible(w.rows[i], w.now))
    ensures Delay(1) == 2 * SECOND && Delay(Run(now, steps).rows[i].attempts + 10) == 1024 * SECOND
    ensures var n := Run(now, steps).rows[i].attempts; n < 10 ==> Delay(n + 1) == 2 * Delay(n)
  {
    assert Obeys(Timely, Run(now, steps));
    assert DueInTime(Run(now, steps).rows[i], Run(now, steps).touched[i]);
    DelayDoubles(0);
    DelayDoubles(Run(now, steps).rows[i].attempts);
    DelayDoubles(Run(now, steps).rows[i].attempts + 10);
  }

  // ---------------------------------------------------------------- the sending loop

  ghost function Proceed(w: World, step: Step): (u: World)
    requires Lawful(w)
    ensures Lawful(u)
  {
    LawfulIsInBounds(w);
    NextKeeps(w, step);
    Next(w, step)
  }

  lemma {:induction false} ClaimAndPost(w: World, s: nat, t: Turn, i: nat)
    requires Lawful(w) && SenderOf(w, s).Idle? && Candidate(w.rows, w.now, t.locked) == Some(i)
    ensures var u := Proceed(Proceed(Proceed(w, Claim(s, t.locked, t.claiming)), Pass(t.posting)), Answer(s, t.ok));
            var row := Claimed(w.rows[i], w.now + t.claiming);
            && u.rows == w.rows[i := row] && u.now == w.now + t.claiming + t.posting
            && SenderOf(u, s) == Holding(i, row.attempts, w.now + t.claiming, Some(t.ok))
  {
  }

  /** A turn of the loop that finds a row is four steps of one sender, undisturbed:
    * the row it claims is the row it finishes. */
  lemma {:induction false} TurnIsFourSteps(w: World, s: nat, t: Turn)
    requires Lawful(w) && SenderOf(w, s).Idle? && Candidate(w.rows, w.now, t.locked).Some?
    ensures var posted := Proceed(Proceed(Proceed(w, Claim(s, t.locked, t.claiming)), Pass(t.posting)),
                                  Answer(s, t.ok));
            var u := Proceed(posted, Finish(s, t.finishing));
            Tick(u.rows, u.now, false) == OneTurn(Tick(w.rows, w.now, false), t) && SenderOf(u, s).Idle?
  {
    ClaimAndPost(w, s, t, Candidate(w.rows, w.now, t.locked).value);
  }
}
