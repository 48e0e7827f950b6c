/** The notification outbox: rows are leased to senders, and the attempts counter
  * is the fencing token of the lease. */
module Outbox {
  import opened Wrappers
  import opened Clock

  const LEASE: int := 60 * SECOND

  /** A row of alerting.notification_outbox; its identifier is its position. */
  datatype Delivery = Delivery(attempts: nat, due: Time, delivered: Option<Time>, failed: bool)

  function Fresh(now: Time): Delivery {
    Delivery(0, now, None, false)
  }

  function PowerOfTwo(n: nat): nat {
    if n == 0 then 1 else 2 * PowerOfTwo(n - 1)
  }

  /** 1 << min(attempts, 10) seconds. */
  function Delay(attempts: nat): int {
    PowerOfTwo(Min(attempts, 10)) * SECOND
  }

  predicate Eligible(row: Delivery, now: Time) {
    row.delivered.None? && row.due <= now
  }

  /** The first eligible row that no other statement has locked. */
  function Candidate(rows: seq<Delivery>, now: Time, locked: set<nat>): (r: Option<nat>)
    ensures r.Some? ==> r.value < |rows| && Eligible(rows[r.value], now) && r.value !in locked
                        && forall i | 0 <= i < r.value :: Eligible(rows[i], now) ==> i in locked
    ensures r.None? ==> forall i | 0 <= i < |rows| :: Eligible(rows[i], now) ==> i in locked
  {
    if |rows| == 0 then None
    else
      var n := |rows| - 1;
      var before := Candidate(rows[..n], now, locked);
      if before.Some? then before
      else if Eligible(rows[n], now) && n !in locked then Some(n) else None
  }

  function Claimed(row: Delivery, now: Time): Delivery {
    row.(attempts := row.attempts + 1, due := now + LEASE)
  }

  /** WHERE attempts = token AND delivered_at IS NULL */
  predicate Current(row: Delivery, token: nat) {
    row.attempts == token && row.delivered.None?
  }

  function Finished(row: Delivery, token: nat, ok: bool, at: Time, later: Time): Delivery {
    if !Current(row, token) then row
    else row.(delivered := if ok then Some(at) else None, due := later + Delay(token), failed := !ok)
  }

  lemma {:induction false} DelayBounds(attempts: nat)
    ensures attempts > 0 ==> 2 * SECOND <= Delay(attempts)
    ensures SECOND <= Delay(attempts) <= 1024 * SECOND
  {
    assert PowerOfTwo(10) == 1024 by {
      assert PowerOfTwo(5) == 32;
    }
    PowersGrow(Min(attempts, 10), 10);
    if attempts > 0 {
      PowersGrow(1, Min(attempts, 10));
    }
  }

  /** The delay doubles with each attempt up to the tenth, and then stays. */
  lemma {:induction false} DelayDoubles(attempts: nat)
    ensures Delay(0) == SECOND
    ensures attempts < 10 ==> Delay(attempts + 1) == 2 * Delay(attempts)
    ensures attempts >= 10 ==> Delay(attempts) == 1024 * SECOND
  {
    assert PowerOfTwo(10) == 1024 by {
      assert PowerOfTwo(5) == 32;
    }
    if attempts < 10 {
      assert PowerOfTwo(attempts + 1) == 2 * PowerOfTwo(attempts);
    }
  }

  lemma {:induction false} PowersGrow(a: nat, b: nat)
    requires a <= b
    ensures 1 <= PowerOfTwo(a) <= PowerOfTwo(b)
    decreases b
  {
    if a < b {
      PowersGrow(a, b - 1);
    } else if a > 0 {
      PowersGrow(a - 1, a - 1);
    }
  }

  // ---------------------------------------------------------------- the database and one sender

  datatype Notification = Notification(id: nat, attempts: nat)

  /** What happens around one round of the sending loop: which rows others have
    * locked, what the webhook says, and how long each part takes. */
  datatype Turn = Turn(locked: set<nat>, claiming: nat, posting: nat, ok: bool, finishing: nat)

  /** The outbox and the clock during one tick of the loop; `stopped` once nothing
    * could be claimed. */
  datatype Tick = Tick(rows: seq<Delivery>, now: Time, stopped: bool)

  function OneTurn(k: Tick, t: Turn): (u: Tick)
    ensures |u.rows| == |k.rows|
  {
    if k.stopped then k
    else
      match Candidate(k.rows, k.now, t.locked)
      case None => Tick(k.rows, k.now + t.claiming, true)
      case Some(i) =>
        var claimed := Claimed(k.rows[i], k.now + t.claiming);
        var posted := k.now + t.claiming + t.posting;
        Tick(k.rows[i := Finished(claimed, claimed.attempts, t.ok, posted, posted + t.finishing)], posted + t.finishing,
             false)
  }

  function Turns(k: Tick, ts: seq<Turn>): Tick {
    if |ts| == 0 then k else OneTurn(Turns(k, ts[..|ts| - 1]), ts[|ts| - 1])
  }

  predicate FindsNothing(k: Tick, ts: seq<Turn>, j: nat) {
    j < |ts| && Candidate(Turns(k, ts[..j]).rows, Turns(k, ts[..j]).now, ts[j].locked).None?
  }

  /** Each of the first n turns finds something to claim. */
  ghost predicate AllFind(k: Tick, ts: seq<Turn>, n: nat) {
    forall j: nat | j < n :: !FindsNothing(k, ts, j)
  }

  /** Turn i is the first that finds nothing to claim. */
  ghost predicate FirstEmpty(k: Tick, ts: seq<Turn>, i: nat) {
    FindsNothing(k, ts, i) && AllFind(k, ts, i)
  }

  lemma {:induction false} TurnsSnoc(k: Tick, ts: seq<Turn>, n: nat)
    requires n < |ts|
    ensures Turns(k, ts[..n + 1]) == OneTurn(Turns(k, ts[..n]), ts[n])
  {
    assert ts[..n + 1][..n] == ts[..n];
  }

  /** As long as turns find something, the tick goes on. */
  lemma {:induction false} GoesOn(k: Tick, ts: seq<Turn>, n: nat)
    requires !k.stopped && n <= |ts| && AllFind(k, ts, n)
    ensures !Turns(k, ts[..n]).stopped
  {
    if n > 0 {
      GoesOn(k, ts, n - 1);
      TurnsSnoc(k, ts, n - 1);
      assert !FindsNothing(k, ts, n - 1);
    }
  }

  /** Behind the first that finds nothing, nothing happens. */
  lemma {:induction false} StaysStopped(k: Tick, ts: seq<Turn>, i: nat, n: nat)
    requires !k.stopped && FirstEmpty(k, ts, i) && i < n <= |ts|
    ensures Turns(k, ts[..n]).stopped && Turns(k, ts[..n]) == Turns(k, ts[..i + 1])
    decreases n
  {
    if n == i + 1 {
      assert !Turns(k, ts[..i]).stopped by {
        GoesOn(k, ts, i);
      }
      TurnsSnoc(k, ts, i);
    } else {
      StaysStopped(k, ts, i, n - 1);
      TurnsSnoc(k, ts, n - 1);
      StoppedIsIdle(Turns(k, ts[..n - 1]), ts[n - 1]);
    }
  }

  lemma {:induction false} StoppedIsIdle(k: Tick, t: Turn)
    requires k.stopped
    ensures OneTurn(k, t) == k
  {
  }

  lemma {:induction false} StoppedAt(k: Tick, ts: seq<Turn>, n: nat) returns (i: nat)
    requires !k.stopped && n <= |ts| && Turns(k, ts[..n]).stopped
    ensures i < n && FirstEmpty(k, ts, i)
    decreases n
  {
    assert n > 0;
    TurnsSnoc(k, ts, n - 1);
    if Turns(k, ts[..n - 1]).stopped {
      i := StoppedAt(k, ts, n - 1);
    } else {
      i := n - 1;
      forall j: nat | j < i ensures !FindsNothing(k, ts, j) {
        if FindsNothing(k, ts, j) {
          var m := FirstBefore(k, ts, j);
          StaysStopped(k, ts, m, i);
        }
      }
    }
  }

  lemma {:induction false} FirstBefore(k: Tick, ts: seq<Turn>, j: nat) returns (m: nat)
    requires FindsNothing(k, ts, j)
    ensures m <= j && FirstEmpty(k, ts, m)
    decreases j
  {
    if i: nat :| i < j && FindsNothing(k, ts, i) {
      m := FirstBefore(k, ts, i);
    } else {
      m := j;
    }
  }

  /** One tick goes on until a turn finds nothing to claim: it stops exactly if there is
    * such a turn, and then nothing is touched any more after the first of them. */
  lemma {:induction false} TickStopsAtFirstEmpty(k: Tick, ts: seq<Turn>)
    requires !k.stopped
    ensures Turns(k, ts).stopped <==> exists i: nat :: FirstEmpty(k, ts, i)
    ensures forall i: nat :: FirstEmpty(k, ts, i) ==>
              Turns(k, ts) == Turns(k, ts[..i + 1]) && Turns(k, ts).rows == Turns(k, ts[..i]).rows
  {
    assert ts[..|ts|] == ts;
    if Turns(k, ts).stopped {
      var i := StoppedAt(k, ts, |ts|);
    }
    forall i: nat | FirstEmpty(k, ts, i)
      ensures Turns(k, ts).stopped
              && Turns(k, ts) == Turns(k, ts[..i + 1]) && Turns(k, ts).rows == Turns(k, ts[..i]).rows
    {
      StaysStopped(k, ts, i, |ts|);
      TurnsSnoc(k, ts, i);
    }
  }

  class Database {
    var rows: seq<Delivery>
    var now: Time

    constructor (start: Time)
      ensures rows == [] && now == start
    {
      rows, now := [], start;
    }

    /** A row becomes visible some time after it was inserted. */
    method Enqueue(age: nat)
      modifies this`rows
      ensures rows == old(rows) + [Fresh(now - age)]
    {
      rows := rows + [Fresh(now - age)];
    }

    method Pass(elapsed: nat)
      modifies this`now
      ensures now == old(now) + elapsed
    {
      now := now + elapsed;
    }

    /** The clock is read once to choose a row and again to lease it. */
    method ClaimNotification(locked: set<nat>, elapsed: nat) returns (n: Option<Notification>)
      modifies this
      ensures now == old(now) + elapsed
      ensures match Candidate(old(rows), old(now), locked)
              case None => n == None && rows == old(rows)
              case Some(i) => n == Some(Notification(i, old(rows)[i].attempts + 1))
                              && rows == old(rows)[i := Claimed(old(rows)[i], now)]
    {
      var found := false;
      var i := 0;
      while i < |rows| && !found
        invariant 0 <= i <= |rows| && rows == old(rows) && now == old(now)
        invariant found ==> i < |rows| && Eligible(rows[i], now) && i !in locked
        invariant forall j | 0 <= j < i :: Eligible(rows[j], now) ==> j in locked
        decreases |rows| - i, !found
      {
        if Eligible(rows[i], now) && i !in locked {
          found := true;
        } else {
          i := i + 1;
        }
      }
      now := now + elapsed;
      if !found {
        return None;
      }
      rows := rows[i := Claimed(rows[i], now)];
      n := Some(Notification(i, rows[i].attempts));
    }

    method FinishNotification(n: Notification, ok: bool, elapsed: nat)
      requires n.id < |rows|
      modifies this
      ensures now == old(now) + elapsed
      ensures rows == old(rows)[n.id := Finished(old(rows)[n.id], n.attempts, ok, old(now), now)]
    {
      var at := now;
      now := now + elapsed;
      var row := rows[n.id];
      if row.attempts == n.attempts && row.delivered.None? {
        var delay := Delay(n.attempts);
        row := row.(delivered := if ok then Some(at) else None, due := now + delay, failed := !ok);
      }
      rows := rows[n.id := row];
    }

    /** Claim, deliver, finish. */
    method TakeTurn(t: Turn) returns (stopped: bool)
      modifies this
      ensures Tick(rows, now, stopped) == OneTurn(Tick(old(rows), old(now), false), t)
    {
      var n := ClaimNotification(t.locked, t.claiming);
      if n.None? {
        return true;
      }
      Pass(t.posting);
      FinishNotification(n.value, t.ok, t.finishing);
      stopped := false;
    }

    /** One tick of SendNotifications: up to twenty notifications. */
    method SendNotifications(turns: seq<Turn>) returns (stopped: bool)
      requires |turns| == 20
      modifies this
      ensures Tick(rows, now, stopped) == Turns(Tick(old(rows), old(now), false), turns)
    {
      stopped := false;
      for i := 0 to 20
        invariant Tick(rows, now, stopped) == Turns(Tick(old(rows), old(now), false), turns[..i])
      {
        assert turns[..i + 1][..i] == turns[..i];
        if !stopped {
          stopped := TakeTurn(turns[i]);
        }
      }
      assert turns[..20] == turns;
    }
  }
}
