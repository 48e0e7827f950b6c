/** The MQTT publisher of Node-RED: every accepted request becomes one packet, and
  * its answer waits for the broker's acknowledgment or for five seconds. */
module Publisher {
  import opened Wrappers
  import opened Clock

  const MAX_PENDING := 64

  datatype Timer = Armed | Cleared | Fired

  datatype Outcome = Resolved | Failed

  /** The closure of one packet; `answers` are the resolve and reject calls made. */
  datatype Call = Call(settled: bool, completed: bool, timer: Timer, answers: seq<Outcome>)

  const SUBMITTED := Call(false, false, Armed, [])

  datatype State = State(connected: bool, pending: int, calls: seq<Call>)

  /** What can happen: the connection changes, a request comes in (`throws` if the
    * client throws at once), a packet's callback fires, again or late, or the time
    * is up. */
  datatype Event = Connection(up: bool) | Request(throws: bool) | Callback(k: nat, err: bool) | TimeUp(k: nat)

  // ---------------------------------------------------------------- the closures

  function Reply(err: bool): Outcome {
    if err then Failed else Resolved
  }

  function DoneCall(c: Call, err: bool): Call {
    if c.completed then c
    else if c.settled then c.(completed := true)
    else Call(true, true, Cleared, c.answers + [Reply(err)])
  }

  /** A cleared timer does not fire, and none fires twice. */
  function TimeUpCall(c: Call): Call {
    if c.timer.Armed? then Call(true, c.completed, Fired, c.answers + [Failed]) else c
  }

  function Done(s: State, k: nat, err: bool): State {
    if k >= |s.calls| then s
    else s.(pending := if s.calls[k].completed then s.pending else s.pending - 1,
            calls := s.calls[k := DoneCall(s.calls[k], err)])
  }

  predicate Accepts(s: State) {
    s.connected && s.pending < MAX_PENDING
  }

  function Submit(s: State, throws: bool): State {
    if !Accepts(s) then s
    else
      var sent := s.(pending := s.pending + 1, calls := s.calls + [SUBMITTED]);
      if throws then Done(sent, |s.calls|, true) else sent
  }

  function Next(s: State, e: Event): State {
    match e
    case Connection(up) => s.(connected := up)
    case Request(throws) => Submit(s, throws)
    case Callback(k, err) => Done(s, k, err)
    case TimeUp(k) => if k < |s.calls| then s.(calls := s.calls[k := TimeUpCall(s.calls[k])]) else s
  }

  const START := State(false, 0, [])

  function Run(es: seq<Event>): State {
    if |es| == 0 then START else Next(Run(es[..|es| - 1]), es[|es| - 1])
  }

  /** The program's own form: one counter and the closures' variables. */
  class Ingestion {
    var connected: bool
    var pending: int
    var calls: seq<Call>

    ghost function Contents(): State
      reads this
    {
      State(connected, pending, calls)
    }

    constructor ()
      ensures Contents() == START
    {
      connected, pending, calls := false, 0, [];
    }

    /** The callback given to the client. */
    method OnDone(k: nat, err: bool)
      requires k < |calls|
      modifies this
      ensures Contents() == Done(old(Contents()), k, err)
    {
      var c := calls[k];
      if c.completed {
        assert calls[k := c] == calls;
        return;
      }
      c := c.(completed := true);
      pending := pending - 1;
      if !c.settled {
        c := c.(settled := true, timer := Cleared);
        c := c.(answers := c.answers + [Reply(err)]);
      }
      calls := calls[k := c];
    }

    method OnTimer(k: nat)
      requires k < |calls|
      modifies this
      ensures Contents() == Next(old(Contents()), TimeUp(k))
    {
      var c := calls[k];
      if c.timer.Armed? {
        c := c.(timer := Fired, settled := true, answers := c.answers + [Failed]);
      }
      calls := calls[k := c];
    }

    /** publish: the number of the packet, or None for 503 at once. */
    method Publish(throws: bool) returns (k: Option<nat>)
      modifies this
      ensures Contents() == Submit(old(Contents()), throws)
      ensures k == if Accepts(old(Contents())) then Some(|old(calls)|) else None
    {
      if !connected {
        return None;
      }
      if pending >= MAX_PENDING {
        return None;
      }
      pending := pending + 1;
      k := Some(|calls|);
      calls := calls + [SUBMITTED];
      if throws {
        OnDone(k.value, true);
      }
    }
  }

  // ---------------------------------------------------------------- the independent account

  /** The packet has been submitted. */
  predicate Submitted(es: seq<Event>, k: nat) {
    k < |Run(es).calls|
  }

  /** Its callback has fired, or the client threw in its place. */
  predicate CalledBack(es: seq<Event>, k: nat) {
    |es| > 0 &&
    var n := |es| - 1;
    || CalledBack(es[..n], k)
    || (Submitted(es[..n], k) && es[n].Callback? && es[n].k == k)
    || (!Submitted(es[..n], k) && Submitted(es, k) && es[n] == Request(true))
  }

  /** What a packet's request is told, and when: by the first of its callback and
    * the end of its five seconds. */
  function Verdict(es: seq<Event>, k: nat): Option<Outcome> {
    if |es| == 0 then None
    else
      var n := |es| - 1;
      if Verdict(es[..n], k).Some? then Verdict(es[..n], k)
      else if Submitted(es[..n], k) && es[n].Callback? && es[n].k == k then Some(if es[n].err then Failed else Resolved)
      else if Submitted(es[..n], k) && es[n] == TimeUp(k) then Some(Failed)
      else if !Submitted(es[..n], k) && Submitted(es, k) && es[n] == Request(true) then Some(Failed)
      else None
  }

  /** The packets still without a callback. */
  function Outstanding(es: seq<Event>, upTo: nat): nat {
    if upTo == 0 then 0 else Outstanding(es, upTo - 1) + if CalledBack(es, upTo - 1) then 0 else 1
  }

  // ---------------------------------------------------------------- the protocol keeps it

  /** The closure of a packet shows exactly its history. */
  ghost predicate Tells(es: seq<Event>, k: nat, c: Call) {
    && c.completed == CalledBack(es, k)
    && c.answers == (if Verdict(es, k).Some? then [Verdict(es, k).value] else [])
    && c.settled == Verdict(es, k).Some?
    && (c.timer.Armed? <==> !c.settled)
  }

  lemma {:induction false} CallsOnlyGrow(es: seq<Event>, e: Event)
    ensures |Run(es).calls| <= |Run(es + [e]).calls| <= |Run(es).calls| + 1
    ensures |Run(es + [e]).calls| > |Run(es).calls| <==> e.Request? && Accepts(Run(es))
  {
    assert (es + [e])[..|es|] == es;
  }

  lemma {:induction false} Unsubmitted(es: seq<Event>, k: nat)
    requires !Submitted(es, k)
    ensures !CalledBack(es, k) && Verdict(es, k).None?
  {
    if |es| > 0 {
      var n := |es| - 1;
      assert es == es[..n] + [es[n]];
      CallsOnlyGrow(es[..n], es[n]);
      Unsubmitted(es[..n], k);
    }
  }

  lemma {:induction false} TellsNext(es: seq<Event>, e: Event, k: nat)
    requires Submitted(es, k) && Tells(es, k, Run(es).calls[k])
    ensures Submitted(es + [e], k) && Tells(es + [e], k, Run(es + [e]).calls[k])
  {
    var more := es + [e];
    assert more[..|es|] == es;
    CallsOnlyGrow(es, e);
    var c, d := Run(es).calls[k], Run(more).calls[k];
    if c.completed {
      CompletedIsDecided(es, k);
    }
    match e
    case Callback(j, err) =>
      if j == k && !c.completed && !c.settled {
        assert c.answers + [Reply(err)] == [Reply(err)];
      }
    case TimeUp(j) =>
      if j == k && c.timer.Armed? {
        assert d.answers == c.answers + [Failed] == [Failed];
      }
    case _ =>
  }

  lemma {:induction false} TellsFirst(es: seq<Event>, e: Event, k: nat)
    requires !Submitted(es, k) && Submitted(es + [e], k)
    ensures Tells(es + [e], k, Run(es + [e]).calls[k])
  {
    var more := es + [e];
    assert more[..|es|] == es;
    CallsOnlyGrow(es, e);
    Unsubmitted(es, k);
    assert SUBMITTED.answers + [Failed] == [Failed];
  }

  /** Every closure, in every interleaving, tells its packet's history. */
  lemma {:induction false} ClosuresTell(es: seq<Event>, k: nat)
    requires Submitted(es, k)
    ensures Tells(es, k, Run(es).calls[k])
  {
    if |es| > 0 {
      var n := |es| - 1;
      assert es == es[..n] + [es[n]];
      if Submitted(es[..n], k) {
        ClosuresTell(es[..n], k);
        TellsNext(es[..n], es[n], k);
      } else {
        TellsFirst(es[..n], es[n], k);
      }
    }
  }

  /** Every submitted request is answered at most once, by whichever of its first
    * callback and its timer comes first, and once either has come; with success
    * exactly if that was a callback without error. */
  lemma {:induction false} AnsweredExactlyOnce(es: seq<Event>, k: nat)
    requires Submitted(es, k)
    ensures var c := Run(es).calls[k];
            && |c.answers| <= 1
            && (|c.answers| == 1 <==> Verdict(es, k).Some?)
            && (c.answers == [Resolved] <==> Verdict(es, k) == Some(Resolved))
            && (c.completed ==> |c.answers| == 1)
  {
    ClosuresTell(es, k);
    if CalledBack(es, k) {
      CompletedIsDecided(es, k);
    }
  }

  lemma {:induction false} CompletedIsDecided(es: seq<Event>, k: nat)
    requires CalledBack(es, k)
    ensures Verdict(es, k).Some?
  {
    var n := |es| - 1;
    if CalledBack(es[..n], k) {
      CompletedIsDecided(es[..n], k);
    }
  }

  lemma {:induction false} OutstandingSteps(es: seq<Event>, e: Event, upTo: nat)
    requires upTo <= |Run(es).calls|
    ensures var more := es + [e];
            var first := e.Callback? && e.k < upTo && !CalledBack(es, e.k);
            Outstanding(more, upTo) == Outstanding(es, upTo) - if first then 1 else 0
  {
    if upTo > 0 {
      var more := es + [e];
      assert more[..|es|] == es;
      OutstandingSteps(es, e, upTo - 1);
      assert Submitted(es, upTo - 1);
    }
  }

  /** The counter is exactly the number of packets without a callback, and never
    * leaves 0..64, however callbacks repeat or come late. */
  lemma {:induction false} PendingIsExact(es: seq<Event>)
    ensures Run(es).pending == Outstanding(es, |Run(es).calls|)
    ensures 0 <= Run(es).pending <= 64
  {
    if |es| > 0 {
      var n := |es| - 1;
      var s := Run(es[..n]);
      assert es == es[..n] + [es[n]];
      PendingIsExact(es[..n]);
      CallsOnlyGrow(es[..n], es[n]);
      OutstandingSteps(es[..n], es[n], |s.calls|);
      match es[n]
      case Callback(k, err) =>
        if k < |s.calls| {
          ClosuresTell(es[..n], k);
          OutstandingPositive(es[..n], k, |s.calls|);
        }
      case Request(throws) =>
        Unsubmitted(es[..n], |s.calls|);
      case _ =>
    }
  }

  lemma {:induction false} OutstandingPositive(es: seq<Event>, k: nat, upTo: nat)
    requires k < upTo
    ensures !CalledBack(es, k) ==> Outstanding(es, upTo) >= 1
  {
    if k < upTo - 1 {
      OutstandingPositive(es, k, upTo - 1);
    }
  }

  /** The broker is connected, by the last word about it. */
  predicate Up(es: seq<Event>) {
    |es| > 0 &&
    var n := |es| - 1;
    if es[n].Connection? then es[n].up else Up(es[..n])
  }

  lemma {:induction false} UpIsConnected(es: seq<Event>)
    ensures Run(es).connected == Up(es)
  {
    if |es| > 0 {
      UpIsConnected(es[..|es| - 1]);
    }
  }

  /** A request becomes a packet exactly if the broker is connected and fewer than 64
    * packets still wait for their callback; nothing else makes or removes one. */
  lemma {:induction false} PacketsExactly(es: seq<Event>, e: Event)
    ensures var n := |Run(es).calls|;
            |Run(es + [e]).calls| == n + if e.Request? && Up(es) && Outstanding(es, n) < 64 then 1 else 0
  {
    CallsOnlyGrow(es, e);
    UpIsConnected(es);
    PendingIsExact(es);
  }

  // ---------------------------------------------------------------- five seconds

  const TIMEOUT: Time := 5 * SECOND

  /** The event that submitted packet k. */
  function SubmittedBy(es: seq<Event>, k: nat): (i: nat)
    requires Submitted(es, k)
    ensures i < |es| && !Submitted(es[..i], k) && Submitted(es[..i + 1], k)
  {
    var n := |es| - 1;
    assert es[..n + 1] == es;
    if Submitted(es[..n], k) then
      var i := SubmittedBy(es[..n], k);
      assert es[..n][..i] == es[..i] && es[..n][..i + 1] == es[..i + 1];
      i
    else n
  }

  lemma {:induction false} StaysSubmitted(es: seq<Event>, k: nat, i: nat, j: nat)
    requires i <= j <= |es| && Submitted(es[..i], k)
    ensures Submitted(es[..j], k)
  {
    if i < j {
      StaysSubmitted(es, k, i, j - 1);
      assert es[..j] == es[..j - 1] + [es[j - 1]];
      CallsOnlyGrow(es[..j - 1], es[j - 1]);
    }
  }

  lemma {:induction false} VerdictStands(es: seq<Event>, k: nat, i: nat, j: nat)
    requires i <= j <= |es| && Verdict(es[..i], k).Some?
    ensures Verdict(es[..j], k) == Verdict(es[..i], k)
  {
    if i < j {
      VerdictStands(es, k, i, j - 1);
      assert es[..j][..j - 1] == es[..j - 1];
    }
  }

  /** A timer whose five seconds are over has fired. */
  ghost predicate FiresInTime(es: seq<Event>, clock: seq<Time>, now: Time, k: nat)
    requires |clock| == |es|
  {
    Submitted(es, k) && clock[SubmittedBy(es, k)] + TIMEOUT <= now ==>
      exists j :: SubmittedBy(es, k) < j < |es| && es[j] == TimeUp(k)
  }

  /** No timer fires before. */
  ghost predicate NotEarly(es: seq<Event>, clock: seq<Time>, k: nat, j: nat)
    requires |clock| == |es|
  {
    Submitted(es, k) && SubmittedBy(es, k) < j < |es| && es[j] == TimeUp(k) ==>
      clock[j] >= clock[SubmittedBy(es, k)] + TIMEOUT
  }

  /** What the runtime promises of its timers, when event i happens at clock[i] and
    * the clock now shows `now`. A timer that was cleared fires to no effect. */
  ghost predicate TimersRun(es: seq<Event>, clock: seq<Time>, now: Time) {
    && |clock| == |es|
    && (forall i, j | 0 <= i <= j < |es| :: clock[i] <= clock[j])
    && (forall k: nat :: FiresInTime(es, clock, now, k))
    && (forall k: nat, j: nat :: NotEarly(es, clock, k, j))
  }

  lemma {:induction false} TimeUpDecides(es: seq<Event>, k: nat, j: nat)
    requires Submitted(es, k) && SubmittedBy(es, k) < j < |es| && es[j] == TimeUp(k)
    ensures Verdict(es, k).Some?
  {
    StaysSubmitted(es, k, SubmittedBy(es, k) + 1, j);
    assert es[..j + 1][..j] == es[..j];
    assert Verdict(es[..j + 1], k).Some?;
    VerdictStands(es, k, j + 1, |es|);
    assert es[..|es|] == es;
  }

  /** Five seconds after its submission, every request has exactly one answer. */
  lemma {:induction false} AnsweredWithinFiveSeconds(es: seq<Event>, clock: seq<Time>, now: Time, k: nat)
    requires TimersRun(es, clock, now) && Submitted(es, k) && clock[SubmittedBy(es, k)] + 5 * SECOND <= now
    ensures |Run(es).calls[k].answers| == 1
  {
    assert FiresInTime(es, clock, now, k);
    var j :| SubmittedBy(es, k) < j < |es| && es[j] == TimeUp(k);
    TimeUpDecides(es, k, j);
    AnsweredExactlyOnce(es, k);
  }

  /** This event is about packet k. */
  predicate Concerns(e: Event, k: nat) {
    (e.Callback? && e.k == k) || e == TimeUp(k)
  }

  lemma {:induction false} OtherEventsDecideNothing(es: seq<Event>, e: Event, k: nat)
    requires Submitted(es, k) && !Concerns(e, k)
    ensures Verdict(es + [e], k) == Verdict(es, k) && Submitted(es + [e], k)
  {
    assert (es + [e])[..|es|] == es;
    CallsOnlyGrow(es, e);
  }

  lemma {:induction false} SubmissionDecidesNothing(es: seq<Event>, k: nat)
    requires Submitted(es, k) && es[SubmittedBy(es, k)] == Request(false)
    ensures var i := SubmittedBy(es, k); Verdict(es[..i + 1], k).None?
  {
    var i := SubmittedBy(es, k);
    assert es[..i + 1][..i] == es[..i];
    Unsubmitted(es[..i], k);
  }

  /** No event between lo and hi concerns packet k. */
  ghost predicate Quiet(es: seq<Event>, k: nat, lo: nat, hi: nat) {
    forall i: nat :: QuietAt(es, k, lo, hi, i)
  }

  ghost predicate QuietAt(es: seq<Event>, k: nat, lo: nat, hi: nat, i: nat) {
    lo < i < hi && i < |es| ==> !Concerns(es[i], k)
  }

  lemma {:induction false} QuietFront(es: seq<Event>, k: nat, lo: nat, hi: nat)
    requires Quiet(es, k, lo, hi) && lo + 1 < hi <= |es|
    ensures Quiet(es, k, lo, hi - 1) && !Concerns(es[hi - 1], k)
  {
    var last := hi - 1;
    forall i: nat ensures QuietAt(es, k, lo, last, i) {
      assert QuietAt(es, k, lo, hi, i);
    }
    assert QuietAt(es, k, lo, hi, hi - 1);
  }

  lemma {:induction false} NoVerdictYet(es: seq<Event>, k: nat, n: nat)
    requires Submitted(es, k) && es[SubmittedBy(es, k)] == Request(false) && SubmittedBy(es, k) < n <= |es|
    requires Quiet(es, k, SubmittedBy(es, k), n)
    ensures Verdict(es[..n], k).None? && Submitted(es[..n], k)
  {
    if n == SubmittedBy(es, k) + 1 {
      SubmissionDecidesNothing(es, k);
    } else {
      QuietFront(es, k, SubmittedBy(es, k), n);
      NoVerdictYet(es, k, n - 1);
      OtherEventsDecideNothing(es[..n - 1], es[n - 1], k);
      assert es[..n] == es[..n - 1] + [es[n - 1]];
    }
  }

  lemma {:induction false} CallbackDecides(es: seq<Event>, k: nat, j: nat)
    requires j < |es| && es[j].Callback? && es[j].k == k && Submitted(es[..j], k) && Verdict(es[..j], k).None?
    ensures Verdict(es[..j + 1], k) == Some(if es[j].err then Failed else Resolved)
  {
    assert es[..j + 1][..j] == es[..j];
  }

  /** The first word about a packet that was sent decides it, whatever comes later. */
  lemma {:induction false} FirstCallbackDecides(es: seq<Event>, k: nat, j: nat)
    requires Submitted(es, k) && es[SubmittedBy(es, k)] == Request(false)
    requires SubmittedBy(es, k) < j < |es| && es[j].Callback? && es[j].k == k
    requires Quiet(es, k, SubmittedBy(es, k), j)
    ensures Verdict(es, k) == Some(if es[j].err then Failed else Resolved)
  {
    NoVerdictYet(es, k, j);
    CallbackDecides(es, k, j);
    VerdictStands(es, k, j + 1, |es|);
    assert es[..|es|] == es;
  }

  /** A first callback within five seconds always decides: no timer is before it. */
  lemma {:induction false} TimelyCallbackDecides(es: seq<Event>, clock: seq<Time>, now: Time, k: nat, j: nat)
    requires TimersRun(es, clock, now) && Submitted(es, k) && es[SubmittedBy(es, k)] == Request(false)
    requires SubmittedBy(es, k) < j < |es| && es[j].Callback? && es[j].k == k
    requires forall i | SubmittedBy(es, k) < i < j :: !(es[i].Callback? && es[i].k == k)
    requires clock[j] < clock[SubmittedBy(es, k)] + 5 * SECOND
    ensures Run(es).calls[k].answers == [if es[j].err then Failed else Resolved]
  {
    var lo := SubmittedBy(es, k);
    forall i: nat ensures QuietAt(es, k, lo, j, i) {
      if lo < i < j {
        assert NotEarly(es, clock, k, i) && clock[i] <= clock[j];
      }
    }
    FirstCallbackDecides(es, k, j);
    ClosuresTell(es, k);
  }
}
