/** Alert occurrences, their append-only event log and the notification outbox. */
module AlertLog {
  import opened Wrappers
  import opened Clock
  import opened Conditions
  import opened Rules
  import opened RuleMachine

  datatype Receipt = Receipt(at: Time, actor: string, note: string)

  /** An alert's identifier is its index. */
  datatype Alert = Alert(
    rule: RuleId,
    version: int,
    kind: Kind,
    severity: Severity,
    openedAt: Time,
    resolvedAt: Option<Time>,
    receipt: Option<Receipt>)

  datatype Action = Opened | Escalated | Downgraded | Resolved | ConfigurationChanged | Acknowledged

  datatype Evidence =
    | LevelEvidence(id: nat, at: Time, value: real)
    | RiseEvidence(id: nat, at: Time, value: real, rate: real)
    | StaleEvidence(lastObservedAt: Option<Time>)

  datatype Details =
    | Transitioned(severity: Severity, conditionAt: Time, version: int, evidence: Evidence)
    | Reconfigured(newVersion: int)
    | Received(actor: string, note: string)

  datatype Event = Event(alert: nat, action: Action, details: Details)

  /** The outbox holds the identifiers of the events to deliver. */
  datatype Log = Log(alerts: seq<Alert>, events: seq<Event>, outbox: seq<nat>)

  function Append(log: Log, e: Event): Log {
    log.(events := log.events + [e],
         outbox := if e.action == Acknowledged then log.outbox else log.outbox + [|log.events|])
  }

  predicate IsActive(a: Alert, rid: RuleId, kind: Kind) {
    a.rule == rid && a.kind == kind && a.resolvedAt.None?
  }

  function FindActive(alerts: seq<Alert>, rid: RuleId, kind: Kind): (r: Option<nat>)
    ensures r.Some? ==> r.value < |alerts| && IsActive(alerts[r.value], rid, kind)
    ensures r.None? ==> forall i | 0 <= i < |alerts| :: !IsActive(alerts[i], rid, kind)
  {
    if |alerts| == 0 then None
    else if IsActive(alerts[|alerts| - 1], rid, kind) then Some(|alerts| - 1)
    else FindActive(alerts[..|alerts| - 1], rid, kind)
  }

  function Open(log: Log, a: Alert, details: Details): Log {
    Append(log.(alerts := log.alerts + [a]), Event(|log.alerts|, Opened, details))
  }

  function Grade(log: Log, i: nat, severity: Severity, details: Details): Log
    requires i < |log.alerts|
  {
    Append(log.(alerts := log.alerts[i := log.alerts[i].(severity := severity)]),
           Event(i, if severity == Critical then Escalated else Downgraded, details))
  }

  function Close(log: Log, i: nat, at: Time, action: Action, details: Details): Log
    requires i < |log.alerts|
  {
    Append(log.(alerts := log.alerts[i := log.alerts[i].(resolvedAt := Some(at))]), Event(i, action, details))
  }

  function Sign(log: Log, i: nat, receipt: Receipt): Log
    requires i < |log.alerts|
  {
    Append(log.(alerts := log.alerts[i := log.alerts[i].(receipt := Some(receipt))]),
           Event(i, Acknowledged, Received(receipt.actor, receipt.note)))
  }

  // ---------------------------------------------------------------- replaying the log

  /** What the events of one alert tell, read in order. */
  datatype Story =
    | Unborn
    | Known(severity: Severity, open: bool, acknowledged: bool)
    | Broken

  function Tell(s: Story, e: Event): Story {
    match (e.action, s)
    case (Opened, Unborn) =>
      if e.details.Transitioned? && e.details.severity != Normal then Known(e.details.severity, true, false) else Broken
    case (Escalated, Known(Warning, true, k)) => Known(Critical, true, k)
    case (Downgraded, Known(Critical, true, k)) => Known(Warning, true, k)
    case (Resolved, Known(v, true, k)) => Known(v, false, k)
    case (ConfigurationChanged, Known(v, true, k)) => Known(v, false, k)
    case (Acknowledged, Known(v, o, false)) => Known(v, o, true)
    case _ => Broken
  }

  function StoryOf(events: seq<Event>, i: nat): Story {
    if |events| == 0 then Unborn
    else
      var before, e := StoryOf(events[..|events| - 1], i), events[|events| - 1];
      if e.alert == i then Tell(before, e) else before
  }

  function Stored(a: Alert): Story {
    Known(a.severity, a.resolvedAt.None?, a.receipt.Some?)
  }

  /** The identifiers of all events that are not acknowledgments. */
  function Deliverable(events: seq<Event>): seq<nat> {
    if |events| == 0 then []
    else
      Deliverable(events[..|events| - 1])
      + if events[|events| - 1].action == Acknowledged then [] else [|events| - 1]
  }

  ghost predicate NamesAlert(log: Log, k: nat) {
    k < |log.events| ==> log.events[k].alert < |log.alerts|
  }

  ghost predicate AlertIsTold(log: Log, i: nat) {
    i < |log.alerts| ==> StoryOf(log.events, i) == Stored(log.alerts[i])
  }

  /** The log tells exactly the stored alerts, and the outbox holds exactly the
    * events that are not acknowledgments. */
  ghost predicate Faithful(log: Log) {
    && (forall k: nat :: NamesAlert(log, k))
    && (forall i: nat :: AlertIsTold(log, i))
    && log.outbox == Deliverable(log.events)
  }

  lemma {:induction false} AppendTells(events: seq<Event>, e: Event, i: nat)
    ensures StoryOf(events + [e], i) == if e.alert == i then Tell(StoryOf(events, i), e) else StoryOf(events, i)
    ensures Deliverable(events + [e]) == Deliverable(events) + if e.action == Acknowledged then [] else [|events|]
  {
    assert (events + [e])[..|events|] == events;
  }

  lemma {:induction false} StrangerIsUnborn(events: seq<Event>, i: nat)
    requires forall k | 0 <= k < |events| :: events[k].alert != i
    ensures StoryOf(events, i) == Unborn
  {
    if |events| > 0 {
      StrangerIsUnborn(events[..|events| - 1], i);
    }
  }

  /** One event and the matching row change keep the log faithful. */
  lemma {:induction false} AppendIsFaithful(log: Log, alerts: seq<Alert>, e: Event)
    requires Faithful(log) && |log.alerts| <= |alerts| && e.alert < |alerts|
    requires Tell(StoryOf(log.events, e.alert), e) == Stored(alerts[e.alert])
    requires forall i | 0 <= i < |alerts| && i != e.alert :: i < |log.alerts| && alerts[i] == log.alerts[i]
    ensures Faithful(Append(log.(alerts := alerts), e))
  {
    var after := Append(log.(alerts := alerts), e);
    forall i: nat ensures AlertIsTold(after, i) {
      assert AlertIsTold(log, i);
      AppendTells(log.events, e, i);
    }
    forall k: nat ensures NamesAlert(after, k) {
      assert NamesAlert(log, k);
    }
    AppendTells(log.events, e, 0);
  }

  lemma {:induction false} NoEventsYet(log: Log)
    requires Faithful(log)
    ensures StoryOf(log.events, |log.alerts|) == Unborn
  {
    forall k | 0 <= k < |log.events| ensures log.events[k].alert != |log.alerts| {
      assert NamesAlert(log, k);
    }
    StrangerIsUnborn(log.events, |log.alerts|);
  }

  lemma {:induction false} OpenIsFaithful(log: Log, a: Alert, details: Details)
    requires Faithful(log) && a.resolvedAt.None? && a.receipt.None? && a.severity != Normal
    requires details.Transitioned? && details.severity == a.severity
    ensures Faithful(Open(log, a, details))
  {
    NoEventsYet(log);
    AppendIsFaithful(log, log.alerts + [a], Event(|log.alerts|, Opened, details));
  }

  lemma {:induction false} GradeIsFaithful(log: Log, i: nat, severity: Severity, details: Details)
    requires Faithful(log) && i < |log.alerts| && log.alerts[i].resolvedAt.None?
    requires severity != Normal && log.alerts[i].severity != Normal && severity != log.alerts[i].severity
    ensures Faithful(Grade(log, i, severity, details))
  {
    assert AlertIsTold(log, i);
    AppendIsFaithful(log, log.alerts[i := log.alerts[i].(severity := severity)],
                     Event(i, if severity == Critical then Escalated else Downgraded, details));
  }

  lemma {:induction false} CloseIsFaithful(log: Log, i: nat, at: Time, action: Action, details: Details)
    requires Faithful(log) && i < |log.alerts| && log.alerts[i].resolvedAt.None?
    requires action == Resolved || action == ConfigurationChanged
    ensures Faithful(Close(log, i, at, action, details))
  {
    assert AlertIsTold(log, i);
    AppendIsFaithful(log, log.alerts[i := log.alerts[i].(resolvedAt := Some(at))], Event(i, action, details));
  }

  lemma {:induction false} SignIsFaithful(log: Log, i: nat, receipt: Receipt)
    requires Faithful(log) && i < |log.alerts| && log.alerts[i].receipt.None?
    ensures Faithful(Sign(log, i, receipt))
  {
    assert AlertIsTold(log, i);
    AppendIsFaithful(log, log.alerts[i := log.alerts[i].(receipt := Some(receipt))],
                     Event(i, Acknowledged, Received(receipt.actor, receipt.note)));
  }

  // ---------------------------------------------------------------- the grammar of an alert

  /** The events of alert i other than acknowledgments. */
  function ActionsOf(events: seq<Event>, i: nat): seq<Action> {
    if |events| == 0 then []
    else
      var e := events[|events| - 1];
      ActionsOf(events[..|events| - 1], i) + if e.alert == i && e.action != Acknowledged then [e.action] else []
  }

  function AcknowledgmentsOf(events: seq<Event>, i: nat): nat {
    if |events| == 0 then 0
    else
      var e := events[|events| - 1];
      AcknowledgmentsOf(events[..|events| - 1], i) + if e.alert == i && e.action == Acknowledged then 1 else 0
  }

  predicate IsGrading(a: Action) { a == Escalated || a == Downgraded }

  predicate IsClosing(a: Action) { a == Resolved || a == ConfigurationChanged }

  /** Opened, then strictly alternating escalations and downgrades. */
  ghost predicate OpenShape(xs: seq<Action>) {
    && |xs| > 0 && xs[0] == Opened
    && (forall k | 1 <= k < |xs| :: IsGrading(xs[k]))
    && (forall j, k | 1 <= j && k == j + 1 < |xs| :: xs[j] != xs[k])
  }

  ghost predicate ClosedShape(xs: seq<Action>) {
    |xs| > 0 && IsClosing(xs[|xs| - 1]) && OpenShape(xs[..|xs| - 1])
  }

  /** The last grading of an open alert tells its severity. */
  ghost predicate EndsAt(xs: seq<Action>, s: Severity) {
    |xs| > 1 ==> (xs[|xs| - 1] == Escalated <==> s == Critical) && (xs[|xs| - 1] == Downgraded <==> s == Warning)
  }

  /** A story that is not broken has one opening, then strictly alternating
    * escalations and downgrades, then at most one closing event; and at most one
    * acknowledgment. */
  lemma {:induction false} StoryHasShape(events: seq<Event>, i: nat)
    ensures var xs := ActionsOf(events, i);
            match StoryOf(events, i)
            case Unborn => xs == [] && AcknowledgmentsOf(events, i) == 0
            case Known(s, open, acknowledged) =>
              && s != Normal
              && (if open then OpenShape(xs) && EndsAt(xs, s) else ClosedShape(xs))
              && AcknowledgmentsOf(events, i) == (if acknowledged then 1 else 0)
            case Broken => true
  {
    if |events| > 0 {
      var front, e := events[..|events| - 1], events[|events| - 1];
      StoryHasShape(front, i);
      var xs := ActionsOf(front, i);
      assert (xs + [e.action])[..|xs|] == xs;
    }
  }

  /** Each event except acknowledgments has exactly one outbox row. */
  lemma {:induction false} DeliverableIsExact(events: seq<Event>)
    ensures forall k: nat :: k in Deliverable(events) <==> k < |events| && events[k].action != Acknowledged
    ensures forall i, j | 0 <= i < j < |Deliverable(events)| :: Deliverable(events)[i] < Deliverable(events)[j]
  {
    if |events| > 0 {
      DeliverableIsExact(events[..|events| - 1]);
      var d := Deliverable(events[..|events| - 1]);
      assert forall i | 0 <= i < |d| :: d[i] in d;
    }
  }

  // ---------------------------------------------------------------- what the log reports of a rule

  /** The severity changes recorded for a rule, oldest first. */
  function Reported(log: Log, rid: RuleId): seq<Change> {
    ReportedIn(log.alerts, log.events, rid)
  }

  function ReportedIn(alerts: seq<Alert>, events: seq<Event>, rid: RuleId): seq<Change> {
    if |events| == 0 then []
    else
      var e := events[|events| - 1];
      ReportedIn(alerts, events[..|events| - 1], rid)
      + if e.details.Transitioned? && e.alert < |alerts| && alerts[e.alert].rule == rid
        then [Change(alerts[e.alert].kind, e.details.severity, e.details.conditionAt)] else []
  }

  /** Alerts keep their rule and kind; new ones only come at the end. */
  ghost predicate SameSubjects(a: seq<Alert>, b: seq<Alert>) {
    |a| <= |b| && forall i | 0 <= i < |a| :: a[i].rule == b[i].rule && a[i].kind == b[i].kind
  }

  lemma {:induction false} ReportStands(a: seq<Alert>, b: seq<Alert>, events: seq<Event>, rid: RuleId)
    requires SameSubjects(a, b) && forall k | 0 <= k < |events| :: events[k].alert < |a|
    ensures ReportedIn(a, events, rid) == ReportedIn(b, events, rid)
  {
    if |events| > 0 {
      ReportStands(a, b, events[..|events| - 1], rid);
    }
  }

  lemma {:induction false} AppendReports(log: Log, alerts: seq<Alert>, e: Event, rid: RuleId)
    requires Faithful(log) && SameSubjects(log.alerts, alerts) && e.alert < |alerts|
    ensures Reported(Append(log.(alerts := alerts), e), rid)
            == Reported(log, rid)
               + if e.details.Transitioned? && alerts[e.alert].rule == rid
                 then [Change(alerts[e.alert].kind, e.details.severity, e.details.conditionAt)] else []
  {
    assert (log.events + [e])[..|log.events|] == log.events;
    forall k | 0 <= k < |log.events| ensures log.events[k].alert < |log.alerts| {
      assert NamesAlert(log, k);
    }
    ReportStands(log.alerts, alerts, log.events, rid);
  }
}
