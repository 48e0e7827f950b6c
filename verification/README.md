# DanuBaaS: a verified model of its stateful core

DanuBaaS collects water-level observations, keeps them in an append-only
registry, raises alerts on them and notifies an operator. This project models
the parts of it whose correctness depends on state shared between several
functions, and proves what those parts promise:

- **the alert evaluator** of the database (`Conditions`, `Thresholds`, `Rules`,
  `Readings`, `RuleMachine`, `RuleTheorems`, `RuleHistory`, `AlertLog`, `AlertDb`,
  `AlertInvariant`, `AlertRuns`, `RuleChanges`, `AlertHistory`,
  `EvaluationTheorems`, `EvidenceTheorems`, `AlertStore`, `SystemTheorems`):
  thresholds, hysteresis, hold, rates, staleness, bounded batches, rule edits,
  acknowledgments, the event log and its outbox;
- **the observation registry** and its two write routes (`Timestamps`, `Rfc3339`,
  `Observations`, `CanonicalForm`, `Registry`, `Routes`, `RegistryStore`,
  `Publishing`, `Documents`, `Records`), with the writers' lock (`Writers`) and
  the readers that rely on it (`Paging`, `ListCheck`, `Dashboard`, and for the
  evaluator `WrittenReadings`);
- **the notification outbox** as a lease protocol (`Outbox`, `OutboxProtocol`),
  joined to the event log that fills it (`Notifications`);
- **the JSON gate** of the API (`JsonGate`) and **the MQTT publisher** of
  Node-RED (`Publisher`).

Check everything with `dafny verify dfyconfig.toml`.

## How it is built

What the program changes in place is a class: `AlertStore.Store` (the alerting
tables), `RegistryStore.Store` (events, measurements, the identity sequence and
the quarantine), `Outbox.Database`, `Dashboard.Node`, `JsonGate.Decoder` with the
recursive walk over it, and `Publisher.Ingestion`. Every method of theirs is
proved to do exactly what a function on values says, and the results are proved
about those functions, over every run. A run is an arbitrary sequence of steps
of any number of participants: `AlertRuns.Op`, `Writers.Step`,
`Dashboard.Step`, `OutboxProtocol.Step`, `Publisher.Event`.

Time is an integer number of microseconds and measured values are exact reals.
Rule identifiers are numbered in the database's text order, and alerts, events
and outbox rows are identified by their position. A pending severity and its
start are always written together and are one optional pair.

`AlertRuns` proves the alerting invariant over every interleaving of commits,
evaluations, saves, seedings and acknowledgments. `RuleFollowsItsMachine` shows
that between two changes of a rule the tables do for it exactly what the state
machine of `RuleMachine` does, so the results of `RuleTheorems` and `RuleHistory`
hold of the running system; `SystemTheorems` states the central ones that way:
which readings are accepted, and that the unresolved alerts follow the accepted
readings, told by their times and values alone.

Five results are exact conditions because the plain promise is false:

- `Registry.PutRefinesReference`: the in-memory store of the API tests accepts a
  batch that gives one new identifier two contents, `Put` refuses it
  (`Records.TheStoresDiffer` is such a batch). They agree exactly on the batches
  that are consistent or contradict a stored record; the API sends no other.
- `Documents.BodiesDifferExactly`: the two routes do not accept the same
  documents. The API's gate refuses repeated keys and deep nesting, the trigger
  has no gate; the API checks the year as written, the trigger checks it in UTC;
  and the API takes fraction digits after the sixth if they make whole
  microseconds, the trigger takes none. One route accepts the document of an
  observation and the other rejects it exactly if it passes the checks they
  share and either does not pass the gate, with a timestamp that the trigger
  takes, or passes it with a timestamp that splits them
  (`Observations.VerdictsDifferExactly`): one of at most six fraction digits that
  its offset carries across the start of 1970, or one with more that make whole
  microseconds, in a written year from 1970 on and a UTC year up to 9999.
  `Documents.RepeatedKeySplits`, `Documents.DeepMetadataSplit` (with the input
  `Documents.NewYearIsWritten`), `Observations.RoutesDisagreeBeforeEpoch` and
  `Observations.RoutesDisagreeOnSevenDigits` are such documents.
- `Records.ObservationIsFixed`: a record that the API answers with is refused by
  both routes as it is (`Records.ResponseIsRefused`), since it has two members
  more than an observation. Without them it is the same entry again exactly if
  its UTC year is not before 1970. Reading it back is not concerned: `Get` returns
  the value that was put, of whatever year (`Records.ReturnedAsPut`).
- `RuleTheorems.UsedThoughStale`: `docs/alerting.md` says that readings that are
  already stale are skipped. The code (`004_alerting.sql:180` and `206`) uses
  one that its own verdict counts as stale exactly if it is just as old as the
  limit; `RuleTheorems.LimitReading` is one, and it opens a stale alert in the
  run that accepts it. The model follows the code, and
  `RuleTheorems.BatchingIsTransparent` therefore asks for freshness after the
  first waiting reading.

- `Thresholds.OpensExactly`: `docs/alerting.md:32` and `70` say that water at or above
  the warning threshold for the hold opens an alert. The code
  (`004_alerting.sql:136-140`) starts the hold again whenever the pending severity
  changes, so it opens one exactly if the water stays in one zone, between the
  thresholds or above critical, for the hold. `Thresholds.TurnsOpenNothing` is water
  that crosses the critical threshold back and forth and never opens an alert.

Every lemma switches automatic induction off, so each inductive step is written
out.

## Model

| member | source | states |
|---|---|---|
| Conditions.ClassifyIsExact | internal/postgres/migrations/004_alerting.sql:117-122 | A severity is reached exactly by values at or above its threshold, and by values no more than the hysteresis below it while it, or a higher one, was reached before |
| Conditions.PendingIsTheRun | internal/postgres/migrations/004_alerting.sql:130-140 | After any samples and breaks, a condition that waits has waited exactly since the start of the maximal unbroken run of samples classified as its pending severity |
| Conditions.HoldIsExact | internal/postgres/migrations/004_alerting.sql:124-157 | A sample raises the severity to its target exactly if the maximal unbroken run of samples with that target ending there spans at least the hold; recovery and downgrade happen at once |
| Conditions.NoChatter | internal/postgres/migrations/004_alerting.sql:117-122 | While samples span no more than the hysteresis, the severity changes at most twice and only in one direction, for any hold and any breaks |
| Conditions.ChangesGoOneWay | internal/postgres/migrations/004_alerting.sql:117-122 | Told by the changes themselves: from the first severity to the last they go strictly up or strictly down, so at most two of them |
| Thresholds.OpensExactly | internal/postgres/migrations/004_alerting.sql:130-140 | Samples that stay at or above the warning threshold open a calm condition exactly if somewhere among them one zone, from warning up to critical or from critical up, is held without a break for the whole hold |
| Thresholds.HeldIsReached | internal/postgres/migrations/004_alerting.sql:124-157 | From any state, values that stay in the zone of a severity for the whole hold have reached at least that severity |
| Thresholds.LowIsCalm | internal/postgres/migrations/004_alerting.sql:117-157 | A value below the warning threshold by more than the hysteresis, or below it when nothing was abnormal, leaves the condition calm at once |
| Thresholds.TurnsOpenNothing | internal/postgres/migrations/004_alerting.sql:136-140 | Samples at the warning and at the critical threshold by turns, each less than the hold after the one before, open nothing however long they last |
| Readings.LaterCommitsWait | internal/postgres/migrations/004_alerting.sql:167-176 | Readings committed after the high mark was read never enter the batch of that run |
| Readings.WaitingSplit | internal/postgres/migrations/004_alerting.sql:172-178 | Taking the first waiting readings and moving the cursor to the last of them leaves exactly the others waiting |
| Readings.SortedIsUnique | internal/postgres/migrations/004_alerting.sql:177 | Ordering a batch by observation time and identifier gives one result, whatever the order of arrival |
| Readings.BaselineIsEarliest | internal/postgres/migrations/004_alerting.sql:189-193 | The baseline is the earliest committed water level of the sensor between the minimum and the window before the reading, and of several at that time the one with the lowest identifier |
| Readings.RateIsExact | internal/postgres/migrations/004_alerting.sql:194-195 | There is a rate exactly if there is a baseline, and rate times the time between the two readings is their difference in level times the period |
| Readings.RisingIsPositive | internal/postgres/migrations/004_alerting.sql:195 | The rate is positive exactly if the reading is above its baseline |
| Readings.BaselineIgnoresOrder | internal/postgres/migrations/004_alerting.sql:189-193 | The baseline of the rate of rise depends on which observations are committed, not on the order in which they came |
| RuleMachine.RunIsReplay | internal/postgres/migrations/004_alerting.sql:178-210 | The level and rise conditions after any run are the replay of the samples and breaks that the run's readings, gaps, missing baselines and stale verdicts amount to |
| RuleTheorems.LevelHoldIsExact | internal/postgres/migrations/004_alerting.sql:178-188 | After any history since a rule change, an accepted reading opens or escalates the level condition exactly if the unbroken run of its classification spans the hold; skipped readings and repeated evaluations neither extend nor break it |
| RuleTheorems.RiseHoldIsExact | internal/postgres/migrations/004_alerting.sql:189-201 | The same for the rise condition, where a missing baseline also breaks the run |
| RuleTheorems.AcceptedTimesIncrease | internal/postgres/migrations/004_alerting.sql:179-183 | Observation times of accepted readings strictly increase over any run, and the stored last reading is the latest of them |
| RuleTheorems.UsedThoughStale | internal/postgres/migrations/004_alerting.sql:179-206 | A reading that the loop uses counts as stale for the verdict exactly if it is just as old as the limit |
| RuleTheorems.LimitReading | internal/postgres/migrations/004_alerting.sql:179-206 | A reading of that age is accepted and raises the stale condition in the same run |
| RuleTheorems.TiesGoToTheLowestId | internal/postgres/migrations/004_alerting.sql:177-181 | Of usable readings with the same observation time in one run, only the one with the lowest identifier is accepted |
| RuleTheorems.ArrivalOrderIsIrrelevant | internal/postgres/migrations/004_alerting.sql:172-202 | Permuting the arrival order of at most 1000 waiting readings leaves every condition, the last reading and every reported change as it is |
| RuleTheorems.CursorAfterEvaluation | internal/postgres/migrations/004_alerting.sql:172-178 | Although readings are handled in observation-time order, a run moves the cursor exactly to the last arrival it took |
| RuleTheorems.BatchIsInterval | internal/postgres/migrations/004_alerting.sql:172-178 | What a run takes is exactly what waits between the old cursor and the new one |
| RuleTheorems.ExaminedExactlyOnce | internal/postgres/migrations/004_alerting.sql:166-178 | Over any number of runs on a growing registry, the readings taken are exactly the sensor's committed readings from the starting cursor to the current one, each once and in sequence order |
| RuleTheorems.DrainsInCeilingRuns | internal/postgres/migrations/004_alerting.sql:172-178 | After k runs the backlog has shrunk by exactly 1000 k readings, down to none |
| RuleTheorems.RepeatIsIdle | internal/postgres/migrations/004_alerting.sql:204-210 | Repeating a run at the same time with nothing waiting changes no condition and reports nothing |
| RuleTheorems.BatchingIsTransparent | internal/postgres/migrations/004_alerting.sql:172-207 | Cutting an orderly, fresh backlog into runs of any positive sizes gives the same level and rise conditions, progress and level and rise changes as one run over all of it |
| RuleTheorems.LevelDoesNotChatter | internal/postgres/migrations/004_alerting.sql:186-188 | Over any run in which accepted values span no more than the level hysteresis, the recorded level changes are at most two and lead strictly up or strictly down to the final severity |
| RuleTheorems.RiseDoesNotChatter | internal/postgres/migrations/004_alerting.sql:195-198 | The same for the recorded rise changes and the rates of rise |
| RuleHistory.AcceptedExactly | internal/postgres/migrations/004_alerting.sql:179-202 | Over any history since a rule change, a reading is accepted exactly if it is a water level in metres, not from before the rule, not from the future, not older than the stale limit and later than all accepted so far, and it is stored with its own identifier and value |
| RuleHistory.TicksExactly | internal/postgres/migrations/004_alerting.sql:183-208 | What the level and rise conditions see of each input: a sample for each accepted reading or rate, a break before it exactly after more than the stale limit, a break for a missing baseline and for each verdict of silence |
| RuleHistory.HoldSpansNoGap | internal/postgres/migrations/004_alerting.sql:183-185 | No hold is measured over a gap: in an unbroken run each reading follows the one before within the stale limit |
| RuleHistory.LevelFollows | internal/postgres/migrations/004_alerting.sql:185-188 | After any history the level severity is the one the zones of the accepted readings give: held zones are reached, a stretch above warning opens exactly if it held a zone, a low last value is normal |
| RuleHistory.RiseFollows | internal/postgres/migrations/004_alerting.sql:194-201 | The same of the rise severity and the rates |
| RuleHistory.StaleIsSilence | internal/postgres/migrations/004_alerting.sql:206-210 | A verdict leaves the stale condition at a warning exactly if the last accepted reading, or else the rule change, is at least the stale limit ago, and no other severity touched |
| RuleHistory.AcceptedWereFound | internal/postgres/migrations/004_alerting.sql:172-182 | Every accepted reading was committed when some evaluation ran, for the rule's sensor, as a water level in metres, and was then neither older than the rule or the stale limit nor from the future |
| AlertLog.AppendIsFaithful | internal/postgres/migrations/006_measurement_ranges.sql:27-41 | An event recorded with the matching change of its alert row keeps the log replayable and the outbox complete |
| AlertLog.StoryHasShape | internal/postgres/migrations/004_alerting.sql:142-155 | A replayable log has, per alert, one opening, strictly alternating escalations and downgrades, at most one closing event and at most one acknowledgment |
| AlertLog.DeliverableIsExact | internal/postgres/migrations/006_measurement_ranges.sql:37-40 | The outbox holds every event that is not an acknowledgment, exactly once |
| AlertInvariant.TransitionAdvances | internal/postgres/migrations/004_alerting.sql:124-157 | A transition advances exactly one condition, and touches alerts, events and outbox exactly if the severity changes |
| AlertInvariant.TransitionKeepsInv | internal/postgres/migrations/004_alerting.sql:124-157 | A transition with the evidence it needs keeps the whole alerting invariant |
| AlertInvariant.RunTells | internal/postgres/migrations/004_alerting.sql:178-210 | The events a turn of the rule loop writes are exactly the severity changes of that rule's machine, and none for another rule |
| AlertInvariant.ChangeRuleKeepsInv | internal/postgres/migrations/004_alerting.sql:98-113 | A rule change closes the rule's unresolved alerts, resets its conditions and cursor and keeps the invariant |
| AlertInvariant.SnapshotsGrow | internal/postgres/migrations/004_alerting.sql:82-103 | The next version of a rule extends its snapshots by one and changes none |
| AlertInvariant.AcknowledgeKeeps | internal/postgres/migrations/004_alerting.sql:218-226 | An acknowledgment keeps the invariant: it changes no severity and resolves nothing |
| AlertRuns.EvaluateAllIsPerRule | internal/postgres/migrations/004_alerting.sql:166-211 | An evaluation gives every enabled rule exactly one turn of its own machine and leaves every other rule alone |
| AlertRuns.AbnormalExactlyWhenAlerted | internal/postgres/migrations/004_alerting.sql:40-49 | In every reachable state a condition is abnormal exactly if an unresolved alert of its kind exists, and then exactly one does, with the same severity and the rule's current version |
| AlertRuns.IndexNeverViolated | internal/postgres/migrations/004_alerting.sql:49 | In every reachable state no two unresolved alerts share a rule and a kind |
| AlertRuns.LogReconstructsAlerts | internal/postgres/migrations/004_alerting.sql:104-156 | In every reachable state replaying an alert's events gives its stored severity, open and acknowledged status, the events have the shape above, and each event but acknowledgments has exactly one outbox row |
| AlertRuns.EventsCarryEvidence | internal/postgres/migrations/004_alerting.sql:185-207 | Every opening or escalation in a reachable log carries a value or rate, of the time it is dated, at or above the threshold that the rule snapshot it names sets for that severity, or a last reading (or rule change) at least the stale limit of that snapshot ago |
| AlertRuns.SnapshotsAreTheHistory | internal/postgres/migrations/004_alerting.sql:98-103 | In every reachable state the snapshots of a rule are exactly versions 1 to current, and the last is the live rule |
| AlertRuns.RunEvolves | internal/postgres/alerts.go:19-73 | Along every run versions only go up, a rule row changes only with its version, and no snapshot is ever changed |
| AlertRuns.SeedingAltersNothing | internal/postgres/alerts.go:41-45 | Seeding a rule never alters an existing one, and does nothing at all if it exists |
| AlertRuns.SeedAllIsARun | internal/postgres/alerts.go:100-105 | Loading a file with nobody in between is a run of single seedings, each its own transaction, up to the first that fails |
| AlertRuns.OneSavePerVersion | internal/postgres/alerts.go:35-48 | Of all saves of a rule that expect the same version, in any run, at most one is accepted |
| AlertRuns.ChangedRuleIsReset | internal/postgres/migrations/004_alerting.sql:104-111 | After an accepted save the rule is calm, has no last reading and no unresolved alert, and its cursor stands at the highest committed sequence |
| RuleChanges.ValidationIsExact | internal/alerts/rule.go:87-106 | The API's validation accepts exactly the parameters that the table's constraints accept |
| RuleChanges.SaveSucceedsExactly | internal/postgres/alerts.go:19-73 | A save succeeds exactly if it is valid and the caller has the live version and keeps the sensor, or brings a new rule for a free one; it conflicts exactly if it is valid and the version is not the live one or the sensor is taken; an accepted one stores the given parameters under the next version, any other changes nothing |
| RuleChanges.LiveSaveIsAccepted | internal/postgres/alerts.go:46-73 | In the running system whoever saves valid parameters with the live version and sensor gets them stored under the next version |
| RuleChanges.FirstSaveIsAccepted | internal/postgres/alerts.go:46-48 | Of the saves in a run that expect one live version, the first valid one is accepted |
| RuleChanges.SaveRetires | internal/postgres/migrations/004_alerting.sql:104-106 | An accepted edit resolves, at its own time, exactly its rule's unresolved alerts, each with one event that names the new version |
| RuleChanges.SeedsSucceedExactly | internal/postgres/alerts.go:86-106 | A file of initial rules goes through exactly if it has at most a thousand valid rules of version 0 with different identifiers and sensors, and each exists or finds its sensor free; then every rule of the file exists, as it was or as the file has it |
| AlertRuns.RuleFollowsItsMachine | internal/postgres/migrations/004_alerting.sql:161-213 | Between two changes of a rule, whatever else happens, its conditions, cursor, last reading and events are those of its own machine evaluated at the registries it saw |
| AlertHistory.StepExplains | internal/postgres/migrations/004_alerting.sql:141-157 | Only an evaluation opens or grades alerts, only an evaluation or a save of the rule resolves them, at its own time, only an acknowledgment gives a receipt, its own; nothing is ever undone |
| AlertHistory.DatesAreExplained | internal/postgres/migrations/004_alerting.sql:40-48 | In every reachable state each date and the receipt of an alert are those of an operation of the run |
| AlertHistory.AlertsStay | internal/postgres/migrations/004_alerting.sql:40-48 | Along every run an alert keeps its rule, version, kind and opening time, once resolved its resolution and severity, and once acknowledged its first receipt |
| AlertHistory.AcknowledgedOnce | internal/postgres/migrations/004_alerting.sql:218-226 | An acknowledgment fails exactly if its receipt is invalid, tells exactly if the alert exists, and only the first gives it its receipt, with one event |
| EvidenceTheorems.EvidenceIsReal | internal/postgres/migrations/004_alerting.sql:185-207 | Every transition in a reachable log shows evidence of its own kind that names a committed water level of the rule's sensor with its time and value, and for the rise condition the rate it had among the readings committed then |
| EvidenceTheorems.StoredLastIsReal | internal/postgres/migrations/004_alerting.sql:202-205 | The stored last reading of every rule is a committed water level of its sensor |
| SystemTheorems.RuleIsItsHistory | internal/postgres/migrations/004_alerting.sql:98-213 | From an accepted save to the next change, a rule's state and its events are the outcome of exactly what it has been given since |
| SystemTheorems.HoldIsExactInTheSystem | internal/postgres/migrations/004_alerting.sql:124-213 | In the running system, at every reading accepted since the save, level and rise take a higher severity exactly if the unbroken run spans the hold |
| SystemTheorems.ExaminedExactlyOnceInTheSystem | internal/postgres/migrations/004_alerting.sql:104-205 | In the running system every committed reading of the rule's sensor since the save, up to its cursor, has been examined exactly once |
| SystemTheorems.AlertsFollowReadings | internal/postgres/migrations/004_alerting.sql:178-202 | The converse of the evidence: in the running system the unresolved level alert follows the accepted readings and the rise alert their rates, in both directions, with at least the severity of every zone that was held |
| SystemTheorems.SeenIsNear | internal/postgres/migrations/004_alerting.sql:183-185 | In the running system neighbouring samples of a hold are in order and at most the stale limit apart |
| SystemTheorems.AcceptedAreCommitted | internal/postgres/migrations/004_alerting.sql:173-182 | Every reading accepted in the running system is a committed water level of the rule's sensor that some evaluation since the save found timely |
| SystemTheorems.StaleAlertIsSilence | internal/postgres/migrations/004_alerting.sql:206-210 | After each evaluation of an enabled rule it has an unresolved stale alert exactly if its last accepted reading, or else its save, is at least the stale limit ago |
| EvaluationTheorems.EvaluationIgnoresArrivalOrder | internal/postgres/migrations/004_alerting.sql:161-213 | Permuting the arrival order of readings that one run handles leaves every table as it is, alert rows, events with their evidence and outbox included, except for the cursors |
| EvaluationTheorems.RepetitionChangesNothing | internal/postgres/migrations/004_alerting.sql:161-213 | Repeating an evaluation at the same time, when no more waited than one run handles, changes no table at all |
| EvaluationTheorems.RepeatedEvaluation | internal/postgres/migrations/004_alerting.sql:161-213 | The same in any run of the system: the second of two such evaluations is no step |
| EvaluationTheorems.BatchingLeavesTheSameTables | internal/postgres/migrations/004_alerting.sql:172-207 | Cutting an orderly, fresh backlog into turns of any positive sizes leaves the same rules, versions, progress, level and rise conditions, level and rise alerts, and the same events about them with their evidence, in the same order, as one turn over all of it |
| AlertStore.Store.DoTransition | internal/postgres/migrations/004_alerting.sql:124-157 | Updating the rows in place does what the transition function says |
| AlertStore.Store.HandleBatch | internal/postgres/migrations/004_alerting.sql:172-203 | The reading loop, with the rule's progress held locally, does what the rule machine does with the batch |
| AlertStore.Store.EvaluateRule | internal/postgres/migrations/004_alerting.sql:169-210 | One turn of the rule loop: bounded batch in observation-time order, stored progress, staleness verdict |
| AlertStore.Store.Evaluate | internal/postgres/migrations/004_alerting.sql:161-213 | The whole evaluation: nothing while another transaction holds the lock, otherwise every enabled rule in identifier order |
| AlertStore.Store.RuleChanged | internal/postgres/migrations/004_alerting.sql:98-113 | The loop over the rule's unresolved alerts, and the reset, do what the rule-change function says |
| AlertStore.Store.Save | internal/postgres/alerts.go:19-73 | The optimistic save with all its errors: invalid, conflicting version, taken sensor, changed sensor |
| AlertStore.Store.LoadSeeds | internal/postgres/alerts.go:74-106 | The file is checked whole, then rules are saved one by one until one fails |
| AlertStore.Store.DoAcknowledge | internal/postgres/migrations/004_alerting.sql:218-226 | An acknowledgment is written at most once, with its event, and an invalid one changes nothing |
| Timestamps.ThreeTrimsAgree | internal/postgres/migrations/003_optional_locations.sql:131-132 | The leftmost regular-expression trim, stripping zeros and then dots, and the short fraction of the API agree on every seconds text and fraction, also when the seconds end in 0 |
| Timestamps.OneCanonicalText | deploy/scripts/e2e.py:69-76 | The API, the database and the end-to-end client write every valid UTC date and time with the same text, whatever its seconds and fraction end in |
| Timestamps.CanonicalTextReadsBack | internal/sensor/value.go:79-83 | The canonical text of every valid UTC date and time reads back as exactly those fields, with no digits lost or left over |
| Timestamps.CanonicalTextIsInjective | internal/postgres/migrations/003_optional_locations.sql:131-132 | Two timestamps, whatever their offsets, have the same canonical text exactly if they are the same instant |
| Timestamps.CivilIsUnique | internal/postgres/migrations/003_optional_locations.sql:131-132 | An instant has exactly one valid date and time in UTC, the one the canonical text shows |
| Rfc3339.ZoneIsExact | internal/postgres/migrations/003_optional_locations.sql:77-80 | A zone is read exactly as Z for no offset, +hh:mm for so much east and -hh:mm for so much west |
| Rfc3339.SignedMeans | internal/postgres/migrations/003_optional_locations.sql:77-80 | For every hour below 24 and minute below 60, -hh:mm is so many minutes west of UTC and +hh:mm so many east |
| Rfc3339.ReadIsExact | internal/sensor/value.go:76-83 | A text is read exactly if it is, by the grammar, a valid date and time with a fraction and a zone, and then with these fields, the first six fraction digits as microseconds and the others kept apart |
| Rfc3339.EveryStampReadsBack | internal/sensor/value.go:79-83 | Every valid date and time with any offset reads back from its text |
| Rfc3339.OffsetsShift | internal/postgres/migrations/003_optional_locations.sql:80-83 | Both routes take a text with an offset for the instant that lies by so much earlier as it is east of UTC, or later as it is west, than the same text with Z |
| Rfc3339.WholeMicrosExactly | internal/sensor/value.go:79-82 | The check for lost precision passes exactly if the nanoseconds are a multiple of a thousand |
| Rfc3339.InstantIsUnixTime | internal/postgres/migrations/003_optional_locations.sql:80 | Instants are Unix time in microseconds, by the closed formula of the Gregorian calendar |
| Observations.IdIsUuid | internal/sensor/value.go:21 | An identifier is valid exactly if it is five groups of lower-case hexadecimal digits with hyphens between them |
| Observations.IdentifierIsPattern | internal/sensor/value.go:22 | A name is valid exactly if it is a letter or digit followed by at most 127 letters, digits and the marks of the pattern |
| Observations.UnitIsTrimmed | internal/sensor/value.go:87-89 | A unit is valid exactly if it has 1 to 32 characters and trimming white space leaves it as it is |
| Observations.MarshalIsConcatenate | internal/postgres/migrations/003_optional_locations.sql:133-147 | Marshalling with omitted empty fields and concatenating optional members give the same document |
| Observations.ChecksAgree | internal/sensor/value.go:63-117 | Apart from the timestamp, both routes make the same checks on every document |
| Observations.RangesAgree | internal/postgres/migrations/006_measurement_ranges.sql:3-14 | The range check of the API and the table constraint accept the same metadata and values |
| Observations.RoutesAgree | internal/postgres/migrations/003_optional_locations.sql:94-147 | On every document both routes accept they write the same event payload and the same measurement row, whatever the offset, null or missing locations, empty gateway, null or empty metadata |
| Observations.VerdictsDifferExactly | internal/postgres/migrations/003_optional_locations.sql:76-83 | For every decoded document: one route accepts it and the other rejects it exactly if it passes the checks they share and its timestamp crosses the start of 1970 by its offset, or has more than six fraction digits that make whole microseconds, in a written year from 1970 on and a UTC year up to 9999 |
| Observations.TriggerStoresItsValue | internal/postgres/migrations/003_optional_locations.sql:94-147 | Whatever the trigger accepts it stores as the API would store the value that it decodes from the document, also where the API would refuse the year |
| Observations.RoutesDisagreeBeforeEpoch | internal/sensor/value.go:76-83 | A whole document, of 1970 as written and 1969 in UTC, that the API accepts and the trigger rejects |
| Observations.RoutesDisagreeOnSevenDigits | internal/sensor/value.go:79-82 | A whole document, with a seventh fraction digit that is zero, that the API accepts and the trigger rejects |
| CanonicalForm.CanonicalFields | internal/sensor/value.go:76-83 | Both routes read the canonical text of any UTC date and time as its instant, and refuse it exactly if the year is before 1970 |
| CanonicalForm.CanonicalDecodes | internal/postgres/store.go:150-162 | Decoding a stored payload gives back the very value it was made from, whatever its year |
| CanonicalForm.CanonicalFormIsFixed | internal/sensor/value.go:46-117 | The payload stored for an accepted request is, sent in again through either route, the very same entry if its UTC year is not before 1970, and refused by both otherwise |
| Records.BothRoutesKeepHolding | internal/postgres/store.go:105-142 | Whatever comes in through either route, every event of the registry holds a value and its measurement has exactly that value's columns |
| Records.EveryRowReadsBack | internal/postgres/store.go:163-182 | Every event of such a registry decodes to the value it holds, and its measurement is that value's |
| Records.ReturnedAsPut | internal/postgres/store.go:150-162 | In any later registry that the routes leave, the row found under the identifier of an observation that POST stored decodes to the very value that was sent, whatever its year, and its measurement is that value's |
| Records.ReturnedAsIngested | internal/postgres/store.go:150-162 | The same for what the trigger stored |
| Records.ResponseIsRefused | internal/sensor/value.go:119-123 | No record as the API answers with it can be sent in again, through either route |
| Records.ObservationIsFixed | internal/sensor/value.go:119-123 | Without its sequence and receipt time it is, through either route, the very same entry if its UTC year is not before 1970, and refused by both otherwise |
| Registry.InsertAllAppends | internal/postgres/store.go:105-142 | The insertion loop only appends, takes one sequence value per entry tried and returns the stored rows in request order |
| Registry.InsertAllWrites | internal/postgres/store.go:111-142 | A batch that goes through writes exactly its new entries: the event and the measurement of each, with the number and the time of its turn |
| Registry.PutContract | internal/postgres/store.go:91-149 | Put is all or nothing, never changes a stored row, keeps events and measurements one to one, answers in request order, writes exactly the events and measurements of its new entries and counts as created exactly the growth |
| Registry.RepeatedPut | internal/postgres/store.go:114-122 | Repeating a successful Put at any later state creates nothing and returns the same rows |
| Registry.ChangedContentConflicts | internal/postgres/store.go:114-122 | Changed content under a stored identifier is a conflict and stores nothing of the batch |
| Registry.PutSucceedsExactly | internal/postgres/store.go:105-142 | Put succeeds exactly if no identifier occurs in the batch with two contents and none is stored with other content |
| Registry.PutRefinesReference | internal/httpapi/api_test.go:31-71 | Put gives the answers of the check-everything-first store, up to sequence gaps, exactly if the batch is consistent or contradicts a stored record |
| Records.TheStoresDiffer | internal/httpapi/api_test.go:31-71 | Two valid documents of one new observation with different values, which the reference store takes and Put refuses |
| Registry.DistinctBatchesRefine | internal/httpapi/api.go:122-133 | On batches without repeated identifiers, the only ones the API sends, they always agree |
| Routes.NormalizedExactly | internal/httpapi/api.go:122-133 | The loop of POST takes a batch exactly if every element is valid and no identifier is repeated, and then as its entries in order |
| Routes.PostContract | internal/httpapi/api.go:117-149 | POST refuses exactly malformed, empty, too long, invalid or repeating batches and touches nothing; a conflict stores nothing; otherwise the status is 201 exactly if the registry grew |
| Routes.PostStoresExactly | internal/httpapi/api.go:117-149 | POST stores a batch exactly if it has 1 to 1000 valid elements without repetition and none is stored with other content |
| Routes.IngestContract | internal/postgres/migrations/003_optional_locations.sql:37-168 | An MQTT document is stored whole or not at all, only if it has 1 to 1000 valid, identified elements |
| Routes.IngestStoresExactly | internal/postgres/migrations/003_optional_locations.sql:37-168 | The trigger stores a document exactly if it has 1 to 1000 valid elements with different identifiers and none is stored with other content |
| Routes.TheRoutesAreCompatible | internal/postgres/migrations/003_optional_locations.sql:94-147 | As readers of elements, the API and the trigger give the same entry for whatever both accept, under the identifier the trigger compares; the results below hold of any two such readers |
| Routes.RoutesStoreAlike | internal/postgres/migrations/003_optional_locations.sql:54-162 | A decoded document, past the gate of the API, whose elements both routes accept has the same effect through either, sequence numbers included, and is stored by one exactly if by the other |
| Routes.StoredIsKnown | internal/postgres/store.go:105-142 | Whatever route stored a document, its observations are in every later registry with the same content |
| Routes.ReplayStoresNothingNew | internal/postgres/migrations/003_optional_locations.sql:149-156 | Known observations sent again through either route, in any documents, add no row, are no conflict, and the API answers 200 with the stored rows |
| Routes.ChangedContentIsRejected | internal/postgres/migrations/003_optional_locations.sql:152-168 | Changed content under a known identifier is a conflict on either route and stores nothing of its document |
| Documents.PassesTheGate | internal/httpapi/json.go:15-71 | The gate lets the tokens of a document pass exactly if no object repeats a key and nothing nests more than 32 levels deep |
| Documents.ParsedInOrder | internal/postgres/migrations/003_optional_locations.sql:43-55 | Arrays keep their items in order when a document is parsed |
| Documents.LastKeyWins | internal/postgres/migrations/003_optional_locations.sql:43 | A parsed object has under each key the last value written for it |
| Documents.PostBodyStoresExactly | internal/httpapi/api.go:95-149 | A whole body is stored by POST exactly if it passes the gate, has 1 to 1000 valid elements without repetition and none is stored with other content |
| Documents.BodiesStoreAlike | internal/httpapi/api.go:95-149 | A body whose elements both routes accept has the same effect through either if it passes the gate; otherwise the API refuses it and touches nothing |
| Documents.BodiesDifferExactly | internal/httpapi/json.go:15-71 | For the document of any observation, repeated keys and nesting included: one route accepts it and the other rejects it exactly if it passes the shared checks and either passes the gate with a timestamp that splits the routes, or does not pass it with a timestamp that the trigger takes |
| Documents.RepeatedKeySplits | internal/httpapi/json.go:46-58 | Every document that the trigger takes, with one of its members written twice, is still taken by the trigger and refused by the API |
| Documents.DeepMetadataSplit | internal/httpapi/json.go:30-32 | Every document without metadata that the trigger takes, given metadata nested too deep, is still taken by the trigger and refused by the API |
| Documents.NewYearIsWritten | internal/postgres/migrations/003_optional_locations.sql:55-92 | A whole document to which both results apply |
| RegistryStore.Store.InsertEvent | internal/postgres/store.go:111-122 | One insert that does nothing on conflict, the comparison after it, and the sequence value it takes either way |
| RegistryStore.Store.Put | internal/postgres/store.go:91-149 | The loop that inserts and compares in turn, counting and rolling back, does what the Put function says |
| RegistryStore.Store.InsertElements | internal/postgres/migrations/003_optional_locations.sql:55-162 | The loop inside the rollback block, up to the first element that is invalid or in conflict |
| RegistryStore.Store.Normalize | internal/httpapi/api.go:122-133 | The loop with its set of seen identifiers accepts what the batch specification accepts |
| RegistryStore.Store.PostBody | internal/httpapi/api.go:95-149 | The walk over the tokens, then the decoded document: the whole of POST on a body |
| RegistryStore.Store.Post | internal/httpapi/api.go:117-149 | Checks before storage, then the status from what was created |
| RegistryStore.Store.Ingest | internal/postgres/migrations/003_optional_locations.sql:35-172 | The trigger with its rollback block: the registry as specified, and the document in quarantine exactly if it was rejected |
| RegistryStore.Store.Lookup | internal/postgres/store.go:150-162 | The record with this identifier, or the certainty that there is none |
| RegistryStore.Store.Read | internal/httpapi/api.go:166-180 | The listing loop and the page cut give the specified page and next cursor |
| Writers.RunKeepsLaws | internal/postgres/store.go:97-112 | In every interleaving of writers, what is committed is a valid registry, only the lock holder works, and its view extends what is committed |
| Writers.StagedIsAboveCommitted | internal/postgres/store.go:97-102 | Every sequence number taken but not committed exceeds every committed one |
| Writers.SnapshotsGrow | internal/postgres/migrations/003_optional_locations.sql:54 | Under the lock rows are committed in the order of their sequence numbers |
| Writers.PaginationNeverSkips | internal/postgres/store.go:163-182 | A client that follows next cursors while writers run holds exactly the committed records up to its cursor, and everything when the last page shows no next cursor |
| Writers.PutIsATransaction | internal/postgres/store.go:91-149 | Lock, insert everything and commit has exactly the effect of Put, whoever else is waiting |
| Writers.AbortLeavesNothing | internal/postgres/store.go:92-104 | Aborting instead leaves nothing but the sequence values taken and frees the lock |
| WrittenReadings.JoinIsOneToOne | internal/postgres/migrations/004_alerting.sql:173-176 | The evaluator's join pairs each event with its own measurement and no other, under the sensor both name |
| WrittenReadings.WritersLetReadingsGrow | internal/postgres/migrations/004_alerting.sql:167-176 | In every interleaving of writers, successive evaluations read growing registries |
| WrittenReadings.WrittenReadingsExaminedOnce | internal/postgres/migrations/004_alerting.sql:166-178 | Whatever the writers do in between, a rule's evaluations take each committed reading of its sensor up to the cursor exactly once, in sequence order |
| WrittenReadings.WritersCommit | internal/postgres/store.go:97-112 | What writers commit between two moments is always a commit that the alerting runs accept |
| WrittenReadings.EvaluatorReadsWhatWasSent | internal/postgres/migrations/004_alerting.sql:173-176 | In every interleaving of writers, what the evaluator reads of a committed observation has the sensor, time, type, unit and value that its event decodes to, which are those that were sent |
| Writers.WithoutTheLockARecordIsSkipped | internal/postgres/store.go:97-100 | Without the lock two writers can commit against their numbers, and a reader then never sees one of the records |
| Paging.PageIsExact | internal/httpapi/api.go:166-180 | A cut page holds exactly the rows up to its next cursor, a page without one everything that is left, and a page is cut exactly if more rows follow than the limit |
| Paging.FollowingCollects | docs/api.md:60-61 | Whatever is committed between its requests, a client collects every record up to its cursor once and in order, ends having seen all, and every earlier page was full |
| Paging.Follow | docs/api.md:60-61 | The client's loop over pages computes exactly that client state |
| ListCheck.VerifyList | deploy/scripts/e2e.py:103-124 | The two loops of the end-to-end check, which stop when every known record is found and fail on an empty page and on a record that comes twice, changed or out of order, compute its search over the pages |
| ListCheck.VerifiedWasListed | deploy/scripts/e2e.py:103-124 | Whatever the server lists, the check passes only if each known record was on some page, unchanged |
| ListCheck.ListIsVerified | deploy/scripts/e2e.py:103-124 | While writers run that check never fails: each request goes on by at least one row with exactly the known records up to its cursor found, and after more requests than rows it has found them all |
| Dashboard.Node.Receive | deploy/nodered/flows.json:287 | Merging a page by identifier, sorting and keeping a hundred, with the cursor of the first row; another status changes nothing |
| Dashboard.ReceiveKeepsLatest | deploy/nodered/flows.json:287 | Whatever page arrives, old or new, the rows become the latest hundred up to whichever of page and cursor reaches further |
| Dashboard.TableShowsLatest | deploy/nodered/flows.json:244-287 | In every run, with overlapping, repeated, lost or reordered responses, the table holds exactly the hundred highest-sequence records among all committed up to its cursor |
| Dashboard.PollsAdvance | deploy/nodered/flows.json:244 | An answered poll moves the cursor past the next thousand records, or to the end |
| Dashboard.WritersNumber | internal/postgres/store.go:97-102 | What the writers commit has ascending positive numbers and one row per identifier, as the dashboard assumes |
| Outbox.Database.ClaimNotification | internal/postgres/alerts.go:187-201 | The first eligible row that is not locked is leased for sixty seconds under the next attempt number, and nothing else changes |
| Outbox.Database.FinishNotification | internal/postgres/alerts.go:202-208 | The outcome is recorded exactly if the attempt number is still current and the row undelivered |
| Outbox.Database.SendNotifications | internal/postgres/notifications.go:29-54 | One tick claims, delivers and finishes up to twenty rows and stops at the first claim that finds none |
| Outbox.TickStopsAtFirstEmpty | internal/postgres/notifications.go:41-46 | A tick stops exactly if some turn finds nothing to claim, and after the first such turn it touches nothing |
| Outbox.DelayBounds | internal/postgres/alerts.go:203 | The retry delay is 1 to 1024 seconds, and at least two once an attempt was made |
| Outbox.DelayDoubles | internal/postgres/alerts.go:203 | The delay doubles with each attempt, from one second up to the tenth, and stays at 1024 seconds |
| OutboxProtocol.OnlyTheLatestClaimantFinishes | internal/postgres/alerts.go:202-208 | In every run a Finish with an outdated attempt number changes no row; the latest claimant's always takes effect |
| OutboxProtocol.LeaseExcludesOthers | internal/postgres/alerts.go:187-201 | While a lease of sixty seconds runs and its holder has not finished, nobody can claim the row, and every other sender holding it has an older number |
| OutboxProtocol.NoEarlyClaim | internal/postgres/alerts.go:189-192 | No row is claimed before it is due, nor within two seconds of its last claim or finish; the first due unlocked row is taken |
| OutboxProtocol.DeliveredWasAccepted | internal/postgres/notifications.go:59-73 | A row counts as delivered only after a 2xx answer for that very row |
| OutboxProtocol.DeliveredIsFinal | internal/postgres/alerts.go:204-206 | Once set, the delivery time is never cleared or changed, and the row is never touched again |
| OutboxProtocol.UndeliveredComesBack | internal/postgres/alerts.go:203-205 | An undelivered row can be claimed again 1024 seconds after its last touch at the latest |
| OutboxProtocol.BackoffIsExact | internal/postgres/alerts.go:187-206 | In every run an undelivered row can be claimed exactly from the time it is due: at once when new, at the end of a lease of sixty seconds, or after the delay of the attempt that failed |
| OutboxProtocol.TurnIsFourSteps | internal/postgres/notifications.go:41-52 | A turn of the sending loop is claim, post, answer and finish of one sender on one row |
| Notifications.LogIsAppendOnly | internal/postgres/migrations/006_measurement_ranges.sql:27-41 | Along every run of the alerting system no event and no outbox row is ever changed or removed |
| Notifications.RowsMatch | internal/postgres/migrations/006_measurement_ranges.sql:37-40 | In every interleaving of alerting operations and deliveries, the lease protocol has exactly one row for each outbox row of the log |
| Notifications.EveryEventIsDeliveredOnce | internal/postgres/alerts.go:187-208 | In every such interleaving each event that is not an acknowledgment is exactly one row of the protocol, acknowledgments are none, and the row counts as delivered only after a 2xx answer for it |
| JsonGate.WalkJSON | internal/httpapi/json.go:29-71 | The recursive walk over the stateful decoder accepts and consumes exactly what the walk function describes |
| JsonGate.UniqueKeys | internal/httpapi/json.go:15-28 | The gate accepts exactly one walked document with nothing behind it |
| JsonGate.WalkDecides | internal/httpapi/json.go:29-71 | On the tokens of any tree, whatever follows, the walk consumes exactly these if no object repeats a key and nesting fits, and refuses otherwise |
| JsonGate.AcceptedIsTree | internal/httpapi/json.go:29-71 | Whatever stream is accepted starts with the tokens of such a tree, and exactly these are consumed |
| JsonGate.GateIsExact | internal/httpapi/json.go:15-71 | A token stream passes exactly if it is one JSON document without repeated keys, nested at most 32 levels deep |
| JsonGate.CheckDepthIsHeight | deploy/nodered/ingestion.js:20-24 | The publisher's recursive check accepts exactly the values nested at most 32 levels deep |
| JsonGate.GatesAgree | deploy/nodered/ingestion.js:20-24 | On documents without repeated keys both depth checks give the same verdict |
| Publishing.Validate | deploy/nodered/ingestion.js:10-48 | The depth check and the loop with its set of identifiers accept a body of 1 to 1000 valid observations without repetition and return the identifiers in order |
| Publishing.ValidatedExactly | deploy/nodered/ingestion.js:27-32 | A batch is accepted exactly if every element is and no identifier is repeated |
| Publishing.PublishableExactly | deploy/nodered/ingestion.js:19-33 | A body may be published exactly if it nests at most 32 levels deep and is a batch of 1 to 1000 valid observations with different identifiers |
| Publishing.PublisherAgainstTrigger | deploy/nodered/ingestion.js:10-45 | A body of one observation that the publisher lets through the trigger accepts exactly if the metadata range holds and the UTC year is in 1970 to 9999; one that the trigger accepts the publisher lets through exactly if the year as written is not before 1970 and it nests at most 32 levels deep |
| Publishing.GateAgainstDepthCheck | deploy/nodered/ingestion.js:20-24 | What passes the API's gate passes the publisher's depth check on the parsed body, and without repeated keys the two agree |
| Publishing.PublishedIsStoredOrQuarantined | internal/postgres/migrations/003_optional_locations.sql:51-168 | A published body is stored exactly if every observation is in range and in the UTC years 1970 to 9999 and none is stored with other content; otherwise it is quarantined whole |
| Publisher.Ingestion.Publish | deploy/nodered/ingestion.js:75-99 | A request is refused at once while disconnected or with 64 pending, otherwise becomes one packet, also if the client throws |
| Publisher.Ingestion.OnDone | deploy/nodered/ingestion.js:89-97 | The callback, first or repeated, early or late |
| Publisher.ClosuresTell | deploy/nodered/ingestion.js:81-99 | In every interleaving the closure of each packet shows exactly that packet's history |
| Publisher.AnsweredExactlyOnce | deploy/nodered/ingestion.js:83-97 | Every request is answered at most once, by whichever of its first callback and its timer comes first, and with success exactly if that was a callback without error |
| Publisher.AnsweredWithinFiveSeconds | deploy/nodered/ingestion.js:83-86 | If timers fire when they are due, every request has exactly one answer five seconds after its submission |
| Publisher.TimelyCallbackDecides | deploy/nodered/ingestion.js:83-97 | If no timer fires early, a first callback within five seconds decides the answer, whatever comes later |
| Publisher.PendingIsExact | deploy/nodered/ingestion.js:78-92 | The counter is exactly the number of packets without a callback and stays within 0 to 64 |
| Publisher.PacketsExactly | deploy/nodered/ingestion.js:75-82 | A request becomes a packet exactly if the broker was last heard to be connected and fewer than 64 packets wait for their callback |

## Left out

- Evaluation sees one state of the registry: that a long evaluation, at READ COMMITTED, may find baselines committed after it began is not modelled; the batch itself is bounded by the high mark.
- Evidence in events keeps identifier, time, value and rate; the baseline's identifier, the period and the copied measurement bounds of `record_event` are not kept.
- The time of the last successful evaluation (`evaluator_status`) and the scheduler are not modelled.
- Values are exact reals: floating point, rounding to numeric, NaN and infinities are not modelled.
- Lengths are counted in characters, not bytes, and white space is the ASCII one; the limits of 16 KiB, 1 MiB and UTF-8 validity are not modelled.
- The Go decoder's case-insensitive field names and a location identifier written as 7.0 are not modelled.
- Observations.VerdictsDifferExactly: both routes are taken to read timestamps as RFC 3339 has them. That the database takes hour 24 and second 60 and refuses offsets of sixteen hours and more, and that Go's parser takes a one-digit hour, a comma before the fraction and an offset hour of 24, is not modelled.
- Documents.BodiesDifferExactly: what the decoders make of a number, true, false or null is an input, the same for both routes; the nesting limit of the database's own JSON parser is not modelled.
- ListCheck.ListIsVerified: the end-to-end check gives up after 1000 pages or at a deadline, which is not modelled.
- Refusals of POST are one answer, without their status codes and messages; quarantine records keep the document, not the error code.
- A row that fails the range constraint takes a sequence value in the database and none in the model, so gaps may differ there; rows older than that constraint are not modelled.
- The lexing of JSON text, commas and colons included, belongs to Go's decoder and is not part of this model; the gate starts from its tokens.
- Several statements of the database that touch one outbox row are taken one after another, as row locks make them; which rows others have locked is an input.
- Query parsing, HTTP routing, headers, keys and sessions are settled by single branches and left out.
- Dashboards, deployment scripts, retention and downsampling jobs, and the migration that the third one replaces are left out.
- Losing the dashboard's memory on a restart of Node-RED is not modelled.
- Publisher.AnsweredWithinFiveSeconds: that timers fire when they are due is the runtime's promise, and assumed of the run.
- OutboxProtocol.UndeliveredComesBack: says that the row can be claimed, not that some sender claims it, which needs a running sender.
