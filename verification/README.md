# labor-performance: verified model

This project models the labor-performance service in Dafny 4.11 and proves what
its delivery pipeline and its time arithmetic keep. `dafny verify dfyconfig.toml`
checks all of it.

The service records completed tasks from Kafka, scores each against the labor
standard in force when it completed, derives the associate's idle gaps, and
announces every row through a transactional outbox. A relay drains the outbox to
Kafka; a projector folds the analytics topic into hourly counters behind the labor
report. Each stage alone is at-least-once or at-most-once, so the main theorems are
about all of them together:

- `Pipeline`, `Intake`, `Accounting`, `Reading`, `CatchingUp`: one step machine for
  the whole path, from the fulfillment log, committed offset and dead-letter topic to
  the read positions of the projector and the read model. In every reachable state
  each message below the offset is recorded, ignored by type or dead-lettered; each
  committed completion is unsent, still to be read, skipped, in flight, lost between
  the gate and the projection, or counted once. Exactly the lost and the skipped ones
  stay missing; going back to the earliest offset recovers the skipped ones.
- `Attribution`, `Announcements`, `Marks`: which row of the report counts which
  completion and definition, what each message says and of which call, and what the
  outbox's own columns say, in every reachable state.
- `Simulation`: the relay and both consumers as written are those of the machine.
- `Consistency`, `UseCases`, `FrozenScoring`, `Standards`: the writing use cases
  statement by statement inside a transaction that may fail anywhere, the timeline
  of standards, and scores that recording order cannot change.
- `Relay`, `Consumers`, `AnalyticsConsumers`, `Projections`: each stage as the code
  writes it, with every failure it can meet as a parameter.
- `KeyProtocol`, `Idempotency`: the Idempotency-Key protocol, once as an
  interleaving of any number of calls and once statement by statement around the
  handler that joins its transaction.
- `IdleGaps`, `Utilization`, `History`, `MemoryRepos`, `Scorecards`, `Reports`: the
  arithmetic the pipeline feeds.

Modelling choices: instants and durations are whole nanoseconds as unbounded
integers; percentages are `real`; a transaction is a private copy of the tables
merged at commit or discarded; the position of an outbox row is its id and stands
for the CloudEvents `id` minted when the row was encoded (CloudEvents 1.0, REQUIRED
Attributes, `id`); a request body is represented by its hash. Clocks, minted ids,
failures of statements, commits, sends and dead-letter writes, and the points where
a process dies are parameters, quantified over in every theorem.

Where the code does less than its documentation says, the model follows the code:
one lemma gives the exact condition and another an input at which it shows.

- `analytics_consumer.go` promises that each id is applied exactly once. The read
  loop commits a message's offset inside `ReadMessage`, before handling it, and reads
  on after an error; the gate commits before the projection. So an id is applied at
  most once. A message whose gate fails is skipped: it can be admitted later exactly
  if a copy of it is unread or its row is unpublished (`CatchingUp.CanBeAdmittedIff`,
  `Witnesses.ACompletionCanBeSkipped`). An admitted id is applied exactly when its
  admitting delivery reached the projection, and no replay repairs that
  (`AnalyticsConsumers.ProjectedIffAdmissionReached`,
  `Witnesses.ACompletionCanBeLost`). ADR 0007's rebuild by replay is complete in general
  only from an empty gate and read model (`CatchingUp.OnlyTheLostAreMissing`,
  `CatchingUp.RebuildTellsTheTable`).
- `idempotency.go` and ADR 0016 promise that key, standard and event commit
  together. As the service is wired every call keeps that promise
  (`Idempotency.RequireIdempotencyKey`). `UnitOfWork.Execute` does not roll back a
  joined transaction, though, so a failure that is not an SQL error commits the
  standards without their event. The one such failure in reach is a publisher built
  without an id generator, whose comment calls that value usable: it refuses every
  message, so the promise fails exactly for a valid definition there
  (`Idempotency.ServedIsConsistentIff`, `Idempotency.MissingGeneratorLosesEvent`).
- A negative duration is accepted; a gap is then safe from overlap exactly when its
  own completion's duration is not negative
  (`IdleGaps.GapIsSafeIffDurationNonNegative`, `Witnesses.NegativeDurationOverlaps`).
- The in-memory `FindCurrentlyActive` reads the wall clock; it equals the SQL lookup
  exactly when that clock has reached the latest definition
  (`Standards.AsOfNowIsLatestIff`, `Witnesses.WallClockBehindFindsClosedStandard`).
- A definition made at or before a completion already recorded contradicts its
  frozen score exactly when it sets other seconds
  (`FrozenScoring.DefinitionContradictsScoreIff`,
  `Witnesses.LateDefinitionContradictsScore`).
- The as-of query has no ordering, so it relies on ranges that do not overlap. A
  definition keeps them apart exactly unless the clock stepped back behind the open
  standard of a type that had been revised before (`Standards.LookupStaysUniqueIff`,
  `Witnesses.SteppedBackClockIsAmbiguous`). Recording stays atomic and idempotent all
  the same, scored against some row in force.

## Model

| member | source | states |
|---|---|---|
| `Accounting.EveryRowIsAccountedFor` | internal/adapters/outbound/analyticsstore/postgres_projection.go:65-111 | In every reachable state, with crashes and redelivery between any two steps, the report's total of recorded tasks is the number of claimed completions; committed rows correspond one to one to the analytics positions announcing them; and each position is in exactly one of: unsent, still to be read, skipped by the reader, in flight, lost between gate and projection, claimed |
| `Accounting.VerdictsAreFinal` | internal/adapters/inbound/kafka/analytics_consumer.go:162-197 | No step ever turns a lost completion into a counted one or a counted one into anything else |
| `Accounting.CaughtUpMeansEqual` | internal/adapters/outbound/analyticsstore/postgres_projection.go:121-145 | When every analytics message is claimed, the read model's grand total (recorded, scored, measured, seconds, efficiency sum) is the tally of the performance table, and its standard events are one per accepted definition |
| `Accounting.ReportTellsTheClaims` | internal/analytics/report/labor_performance.go:185-222 | A report over the whole read model counts exactly the claimed completions, in every reachable state |
| `Accounting.EveryReportNests` | internal/analytics/report/labor_performance.go:82-118 | In every reachable state, every report, whatever its window and type filter: scored within measured within recorded in every row, so the unscored count of every bar and of the totals is an exact difference and its clamp is never used |
| `Accounting.PositionsAnnounceRows` | internal/adapters/outbound/postgres/outbox_publisher.go:47-71 | Analytics positions and performance rows correspond one to one, each position announcing its row's fields and the idle time before it |
| `Attribution.EveryRowTellsItsHour` | internal/adapters/inbound/kafka/analytics_consumer.go:226-257 | In every reachable state each row of the read model counts exactly the claimed completions of its normalized type completed in its hour (announced in it, where there is no completion instant), and the claimed first definitions and revisions of its type that took effect in it; its sums are those of these completions, and it exists exactly if it counts something |
| `Attribution.CaughtUpRowIsTally` | internal/adapters/outbound/analyticsstore/postgres_projection.go:121-132 | When every completion is claimed, each row's task counters are the tally of exactly the table's rows of its type and hour |
| `Attribution.ReportTellsItsWindow` | internal/adapters/outbound/analyticsstore/memory_store.go:146-170 | In every reachable state a report over a window and type counts exactly the claimed completions whose hour starts in the window, from inclusive and to exclusive, and whose type was asked for, if one was |
| `Attribution.WholeHoursAreTheWindow` | internal/analytics/report/labor_performance.go:46-51 | Between whole hours the window is the time between them |
| `Attribution.WatermarkIsLatestEvent` | internal/adapters/inbound/kafka/analytics_consumer.go:216-225 | In every reachable state the freshness watermark is the latest instant at which a counted event occurred |
| `Attribution.CaughtUpStandards` | internal/application/usecases/define_standard.go:66-72 | When every analytics message is claimed, the read model counts one first definition for each task type ever defined and every other definition as a revision |
| `Attribution.EveryRunAnnounces` | internal/application/usecases/define_standard.go:66-72 | In every reachable state of the pipeline the definitions are announced as first ones and revisions rightly |
| `Accounting.EveryRowNests` | internal/adapters/outbound/analyticsstore/memory_store.go:113-126 | Every rollup row reachable through the recording path nests its counters |
| `Accounting.MessagesTellTheTable` | internal/adapters/outbound/kafka/analytics_publisher.go:191-239 | The analytics messages of a consistent outbox add up to the tally of the performance table, whatever was sent or marked |
| `Accounting.DeliverThenProjectIsHandle` | internal/adapters/inbound/kafka/analytics_consumer.go:162-197 | The machine's deliver and project steps in one go are one call of the analytics consumer |
| `CatchingUp.OnlyTheLostAreMissing` | internal/adapters/inbound/kafka/analytics_consumer.go:89-100 | What going back to the earliest message recovers: from every reachable state, a replay and healthy steps without a new write bring the report to count every committed completion except those lost between gate and projection, and lose no further one |
| `CatchingUp.CatchUp` | internal/adapters/outbound/postgres/outbox_relay.go:74-89 | With a positive batch size, healthy relay, read, gate and projection steps, reading each partition on in order, terminate with everything published, read and decided, and lose or pass by nothing more |
| `CatchingUp.OnlyLostAndSkippedAreMissing` | internal/adapters/inbound/kafka/analytics_consumer.go:108-128 | Exactly the lost and the skipped completions stay missing: no continuation in which the group does not go back counts one of them, and one without a new write counts all others |
| `CatchingUp.CanBeCountedIff` | internal/adapters/inbound/kafka/analytics_consumer.go:108-128 | A committed completion can still be counted, without going back, exactly if it was neither lost nor skipped |
| `CatchingUp.CanBeAdmittedIff` | internal/adapters/inbound/kafka/analytics_consumer.go:111-128 | A sent completion that was not admitted can still be, without going back, exactly if an unread copy of it is on the topic or its row is unpublished |
| `CatchingUp.HealthyCatchUp` | internal/adapters/outbound/postgres/outbox_relay.go:74-110 | If nothing fails from now on, the report comes to count all but the lost ones and those read past without being admitted that the relay will not send again |
| `CatchingUp.RebuildTellsTheTable` | docs/docs/adr/0007-analytical-data-product.md:199-201 | Replayed from the earliest offset into an empty gate and read model, the topic rebuilds totals equal to the tally of the performance table, whatever went wrong before |
| `Reading.MissingStayMissing` | internal/adapters/inbound/kafka/analytics_consumer.go:108-128 | In every continuation in which the group does not go back, what was lost or skipped stays so, is never claimed, and bounds the report's total from above |
| `Reading.SkippedIsFinal` | internal/adapters/inbound/kafka/analytics_consumer.go:111-128 | A completion that was read past, not admitted, and is published is never admitted unless the group goes back |
| `Reading.EveryRunKeepsOffsets` | internal/adapters/inbound/kafka/analytics_consumer.go:85-101 | In every reachable state the group has read a prefix of each partition, so an offset per partition tells what it read |
| `Intake.EveryRunSettles` | internal/adapters/inbound/kafka/consumer.go:197-240 | In every reachable state of the whole machine, whatever acts between the consumer's steps: every message below the committed offset is recorded, of another type, or dead-lettered with its payload; every row and every dead letter stems from a message |
| `Intake.OffsetMovesOnlyPastSettled` | internal/adapters/inbound/kafka/consumer.go:197-240 | No step but the commit of a settled message moves the offset, and by one; in particular an unacknowledged dead-letter write does not |
| `Intake.EveryMessageIsAccountedFor` | internal/adapters/inbound/kafka/consumer.go:263-284 | From message to report: below the committed offset a message is of another type, dead-lettered, or a completion whose row is announced at a position that stands in exactly one of the six places |
| `Simulation.PassIsRun` | internal/adapters/outbound/postgres/outbox_relay.go:98-194 | Whatever a relay pass may do by OutboxRelay.PublishBatch's contract (marks, error, sends, crash, lost commit), some claim, sends and end of the machine's pass do |
| `Simulation.AttemptIsAction` | internal/adapters/inbound/kafka/consumer.go:263-319 | Whatever a handler attempt may do by HandleFulfillmentEvent's contract, some attempt of the machine does |
| `Simulation.MessageIsRun` | internal/adapters/inbound/kafka/consumer.go:197-240 | Whatever handling one message may leave behind by HandleMessage's contract (tables, letter, offset), a fetch, attempt, dead letter and commit of the machine do |
| `Simulation.HandlingIsRun` | internal/adapters/inbound/kafka/analytics_consumer.go:111-197 | Whatever happens to one message of the projector, the machine's read, gate and projection steps do: the message counts as read in every case |
| `Pipeline.EveryRunKeepsInv` | internal/adapters/inbound/kafka/analytics_consumer.go:162-197 | Every reachable state keeps atomic rows, an ordered outbox drain, claimed within admitted within sent, and a read model that is one sum over the claimed effects |
| `Consistency.MarksKeepConsistent` | internal/adapters/outbound/postgres/outbox_relay.go:184-204 | The relay's marks, attempts and errors disturb nothing the writers rely on |
| `UseCases.RecordTaskPerformance` | internal/application/usecases/record_task_performance.go:88-110 | Idempotent on the event id and atomic under every SQL fault and commit outcome, whatever the clocks of earlier definitions: the tables move by exactly one recorded completion with the request's own fields, scored against some standard in force at its completion (the one an as-of lookup names, if the clock never stepped back), or not at all; without faults it fails exactly for a new id with an empty event or task id or a publisher without id generator |
| `UseCases.RecordInScope` | internal/application/usecases/record_task_performance.go:88-110 | Inside the unit of work: a known id writes nothing, a new one writes marker, row, gap and both messages, whatever the clocks of earlier definitions |
| `UseCases.Record` | internal/application/usecases/record_task_performance.go:117-151 | The write phases in order: either all of them are in the transaction, or it is unusable, or an identity was empty, or a message could not be built |
| `UseCases.StandardSecondsAtCompletion` | internal/application/usecases/record_task_performance.go:158-170 | The frozen seconds are those of some row in force at the completion, zero for an unclassified task or none in force |
| `Consistency.FoundIsAsOf` | internal/adapters/outbound/postgres/standard_repo.go:35-44 | Under a clock that never stepped back the unordered query can find the seconds of the last definition made at or before the completion, and nothing else |
| `UseCases.PublishRecorded` | internal/application/usecases/record_task_performance.go:147-149 | A completion yields one message on each topic, or stops exactly for a missing id generator |
| `UseCases.RefusalOfOne` | internal/adapters/outbound/postgres/outbox_publisher.go:47-71 | Which of the two encoders, if any, refuses a publication of one event |
| `UseCases.PreviousCompletionFor` | internal/application/usecases/record_task_performance.go:179-191 | The greatest recorded completion of the associate, however ties are sorted; none for an unattributed task |
| `UseCases.RecordIdleGap` | internal/application/usecases/record_task_performance.go:201-233 | Saves exactly the gap between the previous completion and this claim, if the use case's guards allow one |
| `UseCases.DefineStandard` | internal/application/usecases/define_standard.go:32-82 | Commits the whole definition (prior closed, new range open, one message) or nothing; the message tells a first definition exactly if no range of the type was open, otherwise a revision with the open range's seconds; without faults it succeeds exactly for valid input and a publisher with an id generator |
| `UseCases.DefineStandardIn` | internal/adapters/outbound/postgres/unit_of_work.go:65-93 | Joined to an outer transaction it rolls nothing back: an SQL failure poisons the transaction, a message without id leaves the new and the closed standard behind unannounced; a success announces a first definition or a revision of the open range |
| `UseCases.SaveSuccession` | internal/application/usecases/define_standard.go:53-65 | Closing the prior range at the instant the new one opens |
| `UseCases.SaveStandard` | internal/adapters/outbound/postgres/standard_repo.go:25-33 | Upsert by id that can change nothing but the end of an existing range |
| `UseCases.SavePerformance` | internal/adapters/outbound/postgres/performance_repo.go:25-33 | Insert that does nothing for an event id already present |
| `UseCases.MarkProcessed` | internal/adapters/outbound/postgres/processed_event_repo.go:20-29 | Insert-or-nothing of the event id, telling a new id from a known one |
| `Oltp.Publish` | internal/adapters/outbound/postgres/outbox_publisher.go:47-71 | One outbox row per encoder and mapped event in encoder order; the first encoder that refuses an event stops it and keeps the rows of the encoders before it; an insert failure poisons the transaction |
| `Oltp.Encode` | internal/adapters/outbound/kafka/integration_publisher.go:95-127 | One message per event the topic's contract maps, in order; fails exactly when some mapped event has an empty subject or no id |
| `Oltp.PerformanceSubject` | internal/adapters/outbound/kafka/integration_publisher.go:186-191 | The subject is never empty for a task with an id |
| `Oltp.KeysAreDimensions` | internal/adapters/outbound/kafka/integration_publisher.go:140-152 | Completions of one associate, and only those, share a partition key on the integration topic, events of one task type on the analytics topic |
| `Oltp.Database.Commit` | internal/adapters/outbound/postgres/unit_of_work.go:86-92 | A transaction's writes become visible all at once or not at all |
| `Consistency.RecordedKeepsConsistent` | internal/application/usecases/record_task_performance.go:117-151 | Recording a new completion, scored against any seconds, keeps: markers equal the rows' event ids, one row per id, one analytics and one integration message per row announcing it, and the gaps the rows imply |
| `Consistency.DefinedKeepsConsistent` | internal/application/usecases/define_standard.go:53-72 | A definition keeps the same invariant and appends itself to the announced definitions |
| `Consistency.DefinedEventAnnounces` | internal/application/usecases/define_standard.go:66-72 | What a definition announces, told from the standards table it was made on |
| `FrozenScoring.EveryRunIsConsistent` | internal/application/usecases/record_task_performance.go:88-151 | The atomicity invariant holds after any sequence of completions, redeliveries and definitions, whatever their clocks and whichever matching row the unordered lookup returns |
| `FrozenScoring.PerformAll` | internal/application/usecases/record_task_performance.go:88-110 | Any sequence of use case calls, each with its own faults, leaves the database where some run of operations does |
| `FrozenScoring.PerformRecord` | internal/application/usecases/record_task_performance.go:88-110 | One recording call is one operation of the run, or changes nothing |
| `FrozenScoring.PerformDefine` | internal/application/usecases/define_standard.go:32-82 | One definition call is one operation of the run, or changes nothing |
| `FrozenScoring.FrozenScoresStayTrue` | internal/application/usecases/record_task_performance.go:158-170 | With a non-decreasing clock and no definition at or before a recorded completion of its type, every frozen standard equals the as-of lookup in every later state |
| `FrozenScoring.DefinitionContradictsScoreIff` | internal/application/usecases/define_standard.go:32-72 | A later definition contradicts a frozen score exactly when it is of the same type, was made at or before the completion, and sets other seconds |
| `Witnesses.LateDefinitionContradictsScore` | internal/application/usecases/define_standard.go:32-72 | A run that scores a completion at 10 against 40 seconds and then, by a definition made at 8, answers 60 for the same instant |
| `FrozenScoring.ScoresAreOrderFree` | internal/application/usecases/record_task_performance.go:88-170 | Two interleavings of the same completions and definitions, with any redelivery, record the same rows with the same standards and efficiencies |
| `FrozenScoring.RowIsReferenceScore` | internal/domain/performance/performance.go:48-65 | Every recorded row is the score of some completion computed from the accepted definitions alone |
| `FrozenScoring.ReferenceScoreIsRecorded` | internal/application/usecases/record_task_performance.go:88-110 | Every completion's score computed from the accepted definitions alone is recorded |
| `FrozenScoring.AnnouncedAreAccepted` | internal/application/usecases/define_standard.go:66-72 | The outbox announces exactly the accepted definitions, in order |
| `Announcements.EveryRunTellsDefinitions` | internal/application/usecases/define_standard.go:66-72 | Over every run the message of the i-th accepted definition is that of a first definition exactly if no earlier one has its type; otherwise it is a revision carrying the seconds of the last earlier one; every other field is the definition's |
| `Announcements.FirstsAreTypes` | internal/application/usecases/define_standard.go:66-72 | There is one first definition for each task type |
| `Announcements.EveryRunTellsCompletions` | internal/application/usecases/record_task_performance.go:117-151 | In every run each row and its messages on both topics carry, field by field, one request of the run, and the messages the instant of its call |
| `Announcements.AnnouncedIdleIsGap` | internal/application/usecases/record_task_performance.go:143-149 | A completion's message carries the seconds of the gap recorded in front of its row, or nothing where there is none |
| `Standards.ActiveIffAsOf` | internal/domain/standard/standard.go:104-112 | Under a non-decreasing clock the half-open range containing an instant is the range of the last definition made at or before it, and no other range of the type contains it |
| `Standards.LookupIsDeterministic` | internal/adapters/outbound/postgres/standard_repo.go:35-44 | The as-of query matches exactly the reference definition's row, and none exactly when nothing was defined by then |
| `Standards.LookupStaysUniqueIff` | internal/adapters/outbound/postgres/standard_repo.go:35-44 | The as-of query has no order of its own; a definition keeps its answer unique at every instant exactly unless the clock stepped back behind the open standard of a type revised before |
| `Standards.BehindRevisionIsAmbiguous` | internal/application/usecases/define_standard.go:32-55 | Such a definition leaves an instant with two rows in force |
| `Witnesses.SteppedBackClockIsAmbiguous` | internal/adapters/outbound/postgres/standard_repo.go:35-44 | Definitions at 0, at 10 and then at 5 leave two standards in force at 7 |
| `Standards.OneOpenRow` | internal/adapters/outbound/postgres/standard_repo.go:46-53 | Exactly one range of a defined type is open: that of its latest definition |
| `Standards.OpenIffLatest` | internal/domain/standard/standard.go:97-99 | A range is open exactly when its definition is the latest of its type |
| `Standards.SupersedeExtends` | internal/application/usecases/define_standard.go:53-72 | Closing the open range and adding the new one extends the timeline by one definition |
| `Standards.DefinitionMovesLookupIff` | internal/application/usecases/define_standard.go:32-72 | A new definition changes an as-of lookup exactly for its own type at instants from its own on |
| `Standards.AsOfNowIsLatestIff` | internal/adapters/outbound/memory/standard_repo.go:43-45 | The in-memory current lookup, an as-of lookup at the wall clock, equals the SQL one exactly when the wall clock has reached the latest definition |
| `Witnesses.WallClockBehindFindsClosedStandard` | internal/adapters/outbound/memory/standard_repo.go:43-45 | With definitions at 0 and 10, a wall clock at 9 finds the closed one |
| `Standards.MemoryLookupAgrees` | internal/adapters/outbound/memory/standard_repo.go:32-41 | The map-order lookup returns the row of the reference definition, whatever the iteration order |
| `Standards.MemoryStandardRepo.FindActiveAsOf` | internal/adapters/outbound/memory/standard_repo.go:32-41 | Returns some matching record, and nil only when none matches |
| `Standards.MemoryStandardRepo.Save` | internal/adapters/outbound/memory/standard_repo.go:25-30 | Stores the record under its id and touches no other |
| `Standards.LaborStandard.Close` | internal/domain/standard/standard.go:97-99 | Ends the range and changes nothing else of the record |
| `Standards.LaborStandard.IsActiveAt` | internal/domain/standard/standard.go:104-112 | On or after the start and strictly before the end, if any |
| `Standards.NewStandard` | internal/domain/standard/standard.go:64-78 | A fresh open standard, or the first broken rule |
| `IdleGaps.GapsAreDisjointAndOrdered` | internal/application/usecases/record_task_performance.go:179-233 | One associate's gaps never overlap and are recorded in time order, whatever the delivery order of completions with non-negative durations |
| `IdleGaps.GapEndsByLastCompletion` | internal/application/usecases/record_task_performance.go:201-233 | Each gap is non-empty and ends no later than the greatest recorded completion |
| `IdleGaps.GapIsSafeIffDurationNonNegative` | internal/application/usecases/record_task_performance.go:201-233 | A recorded gap cannot overlap the next one exactly when its own completion has a non-negative duration, which the code does not check |
| `Witnesses.NegativeDurationOverlaps` | internal/application/usecases/record_task_performance.go:201-233 | Three completions, the second measured at minus nine seconds, record two overlapping gaps of one associate |
| `IdleGaps.TimeIsConserved` | internal/domain/idleness/idleness.go:78-100 | For in-order, non-overlapping tasks, task plus idle seconds never exceed the span from first to last completion; uncapped they fall short by less than a second per pair, and not at all on whole seconds |
| `IdleGaps.UnaccountedStep` | internal/application/usecases/record_task_performance.go:201-233 | How much time one more completion leaves unaccounted for |
| `IdleGaps.LastCompletionIsMaximum` | internal/application/usecases/record_task_performance.go:179-191 | The previous completion is the maximum over the associate's rows, and attained |
| `IdleGaps.GapsAreWaits` | internal/application/usecases/record_task_performance.go:201-233 | Every recorded gap is the wait in front of one row: from the associate's greatest earlier completion to the row's claim, of its type, in whole seconds clipped at the cap |
| `IdleGaps.WaitsAreGaps` | internal/application/usecases/record_task_performance.go:201-233 | In front of every row claimed after the associate's greatest earlier completion there is such a gap |
| `Idleness.New` | internal/domain/idleness/idleness.go:74-101 | Exists exactly for a named associate and a strictly positive gap, and carries the associate, type, start and end it was given; whole seconds, clipped exactly above the cap |
| `Idleness.UtilizationPct` | internal/domain/idleness/idleness.go:129-136 | Undefined exactly without time; times the whole it is 100 times the task seconds; between 0 and 100 for non-negative seconds |
| `Utilization.AssociateReportIs` | internal/application/usecases/get_utilization.go:101-135 | An associate's report field by field: seconds of the rows and gaps in the window, the open gap from the last activity or the window's start to now, one associate exactly with any time, and the percentage times all time reported is 100 times the task seconds |
| `Utilization.TypeReportIs` | internal/application/usecases/get_utilization.go:68-92 | A task type's report field by field: no open gap, distinct associates of its gaps, and the same percentage law |
| `Utilization.FullExactlyWithoutIdle` | internal/domain/idleness/idleness.go:129-136 | The percentage is 100 exactly without closed and open idle time |
| `Utilization.MoreIdleNeverRaises` | internal/domain/idleness/idleness.go:129-136 | For the same task time more idle time never raises the percentage |
| `Utilization.IdleFitsWindow` | internal/application/usecases/get_utilization.go:101-135 | Closed plus open idle seconds never exceed window plus cap, the open gap never exceeds the window, and the percentage lies in [0, 100] when there is one |
| `Utilization.ClosedIdleBound` | internal/adapters/outbound/memory/idle_period_repo.go:49-66 | Gaps ending inside the window hold no more than the window plus one cap, up to the last completion |
| `Utilization.OpenGapOverlapsNothing` | internal/application/usecases/get_utilization.go:155-178 | The open gap begins no earlier than any recorded gap of the associate ended |
| `Utilization.WindowBoundIsTight` | internal/application/usecases/get_utilization.go:101-135 | The bound is attained: some history reports exactly window plus cap |
| `Utilization.FleetIdleFitsWindow` | internal/application/usecases/get_utilization.go:68-92 | Fleet-wide closed idle seconds never exceed one window and one cap for each associate counted, and the percentage lies in [0, 100] when there is one |
| `Utilization.AllAssociates` | internal/adapters/outbound/memory/idle_period_repo.go:84-99 | The type's idle seconds are those of exactly the associates the count is over |
| `MemoryRepos.PerformanceRepo.ScorecardFor` | internal/adapters/outbound/memory/performance_repo.go:43-91 | Task count, mean over scored rows and the per-type breakdown, as tallies of the associate's rows |
| `MemoryRepos.PerformanceRepo.RecentByAssociateID` | internal/adapters/outbound/memory/performance_repo.go:137-156 | The newest rows of the associate up to the limit, for some order of ties |
| `MemoryRepos.PerformanceRepo.TaskTypePerformanceFor` | internal/adapters/outbound/memory/performance_repo.go:93-128 | Count, mean score and mean duration as tallies of the type's rows |
| `MemoryRepos.PerformanceRepo.SumActualSecondsByTaskType` | internal/adapters/outbound/memory/performance_repo.go:160-175 | The type's seconds completed at or after the bound |
| `MemoryRepos.PerformanceRepo.SumActualSecondsByAssociate` | internal/adapters/outbound/memory/performance_repo.go:179-194 | The associate's seconds completed at or after the bound |
| `MemoryRepos.IdlePeriodRepo.SumByTaskType` | internal/adapters/outbound/memory/idle_period_repo.go:30-47 | Idle seconds and number of gaps of the type ending at or after the bound |
| `MemoryRepos.IdlePeriodRepo.SumByAssociate` | internal/adapters/outbound/memory/idle_period_repo.go:49-66 | Idle seconds and number of gaps of the associate ending at or after the bound |
| `MemoryRepos.IdlePeriodRepo.LastEndedAtByAssociate` | internal/adapters/outbound/memory/idle_period_repo.go:68-82 | The greatest end of the associate's gaps, or the zero instant |
| `MemoryRepos.IdlePeriodRepo.DistinctAssociatesByTaskType` | internal/adapters/outbound/memory/idle_period_repo.go:84-99 | The number of distinct associates with a gap of the type in the window |
| `MemoryRepos.AssociateIdleIsOverGaps` | internal/adapters/outbound/memory/idle_period_repo.go:49-66 | The associate's idle seconds and count are those of exactly its gaps ending at or after the bound |
| `MemoryRepos.TypeIdleIsOverGaps` | internal/adapters/outbound/memory/idle_period_repo.go:30-47 | The type's idle seconds and count are those of exactly its gaps ending at or after the bound |
| `MemoryRepos.AssociatesAreOfGaps` | internal/adapters/outbound/memory/idle_period_repo.go:84-99 | The associates counted are those of exactly these gaps |
| `MemoryRepos.LastEndedAtIsAttained` | internal/adapters/outbound/memory/idle_period_repo.go:68-82 | The last end is the zero instant or some gap's end, and no gap of the associate ends later |
| `History.BreakdownAddsUp` | internal/adapters/outbound/memory/performance_repo.go:43-91 | Counts and scores of all types add up to the associate's own, so the per-type counts sum to the task count |
| `History.ByTypeEntries` | internal/adapters/outbound/memory/performance_repo.go:62-88 | Each entry is the tally of exactly the rows of its type, and a type without rows has none |
| `History.TallyIsOrderFree` | internal/adapters/outbound/memory/performance_repo.go:43-128 | Counts and means do not depend on the order rows were saved in |
| `History.TallyIsOverRows` | internal/adapters/outbound/memory/performance_repo.go:43-128 | A tally counts every row, the scored rows and the rows with a positive duration, and sums their scores and durations |
| `History.AssociateSumIsOverRows` | internal/adapters/outbound/memory/performance_repo.go:179-194 | The associate's windowed seconds are the sum over exactly its rows completed at or after the bound |
| `History.TypeSumIsOverRows` | internal/adapters/outbound/memory/performance_repo.go:160-175 | The type's windowed seconds are the sum over exactly its rows completed at or after the bound |
| `History.NewestIsLastCompletion` | internal/adapters/outbound/memory/performance_repo.go:137-156 | The head of any newest-first window is the greatest recorded completion |
| `Scorecards.ShortHistoryIsNeverATrend` | internal/application/usecases/get_associate_scorecard.go:31-62 | An associate with at most ten rows is never improving or declining |
| `Scorecards.GetAssociateScorecard` | internal/application/usecases/get_associate_scorecard.go:31-62 | Not found exactly without rows; otherwise the stored scorecard with, for some newest-ten window: Improving exactly with three scores whose mean is at least the baseline plus 5, Declining at most the baseline minus 5, InsufficientData with fewer scores or no baseline; flagged exactly if its three newest scored rows are below 85 |
| `Scorecards.TrendAndCoachingFlag` | internal/application/usecases/get_associate_scorecard.go:71-92 | The same two signals, by the window's own rows |
| `Scorecards.CollectScores` | internal/application/usecases/get_associate_scorecard.go:71-80 | The reverse loop yields the window's scores oldest first |
| `Scorecards.DetectCoachingFlag` | internal/domain/performance/trend.go:80-92 | True exactly when the last three scores exist and are all below 85 |
| `Scorecards.CoachingReadsNewest` | internal/application/usecases/get_associate_scorecard.go:71-92 | The rule over oldest-first scores reads the three newest scored rows |
| `Scorecards.TrendIsCalled` | internal/domain/performance/trend.go:30-52 | The trend against the baseline, by the sum of the window's scores, five points either way from three scores on |
| `Scorecards.CoachingIsDueIff` | internal/application/usecases/get_associate_scorecard.go:71-92 | The flag is due exactly if the first three scored rows of the window exist and are below 85 |
| `Scorecards.WindowIsMostRecent` | internal/adapters/outbound/memory/performance_repo.go:137-156 | No row left out of the window is newer than one in it |
| `Performance.ComputeEfficiencyPct` | internal/domain/performance/performance.go:89-95 | A score exists exactly for a positive duration and a positive standard |
| `Consumers.Consumer.HandleMessage` | internal/adapters/inbound/kafka/consumer.go:197-240 | The offset moves past a message only once it is recorded, ignored by type or in the dead-letter topic with its payload and cause; a failed dead-letter publish never moves it |
| `Consumers.Consumer.HandleWithRetry` | internal/adapters/inbound/kafka/consumer.go:245-255 | At most three attempts, fewer only after success, shutdown or the back-off's elapsed-time limit, whose joint effect on the tables is at most one recorded completion; an acceptable completion is recorded by the first of the three attempts that is made and meets no fault |
| `Consumers.Consumer.HandleFulfillmentEvent` | internal/adapters/inbound/kafka/consumer.go:291-319 | Other types succeed untouched, malformed data fails, a completion is recorded or fails |
| `Consumers.Consumer.WriteDLQ` | internal/adapters/inbound/kafka/consumer.go:354-367 | Succeeds exactly if one of at most forty writes is acknowledged, with nothing but topic-not-ready before it; appends the letter at most once |
| `Consumers.Consumer.Run` | internal/adapters/inbound/kafka/consumer.go:157-178 | Over a session in which other writers may define, record and mark between any two messages, every offset below the committed one stays settled, no row lacks its message, and nothing blocks the partition while the dead-letter topic takes writes |
| `Consumers.Consumer.Lifetime` | internal/adapters/inbound/kafka/consumer.go:157-178 | The same over any number of sessions, each ending anywhere |
| `Consumers.StillSettled` | internal/adapters/inbound/kafka/consumer.go:197-284 | What is settled stays settled, whatever later messages do |
| `Consumers.SettledIsRecorded` | internal/adapters/inbound/kafka/consumer.go:263-284 | A settled completion outside the dead-letter topic has exactly one row, and it is that message's |
| `Relay.OutboxRelay.PublishBatch` | internal/adapters/outbound/postgres/outbox_relay.go:161-194 | Field by field, after a pass that commits: each row sent is published, without error, with one more attempt; the row whose send failed stays unpublished, with an error and one more attempt; every other row is as it was; a crash or lost commit publishes nothing |
| `Relay.OutboxRelay.SendAll` | internal/adapters/outbound/postgres/outbox_relay.go:161-179 | Sends and marks the claimed rows in order, stopping at the first that fails |
| `Relay.OutboxRelay.FinishPass` | internal/adapters/outbound/postgres/outbox_relay.go:174-194 | Commits the pass's marks and at most one row's error, field by field, or nothing |
| `Relay.OutboxRelay.Claim` | internal/adapters/outbound/postgres/outbox_relay.go:122-153 | The oldest unpublished rows up to the batch size, in id order |
| `Relay.PassRowsAreMarks` | internal/adapters/outbound/postgres/outbox_relay.go:184-204 | What a committed pass leaves in the columns of each row |
| `Marks.EveryRunKeepsMarks` | internal/adapters/outbound/postgres/outbox_relay.go:184-204 | In every reachable state at most one row carries an error, the first unpublished one; rows behind it have no attempts, rows before it are published without error |
| `Relay.OutboxRelay.RelayOnce` | internal/adapters/outbound/postgres/outbox_relay.go:98-110 | Published rows stay a prefix p, rows ever sent a prefix s with p <= s <= p + batchSize, first occurrences in the sink in id order, whatever fails |
| `Relay.OutboxRelay.Run` | internal/adapters/outbound/postgres/outbox_relay.go:74-89 | The same over any passes; healthy ones publish full batches until nothing is left |
| `Relay.OutboxRelay.Drain` | internal/adapters/outbound/postgres/outbox_relay.go:74-89 | With a healthy sink n pending rows drain in exactly ceil(n / batchSize) non-empty passes, each sent exactly once |
| `Relay.PassesIsCeiling` | internal/adapters/outbound/postgres/outbox_relay.go:74-89 | The pass count is the ceiling of pending rows over batch size |
| `Relay.SendRange` | internal/adapters/outbound/postgres/outbox_relay.go:155-179 | Sending on from the published frontier keeps first occurrences in id order, resends included |
| `Relay.PerKeyOrder` | internal/adapters/outbound/postgres/outbox_relay.go:91-97 | A consumer of one partition key that drops known ids sees strictly increasing ids, and every sent one of its key |
| `AnalyticsConsumers.ProjectedIffAdmissionReached` | internal/adapters/inbound/kafka/analytics_consumer.go:162-197 | An id is projected at most once, exactly when its admitting handling reached the projection: no redelivery repairs a crash or error between the two |
| `Witnesses.ACompletionCanBeLost` | internal/adapters/inbound/kafka/analytics_consumer.go:162-197 | A run of seven steps after which a committed completion is lost between gate and projection |
| `Witnesses.ACompletionCanBeSkipped` | internal/adapters/inbound/kafka/analytics_consumer.go:120-126 | A run of seven steps after which a committed, sent and published completion has been read past with a failed gate; no continuation counts it unless the group goes back |
| `AnalyticsConsumers.ReadModelIsFold` | internal/adapters/inbound/kafka/analytics_consumer.go:162-257 | The read model is the fold of the deliveries that reached it, with distinct ids |
| `AnalyticsConsumers.AnalyticsConsumer.HandleMessage` | internal/adapters/inbound/kafka/analytics_consumer.go:162-197 | Moves gate and projection as one handled message does; a known id is acknowledged unless the gate fails |
| `AnalyticsConsumers.AnalyticsConsumer.Run` | internal/adapters/inbound/kafka/analytics_consumer.go:108-128 | The read loop handles the messages from the committed offset once each, in order, whatever becomes of each, until a read fails; a read whose commit is applied without an answer passes its message by |
| `AnalyticsConsumers.AnalyticsConsumer.ReadMessage` | internal/adapters/inbound/kafka/analytics_consumer.go:113-119 | The offset is committed inside the read, before the message is handed over |
| `AnalyticsConsumers.AnalyticsConsumer.MarkProcessed` | internal/adapters/outbound/analyticsstore/consumed_events_repo.go:24-34 | The gate's insert, committed on its own |
| `Projections.ProjectionIsOrderFree` | internal/adapters/outbound/analyticsstore/memory_store.go:67-140 | Two delivery sequences of the same facts, with any duplicates and order, end in the same rows and watermark |
| `Projections.FoldIsReference` | internal/adapters/outbound/analyticsstore/postgres_projection.go:30-145 | Every row is the sum of the deltas of the distinct ids of its key, the watermark their latest instant, and the grand total the sum of all deltas |
| `Projections.ApplyKeepsReference` | internal/adapters/outbound/analyticsstore/postgres_projection.go:65-111 | One apply of a new id adds its delta to its row; a known id changes nothing |
| `Projections.PostgresProjection.Apply` | internal/adapters/outbound/analyticsstore/postgres_projection.go:65-111 | Claim and upsert become visible together or not at all, and only for an unclaimed id |
| `Projections.PostgresProjection.ApplyTaskPerformanceRecorded` | internal/adapters/outbound/analyticsstore/postgres_projection.go:121-132 | The SQL delta moves the same abstract state as the memory store's in-place bump |
| `Projections.MemoryStore.ApplyTaskPerformanceRecorded` | internal/adapters/outbound/analyticsstore/memory_store.go:113-126 | The in-place bump moves the same abstract state as the SQL delta |
| `Projections.MemoryStore.BumpRow` | internal/adapters/outbound/analyticsstore/memory_store.go:93-103 | Applies the row function once per id and moves the watermark |
| `Projections.MemoryStore.FirstApply` | internal/adapters/outbound/analyticsstore/memory_store.go:67-76 | First sight of an id advances the watermark to the greatest occurrence |
| `Projections.MemoryStore.MarkProcessed` | internal/adapters/outbound/analyticsstore/memory_store.go:199-207 | The gate's set, separate from the projection's |
| `Projections.NestedIffWellScored` | internal/adapters/outbound/analyticsstore/memory_store.go:113-126 | A fact keeps scored within measured exactly when a score comes with a positive duration |
| `Projections.RowsNest` | internal/analytics/report/labor_performance.go:82-118 | Rows built from nested facts nest |
| `Projections.HourBucket` | internal/analytics/report/labor_performance.go:49-51 | The start of the hour an instant falls in |
| `Projections.NormalIs` | internal/analytics/report/labor_performance.go:35-44 | A task type is trimmed and capitalised letter by letter; white space alone is UNCLASSIFIED |
| `Projections.NormalStays` | internal/analytics/report/labor_performance.go:35-44 | A type that is not empty, trimmed and without small letters stays as it is |
| `Reports.Build` | internal/analytics/report/labor_performance.go:185-199 | Rows are a sorted permutation of the input, bars strictly sorted with one per type, totals the sums |
| `Reports.Breakdown` | internal/analytics/report/labor_performance.go:233-268 | One bar per distinct type, each the sum of exactly its rows |
| `Reports.TotalsOf` | internal/analytics/report/labor_performance.go:206-222 | The headline is made of the summed rows |
| `Reports.ReportIsOrderFree` | internal/analytics/report/labor_performance.go:185-268 | The report does not depend on the order of its input rows |
| `Reports.BarsConserveTotals` | internal/analytics/report/labor_performance.go:206-268 | Recorded, scored and standard counts of the bars add up to the totals |
| `Reports.BarMeanIsWeighted` | internal/analytics/report/labor_performance.go:233-279 | Both means of a bar, of scores and of seconds, are the volume-weighted means of its rows, and undefined exactly without volume |
| `Reports.TotalsMeanIsWeighted` | internal/analytics/report/labor_performance.go:206-222 | Both means of the headline are the volume-weighted means of all rows, and its unscored count the exact difference |
| `Reports.WindowsAdd` | internal/adapters/outbound/analyticsstore/memory_store.go:146-170 | The recorded and scored counts of [a, b) and [b, c) add to those of [a, c), and over nested rows the unscored ones too |
| `Reports.Query` | internal/adapters/outbound/analyticsstore/memory_store.go:146-170 | A report over exactly the rows whose hour lies in the window, from inclusive and to exclusive, and whose type is the one asked for, each once, hour by hour and within an hour type by type letter by letter |
| `Reports.RowsAreListed` | internal/analytics/report/labor_performance.go:185-199 | What a report lists and in which order |
| `Sorting.StringLeqIsLex` | internal/analytics/report/labor_performance.go:185-199 | The order of task types is letter by letter, a prefix first |
| `Reports.TasksUnscored` | internal/analytics/report/labor_performance.go:113-118 | The exact difference when counters nest |
| `Sums.Mean` | internal/analytics/report/labor_performance.go:273-279 | Undefined exactly without volume; otherwise the mean times the volume is the sum |
| `KeyProtocol.OutcomeIsNeverNull` | internal/adapters/inbound/http/idempotency.go:27-48 | Under any interleaving no committed row lacks its outcome, and a call that saw zero rows inserted finds a populated row |
| `KeyProtocol.WritesOncePerKey` | internal/adapters/inbound/http/idempotency.go:217-275 | Committed transactions and committed rows correspond one to one, each row holding its transaction's body and response: handler writes appear at most once per key and only with its row |
| `KeyProtocol.RepliesAfterCommit` | internal/adapters/inbound/http/idempotency.go:111-136 | After a key's commit a same-body call gets the recorded response, another body gets the key-reused answer (an infrastructure error aside), and neither adds a write |
| `KeyProtocol.AnswersAgree` | internal/adapters/inbound/http/idempotency.go:156-207 | Two answered calls of one key had the same body and got the same response; a call told its key was reused committed nothing |
| `KeyProtocol.CommitsAreFinal` | internal/adapters/inbound/http/idempotency.go:156-207 | Committed rows and writes never change afterwards |
| `KeyProtocol.AbortLeavesNothing` | internal/adapters/inbound/http/idempotency.go:227-264 | A panic, failed update, lost commit or crash leaves no row and no write and lets the next waiting call insert afresh |
| `KeyProtocol.NeverStuck` | internal/adapters/inbound/http/idempotency.go:50-68 | While a call is unfinished, whatever crashed or failed before, some step is enabled; it is a healthy one, or the failing outcome update of a poisoned transaction |
| `KeyProtocol.RunsAreShort` | internal/adapters/inbound/http/idempotency.go:60-75 | At most five steps per call in any run, so nothing polls or retries |
| `KeyProtocol.TwinsCommitOnce` | internal/adapters/inbound/http/idempotency.go:76-136 | Of any number of concurrent identical calls, in any run, at most one commits and all answered ones get its response; if nothing failed and all are finished, exactly one commits and all get its response |
| `KeyProtocol.EveryRunKeepsInv` | internal/adapters/inbound/http/idempotency.go:76-275 | The protocol's invariant holds in every run |
| `Idempotency.RequireIdempotencyKey` | internal/adapters/inbound/http/idempotency.go:76-136 | A missing key or unreadable body is refused with 400, a known key with another body with 422, a genuine retry reads the recorded answer; a new key commits row and writes together or nothing, and tells why a definition was refused (400 or 422) or, with 201, the standard now in the table; as the service is wired every call keeps key, standard and event together |
| `Idempotency.ServeKey` | internal/adapters/inbound/http/idempotency.go:104-136 | From the insert of the key on: the known key's recorded answer, or handler, row and commit together or not at all |
| `Idempotency.CallIsRun` | internal/adapters/inbound/http/idempotency.go:76-136 | Whatever one call may do by RequireIdempotencyKey's contract is a run of the protocol's events for that call: same key table, same answer, and one commit exactly if the tables changed |
| `Idempotency.RunFreshRequest` | internal/adapters/inbound/http/idempotency.go:217-275 | Handler, outcome, commit, reply in that order; a panic or SQL failure commits nothing |
| `Idempotency.ReplayCachedResponse` | internal/adapters/inbound/http/idempotency.go:156-207 | The recorded outcome; 422 for another body; 500 where the read fails or there is no row or no outcome |
| `Idempotency.HandleDefineStandard` | internal/adapters/inbound/http/server.go:119-138 | The handler's answer and its writes in the joined transaction, for every outcome of the use case |
| `Idempotency.HandledTells` | internal/adapters/inbound/http/errors.go:13-33 | Each outcome's status, problem or created standard |
| `Idempotency.ServedIsConsistentIff` | internal/adapters/inbound/http/idempotency.go:217-275 | Committing a handled call keeps standard and event together exactly unless a valid definition met a publisher without an id generator |
| `Idempotency.MissingGeneratorLosesEvent` | internal/adapters/outbound/kafka/analytics_publisher.go:171-179 | The same first definition with and without an id generator: a 201 with standard and event, and a cached 500 with the standard alone |
| `UseCases.FindActiveAsOf` | internal/adapters/outbound/postgres/standard_repo.go:35-44 | Some row in force at the instant, and none only when no row is |
| `UseCases.FindCurrentlyActive` | internal/adapters/outbound/postgres/standard_repo.go:46-53 | Some open row of the type, and none only when no row is open |
| `UseCases.RecentByAssociateID` | internal/adapters/outbound/postgres/performance_repo.go:95-126 | The newest rows of the associate up to the limit, for some order of ties |
| `UseCases.SaveGap` | internal/adapters/outbound/postgres/idle_period_repo.go:24-30 | Appends the gap and touches nothing else |
| `UseCases.PublishDefinition` | internal/application/usecases/define_standard.go:66-72 | A definition yields one analytics message and no integration message; it fails to be built exactly without an id, and then nothing is written |
| `Oltp.Tx.Exec` | internal/adapters/outbound/postgres/unit_of_work.go:70-93 | After one failed statement every later one of the transaction fails |
| `Oltp.InsertRows` | internal/adapters/outbound/postgres/outbox_publisher.go:47-71 | Inserts the messages in order, all of them or the transaction is unusable |
| `Standards.Validate` | internal/domain/standard/standard.go:64-78 | No rule is broken exactly for a positive standard with a travel component between zero and it; otherwise the first broken rule is named |
| `Standards.AsOfIsLatestBefore` | internal/adapters/outbound/postgres/standard_repo.go:35-44 | The reference lookup names a definition of the type made by then, and none exactly when there is none |
| `Standards.SupersededByLater` | internal/application/usecases/define_standard.go:53-55 | A range ends at the instant of a later definition of its type |
| `Standards.SupersededByNext` | internal/application/usecases/define_standard.go:53-55 | Namely of the very next one of its type, and without one it stays open |
| `Standards.AsOfIsLastBy` | internal/adapters/outbound/postgres/standard_repo.go:35-44 | The reference lookup names the last of the type's definitions made by then, in the order of the use case |
| `Standards.MemoryStandardRepo.NextID` | internal/adapters/outbound/memory/standard_repo.go:47-52 | Ids count up |
| `Standards.MemoryStandardRepo.FindCurrentlyActive` | internal/adapters/outbound/memory/standard_repo.go:43-45 | Some record in force at the wall clock, and nil only when none is |
| `MemoryRepos.PerformanceRepo.Save` | internal/adapters/outbound/memory/performance_repo.go:25-30 | Appends the row |
| `MemoryRepos.PerformanceRepo.ExistsByAssociateID` | internal/adapters/outbound/memory/performance_repo.go:32-41 | True exactly when the associate has a row |
| `MemoryRepos.IdlePeriodRepo.Save` | internal/adapters/outbound/memory/idle_period_repo.go:23-28 | Appends the gap |
| `Scorecards.MeanOf` | internal/application/usecases/get_associate_scorecard.go:82-89 | The mean of the collected scores, undefined exactly without any |
| `Consumers.Consumer.Advance` | internal/adapters/inbound/kafka/consumer.go:157-178 | Handling the message at the committed offset, after whatever other writers did, keeps everything before the offset settled |
| `Consumers.Consumer.Interfere` | internal/adapters/inbound/kafka/consumer.go:157-178 | A definition, another consumer's recording or the relay's marks leave settled what was settled |
| `Consumers.Consumer.Commit` | internal/adapters/inbound/kafka/consumer.go:282-284 | The offset moves by one unless the commit is lost |
| `Consumers.PrefixStaysSettled` | internal/adapters/inbound/kafka/consumer.go:197-284 | One more settled message extends the settled prefix |
| `Relay.OutboxRelay.SendBatch` | internal/adapters/outbound/postgres/outbox_relay.go:161-173 | The sends of a pass reach the sink in order, whatever becomes of the pass's marks |
| `Relay.OutboxRelay.SendAndMark` | internal/adapters/outbound/postgres/outbox_relay.go:163-172 | One row: sent, then marked; an error may still have delivered it |
| `AnalyticsConsumers.AnalyticsConsumer.Dispatch` | internal/adapters/inbound/kafka/analytics_consumer.go:226-257 | Each kind reaches the projection method of its kind |
| `Projections.PostgresProjection.ApplyLaborStandardDefined` | internal/adapters/outbound/analyticsstore/postgres_projection.go:136-138 | The SQL delta of a first definition |
| `Projections.PostgresProjection.ApplyLaborStandardRevised` | internal/adapters/outbound/analyticsstore/postgres_projection.go:143-145 | The SQL delta of a revision |
| `Projections.MemoryStore.ApplyLaborStandardDefined` | internal/adapters/outbound/analyticsstore/memory_store.go:130-133 | The in-place bump of a first definition moves the same state as its delta |
| `Projections.MemoryStore.ApplyLaborStandardRevised` | internal/adapters/outbound/analyticsstore/memory_store.go:137-140 | The in-place bump of a revision moves the same state as its delta |
| `Projections.ReferenceIsUnique` | internal/adapters/outbound/analyticsstore/postgres_projection.go:30-145 | The facts determine the read model |
| `Reports.Accumulate` | internal/analytics/report/labor_performance.go:233-255 | Per-type sums, and each type once in order of appearance |
| `Reports.MakeBars` | internal/analytics/report/labor_performance.go:256-268 | One bar per type in the given order |
| `Reports.Collect` | internal/adapters/outbound/analyticsstore/memory_store.go:146-170 | Exactly the selected entries, each once, whatever the iteration order |
| `Reports.SelectedRowsSum` | internal/adapters/outbound/analyticsstore/memory_store.go:146-170 | Selected rows add up to the sum over the selected keys |
| `Idempotency.InsertKey` | internal/adapters/inbound/http/idempotency.go:111-122 | Inserts the bare row, or nothing when the key is there |
| `Idempotency.UpdateKey` | internal/adapters/inbound/http/idempotency.go:251-259 | Fills the outcome of the call's own row; always fails after an earlier SQL error |
| `KeyProtocol.HealthyRunsStaySound` | internal/adapters/inbound/http/idempotency.go:76-275 | Without failures no call ends in an internal error |
| `FrozenScoring.RowsComeFromCompletions` | internal/application/usecases/record_task_performance.go:117-151 | Every row is some request's row, field for field |
| `FrozenScoring.EveryCompletionIsRecorded` | internal/application/usecases/record_task_performance.go:88-110 | Every acceptable completion of a run is marked processed |
| `Utilization.LastEndedAtIsGreatest` | internal/adapters/outbound/memory/idle_period_repo.go:68-82 | No recorded gap of the associate ends after the reported last end |
| `Accounting.OneTaskIdPerAnnouncement` | internal/adapters/outbound/postgres/outbox_publisher.go:47-71 | As many analytics positions announce a completion as the topic has announcements |
| `Accounting.SplitOfTaskIds` | internal/adapters/inbound/kafka/analytics_consumer.go:162-197 | The six standings of a completion are pairwise disjoint and together all of them |
| `Pipeline.NextExtends` | internal/adapters/outbound/postgres/outbox_publisher.go:47-71 | No step removes a message, moves it, or changes what it says |

## Left out

- UseCases.DefineStandard: concurrent definitions are not modelled; the lookup of the prior standard and the unit of work are one sequential transaction.
- UseCases.RecordTaskPerformance: concurrent recordings of one associate are not modelled; recordings are sequential, as for one partition's consumer.
- UseCases.StandardSecondsAtCompletion: TIMESTAMPTZ columns keep microseconds and the model nanoseconds, so a completion and a definition within one microsecond of each other may be ordered differently by the SQL lookup.
- UseCases.RecordIdleGap: the previous completion is read back in microseconds too, so the start of a gap may differ from the model's by less than one microsecond.
- UseCases.MarkProcessed: two transactions racing for one event id are not modelled; the Idempotency-Key protocol shows the same blocking insert under concurrency.
- Relay.OutboxRelay.RelayOnce: one relay only; two relays under SKIP LOCKED keep rows exclusive but not their global order.
- Relay.OutboxRelay.Run: the pause between passes, and the missing pause of a relay whose batch size is zero, are not modelled.
- Idempotency.RequireIdempotencyKey: calls made after a definition was committed without its event are not covered; only a publisher without an id generator brings that about, and the table is no longer the timeline of the announced definitions then.
- Idempotency.ServedIsConsistentIff: two bodies count as the same when their SHA-256 hashes do; method and path are stored but never compared by the code.
- KeyProtocol.WritesOncePerKey: handler writes are opaque, so what two different keys do to the same task type at once is not modelled.
- Consumers.Consumer.Run: other writers act between the messages of a session here, and between any two steps in Pipeline; a message's partition and the shutdown of the process are reduced to one log and to where a session ends; back-off delays are not modelled.
- Consumers.Consumer.WriteDLQ: a consumer built without a dead-letter writer, which only unit tests do, is not modelled.
- Oltp.Publish: one id per topic stands for the ids minted in one publication; distinct rows are told apart by their position.
- Oltp.Encode: CloudEvents and JSON encoding is library code; a message is its event, and the trace headers are not modelled; that the library trims white space around ids and subjects before refusing empty ones is not modelled.
- AnalyticsConsumers.AnalyticsConsumer.Run: the Kafka reader is library code; that its group read commits the offset before returning the message is taken from its documentation. The hand-over of partitions between group members is represented in Pipeline by offsets that may go back at any time.
- Projections.ProjectionIsOrderFree: an id stands for one fact; two publishers minting the same CloudEvents id are not modelled.
- Projections.FoldIsReference: efficiency sums are exact reals; floating-point rounding, which depends on the order of addition, is not modelled.
- Reports.Build: Go's sort package is represented by an arbitrary sorted permutation; row and accumulator objects updated through pointers are map values here.
- NormalizeTaskType and the upper-casing of task types cover ASCII letters and white space only.
- Outbox ids that commit out of order, and gaps in the id sequence, are not modelled.
- Overflow of int64 seconds and durations, and time zones other than UTC, are not modelled.
- The freshness lag, the Postgres report query and the read-only queries for current standards are left out.
- HTTP routing, DTOs, telemetry, health checks, MCP tools, the web UI, migrations and pool sizing have no hard state.
