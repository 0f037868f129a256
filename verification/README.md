# VoltPulse telemetry pipeline: a verified model

This project models the telemetry pipeline of VoltPulse Engine and proves properties of the model with Dafny 4.11.
`dafny verify dfyconfig.toml` checks all of it.

The path of a reading is modelled end to end:

- `Text`, `Calendar`, `Wire`: the fields that the ingest endpoints write to the stream and the parsers that read them
  back, down to the digits. A float is what its repr() shows: a sign, the shortest digits that identify it and a power
  of ten, in positional or exponent notation; after parsing it is that exact real.
- `Partitions`: the month arithmetic of migration 002 and the partitions it creates.
- `Stream`, `StreamTheorems`: the persister's consumer group as a transition system. Any number of workers interleave
  at every `await`: XREADGROUP, XAUTOCLAIM of any idle entries, each parse or reject, COPY with its transaction, XACK.
  Workers may crash anywhere; a lost connection is a crash, before or after the commit took effect. MAXLEN trimming is
  a step of its own.
- `Recovery`, `Reclaim`, `Backlog`: what becomes of pending entries. First the entries that no run acknowledges any more
  and what they do to the loop; then the consumer group with a clock, where a reclaim takes exactly what has been idle for
  30 seconds, and exactly which pending entries can still be acknowledged there; then a worker that works off what is
  pending and unread.
- `Persister`, `Draining`, `Backend`, `Pipeline`: one batch and one pass of the consumer loop as state changes, the
  class that performs them in place, the proof that they are runs of the transition system, the loop that drains the
  stream, and ingest and persister together, with trimming in between.
- `Evaluators`: the second consumer group, which never reclaims.
- `Window`, `Statistics`: the sorted set of the last hundred observations and the z-score test, with standard
  deviations squared so that no root is taken.
- `Alerts`, `AlertService`: the alert machine with its Redis keys, rows and events. The evaluator is split between its
  writes, with acknowledge and resolve calls in between. The GET of a key and the statement after it, the INSERT of a new
  row or the SELECT of the key's row, are one step: API calls touch rows only and the GET reads a key only, so the GET may
  as well happen at that statement. Then whole readings, and the machine with a clock on which keys expire.
- `Energy`, `Rollup`: hourly trapezoids and the rollup transaction.
- `RateLimit`: INCR with TTL, then EXPIRE, with interleaving and crashes in between.
- `Subscriptions`: the WebSocket connection manager.

Three findings where the code and what one would expect of it differ; the model follows the code.

- A pending entry is not always acknowledged in the end. Entries with the same delivery time, and entries that are idle
  already, are claimed together from then on (with at most 500 pending), and a batch is copied whole or not at all. So an entry can be acknowledged
  exactly if it is storable together with these companions (`RecoverableUntrimmed`; `RecoverableExactly` says what trimming
  changes). Entries fail that in three ways: a worker died between its commit and its XACK, so that the row is already
  there (`CrashStrandsReading` gives the run); the table refuses a reading that the endpoint took, for a timestamp outside
  every partition, say (`RefusedReadingIsNeverStored`); or a companion failed in one of these ways
  (`InnocentReadingIsLost` gives the run). A pass that claims such an entry stores nothing and does not read new entries
  either (`ReclaimIsAllOrNothing`, `RefusedEntryBlocksPass`).
- The evaluator can overwrite an acknowledgement: exactly when the operator's call commits between the evaluator's
  read of an ACTIVE row and its write (`AcknowledgementLostExactly`, with a run in `AcknowledgementCanBeLost`).
- `README.md:57` of the repository calls the rollup idempotent. A rerun changes nothing exactly if nobody contributes to
  it or some device that contributes has a row already (`RerunChangesNothingExactly`). Otherwise it adds rows
  (`RerunCanChangeTable`: the first device was deactivated and another one's readings came late); and when it does
  collide it fails as a whole, so a late device is not added beside the others (`RunIsAllOrNothing`).

Assumptions: Redis commands and MULTI blocks, and PostgreSQL transactions, are atomic; the table refuses duplicate
primary keys, unknown devices, instants outside every partition, integers beyond 32 bits and texts that are not JSON;
rows are not deleted behind the worker's back; the workers' time zone is UTC; uuid4 never repeats. The clean alert invariants assume one evaluator, no
crash of it and no key expiry; `CrashLeavesTwoActiveRows` shows why, and `AlertRate` covers expiry.

## Model

| member | source | states |
|---|---|---|
| Text.IntTextReadsBack | app/workers/stream_consumer.py:26-27 | parsing the decimal text of an integer gives the integer back, and the text never counts as missing |
| Text.FloatTextReadsBack | app/workers/stream_consumer.py:22-23 | parsing the text of any finite float, in positional or exponent notation, gives that number back; the text is never blank and never holds a colon |
| Text.FloatTextInjective | app/services/anomaly_service.py:27 | different floats have different texts, the two zeros included |
| Text.ReprExamples | app/services/anomaly_service.py:27 | repr() at the turning points of its notation: 0.0001, 1e-05, 1.5e-05, 120.0, 1e+16 and others |
| Text.IntegerTexts | app/api/v1/telemetry.py:46 | integers are written without plus sign and leading zeros |
| Text.IntegersExactly | app/workers/stream_consumer.py:26-27 | a text is an integer exactly if, blanks around it and one sign aside, it is a non-empty run of digits |
| Text.BlankExactly | app/workers/stream_consumer.py:22-23 | a value counts as missing exactly if it is all whitespace |
| Calendar.IsoReadsBack | app/workers/stream_consumer.py:75 | reading an ISO timestamp back gives the same wall-clock reading and UTC offset, naive or aware, with or without microseconds |
| Calendar.IsoExamples | app/api/v1/telemetry.py:37 | isoformat() with and without microseconds, with offsets of either sign and without |
| Calendar.ValidReadings | app/workers/stream_consumer.py:75 | which dates, times and offsets exist, month by month, 29 February included |
| Calendar.OffsetIsSubtracted | app/workers/stream_consumer.py:75 | an aware timestamp denotes its wall clock minus its UTC offset, a naive one its wall clock in UTC |
| Calendar.MovedClock | app/workers/stream_consumer.py:75 | clocks that differ equally in what they show and in their offsets show the same instant |
| Calendar.DaysAreEqual | migrations/versions/002_partitioned_telemetry.py:59-60 | the same clock a calendar day later, across month ends, leap days and year ends, is 86400 seconds later |
| Calendar.YearStart | migrations/versions/002_partitioned_telemetry.py:59-60 | the day number of New Year in closed form, for every year; 1 January 2000 is day 730485 (`Calendar.Millennium`) |
| Wire.UuidReadsBack | app/workers/stream_consumer.py:76-77 | reading a UUID back from its hyphenated text gives the same 128-bit value |
| Wire.UuidShape | app/api/v1/telemetry.py:29-36 | identifiers are written as 32 lower-case hexadecimal digits in groups of 8, 4, 4, 4 and 12 |
| Wire.MetricReadsBack | app/workers/stream_consumer.py:78-85 | a measurement that was None is read as None and any other as its own value, zero included |
| Wire.DecodeInvertsEncode | app/api/v1/telemetry.py:33-48 | every encoded reading is parseable and decodes to its instant, identifiers, measurements, runtime and metadata |
| Wire.IdentifiersReadBack | app/api/v1/telemetry.py:33-48 | entry, device and site identifiers are read back each from its own field, and the metadata text is passed on |
| Wire.RejectedExactly | app/workers/stream_consumer.py:72-95 | an entry is unparseable exactly for a missing or malformed identifier or timestamp, or a measurement or runtime that is there, not blank and not a number |
| Wire.BareEntry | app/workers/stream_consumer.py:75-89 | identifiers and timestamp suffice; everything else is None and the metadata {} |
| Wire.MetricsAreAllNumbers | app/workers/anomaly_consumer.py:33 | the measurements are the eight number fields, and the evaluator looks at all but energy_kwh |
| Wire.ConsumersAgree | app/workers/anomaly_consumer.py:32-37 | from any entry the persister accepts, the evaluator extracts the same numbers, energy_kwh aside |
| Partitions.Upgrade | migrations/versions/002_partitioned_telemetry.py:51-67 | the loop creates, for every year and month, the eight consecutive months from the previous one on |
| Partitions.OffsetMonth | migrations/versions/002_partitioned_telemetry.py:53-57 | the floor division and remainder step through consecutive months across year ends |
| Partitions.NamesDiffer | migrations/versions/002_partitioned_telemetry.py:61 | different months never share a partition name, so no CREATE is skipped |
| Partitions.PartitionIsMonth | migrations/versions/002_partitioned_telemetry.py:56-67 | a partition runs from midnight UTC on the first of its month to that of the next, first instant in, last out |
| Partitions.NameExample | migrations/versions/002_partitioned_telemetry.py:61 | the partition of September 2026 is telemetry_readings_y2026_m09 |
| Partitions.TilesAreDisjoint | migrations/versions/002_partitioned_telemetry.py:59-67 | consecutive partitions adjoin, names are distinct and no instant lies in two partitions |
| Partitions.TilesCoverExactly | migrations/versions/002_partitioned_telemetry.py:50-67 | an instant has a partition exactly if it lies between the start of last month and the end of the sixth month ahead |
| Partitions.CurrentMonthIsCovered | migrations/versions/002_partitioned_telemetry.py:50-53 | readings stamped in the migration's own month always find a partition |
| Stream.CopyKeepsInv | app/workers/stream_consumer.py:97-100 | rows of a successful COPY belong to delivered entries and hold what those decode to; the invariant survives |
| Stream.StepKeepsInv | app/workers/stream_consumer.py:72-103 | every step of every worker, crashes, reclaims and trimming included, keeps the invariant |
| Stream.RunKeepsInv | app/workers/stream_consumer.py:127-154 | the invariant holds after every run |
| StreamTheorems.CollideExactly | app/models/telemetry.py:16 | two rows collide exactly if both instant and identifier agree |
| StreamTheorems.NoLossNoDuplication | app/workers/stream_consumer.py:72-154 | each entry is undelivered, pending, acked or dropped and only one of these; an acked one is unparseable or has exactly one row; none ever has two; a dropped one has half a million newer ones |
| StreamTheorems.EntriesAreConserved | app/workers/stream_consumer.py:127-154 | entries added equal undelivered plus pending plus acked plus dropped, by count |
| StreamTheorems.RunGrows | app/workers/stream_consumer.py:97-103 | rows, acknowledgements and the delivery position are never taken back |
| StreamTheorems.StoredEntryBlocksCopy | app/models/telemetry.py:16 | no batch that contains an entry with a row can be copied |
| StreamTheorems.StrandedForever | app/workers/stream_consumer.py:130-141 | a stored entry nobody is about to acknowledge stays unacknowledged in every continuation |
| StreamTheorems.CrashAfterCommitStrands | app/workers/stream_consumer.py:98-103 | dying between commit and XACK leaves every entry of the batch stored and never acknowledged later |
| Reclaim.TimedIsRun | app/workers/stream_consumer.py:127-154 | apart from its clock and delivery times, a run of the group with timed reclaims is a legal run of the group |
| Reclaim.StuckForever | app/workers/stream_consumer.py:97-141 | an entry in an inseparable group that is not storable together is never acknowledged, whatever any number of workers do |
| Reclaim.RecoverableUntrimmed | app/workers/stream_consumer.py:97-141 | with at most 500 pending, a parseable pending entry that no worker holds, and whose companions none holds, is acknowledged in some run without trimming if and only if it and the entries reclaimed together with it are storable together |
| Reclaim.RecoverableExactly | app/workers/stream_consumer.py:97-141 | the same over all runs, trimming included: if and only if the companions from the entry itself on are storable together with it |
| Reclaim.InnocentReadingIsLost | app/workers/stream_consumer.py:97-141 | for every accepted reading followed by a refused one, the run in which one read delivers both and their copy fails, after which no run acknowledges the accepted one |
| Recovery.AckedWasInsertable | app/models/telemetry.py:16 | whatever the workers do, an entry whose record is refused or whose key is taken is never acknowledged |
| Recovery.RefusedReadingIsNeverStored | migrations/versions/002_partitioned_telemetry.py:36-67 | an ingested reading that the table refuses is never stored and never acknowledged in any run |
| Recovery.CrashStrandsReading | app/workers/stream_consumer.py:98-103 | for every accepted reading, the run Add, Read, Parse, Commit, Crash from the empty stream ends with it stored and pending, and no continuation acknowledges it |
| Persister.ClaimFits | app/workers/stream_consumer.py:130-137 | what a reclaim takes, characterised entry by entry, never exceeds its COUNT |
| Recovery.ReclaimIsAllOrNothing | app/workers/stream_consumer.py:128-154 | a reclaiming pass acknowledges its whole batch and goes on to read new entries exactly if the batch is storable; otherwise table and position stay and all parseable entries stay pending |
| Recovery.PassAcksExactly | app/workers/stream_consumer.py:128-138 | a reclaiming pass acknowledges a parseable entry it takes if and only if everything it takes is storable together |
| Recovery.RefusedEntryBlocksPass | app/workers/stream_consumer.py:130-141 | an idle entry that cannot be stored and that the reclaim gets to makes the pass store nothing and read nothing |
| StreamTheorems.AcknowledgedReadingIsStored | app/api/v1/telemetry.py:33-56 | an ingested reading whose entry is acknowledged is in the table with its own instant and values |
| Persister.BatchIsAllOrNothing | app/workers/stream_consumer.py:72-103 | a batch is stored and acknowledged whole exactly if every parseable record is acceptable, new and unlike the others; otherwise the table is untouched and those entries stay pending; unparseable ones are acked and other entries untouched either way |
| Persister.ProcessingIsRun | app/workers/stream_consumer.py:61-103 | the effect of a batch is that of a legal run of its worker's steps |
| Persister.PassIsRun | app/workers/stream_consumer.py:123-154 | so is a whole pass of the loop, with or without a reclaim |
| Draining.PassDrains | app/workers/stream_consumer.py:123-154 | from a quiet state one pass drains the next batch and leaves a quiet state |
| Draining.DrainingNeedsStorable | app/workers/stream_consumer.py:61-103 | if any run acknowledges everything unread, the unread entries were unparseable or storable together: the drain condition is exact |
| Backlog.BacklogIsCleared | app/workers/stream_consumer.py:123-154 | if pending and unread entries are storable together and idle when a reclaim is due, one worker has acknowledged and stored all of them after one pass per 500 unread and one reclaim per 500 pending |
| Backlog.ClearingNeedsStorable | app/workers/stream_consumer.py:61-103 | and only if they are storable together does any run of any workers acknowledge all of them |
| Backend.Store.XAdd | app/api/v1/telemetry.py:110-115 | one entry is appended and old ones may be trimmed; its effect is a legal run, and no unread entry is lost while fewer than half a million are unread |
| Backend.Store.IngestBatch | app/api/v1/telemetry.py:91-127 | one entry per reading is appended, encoded, in order, with trimming at each; its effect is a legal run; the live state becomes that of the last reading, for five minutes |
| Backend.LiveReadsBack | app/api/v1/telemetry.py:117-126 | for five minutes the live state shows the timestamp of its reading and its power and temperature, with 0.0 for a missing one |
| Backend.Store.ProcessStreamEntries | app/workers/stream_consumer.py:61-108 | in-place processing of a batch has the specified outcome and reports an exception exactly when the copy fails |
| Backend.Store.ScanPending | app/workers/stream_consumer.py:130-137 | the scan from 0-0, with its COUNT and its limit of attempts, takes exactly the entries specified and deletes exactly the trimmed ones it meets |
| Backend.Store.XAutoClaim | app/workers/stream_consumer.py:130-138 | the entries taken belong to the worker and others keep their owners; an idle untrimmed pending entry changes owner exactly if the trimmed entries and the eligible ones before it leave room in the COUNT and the scan gets to it |
| Backend.Store.XReadGroup | app/workers/stream_consumer.py:144-150 | the next consecutive entries, at most 500 and fewer only at the end of the stream, none pending or settled before, become pending for the worker; other entries keep their owners |
| Backend.Store.ConsumerPass | app/workers/stream_consumer.py:123-154 | one pass reclaims when 15 seconds have gone by, then reads; an exception in the reclaim skips the read |
| Backend.Store.RunConsumerLoop | app/workers/stream_consumer.py:111-154 | one uninterrupted worker acks everything in ceil(n / batch size) passes and appends exactly the parseable entries, decoded, in order |
| Pipeline.AcceptedInstants | migrations/versions/002_partitioned_telemetry.py:18-67 | with the migration's partitions, which records the table accepts |
| Pipeline.IngestAndPersist | app/api/v1/telemetry.py:80-127 | a posted batch followed by the persister adds one row per reading, in order, with the reading's instant and values, and nothing else; nothing is trimmed unread |
| Statistics.VarianceFromSums | app/services/anomaly_service.py:41-42 | the variance from deviations equals the one from the sum and the sum of squares |
| Statistics.Samuelson | app/services/anomaly_service.py:41-48 | (n v - S)^2 <= (n - 1)(n Q - S^2) for a value among the samples |
| Statistics.ZScoreBound | app/services/anomaly_service.py:33-49 | n z^2 <= (n - 1)^2 whenever the tested value is one of the n samples |
| Statistics.AnomalyNeedsSamples | app/workers/anomaly_consumer.py:56-65 | no anomaly below 11 samples, none CRITICAL below 18, and a z-score at most 9.9 in size up to a hundred |
| Statistics.SpikeScore | app/services/anomaly_service.py:41-49 | equal samples with one outlier attain the bound |
| Statistics.SamplesForAnomaly | app/services/anomaly_service.py:34-49 | an anomaly is possible with n samples exactly if n >= 11, a CRITICAL one exactly if n >= 18 |
| Statistics.VerdictExactly | app/services/anomaly_service.py:41-49 | from n, sum and sum of squares alone: a value is flagged exactly if the deviation is at least 1e-6 and it lies more than three of them from the mean, on either side, and CRITICAL exactly beyond four; mean, variance and deviation are those of the sums |
| Statistics.NoBaseline | app/services/anomaly_service.py:33-36 | below ten samples nothing is flagged, and the value stands for the mean |
| Window.MemberReadsBack | app/services/anomaly_service.py:27-39 | the member's first field parses back to the value |
| Window.MemberInjective | app/services/anomaly_service.py:27 | the member text determines value and timestamp |
| Window.TrimBeforeInsert | app/services/anomaly_service.py:27-28 | trimming before an insertion loses nothing that trimming afterwards keeps |
| Window.TrackedIsNewest | app/services/anomaly_service.py:26-29 | the incrementally trimmed window is the last hundred of the full ranking |
| Window.WindowHoldsNewest | app/services/anomaly_service.py:26-29 | it holds at most a hundred of the observations, and any that is missing ranks below a full window |
| Window.MissingAreOlder | app/services/anomaly_service.py:26-29 | an observation is missing only from a window of a hundred, none of them older than it, and among equally old ones by the order of the members |
| Window.NewestIsTracked | app/services/anomaly_service.py:26-29 | an observation newer than all before it is in the window |
| Window.FewAreAllTracked | app/services/anomaly_service.py:26-29 | of up to a hundred observations none is missing |
| Window.TextOrder | app/services/anomaly_service.py:27-28 | members of equal score are ordered by their first different character, a prefix first |
| Window.ArrivalOrderIsIrrelevant | app/services/anomaly_service.py:26-29 | the same set of observations leaves the same window in any order and with any repetition |
| Window.RecordedReadingIsBounded | app/services/anomaly_service.py:11-61 | after any history, a flagged reading has at least 11 samples (18 if CRITICAL) and a z-score of at most 9.9 in size unless the window has a hundred and none of them is older than it |
| Window.AnomalyEvaluator.RecordAndEvaluate | app/services/anomaly_service.py:11-61 | the window is the newest hundred of everything seen since the last gap of a day, and the verdict is that of the window with the new reading |
| Alerts.ConditionLaws | app/services/alert_service.py:16-25 | complements, direction and boundaries of the comparisons; closeness is within 1e-5 or a billionth, no less and no more; no storable condition is NOT_EQUALS |
| Alerts.StepKeepsInv | app/services/alert_service.py:66-131 | every evaluator step and API call keeps keys, rows, events and readings in agreement |
| Alerts.RunKeepsInv | app/services/alert_service.py:66-131 | so does every run without faults |
| Alerts.EventsAgree | app/services/alert_service.py:66-131 | per pair events alternate from a trigger on, triggers minus resolves is 1 exactly if the key is set, exactly if the last evaluated reading breached, and the open alert is the key's |
| Alerts.AtMostOneActiveRow | app/services/alert_service.py:72-121 | at most one ACTIVE row per pair at any moment, named by the key between rules |
| Alerts.AcknowledgementHolds | app/services/alert_service.py:112-119 | unless the evaluator has just read the row as ACTIVE, an acknowledgement outlasts every run without a manual resolution, crashes and key expiry included |
| Alerts.AcknowledgementLostExactly | app/services/alert_service.py:112-119 | some run without a manual resolution takes an ACKNOWLEDGED row out of that status if and only if the evaluator has read it as ACTIVE and not yet written |
| Alerts.RecoveryOverwritesLateAcknowledgement | app/api/v1/alerts.py:63-72 | over any API calls between read and write, the row is ACKNOWLEDGED exactly if the last call on it acknowledged, and RESOLVED after the write |
| Alerts.AcknowledgementCanBeLost | app/services/alert_service.py:112-119 | a concrete run without faults in which an acknowledgement is overwritten |
| Alerts.CrashLeavesTwoActiveRows | app/services/alert_service.py:92-95 | a crash between commit and SET leads to two ACTIVE rows for one pair |
| Alerts.RuleIsRun | app/services/alert_service.py:71-131 | the uninterrupted effect of one rule is a legal run |
| AlertService.ReadingDecidesKeys | app/services/alert_service.py:66-121 | after a reading, the key of each rule whose metric it carries is set exactly if the rule is breached; all others are untouched |
| AlertService.ReadingIsRun | app/services/alert_service.py:66-133 | processing a reading is a legal run without faults |
| AlertService.Evaluator.ProcessReadingAlerts | app/services/alert_service.py:28-133 | the reading is judged by the device's rules of some moment within the last minute; the loop has the specified effect and returns exactly the trigger events it published |
| AlertService.TimedIsRun | app/services/alert_service.py:72-131 | apart from its clock, a run with timed key expiry is a legal run of the alert machine |
| AlertService.AlertRate | app/services/alert_service.py:73-95 | in every timed run, a breach of T seconds without a break publishes at most floor(T / 86400) + 1 trigger events, whatever other pairs and the API do |
| AlertService.AlertRateAttained | app/services/alert_service.py:95 | for every n there is a timed run with n trigger events within n - 1 days |
| Energy.EnergyConserved | app/workers/scheduled_tasks.py:90-113 | hourly integrals plus the segments joining consecutive non-empty hours equal the integral of the series |
| Energy.NeverOvercounts | app/workers/scheduled_tasks.py:103-113 | with non-negative power the hours never add up to more than the integral |
| Energy.StoredEnergyConserved | app/workers/scheduled_tasks.py:112-125 | the same for the stored kWh figures, up to half a ten-thousandth per hour |
| Energy.TrapezoidBounds | app/workers/scheduled_tasks.py:107-112 | minimum times span <= integral <= peak times span |
| Energy.ConstantPower | app/workers/scheduled_tasks.py:103-113 | a constant power for a span of microseconds is power times that many hours in kWh |
| Energy.TwoReadings | app/workers/scheduled_tasks.py:112-113 | two readings make the mean of their powers times the hours between them |
| Energy.EnergyBounds | app/workers/scheduled_tasks.py:107-113 | the kWh of any series lie between least and greatest power times the hours spanned |
| Energy.HourHolds | app/workers/scheduled_tasks.py:78-96 | an hour holds its first instant and not its last |
| Energy.HourBelowPeak | app/workers/scheduled_tasks.py:78-117 | an hour's kWh is between zero and its non-negative peak power |
| Energy.InterpolationIsNeutral | app/workers/scheduled_tasks.py:112 | a linearly interpolated reading inserted anywhere in a series leaves the integral of the series unchanged |
| Energy.RoundMonotone | app/workers/scheduled_tasks.py:125-128 | rounding half to even keeps order |
| Energy.RoundsToNearest | app/workers/scheduled_tasks.py:125-128 | rounding goes to the nearest integer, halves to the even one |
| Rollup.RowIsFaithful | app/workers/scheduled_tasks.py:107-129 | minimum <= average <= peak survives rounding, and the energy is the trapezoid to half a ten-thousandth |
| Rollup.RowFigures | app/workers/scheduled_tasks.py:107-129 | minimum, peak and average are those of the readings to half a hundredth, the energy lies between least and greatest power times the hours spanned to half a ten-thousandth, and the period is the clock hour |
| Rollup.JobHour | app/workers/scheduled_tasks.py:77-79 | the hour covered is the last one that has ended |
| Rollup.ReadingsOfHour | app/workers/scheduled_tasks.py:90-99 | the readings integrated are those of the device from the start of the hour to before its end, in order |
| Rollup.SessionRows | app/workers/scheduled_tasks.py:88-130 | a run's session holds a row for exactly the active devices with two readings or more |
| Rollup.EnergyTable.RollupHourlyEnergy | app/workers/scheduled_tasks.py:70-132 | the job covers the previous clock hour and commits its whole session or nothing |
| Rollup.OneRowPerHour | app/models/aggregate.py:11-13 | over any runs at most one row per device, hour and interval, and no row is changed or removed |
| Rollup.FirstRunDecides | app/workers/scheduled_tasks.py:83-132 | every row was computed by the run that stored it, before which its device and hour had none |
| Rollup.RunIsAllOrNothing | app/workers/scheduled_tasks.py:83-132 | a run commits exactly if no contributing device has a row for the hour; otherwise it adds nothing for anyone |
| Rollup.RerunChangesNothingExactly | app/workers/scheduled_tasks.py:70-132 | a rerun, with whatever readings and active devices by then, leaves the table as it was if and only if nobody contributes or some contributing device has a row already; with unchanged inputs it always does |
| Rollup.RerunCanChangeTable | app/workers/scheduled_tasks.py:83-88 | a concrete rerun that adds a row |
| RateLimit.StepKeepsInv | app/api/deps.py:36-51 | INCR, EXPIRE, time and crashes keep counters, lifetimes and admissions consistent |
| RateLimit.LifetimeBounds | app/api/deps.py:43-51 | at most 1000 admissions per lifetime of the key, and lifetimes start at least a minute apart |
| RateLimit.AtMost1999PerMinute | app/api/deps.py:36-51 | in every run at most 1999 requests are admitted in any half-open 60 seconds |
| RateLimit.BoundIsReached | app/api/deps.py:36-51 | a run in which 1999 are, within two milliseconds |
| RateLimit.NextRequestRepairs | app/api/deps.py:39-45 | whatever runs between the INCR and the EXPIRE of a request that finds no TTL, it goes on owing the EXPIRE, and the first EXPIRE since its INCR, its own at the latest, finds the counter alive and gives it a minute |
| RateLimit.ExpireSetsMinute | app/api/deps.py:44-45 | an EXPIRE, however late, lets a live counter end a minute after it and does nothing to a key that is gone |
| RateLimit.OrphanLastsForever | app/api/deps.py:39-45 | until some EXPIRE runs, such a counter never expires |
| RateLimit.RequestIsRun | app/api/deps.py:36-51 | an uninterrupted request is a legal run, admits as recorded and leaves a live counter with a TTL |
| RateLimit.Limiter.Admit | app/api/deps.py:36-51 | a request is admitted exactly if fewer than 1000 came before it in this life of the key; it opens a life of a minute if there is none, never prolongs one and always leaves a live counter with a TTL |
| Evaluators.RunKeepsInv | app/workers/anomaly_consumer.py:24-102 | deliveries, broadcasts and acknowledgements stay consistent in every run with crashes |
| Evaluators.BroadcastAtMostOnce | app/workers/anomaly_consumer.py:39-47 | every entry is broadcast at most once, by the one worker it was delivered to, and only if readable |
| Evaluators.ReadingIsBroadcast | app/workers/anomaly_consumer.py:27-47 | every ingested reading reaches the broadcast |
| Evaluators.AcceptedIsBroadcast | app/workers/anomaly_consumer.py:27-47 | so does every entry with a site that the persister accepts |
| Evaluators.SkippedExactly | app/workers/anomaly_consumer.py:27-37 | an entry is not broadcast exactly for a missing identifier, a missing or malformed timestamp, or a measurement that is no number |
| Evaluators.ReadDelivers | app/workers/anomaly_consumer.py:91-97 | a read delivers the next fifty entries, or all there are, to one worker |
| Evaluators.AbandonedForever | app/workers/anomaly_consumer.py:91-102 | an entry no worker holds is never acknowledged or broadcast later |
| Evaluators.CrashLosesBatch | app/workers/anomaly_consumer.py:91-102 | a crash loses the rest of the worker's batch for good |
| Evaluators.Worker.ProcessEvaluationEntries | app/workers/anomaly_consumer.py:24-79 | each readable entry is broadcast once, in order, and every entry is acknowledged; a batch of ingested readings makes exactly one tick per reading |
| Evaluators.BatchIsRun | app/workers/anomaly_consumer.py:24-79 | the whole batch, to its last entry, is a legal run of the worker's steps, which leaves the worker free |
| Subscriptions.CallSettles | app/websocket/connection_manager.py:25-48 | a call settles exactly its own socket on exactly its own channels |
| Subscriptions.ConnectionManager.Connect | app/websocket/connection_manager.py:17-34 | the map stays the relation of latest operations, without empty sets |
| Subscriptions.ConnectionManager.Disconnect | app/websocket/connection_manager.py:39-49 | the same after removals |
| Subscriptions.OthersAreSpared | app/websocket/connection_manager.py:51-59 | a subscription that no other call touches during a broadcast is as it was, unless it is to this channel and its send failed |
| Subscriptions.ConnectionManager.Broadcast | app/websocket/connection_manager.py:51-59 | every subscriber of the snapshot is sent to once; apart from removals after failed sends exactly the calls of others happen, in order; those removals are of exactly the sockets whose send failed, from this channel only |

## Left out

- Text.FloatTextReadsBack: infinities and NaN, digit separators and an upper-case E are not modelled; that the shortest digits identify a binary float is repr's own promise and is assumed.
- Text.IntTextReadsBack: underscores and the digits and blanks beyond ASCII, which int() also accepts, are not modelled.
- Wire.UuidReadsBack: the urn: and braced spellings that uuid.UUID also accepts count as unparseable; ingest never writes them.
- Calendar.IsoReadsBack: the other ISO 8601 spellings that fromisoformat accepts, which ingest never writes, count as unparseable; a naive timestamp, which the workers take as local time, is read as UTC.
- Partitions.Upgrade: month starts before year 1 or after year 9999 are computed like any other, whether or not PostgreSQL accepts their literals.
- Statistics.ZScoreBound: exact real arithmetic; NumPy's rounding is not modelled, and the square root is avoided by comparing squares; the sign of a score is that of its numerator.
- Energy.EnergyConserved: assumes distinct timestamps, since the query sorts by timestamp alone.
- Energy.RoundMonotone: rounds exact reals; the binary representation of the rounded figure is not modelled.
- Alerts.RunKeepsInv: an API call is one step at its commit, and rows and rules are never deleted.
- AlertService.Evaluator.ProcessReadingAlerts: organisation, severity, message text and timestamps of a row are not carried; a minute of cache time is counted from the query.
- Backend.Store.XAutoClaim: which entries are idle is an input here, so any timing is covered; Reclaim has the clock.
- Reclaim.RecoverableExactly: covers pending lists of at most one batch; in longer ones a reclaim may part companions, as its COUNT runs out between them.
- Evaluators.Worker.ProcessEvaluationEntries: the z-score and alert steps of an entry change other state, modelled in Window and AlertService; trimming is not modelled for this group.
- RateLimit.Limiter.Admit: the authentication that follows the limit, and its cache, are not modelled.
- Subscriptions.ConnectionManager.Broadcast: the Redis listener that feeds it, and its restart, are not modelled.
- Deletion of devices and the cascades it causes; retention of old partitions.
- Device connectivity checks: nothing in the application ever marks a device online.
- Users, organisations, sites, dashboards and the other CRUD endpoints, passwords and tokens.
- The seeding scripts, the simulator, logging, configuration and deployment files.
