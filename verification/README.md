# TunerOS: a verified model of its state machines

TunerOS runs one deterministic pipeline: a fixed-step vehicle simulation publishes periodic CAN frames,
the frames travel as 19-byte records, and a backend records, explores, aggregates, diagnoses and
replays them for browser clients. This project models the parts of it that carry state and proves what
they mean over whole runs.

Each in-place object of the source is a class here, proved against a definition over everything it has
seen so far; what the system promises is then proved about those definitions.

- **Diagnostics** (`DiagnosticRules`, `DiagnosticLifecycle`, `DiagnosticEngine`, `DefaultDiagnostics`,
  `ShippedDiagnostics`): the trouble-code machine, its timers stated without timers, its event log and freeze
  frames, and the five shipped codes in numbers.
- **Live delivery** (`SubscriptionProtocol`, `TelemetryEngine`, `DecodedValues`, `TelemetryClient`,
  `TelemetryCharts`, `CanExplorer`, `CanClient`, `TelemetryService`, `LiveDelivery`, `DecodedPipeline`,
  `ServicePipeline`): the bounded queue under every interleaving, the server's aggregates, and the replicas
  clients rebuild from snapshots and deltas, joined end to end; which samples the charts show.
- **Investigation** (`InvestigationWindow`, `Investigation`, `Investigator`, `InvestigationAnswers`):
  the one-pass query against the plain definition, and the cursor over its result.
- **Simulation and publication** (`VehicleModel`, `Drivetrain`, `Calibration`, `ShippedCalibrations`,
  `VehicleDynamics`, `VehicleSimulation`, `ScriptedDrive`, `EngineTemperatures`, `ProfileLimits`,
  `SimulationRun`, `SignalEncoding`, `EcuFrames`, `PeriodicPublication`, `SimulatedEcus`, `VehicleNetwork`):
  every state of a run in numbers, the vehicle contract in every reachable state and exactly which profiles
  keep it, the CITY speed limit, due times in 64-bit arithmetic, frame counts and bus order, quantisation.
- **Codecs and artifacts** (`RecordCodec`, `Gateway`, `SessionModels`, `SessionArtifacts`, `RecordedRun`):
  both record codecs, the chunked reader, recorded sessions, and the whole way from a run to its recording.

`Prelude`, `Arithmetic`, `RawCan` and `TelemetryModels` are shared. `dafny verify dfyconfig.toml` verifies
everything.

## What the code does not promise

Some statements one would expect are false of the code as it stands. Each is kept as it is, with a
concrete input and the exact condition under which it holds.

- A raw-CAN subscription can span a reset of the explorer: `start` empties it without looking at
  subscribers, which `start_replay` does (condition: `TelemetryService.StepKeepsCanFeeds`, input:
  `TelemetryService.LiveStartBreaksCanFeed`). The HTTP application starts live telemetry only before it
  serves clients, so this takes a direct caller of the service.
- `advance_due_timestamp` wraps for one argument, stepping by 1 from 0 at the last moment (condition and
  input: `PeriodicPublication.AdvanceIsExact`), and a stream has one frame more than one per period in one
  kind of run (condition: `PeriodicPublication.FrameCountIsExact`, input:
  `PeriodicPublication.LongestRunHasExtraFrame`).
- The configuration check accepts profiles that leave the vehicle contract. A profile is safe for CITY
  exactly with a redline of 750 rpm and four gears (`ProfileLimits.CityProfileIsExact`, inputs:
  `ProfileLimits.CityNeedsIdleSpeed`, `ProfileLimits.CityNeedsFourGears`), and for IDLE, WARMUP and
  the full-throttle pull exactly with a redline of 750 rpm (`ProfileLimits.RunningProfileIsExact`,
  inputs: `ProfileLimits.IdleNeedsIdleSpeed`, `ProfileLimits.PullNeedsIdleSpeed`). For a cold start it is
  safe exactly when the scripted engine speed stays within the redline, which 888 rpm never suffices for and
  1200 rpm always does (`ProfileLimits.ColdProfileIsExact`, input: `ProfileLimits.ColdNeedsMore`). Single
  runs: `ProfileLimits.RestingContractIsExact`, `ProfileLimits.IdleContractIsExact`,
  `ProfileLimits.CityContractIsExact`.
- It also accepts steps with which CITY exceeds 26 m/s (condition:
  `VehicleSimulation.CitySpeedingIsExact`, input: `ProfileLimits.CityNeedsShortSteps`). The steps the
  simulator itself uses are far below them.
- The design samples charts every 50 ms (`docs/FRONTEND.md:144-147`). A sample that replaces the newest
  point also moves its time, so a signal sent faster than that, like engine speed every 10 ms, never gets a
  second point (condition: `TelemetryCharts.ChartHasLine`, input: `TelemetryCharts.HundredHertzStarves`).
- A recorder accepts arguments whose manifest can never be read back (condition:
  `SessionArtifacts.RecorderManifestIsReadable`, input: `SessionArtifacts.NegativeRevisionIsUnreadable`).
- Two limits of a condition may be set so that it chatters (condition and input:
  `DiagnosticRules.NestedIffNeverChatters`); the shipped rules do not.

## Modelling choices

- Numbers are exact reals and unbounded integers; 64-bit time is an explicit subset type, and the one
  increment that can wrap is written as wrapping. The exponential is a parameter with three laws:
  exp(0) = 1, 0 < exp(x) <= 1 for x <= 0, and exp(x + y) = exp(x) exp(y). Failing inputs that need
  an engine to rev up, and conditions that rest on one, add exp(-1) <= 1/2; the true value is about 0.37.
- `std::clamp` with reversed bounds is undefined. The engine speed of a moving vehicle is clamped so when the
  redline is below 750 rpm; the model gives that clamp some value, and no result rests on which.
- ID and DLC limits are those of standard data frames, section 3.1.1 of the Bosch CAN Specification 2.0,
  Part A.
- The queue protocol is a state machine whose steps are the lock-protected sections and loop hand-overs
  of the source; the methods of `TelemetrySubscription` are shown to be those steps.
- Database decoding is a parameter. Where it matters it is assumed to keep a frame's time, to yield
  signals the catalog defines, and to give a boolean for the engine-running signal and numbers for all
  others. The factor of normalised signals is the rational 1/255.
- The hash of a frame file is an uninterpreted function; that its digests have the shape of a SHA-256
  digest is assumed only where manifests are read back. Publication of an artifact succeeds or fails as a
  whole.
- Receiving from a connection returns any non-empty part of what is left, at most the requested size.
- Every lemma switches automatic induction off: each inductive step is written out.
- The reader's `frames` and `validate_integrity` run the same loop; it is written once.

## Model

| member | source | states |
|---|---|---|
| DiagnosticRules.NestedIffNeverChatters | backend/src/tuneros/diagnostics/rules.py:28-96 | No snapshot is a violation under the activation limits and normal under the recovery limits exactly when the recovery limits are nested in the activation limits or the condition has nothing to compare; for any other condition a snapshot that chatters is built |
| DiagnosticRules.VerdictIsExact | backend/src/tuneros/diagnostics/rules.py:28-96 | A false context makes everything normal in both modes; otherwise a number is a violation strictly beyond the limit in force, or strictly outside the closed range, and a disagreement as soon as one compared signal is further from the reference than the limit |
| DiagnosticLifecycle.ClocksAreExact | backend/src/tuneros/diagnostics/engine.py:174-283 | After any history, the condition clock is running since t exactly when t starts the maximal unbroken streak of fresh violations of a non-active code, and the recovery clock likewise for normals of an active code |
| DiagnosticLifecycle.TimerExactness | backend/src/tuneros/diagnostics/engine.py:152-283 | For any history: a confirmation is emitted exactly when the code was not ACTIVE and the last input ends an unbroken streak of fresh violations spanning the confirmation duration; a recovery exactly when it was ACTIVE and the last input ends a streak of fresh normals spanning the recovery duration |
| DiagnosticLifecycle.LogIsFaithful | backend/src/tuneros/diagnostics/engine.py:99-126 | Per code, every event starts from the status the previous one left (absent at first) and is a legal transition; playing the log gives the current status; the occurrences, first-detected, confirmed, resolved and cleared times and freeze-frame flag of the record are those of the log |
| DiagnosticLifecycle.LastSeenIsExact | backend/src/tuneros/diagnostics/engine.py:174-236 | The last-seen time of a record is that of the latest violation of the history, judged under the limits then in force |
| DiagnosticLifecycle.FirstConfirmationIsLeast | backend/src/tuneros/diagnostics/engine.py:206-236 | The first confirmation of a history is the least input that confirms |
| DiagnosticLifecycle.FreezeFrameIsFirstConfirmation | backend/src/tuneros/diagnostics/engine.py:206-236 | A freeze frame exists exactly when the code was ever confirmed and stays the capture of the first confirmation |
| DiagnosticLifecycle.DeadBandIsStable | backend/src/tuneros/diagnostics/engine.py:160-165 | If every later fresh reading is in the dead band, whether the code is ACTIVE never changes again |
| DiagnosticEngine.RulesAreIndependent | backend/src/tuneros/diagnostics/engine.py:57-70 | In any run of the engine, the state and the log entries of one rule are those of its own machine over its own view of the operations, whatever the other rules and clears do |
| DiagnosticEngine.LogIsNumbered | backend/src/tuneros/diagnostics/engine.py:325-346 | Sequence numbers of the full log are its positions, and the log only grows |
| DiagnosticEngine.ApplyRulesStamps | backend/src/tuneros/diagnostics/engine.py:325-346 | Every event an operation adds carries the time of that operation |
| DiagnosticEngine.ClearTouchesOneCode | backend/src/tuneros/diagnostics/engine.py:99-126 | A clear is one step of the cleared code and leaves every other code and event alone |
| DiagnosticEngine.Engine.Ingest | backend/src/tuneros/diagnostics/engine.py:57-70 | The object refuses exactly the snapshots that move backward, ignores unobserved ones, and otherwise its state, log and retained events are those of the replayed history |
| DiagnosticEngine.Engine.Clear | backend/src/tuneros/diagnostics/engine.py:99-126 | Succeeds exactly for a HISTORICAL or already CLEARED code and is one clear step; errors change nothing |
| DiagnosticEngine.Engine.HandleViolation | backend/src/tuneros/diagnostics/engine.py:174-236 | The in-place handler is the violation step of the rule, with its events appended |
| DiagnosticEngine.Engine.HandleNormal | backend/src/tuneros/diagnostics/engine.py:238-283 | The in-place handler is the normal step of the rule, with its events appended |
| DiagnosticEngine.Engine.EvaluateRule | backend/src/tuneros/diagnostics/engine.py:152-165 | One rule: stale or missing inputs restart both clocks, fresh ones are one step |
| DiagnosticEngine.Engine.AppendEvent | backend/src/tuneros/diagnostics/engine.py:325-346 | The retained events stay the last min(capacity, total) of the full log, numbered contiguously |
| DiagnosticEngine.Engine.Events | backend/src/tuneros/diagnostics/engine.py:86-93 | The newest retained events up to the limit |
| DiagnosticEngine.Engine.Reset | backend/src/tuneros/diagnostics/engine.py:145-150 | Back to an empty history |
| DefaultDiagnostics.DefaultRulesAreSound | backend/src/tuneros/diagnostics/catalog.py:106-199 | The five shipped rules have distinct codes and nested, separated limits |
| DefaultDiagnostics.DefaultRulesAcceptDecodedSnapshots | backend/src/tuneros/diagnostics/catalog.py:106-199 | Every snapshot of decoded frames can be evaluated by every shipped rule |
| DefaultDiagnostics.EngineTimersAreExact | backend/src/tuneros/diagnostics/engine.py:57-70 | The timer statement for any rule of any engine run, with clears and other rules interleaved anywhere |
| DefaultDiagnostics.EngineLogIsFaithful | backend/src/tuneros/diagnostics/engine.py:99-150 | The log, last-seen and freeze-frame statements for any rule of any engine run |
| DefaultDiagnostics.EngineHysteresisIsStable | backend/src/tuneros/diagnostics/engine.py:160-165 | The dead-band statement for any rule of any engine run |
| ShippedDiagnostics.ShippedReading | backend/src/tuneros/diagnostics/catalog.py:106-199 | What a snapshot is to each shipped code, in numbers: which signals must be fresh, and which values show the fault, engine-running context and both limits included |
| ShippedDiagnostics.ShippedTimersAreExact | backend/src/tuneros/diagnostics/catalog.py:106-199 | Over every run, told on the snapshots: a code is confirmed exactly when its fault has shown in every fresh reading for 5, 5, 3, 2 or 1 seconds, and recovers exactly when none has shown it for 3, 3, 2, 2 or 1 |
| ShippedDiagnostics.EngineOffNeverConfirms | backend/src/tuneros/diagnostics/rules.py:50-77 | While every fresh reading says the engine is off, low voltage and odd manifold pressure never become ACTIVE |
| ShippedDiagnostics.EngineOffLogsNoConfirmation | backend/src/tuneros/diagnostics/rules.py:50-77 | In a run with the engine off throughout neither code is ever confirmed |
| ShippedDiagnostics.EngineOffRecovers | backend/src/tuneros/diagnostics/rules.py:50-77 | An ACTIVE one of the two has recovered once fresh readings have said engine off for two seconds |
| SubscriptionProtocol.StepKeepsInvariant | backend/src/tuneros/telemetry/service.py:201-250 | Every atomic step of publisher, loop, receiver and closer keeps control, signalling, accounting and order |
| SubscriptionProtocol.RunKeepsInvariant | backend/src/tuneros/telemetry/service.py:201-250 | The invariant holds in every state of every interleaving |
| SubscriptionProtocol.QueueNeverOverflows | backend/src/tuneros/telemetry/service.py:212-232 | While active, in-flight plus queued plus taken-but-uncounted deliveries equal the outstanding count and stay within capacity; the queue has room at every put |
| SubscriptionProtocol.ReceivedIsPrefixOfPublished | backend/src/tuneros/telemetry/service.py:201-207 | What was received is always an in-order prefix of what was published since subscribing, and all of it once an active subscription has caught up |
| SubscriptionProtocol.ReceivedGrows | backend/src/tuneros/telemetry/service.py:201-207 | What was received is never taken back or reordered |
| SubscriptionProtocol.OverflowClosesExactlyOnce | backend/src/tuneros/telemetry/service.py:234-250 | No closing item before the subscriber is found slow; once a slow subscriber has caught up it has received exactly one, as its last item, and it never receives anything after it |
| SubscriptionProtocol.OverflowCloses | backend/src/tuneros/telemetry/service.py:212-250 | When the publisher finds the queue of a subscriber full and nobody else closes it, a receiver that has drained its queue has received the closing item last, unless the loop refused the callback |
| SubscriptionProtocol.ScheduleIsExact | backend/src/tuneros/telemetry/service.py:212-227 | Under every interleaving an event overflows exactly when the subscription is active and as many events wait as it has capacity, is reserved exactly with fewer, and is let go exactly when it is closed |
| SubscriptionProtocol.SlowMeansFull | backend/src/tuneros/telemetry/service.py:212-250 | A subscriber disconnected as slow once had as many events waiting as capacity: nobody with room is disconnected |
| SubscriptionProtocol.SlowHappens | backend/src/tuneros/telemetry/service.py:212-250 | For every capacity some run ends with a receiver that took nothing disconnected as slow and its closing item under way |
| SubscriptionProtocol.RelayHappens | backend/src/tuneros/telemetry/service.py:201-250 | For every capacity and any events some run relays them all, one by one, to a receiver that takes each |
| SubscriptionProtocol.TelemetrySubscription.Reserve | backend/src/tuneros/telemetry/service.py:212-227 | The locked section is the scheduling step: full exactly when as many events wait as there is capacity, accepted exactly with fewer, refused exactly when closed |
| SubscriptionProtocol.TelemetrySubscription.MayDeliver | backend/src/tuneros/telemetry/service.py:229-232 | The check before a delivery decides the delivery step of the protocol |
| SubscriptionProtocol.TelemetrySubscription.Deactivate | backend/src/tuneros/telemetry/service.py:234-245 | Deactivation of the object is the deactivation step of the protocol |
| SubscriptionProtocol.TelemetrySubscription.PutNowait | backend/src/tuneros/telemetry/service.py:229-232 | Delivery into the object is the put step, and never finds the queue full |
| SubscriptionProtocol.TelemetrySubscription.DeliverClosing | backend/src/tuneros/telemetry/service.py:247-250 | The closing delivery empties the queue and leaves only the closing item |
| SubscriptionProtocol.TelemetrySubscription.Get | backend/src/tuneros/telemetry/service.py:201-207 | Taking an item is the take step of the protocol |
| SubscriptionProtocol.TelemetrySubscription.CountTaken | backend/src/tuneros/telemetry/service.py:201-207 | Counting the taken item is the count step of the protocol |
| TelemetryEngine.Engine.Ingest | backend/src/tuneros/telemetry/engine.py:43-85 | A frame is accepted exactly when it is described by the catalog and not older than the last; each sample then has the key, value, time, ID, number, unit and control unit of its signal, and latest values, histories, totals and per-ID counts are those of the accepted frames; a refusal changes nothing |
| TelemetryEngine.Engine.CheckDescribed | backend/src/tuneros/telemetry/catalog.py:84-105 | Accepts exactly the frames whose ID, name and every signal the catalog defines, with the refusal that fits |
| TelemetryEngine.Engine.Store | backend/src/tuneros/telemetry/engine.py:70-78 | The mutation loop appends each sample to the bounded history of its signal and makes it the latest |
| TelemetryEngine.Engine.FreshnessOf | backend/src/tuneros/telemetry/engine.py:98-114 | Fails exactly for an unknown key or a time before the sample; otherwise fresh for two expected periods |
| TelemetryEngine.Engine.TakeSnapshot | backend/src/tuneros/telemetry/engine.py:125-142 | The snapshot is the one the accepted frames determine; judging its freshness never fails |
| TelemetryEngine.Engine.TakeSnapshotOf | backend/src/tuneros/telemetry/engine.py:125-142 | A snapshot of chosen signals is refused exactly when one is not defined, and is otherwise the whole snapshot cut down to them |
| TelemetryEngine.Engine.History | backend/src/tuneros/telemetry/engine.py:94-97 | The last min(capacity, n) samples of the signal, ending in its latest |
| TelemetryEngine.Engine.Reset | backend/src/tuneros/telemetry/engine.py:144-152 | Back to no accepted frames |
| TelemetryEngine.LatestIsEndOfHistory | backend/src/tuneros/telemetry/engine.py:70-97 | The latest value of a signal is the last element of its history |
| TelemetryEngine.SamplesAreOfFrames | backend/src/tuneros/telemetry/engine.py:43-85 | Every sample belongs to a defined signal and carries the time of the frame it is numbered after |
| DecodedValues.SamplesAreDecoded | backend/src/tuneros/telemetry/engine.py:43-85 | The samples of a signal are, field by field, what the accepted frames decode for it, in order |
| DecodedValues.LatestIsDecoded | backend/src/tuneros/telemetry/engine.py:70-97 | The latest value of a signal is what the last accepted frame that carries it decoded for it; a signal no frame carries has none |
| DecodedValues.HistoryIsDecoded | backend/src/tuneros/telemetry/engine.py:70-97 | A history lists the decoded values in order, the newest up to the capacity |
| DecodedValues.SnapshotIsDecoded | backend/src/tuneros/telemetry/engine.py:125-142 | A snapshot shows the last decoded value of every signal and calls it fresh exactly up to twice its period |
| TelemetryClient.KeyIdIsInjective | frontend/lib/telemetry/signals.ts:29-31 | Signals whose message names are free of the separator never share a client key |
| TelemetryClient.SnapshotMirrors | frontend/lib/telemetry/state.ts:168-187 | Loading a snapshot listed in any order makes the client state the engine state |
| TelemetryClient.UpdateMirrors | frontend/lib/telemetry/state.ts:112-166 | One delta keeps the client state equal to the engine state, without a warning |
| TelemetryClient.DeltasKeepMirror | frontend/lib/telemetry/state.ts:189-199 | Any number of deltas keep it |
| TelemetryClient.ReplicaFollowsEngine | frontend/lib/telemetry/state.ts:112-199 | Snapshot at any moment plus any prefix of deltas: latest samples, observation time, last sequence and statistics are the engine's as of that frame |
| TelemetryClient.SequencesAreChecked | frontend/lib/telemetry/state.ts:112-166 | For any client and update: a repeated or older sequence changes nothing but the warning, a skipped one is taken with a warning naming both sequences, and totals count the skipped frames |
| TelemetryClient.StoreAll | frontend/lib/telemetry/state.ts:128-139 | The loop over local copies stores every sample under its key |
| TelemetryClient.ChartStaysSpaced | frontend/lib/telemetry/state.ts:80-94 | One more sample keeps chart points at least one interval apart and bounded, ending in the newest numeric sample |
| TelemetryCharts.ReplicaCharts | frontend/lib/telemetry/state.ts:80-199 | After a snapshot and any prefix of deltas, the chart of every signal shows exactly those of its numeric samples that no other followed within the interval, and the newest, the last 180 of them; every chart is spaced and bounded |
| TelemetryCharts.ChartHasLine | docs/FRONTEND.md:144-147 | A chart has two points or more exactly when two neighbouring numeric samples are a full interval apart |
| TelemetryCharts.FastChartStarves | docs/FRONTEND.md:144-147 | Fed faster than the interval, a chart holds its newest point alone, however long it is fed |
| TelemetryCharts.HundredHertzStarves | docs/FRONTEND.md:144-147 | The chart of a signal sent every 10 ms has one point after any number of samples |
| CanExplorer.Explorer.Ingest | backend/src/tuneros/can/explorer.py:108-148 | The frame is annotated as unknown, decoded or failed with the metadata, signals or reason of the database; the ring holds the last min(capacity, n) of them and the per-ID counters agree with the whole run, through eviction |
| CanExplorer.IndexAfterIngest | backend/src/tuneros/can/explorer.py:108-148 | Evicting the oldest frame and touching the new ID keeps every counter in agreement with the ring and the run |
| CanExplorer.Explorer.Frame | backend/src/tuneros/can/explorer.py:175-176 | A sequence number is found exactly when n - retained <= s < n, and then it is that frame |
| CanExplorer.Explorer.Frames | backend/src/tuneros/can/explorer.py:150-173 | The newest retained frames, up to the limit, among those with the requested ID, message name and sender |
| CanExplorer.SelectedIsExact | backend/src/tuneros/can/explorer.py:150-173 | A filtered query holds exactly the matching frames, in their order |
| CanExplorer.Explorer.Statistics | backend/src/tuneros/can/explorer.py:184-194 | Retained, total and distinct-ID counts and boundary times are those of the run |
| CanExplorer.Explorer.MessageStatistic | backend/src/tuneros/can/explorer.py:181-182 | Present exactly for IDs ever seen, with that ID's counters |
| CanExplorer.Explorer.AllMessageStatistics | backend/src/tuneros/can/explorer.py:178-179 | Every ID ever seen once, ascending, with its counters |
| CanExplorer.ObservedPeriodIsMeanGap | backend/src/tuneros/can/explorer.py:226-251 | The observed period is the mean distance between consecutive frames of the ID over the whole run, present from its second frame on |
| CanExplorer.FrequencyInvertsPeriod | backend/src/tuneros/can/explorer.py:226-251 | A frequency is given exactly for a positive period and is its inverse |
| CanExplorer.CountersAddUp | backend/src/tuneros/can/explorer.py:178-224 | Over all IDs, retained counts sum to the ring length and totals to the number of frames ingested |
| CanExplorer.RingPositions | backend/src/tuneros/can/explorer.py:175-176 | Ring position i holds the annotated frame numbered n - retained + i |
| CanClient.InitialMirrors | frontend/lib/can/state.ts:108-130 | Loading an explorer snapshot gives the retained frames and every ID's counters, retained counts included |
| CanClient.FrameMirrors | frontend/lib/can/state.ts:76-106 | One delta keeps the mirror: neither duplicate nor gap |
| CanClient.ClientFollowsExplorer | frontend/lib/can/state.ts:76-140 | After any deltas the client holds the last min(1000, snapshot + received) frames and the explorer's statistics and counters; each ID's retained count is the explorer's as of the later of the snapshot and the newest frame of that ID |
| CanClient.FreezeIsPresentationOnly | frontend/lib/can/state.ts:131-163 | Frozen, the shown frames stand still and the passed count is exact; unfreezing gives the state of a client that never froze |
| CanClient.SequencesAreChecked | frontend/lib/can/state.ts:79-115 | For any client and event: a repeated or older sequence changes nothing but the warning, a skipped one is taken with a warning, and a frozen view stands still |
| CanClient.SnapshotKeepsFreeze | frontend/lib/can/state.ts:128-152 | Loading a snapshot shows it at once unless frozen; a frozen view stands still and counts the frames of the run that have passed it |
| TelemetryService.StepKeepsFeeds | backend/src/tuneros/telemetry/service.py:421-461 | Every service step keeps every telemetry subscription complete: the only reset of the engine requires that nobody is subscribed |
| TelemetryService.StepKeepsCanFeeds | backend/src/tuneros/telemetry/service.py:400-461 | Every step keeps every raw-CAN subscription complete, except a live start, which does exactly when nobody watches raw CAN or the explorer is empty |
| TelemetryService.SubscriberSeesEngine | backend/src/tuneros/telemetry/service.py:489-619 | In every run, a client with its snapshot and any prefix of its deltas is the engine as of that frame |
| TelemetryService.CanSubscriberSeesExplorer | backend/src/tuneros/telemetry/service.py:619-637 | The same for raw CAN in every run without a live start over watchers, for limited and unlimited snapshots |
| TelemetryService.LiveStartBreaksCanFeed | backend/src/tuneros/telemetry/service.py:400-411 | A concrete allowed run in which a live start empties the explorer under a raw-CAN subscriber |
| TelemetryService.StaleClientIgnoresLiveFrames | frontend/lib/can/state.ts:76-90 | After such a start the client ignores as many live frames as it had already seen |
| LiveDelivery.ReceivedDeltas | backend/src/tuneros/telemetry/service.py:201-261 | In every interleaving of the queue, the received deltas are a prefix of those published to the subscription, and all of them once an active subscription has caught up |
| LiveDelivery.ReceiverSeesEngine | backend/src/tuneros/telemetry/service.py:201-261 | Service, queue and reducer together: whatever a telemetry client has received, disconnected and draining or not, makes it the engine as of some accepted frame, and as of now once caught up |
| LiveDelivery.ReceiverSeesExplorer | backend/src/tuneros/telemetry/service.py:201-261 | The same for a raw-CAN client, in every run without a live start over watchers |
| ServicePipeline.Service.IngestDecoded | backend/src/tuneros/telemetry/service.py:489-511 | Accepts exactly non-empty frames the engine accepts; one model step, one new diagnosed snapshot, one delta to every subscriber; a refusal changes nothing |
| ServicePipeline.Service.IngestCanExplorer | backend/src/tuneros/telemetry/service.py:714-723 | Every raw frame is one explorer step of the model and one event to every raw-CAN subscriber |
| ServicePipeline.Service.Start | backend/src/tuneros/telemetry/service.py:400-419 | Refused exactly when already started live or active; empties explorer and diagnostics but not the telemetry engine |
| ServicePipeline.Service.StartReplay | backend/src/tuneros/telemetry/service.py:421-461 | Refused exactly when a source is active, its thread still lives or anyone is subscribed; empties all three engines |
| ServicePipeline.Service.Subscribe | backend/src/tuneros/telemetry/service.py:609-617 | The subscription and its snapshot are taken at the same frame |
| ServicePipeline.Service.SubscribeCan | backend/src/tuneros/telemetry/service.py:619-637 | The raw-CAN subscription and its snapshot, of all retained frames or the newest up to a limit, are taken at the same frame |
| ServicePipeline.Service.TransitionLocked | backend/src/tuneros/telemetry/service.py:705-712 | A state change reaches every subscriber of both kinds |
| ServicePipeline.Service.ClearDiagnostic | backend/src/tuneros/telemetry/service.py:605-607 | Succeeds exactly for a historical or cleared code; clearing a historical one is one clear request added to the diagnostic history and one event; nothing is published and the rest of the service is left alone |
| DecodedPipeline.Diagnose | backend/src/tuneros/telemetry/service.py:507-508 | Diagnosing the newest snapshot is never refused and adds exactly one operation to the diagnostic history |
| DecodedPipeline.SnapshotIsTyped | backend/src/tuneros/telemetry/service.py:507-508 | Snapshots of frames with the database's types carry those types |
| InvestigationWindow.ResolvedWindowIsInside | backend/src/tuneros/investigation/service.py:271-303 | Refused exactly for negative or too wide spans or a center outside; the center is the requested one, or the middle of the session, and the window holds exactly the session times from before it to after it |
| InvestigationWindow.ClampedCenterResolves | backend/src/tuneros/investigation/service.py:306-313 | A clamped baseline center always resolves and no session time is nearer |
| InvestigationWindow.WithinIsSlice | backend/src/tuneros/investigation/service.py:108-133 | In a sorted session the frames of an interval are one contiguous slice |
| InvestigationWindow.LatestAtOrBefore | frontend/lib/investigation/state.ts:70-83 | The backward scan with its fallback on the start context |
| InvestigationWindow.CursorIsGloballyCorrect | frontend/lib/investigation/state.ts:70-83 | For every cursor in the window, scanning the windowed series with the start context gives the last sample of the whole series at or before the cursor, ties to the later arrival |
| Investigation.ReplayIsUnique | backend/src/tuneros/investigation/service.py:108-116 | The diagnostic operations of a replay are determined by the decoded frames |
| Investigation.CenterStateIsIndependent | backend/src/tuneros/investigation/service.py:80-106 | Records and freeze frames at the center are those of replaying all frames up to it, the same for every span and selection |
| Investigation.RawFramesKeepTheirIndex | backend/src/tuneros/investigation/service.py:108-133 | The returned raw frames are exactly those with start <= t <= end and keep their session index as sequence |
| Investigation.FreezesAreExact | backend/src/tuneros/investigation/service.py:79-97 | The freeze frames at the center are those of the rules that have one, in catalog order |
| Investigator.Investigate | backend/src/tuneros/investigation/service.py:108-162 | One pass with early capture and skipping gives raw frames, series, start context, events and center state of the plain definitions; it fails on the frame limit exactly when more than 8192 decodable frames fall in the window |
| Investigator.Visit | backend/src/tuneros/investigation/service.py:114-139 | The body of the pass for one frame not past the window |
| Investigator.Gather | backend/src/tuneros/investigation/service.py:118-139 | Context at or before the start, evidence from the start on, limit checked before appending |
| Investigator.CaptureCenter | backend/src/tuneros/investigation/service.py:80-99 | The captured records and freeze frames are those of the current history |
| Investigator.AppendSelected | backend/src/tuneros/investigation/service.py:131-133 | Each selected series grows by the samples of its signal, in order |
| Investigator.RememberSelected | backend/src/tuneros/investigation/service.py:118-121 | The context keeps the newest sample of each selected signal |
| InvestigationAnswers.RefusalsAreExact | backend/src/tuneros/investigation/service.py:271-341 | Each query error, with the order of the checks: spans, width, empty session, center, code, selection |
| InvestigationAnswers.SelectionIsExact | backend/src/tuneros/investigation/service.py:316-341 | The signals answered are those asked for, else those the code is judged by, else the first six; never none, more than six, one twice or an undefined one |
| InvestigationAnswers.Ask | backend/src/tuneros/investigation/service.py:51-69 | A malformed query gets its error; otherwise success and the frame limit are exact, and the answer is about the requested center: exactly the session frames around it, under their index, and the records and freeze frames of replaying the frames up to it |
| InvestigationAnswers.DefaultSelectionIsValid | backend/src/tuneros/investigation/service.py:316-336 | Leaving the selection out is refused exactly for a trouble code no rule has |
| InvestigationAnswers.CursorReadsTheRecording | frontend/lib/investigation/state.ts:70-83 | For every answer, selected signal and cursor in the window, the lookup finds the last sample of the whole recording at or before the cursor |
| VehicleModel.FlagsAreExact | simulator/src/faults.cpp:44-67 | A fault flag is set exactly when some configured fault of that kind is active |
| VehicleModel.ActiveFromTo | simulator/src/faults.cpp:37-67 | A fault flag is set exactly from the activation of a fault of its kind to before its deactivation, if any |
| VehicleModel.ObservationIsValid | simulator/src/faults.cpp:69-92 | Sensor faults bias their own observation by exactly their amount and leave the contract and everything else intact |
| Drivetrain.InputsAreNormalized | simulator/src/scenario.cpp:10-88 | Scripted inputs are normalised at every time of every scenario; CITY never asks for more than 0.55 |
| Drivetrain.CityGear | simulator/src/drivetrain.cpp:42-59 | Neutral exactly when stationary intent meets standstill speed; each higher gear exactly from its threshold |
| VehicleDynamics.ApproachDoesNotOvershoot | simulator/src/simulation.cpp:18-22 | A first-order response moves toward its target and never past it |
| VehicleDynamics.ApproachManyIsOne | simulator/src/simulation.cpp:18-22 | n responses at dt are one response over n*dt |
| VehicleDynamics.StepKeepsContract | simulator/src/simulation.cpp:133-273 | Every step of every scenario, under any faults, keeps the VehicleState contract for a drivable profile |
| VehicleSimulation.InitialStateIsValid | simulator/src/simulation.cpp:87-125 | Every accepted configuration starts in a valid state, so the last constructor error never occurs |
| VehicleSimulation.ConfigurationIsExact | simulator/src/simulation.cpp:36-85 | Which otherwise valid configurations are refused: durations, steps, cold-start alignment, initial motion and initial engine state |
| VehicleSimulation.EveryStateIsValid | simulator/src/simulation.cpp:335-354 | Every state of every run satisfies the contract when redline (750, cold start 1200) and gears (CITY 4, full throttle 3) reach what the scenario asks for; the exact conditions are rows of ProfileLimits |
| VehicleSimulation.CitySpeedIsScripted | simulator/src/drivetrain.cpp:61-95 | The speed after k ticks of CITY depends on the step and k alone: not on profile, calibration, environment or faults |
| VehicleSimulation.CitySpeedingIsExact | simulator/src/scenario.cpp:40-66 | A CITY run of n ticks exceeds 26 m/s exactly when its step is between 260/11 s and 25 s and n >= 3, from 32 s to below 44 s and n >= 2, or from 55 s to below 88 s and n >= 1 |
| ProfileLimits.CityNeedsShortSteps | simulator/src/drivetrain.cpp:61-95 | With a 24 s step an accepted CITY run reaches 26.4 m/s at its third tick |
| ProfileLimits.CityNeedsFourGears | simulator/src/drivetrain.cpp:42-59 | With a redline of 750 or more but fewer than four gears, an accepted CITY run in steps of 20 s leaves the contract at its first tick |
| ProfileLimits.CityNeedsIdleSpeed | simulator/src/simulation.cpp:36-85 | With any redline below 750 an accepted one-second CITY run idles past it |
| ProfileLimits.CityProfileIsExact | simulator/src/simulation.cpp:36-85 | Every accepted CITY configuration of a profile keeps the contract in every reachable state exactly when the profile has a redline of at least 750 and at least four gears |
| ProfileLimits.IdleNeedsIdleSpeed | simulator/src/simulation.cpp:218-233 | With any redline below 750 an accepted IDLE or WARMUP run started at the redline ends past it |
| ProfileLimits.PullNeedsIdleSpeed | simulator/src/drivetrain.cpp:97-113 | With any redline below 750 an accepted pull that starts rolling at 0.1 m/s comes to rest in its first second and idles past the redline; no clamp between reversed bounds is reached |
| ProfileLimits.RunningProfileIsExact | simulator/src/simulation.cpp:36-85 | Every accepted IDLE, WARMUP or full-throttle configuration of a profile keeps the contract exactly when the redline is at least 750 |
| ProfileLimits.IdleContractIsExact | simulator/src/simulation.cpp:218-233 | An accepted IDLE or WARMUP run, with any faults, keeps the contract exactly when its closing engine speed is within the redline |
| ProfileLimits.RestingRpmIsScripted | simulator/src/simulation.cpp:133-233 | The engine speed after k ticks of IDLE, WARMUP or a cold start depends on the scenario, its start, the step and k alone: not on profile, calibration, environment or faults |
| ProfileLimits.RestingContractIsExact | simulator/src/simulation.cpp:133-233 | An accepted IDLE, WARMUP or cold-start run, with any faults, keeps the contract exactly when no scripted engine speed of it exceeds the redline |
| ProfileLimits.ColdProfileIsExact | simulator/src/scenario.cpp:23-39 | Every accepted cold start of a profile keeps the contract exactly when the scripted engine speed of the first 21 seconds stays within the redline for each of the 49 accepted steps |
| ProfileLimits.ColdNeedsMore | simulator/src/scenario.cpp:23-39 | With any redline up to 888 an accepted cold start in steps of one second is past it at its second tick |
| ProfileLimits.CityContractIsExact | simulator/src/simulation.cpp:36-85 | One CITY run keeps the contract exactly when the redline is at least the idle speed and no tick selects a gear the profile lacks; a redline below the idle speed is covered for every step whose first tick stays at rest |
| VehicleSimulation.IdleClosedForm | simulator/src/simulation.cpp:218-272 | Idling rpm, temperatures and voltage after k ticks are one response over the elapsed time |
| VehicleSimulation.StepSizeDoesNotMatter | simulator/src/simulation.cpp:218-272 | Fault-free IDLE and WARMUP agree at the same simulated time for every fixed step |
| VehicleSimulation.IdleMovesTowardEquilibrium | simulator/src/simulation.cpp:218-272 | Between any two moments each idling quantity moves toward its equilibrium without overshoot |
| VehicleSimulation.PullStaysInRange | simulator/src/simulation.cpp:179-217 | Throughout a full-throttle pull mixture, ignition and boost stay within the range of their calibration tables, and manifold pressure at or above its idle fraction of ambient |
| EngineTemperatures.CoolantIsExact | simulator/src/simulation.cpp:238-246 | With the engine running, the coolant closes in on 140 degrees with 15 s while the cooling fault is active and on 92 with 300 s while it is not, in closed form over any ticks |
| EngineTemperatures.VoltageIsExact | simulator/src/simulation.cpp:265-272 | The voltage closes in on 11.8 V with 0.5 s while charging has failed and on 14.2 V with 1 s otherwise |
| EngineTemperatures.OilAndAirAreExact | simulator/src/simulation.cpp:247-258 | Oil closes in on 100 degrees with 600 s and intake air on 10 above the environment with 60 s, whatever faults are active |
| EngineTemperatures.StoppedIsExact | simulator/src/simulation.cpp:143-158 | Before a cold start coolant and oil stay, and voltage and intake air close in on 12.6 V and the environment |
| ScriptedDrive.IdlingIsExact | simulator/src/simulation.cpp:218-233 | Every IDLE and WARMUP state has the idling load, throttle, pressure and mixture |
| ScriptedDrive.CityIsExact | simulator/src/scenario.cpp:40-66 | CITY follows its timetable of pedal, load, throttle and manifold pressure by simulated time, for every step, profile, calibration and fault list |
| ScriptedDrive.ColdIsExact | simulator/src/scenario.cpp:23-39 | A cold start waits a second; load, throttle and target speed then start raised and come down in a line over 20 seconds |
| ScriptedDrive.CityDrivesExactly | simulator/src/drivetrain.cpp:61-95 | Speed, gear and engine speed of every CITY state follow from the state before it and the timetable |
| ScriptedDrive.CitySpeedIsExact | simulator/src/drivetrain.cpp:61-95 | A stop costs 1.5 m/s a second and ends at 0.05 m/s; otherwise the pedal gives twice its position against 0.45 and a fortieth of the speed |
| ScriptedDrive.EngineSpeedIsExact | simulator/src/drivetrain.cpp:12-40 | Engine speed is vehicle speed times the factor of the gear, kept between 750 rpm and the redline |
| ScriptedDrive.PullIsExact | simulator/src/simulation.cpp:183-217 | Load, throttle, boost, manifold pressure, mixture and ignition of every pull state after the first, from its calibration |
| ScriptedDrive.PullDrivesExactly | simulator/src/drivetrain.cpp:97-115 | Its speed and engine speed in third gear, from the output that boost raises |
| ScriptedDrive.StateIsStamped | simulator/src/simulation.cpp:335-354 | A run starts as its initial conditions say, every state is stamped with its tick, and exactly the last is completed |
| SimulationRun.SimulationClock.AdvanceTicks | simulator/src/simulation_clock.cpp:16-28 | Overflows exactly when the new time does not fit 64 bits, and then stays put; a paused clock ignores the request |
| SimulationRun.Simulation.Tick | simulator/src/simulation.cpp:335-354 | Advances exactly when neither paused nor completed; the state is a function of the tick count alone and the clock never overflows |
| SimulationRun.Simulation.AdvanceTicks | simulator/src/simulation.cpp:356-362 | Makes the smaller of the requested and the remaining ticks |
| SimulationRun.Simulation.RunToCompletion | simulator/src/simulation.cpp:364-369 | Makes exactly (duration - now) / step ticks and completes, unless paused |
| SimulationRun.Simulation.Pause | simulator/src/simulation.cpp:371-377 | Pauses exactly an unfinished run and changes nothing but the run state |
| SimulationRun.Simulation.Resume | simulator/src/simulation.cpp:379-385 | Leaves the state as if the pause had not happened |
| SimulationRun.Simulation.Reset | simulator/src/simulation.cpp:387-390 | Back to the initial state, unpaused |
| SimulationRun.Simulation.StateIsValid | simulator/src/contracts.cpp:30-53 | Whatever mix of ticks, pauses, resumes and resets led here, the contract holds |
| Calibration.IntervalHolds | simulator/src/calibration.cpp:31-44 | The interval is the cell that holds the coordinate, or an end of the axis |
| Calibration.GridIsExact | simulator/src/calibration.cpp:148-154 | Breakpoints are hit exactly |
| Calibration.BeyondTheEnds | simulator/src/calibration.cpp:31-44 | A table is constant beyond its ends |
| Calibration.LookupIsLine | simulator/src/calibration.cpp:31-48 | On each closed cell the lookup is that cell's line, so neighbours agree on shared breakpoints |
| Calibration.LookupIsBetween | simulator/src/calibration.cpp:46-48 | A lookup lies between the two values of its cell |
| Calibration.LookupIsMonotone | simulator/src/calibration.cpp:148-154 | A table whose values never fall never falls |
| Calibration.LookupIsContinuous | simulator/src/calibration.cpp:148-154 | The lookup never moves faster than its steepest cell, across breakpoints and ends |
| Calibration.RowFirst | simulator/src/calibration.cpp:171-186 | Bilinear lookup is linear lookup over rows of linear lookups over columns |
| Calibration.ColumnFirst | simulator/src/calibration.cpp:171-186 | Interpolating columns last gives the same result |
| Calibration.Grid2DIsExact | simulator/src/calibration.cpp:171-186 | Grid points are hit exactly |
| Calibration.Lookup2DIsInCell | simulator/src/calibration.cpp:171-186 | A bilinear lookup lies between the least and greatest of the four corners around the coordinates |
| Calibration.Lookup2DStaysWithin | simulator/src/calibration.cpp:171-186 | Results stay within any bounds of the table values |
| Calibration.Lookup2DIsMonotoneInRows | simulator/src/calibration.cpp:171-186 | Monotone in the row coordinate when every column is |
| Calibration.Lookup2DIsMonotoneInColumns | simulator/src/calibration.cpp:171-186 | Monotone in the column coordinate when every row is |
| Calibration.Lookup2DIsContinuous | simulator/src/calibration.cpp:171-186 | Moving both coordinates, in any direction each, moves the lookup no faster than the steepest rows and columns together |
| ShippedCalibrations.ShippedAreValid | simulator/src/calibration.cpp:50-117 | The stock and stage-1 tables pass every constructor check and have positive mixture targets |
| ShippedCalibrations.Stage1IsStronger | simulator/src/calibration.cpp:50-117 | At every coordinate stage 1 opens the throttle no less, asks for no less boost and mixes no leaner than stock |
| ShippedCalibrations.ShippedCurves | simulator/src/calibration.cpp:50-117 | What the throttle and mixture lookups of both calibrations give at every breakpoint |
| ShippedCalibrations.ShippedBoost | simulator/src/calibration.cpp:50-117 | The same of the boost lookups |
| ShippedCalibrations.ShippedIgnition | simulator/src/calibration.cpp:50-117 | The same of the ignition lookups |
| ShippedCalibrations.ShippedRanges | simulator/src/calibration.cpp:50-117 | The least and greatest pedal, boost, mixture and ignition each shipped calibration can ask for |
| PeriodicPublication.AdvanceDueTimestamp | can/src/periodic_publication.hpp:8-17 | For a due timer the 64-bit branches compute the specified due time, the wrapping argument included; for one not yet due the result is the last moment, or unchanged when the increment wraps |
| PeriodicPublication.AdvanceIsExact | can/src/periodic_publication.hpp:8-17 | The due time is the least 64-bit moment after the observation in step with the old one, or the last moment when none fits, exactly unless stepping by 1 from 0 at the last moment |
| PeriodicPublication.TimerIsExact | can/src/periodic_publication.hpp:8-17 | After any observations the timer stands at the next multiple of its period, or at the last moment |
| PeriodicPublication.PublishesAtGridCrossings | can/src/simulated_dme.cpp:18-46 | An observation publishes exactly when a multiple of the period was crossed since the previous one, or at the last moment beyond the last multiple |
| PeriodicPublication.FrameCountIsExact | can/src/simulated_dme.cpp:18-46 | Over n ticks of a step, floor(n*step/period) + 1 frames when step <= period and n + 1 otherwise, plus one exactly when the run ends on the last moment with no boundary in its last step |
| PeriodicPublication.LongestRunHasExtraFrame | can/src/simulated_dme.cpp:18-46 | In 5 us steps to the last representable moment, the 10 ms stream has one frame more than one per period |
| SimulatedEcus.SimulatedDme.CollectDueFrames | can/src/simulated_dme.cpp:18-46 | The frames are exactly the due messages in ID order, each carrying the observed state; the timers stay those of the observations |
| SimulatedEcus.SimulatedDsc.CollectDueFrames | can/src/simulated_dsc.cpp:23-41 | The same for motion and wheel speeds |
| SimulatedEcus.SimulatedDme.Reset | can/src/simulated_dme.cpp:55-60 | Back to no observations |
| SimulatedEcus.SimulatedDsc.Reset | can/src/simulated_dsc.cpp:50-53 | Back to no observations |
| VehicleNetwork.SortById | can/src/vehicle_network_simulation.cpp:38-40 | A sorted rearrangement of the merged frames |
| VehicleNetwork.SortingOrderedFrames | can/src/vehicle_network_simulation.cpp:32-44 | The merge of both units is in ID order already |
| VehicleNetwork.VehicleNetworkPublisher.ObserveAndPublish | can/src/vehicle_network_simulation.cpp:32-44 | Sends exactly the due messages in ID order, the DME frames with its biased view, the DSC frames with the true state and the wheel readings |
| VehicleNetwork.BusIsOrdered | can/src/vehicle_network_simulation.cpp:32-44 | The bus of any run is strictly increasing in (timestamp, arbitration ID) |
| VehicleNetwork.BusCountIsExact | can/src/vehicle_network_simulation.cpp:60-85 | The number of frames of each message on the bus after any number of ticks |
| VehicleNetwork.VehicleNetworkSimulation.Tick | can/src/vehicle_network_simulation.cpp:60-66 | One vehicle tick and its publication, unless the run is over; the bus stays that of the run |
| VehicleNetwork.VehicleNetworkSimulation.RunToCompletion | can/src/vehicle_network_simulation.cpp:68-74 | Exactly the remaining ticks, and the bus of the whole run |
| VehicleNetwork.VehicleNetworkSimulation.Reset | can/src/vehicle_network_simulation.cpp:76-81 | Back to the bus of the first observation |
| SignalEncoding.EncodingIsNearest | can/include/tuneros/ecu/detail/signal_encoding.hpp:13-29 | Quantisation picks a nearest representable value for every real |
| SignalEncoding.EncodingTies | can/include/tuneros/ecu/detail/signal_encoding.hpp:13-29 | Halfway between two representable values the upper one is taken |
| SignalEncoding.EncodingIsWithinHalfQuantum | can/include/tuneros/ecu/detail/signal_encoding.hpp:13-29 | A value in range survives within half a quantum |
| SignalEncoding.EncodingSaturates | can/include/tuneros/ecu/detail/signal_encoding.hpp:13-29 | A value out of range lands on the nearer end |
| SignalEncoding.EncodingIsMonotone | can/include/tuneros/ecu/detail/signal_encoding.hpp:13-29 | Encoding never reverses an order |
| SignalEncoding.EncodingInvertsScaling | can/include/tuneros/ecu/detail/signal_encoding.hpp:13-29 | Every representable value is encoded as itself |
| SignalEncoding.PackU16LittleEndian | can/include/tuneros/ecu/detail/signal_encoding.hpp:35-39 | The field reads back the value and no other byte changes |
| EcuFrames.MessagesAreWellLaid | tests/python/test_dbc_contract.py:37-93 | Signals of the six messages lie inside the sent bytes and share none |
| EcuFrames.MakeDmeFastEngineFrame | can/src/dme_frames.cpp:6-18 | Every database signal of the frame reads back the quantised state value; unused bytes are zero |
| EcuFrames.MakeDmeAirLoadFrame | can/src/dme_frames.cpp:20-31 | The same for the air and load frame |
| EcuFrames.MakeDmeThermalElectricalFrame | can/src/dme_frames.cpp:33-48 | The same for the thermal and electrical frame |
| EcuFrames.MakeDmeCombustionObservationFrame | can/src/dme_frames.cpp:50-60 | The same for the combustion frame |
| EcuFrames.MakeDscVehicleMotionFrame | can/src/dsc_frames.cpp:16-26 | The same for the motion frame, gear included |
| EcuFrames.MakeDscWheelSpeedsFrame | can/src/dsc_frames.cpp:34-47 | The same for the four wheels written in a loop |
| EcuFrames.EngineInBytes | tests/python/test_dbc_contract.py:37-93 | ID, length and every byte of the engine frame, with the factors of the database |
| EcuFrames.AirLoadInBytes | tests/python/test_dbc_contract.py:37-93 | The same for the air and load frame |
| EcuFrames.ThermalInBytes | tests/python/test_dbc_contract.py:37-93 | The same for the thermal and electrical frame |
| EcuFrames.CombustionAndMotionInBytes | tests/python/test_dbc_contract.py:37-93 | The same for the combustion and motion frames |
| EcuFrames.WheelsInBytes | tests/python/test_dbc_contract.py:37-93 | The same for the wheel frame |
| SimulatedEcus.ViewsAreExact | can/src/vehicle_network_simulation.cpp:33-47 | Engine messages show what the DME is shown, the motion message the true state, the wheel message the sensors; all carry the true time |
| RecordCodec.SignalSurvivesTheWire | tests/python/test_dbc_contract.py:37-93 | From state to payload to record to decoded frame to scaled value: nearest representable, within half a quantum in range |
| RecordCodec.DecodeInvertsEncode | backend/src/tuneros/can/record_codec.py:15-38 | Decoding inverts encoding on every frame that can be encoded |
| RecordCodec.EncodeAfterDecode | backend/src/tuneros/can/record_codec.py:15-38 | Encoding a decoded record clears the bytes past the DLC and changes nothing else; it is the identity exactly on records with zero padding |
| RecordCodec.EncodedBytes | backend/src/tuneros/can/record_codec.py:15-23 | Every byte of a record: timestamp and ID most significant byte first, length code, payload, zeros; encoding fails exactly when the timestamp does not fit 64 bits |
| RecordCodec.DecodesExactlyEncodings | backend/src/tuneros/can/record_codec.py:26-38 | Bytes decode to a frame exactly when they are that frame's encoding up to the bytes past the length code; everything else is refused |
| RecordCodec.DecodeRefusals | backend/src/tuneros/can/record_codec.py:26-38 | Each refusal of a record and their order: length, ID, length code |
| RecordCodec.SerializeGatewayRecord | can/src/gateway_protocol.cpp:7-25 | The in-place serialiser succeeds exactly on valid frames and writes the bytes the Python encoder writes |
| Gateway.OnlyOneHeader | backend/src/tuneros/can/gateway.py:37-50 | The client accepts exactly the header the server sends |
| Gateway.HeaderRefusals | backend/src/tuneros/can/gateway.py:37-50 | Each refusal of a header and their order: length, magic, version, reserved bytes |
| Gateway.FramesAreTheRecords | backend/src/tuneros/can/gateway.py:116-123 | The frames are the first records decoded: all floor(len/19) up to the first malformed one; the end is clean exactly when all decode and no partial record remains |
| Gateway.StreamRoundTrip | backend/src/tuneros/can/gateway.py:116-123 | Frames sent back to back are read back, cleanly |
| Gateway.RawCanGatewayClient.ReadExact | backend/src/tuneros/can/gateway.py:100-114 | The result depends on the bytes alone, however the connection splits them |
| Gateway.RawCanGatewayClient.ReadHeader | backend/src/tuneros/can/gateway.py:69-76 | Succeeds exactly when the stream starts with the header; otherwise the connection is closed |
| Gateway.RawCanGatewayClient.Frames | backend/src/tuneros/can/gateway.py:116-123 | What is yielded and how it ends are those of the bytes, for every chunking |
| Gateway.ReadStream | backend/src/tuneros/can/gateway.py:66-128 | A whole session over an arbitrarily split stream |
| RecordedRun.BusIsRecordable | can/src/vehicle_network_simulation.cpp:18-74 | The bus of any run, under any schedule and faults, is valid, fits its records and never moves backward: nothing downstream can refuse it |
| RecordedRun.EverySignalIsRead | tests/python/test_dbc_contract.py:37-93 | Every signal of every frame of any run reaches the reader with the time of its tick, as a representable value nearest to the one observed, within half a quantum in range |
| RecordedRun.SendAll | can/src/tcp_gateway.cpp:169-198 | The server writes the header and then the record of every frame sent |
| RecordedRun.ReceiveAndRecord | backend/src/tuneros/session/recorder.py:134-181 | A sorted bus sent by the server is received whole and cleanly, and its recording reads back whole exactly for presentable arguments |
| RecordedRun.DriveAndRecord | can/src/gateway_sim_main.cpp:170-203 | From an accepted configuration to the recording: the client receives the whole bus of the run and the recording gives it back, for every scenario, schedule and fault |
| SessionModels.ManifestRoundTrip | backend/src/tuneros/session/models.py:45-152 | A manifest survives writing and reading exactly when it is readable |
| SessionModels.AcceptedIsReadable | backend/src/tuneros/session/models.py:53-152 | Whatever is read is readable |
| SessionModels.ToDictInvertsFromDict | backend/src/tuneros/session/models.py:45-109 | An accepted object is the object its manifest writes |
| SessionModels.ReadsNothingElse | backend/src/tuneros/session/models.py:45-152 | A written manifest is read as itself or refused, never as another one |
| SessionModels.ReadableExactly | backend/src/tuneros/session/models.py:111-152 | Which manifests are accepted, in plain conditions on counts, times, hash, status, reason and calibration |
| SessionArtifacts.HeaderRoundTrip | backend/src/tuneros/session/format.py:22-40 | A frame-file header is accepted for a version exactly when it is that version's header |
| SessionArtifacts.NormalNamesStay | backend/src/tuneros/session/recorder.py:37-47 | Normalising a session name is idempotent and leaves single spaces between words |
| SessionArtifacts.JoinedIsWords | backend/src/tuneros/session/recorder.py:37-47 | Normalising a name is its words with one space between them |
| SessionArtifacts.AcceptedExactly | backend/src/tuneros/session/recorder.py:37-81 | The constructor accepts exactly good names and a calibration with its revision, neither empty nor zero |
| SessionArtifacts.ManifestIsExact | backend/src/tuneros/session/recorder.py:83-108 | Every field of a manifest, from the arguments and the recorded frames |
| SessionArtifacts.RecorderManifestIsReadable | backend/src/tuneros/session/recorder.py:77-108 | Every manifest reachable by record, complete or abort reads back as itself exactly when the arguments have a database name, a hash-shaped database hash unless the installed one is taken, and a positive revision, if any; otherwise it is refused |
| SessionArtifacts.NegativeRevisionIsUnreadable | backend/src/tuneros/session/recorder.py:77-81 | A negative calibration revision is accepted by the constructor and gives a manifest the reader refuses |
| SessionArtifacts.SessionRecorder.Record | backend/src/tuneros/session/recorder.py:134-157 | Accepts exactly encodable frames that do not move backward while recording; a refusal changes nothing; file, hash input and manifest follow the accepted frames |
| SessionArtifacts.SessionRecorder.CompleteSession | backend/src/tuneros/session/recorder.py:159-181 | Publishes a complete manifest, or an incomplete one when publication fails; a closed recorder is unchanged |
| SessionArtifacts.SessionRecorder.Abort | backend/src/tuneros/session/recorder.py:183-195 | Marks an open session incomplete with the safe reason; a closed one is unchanged |
| SessionArtifacts.TrimmedIsExact | backend/src/tuneros/session/recorder.py:183-195 | The reason kept is the given one without the white space at its ends |
| SessionArtifacts.OpenRecorder | backend/src/tuneros/session/recorder.py:53-81 | Refused exactly for an existing artifact, unpaired or empty calibration provenance, or a bad session or scenario name |
| SessionArtifacts.SessionReader.Frames | backend/src/tuneros/session/reader.py:90-132 | Yields the nondecreasing beginning of the file's frames and succeeds exactly when the integrity conditions hold |
| SessionArtifacts.SessionReader.ValidateIntegrity | backend/src/tuneros/session/reader.py:48-88 | Succeeds exactly when header, records, order, count, times and hash agree with the manifest |
| SessionArtifacts.IntegrityIsExact | backend/src/tuneros/session/reader.py:48-88 | A file agrees with its manifest exactly when it is the version's header and nothing but whole records of nondecreasing time with the manifest's count, first and last time and hash |
| SessionArtifacts.OpenReader | backend/src/tuneros/session/reader.py:27-38 | Opens exactly readable manifests of complete sessions made with the expected database |
| SessionArtifacts.SessionRoundTrip | backend/src/tuneros/session/reader.py:48-132 | Any recorded and completed session, in either version, passes the integrity conditions and reads back frame for frame |
| SessionArtifacts.NewestKeptIsLatest | backend/src/tuneros/session/recorder.py:134-157 | The newest accepted frame is the latest of all frames that fit, so comparing with it is comparing with every earlier frame |
| SessionArtifacts.RecordAndRead | backend/src/tuneros/session/recorder.py:134-181 | Through the objects, manifest writing and reading included: reading succeeds exactly for presentable arguments and then yields the frames that fit and are no older than any earlier one that fits; all of them when none was refused |

## Left out

- Sockets, files, threads and the wall clock: only their effect on bytes, frames and steps is modelled; connection errors other than truncation are not.
- HTTP routes, serialisation, command lines, React components and websocket reconnection.
- Floating-point rounding, NaN and infinity: encoders and lookups are on reals, so their non-finite errors do not occur.
- JSON text: a manifest is the object it becomes, and parsing errors are not modelled.
- DBC parsing and database decoding: a parameter, as said above.
- Summaries, comparison and export of investigations: arithmetic over series already covered.
- White space beyond ASCII in session names and failure reasons.
- Texts of vehicle profiles and calibration tables.
- Mistyped-signal errors of diagnostic conditions: snapshots are those of correctly typed decoded frames.
- The freshness list carried by telemetry deltas: clients recompute nothing from it.
- `std::sort` is modelled by its result, not by an in-place algorithm on an array.
- The set of subscriptions of a broadcaster is a map from identifiers to what each was sent; delivery of it is the subject of `SubscriptionProtocol`.
- ProfileLimits.CityContractIsExact: leaves out single CITY runs with a redline below 750 whose first tick moves off (steps from 5 s to below 32 s and from 55 s to below 88 s): that tick clamps between reversed bounds, so the program has no defined behaviour to state.
- ServicePipeline.Service.SubscribeCan: takes positive frame limits only, as the application passes a constant one; a limit of zero raises after the subscription was opened.
