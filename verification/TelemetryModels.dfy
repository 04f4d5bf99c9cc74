/** Values exchanged by the decoded-telemetry pipeline (telemetry/models.py, can/models.py). */
module TelemetryModels {
  import opened Prelude

  datatype SignalKey = SignalKey(messageName: string, signalName: string)

  datatype SignalValue = Number(number: real) | Flag(flag: bool)

  datatype SignalSample = SignalSample(
    key: SignalKey,
    value: SignalValue,
    timestamp: nat,
    frameSequence: nat,
    arbitrationId: nat,
    sourceEcu: string,
    unit: string)

  datatype Freshness = Fresh | Stale

  datatype Statistics = Statistics(
    totalFrames: nat,
    totalSignalUpdates: nat,
    latestTimestamp: Option<nat>,
    lastFrameSequence: Option<nat>,
    framesById: map<nat, nat>)

  datatype Snapshot = Snapshot(
    observation: Option<nat>,
    lastFrameSequence: Option<nat>,
    samples: map<SignalKey, SignalSample>,
    freshness: map<SignalKey, Freshness>,
    statistics: Statistics)
}
