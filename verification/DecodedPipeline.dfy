/** From a decoded frame to the diagnostics (telemetry/service.py, investigation/service.py): both
    the live service and the investigator aggregate a frame and then diagnose the new snapshot. */
module DecodedPipeline {
  import opened Prelude
  import opened TelemetryModels
  import T = TelemetryEngine
  import D = DiagnosticEngine
  import DefaultDiagnostics

  /** The decoder's types: a boolean for the engine-running signal, numbers elsewhere. */
  predicate TypedFrame(f: T.DecodedFrame) {
    forall i :: 0 <= i < |f.signals| ==> (f.signals[i].1.Flag? <==> T.KeyOf(f, i) == DefaultDiagnostics.ENGINE_RUNNING)
  }

  predicate AllTyped(fs: seq<T.DecodedFrame>) {
    forall i :: 0 <= i < |fs| ==> TypedFrame(fs[i])
  }

  predicate TypedSample(x: SignalSample) {
    x.value.Flag? <==> x.key == DefaultDiagnostics.ENGINE_RUNNING
  }

  lemma {:induction false} SamplesAreTyped(c: T.Catalog, fs: seq<T.DecodedFrame>)
    requires T.Accepted(c, fs) && AllTyped(fs)
    ensures forall x <- T.AllSamples(c, fs) :: TypedSample(x)
  {
    if fs != [] {
      SamplesAreTyped(c, fs[..|fs| - 1]);
    }
  }

  lemma {:induction false} SnapshotIsTyped(s: Snapshot, c: T.Catalog, fs: seq<T.DecodedFrame>)
    requires T.Accepted(c, fs) && AllTyped(fs) && T.IsSnapshot(s, c, fs)
    ensures DefaultDiagnostics.DecodedTypes(s)
  {
    hide T.AllSamples, T.IsStatistics, T.IsFresh, T.Accepted;
    SamplesAreTyped(c, fs);
    forall k | k in s.samples
      ensures s.samples[k].value.Flag? <==> k == DefaultDiagnostics.ENGINE_RUNNING
    {
      var own := T.Only(k, T.AllSamples(c, fs));
      assert own[|own| - 1] in T.AllSamples(c, fs);
      assert TypedSample(own[|own| - 1]);
    }
  }

  lemma {:induction false} SnapshotIsObserved(s: Snapshot, c: T.Catalog, fs: seq<T.DecodedFrame>)
    requires T.Accepted(c, fs) && T.IsSnapshot(s, c, fs) && fs != []
    ensures s.observation == Some(fs[|fs| - 1].timestamp) && s.lastFrameSequence == Some(|fs| - 1)
  {
  }

  ghost predicate IsSnapshotAfter(s: Snapshot, c: T.Catalog, accepted: seq<T.DecodedFrame>) {
    T.Accepted(c, accepted) && T.IsSnapshot(s, c, accepted)
  }

  /** The diagnostics have seen one snapshot more: the one after the last accepted frame. */
  ghost predicate Diagnosed(before: seq<D.Operation>, after: seq<D.Operation>, c: T.Catalog,
                            accepted: seq<T.DecodedFrame>) {
    && accepted != [] && |after| == |before| + 1
    && after == before + [after[|before|]]
    && after[|before|].Observed?
    && after[|before|].at == accepted[|accepted| - 1].timestamp
    && IsSnapshotAfter(after[|before|].snapshot, c, accepted)
  }

  /** The diagnostic engine has looked at nothing later than the telemetry engine. */
  ghost predicate InStep(engine: T.Engine, diagnostics: D.Engine)
    reads diagnostics, engine
  {
    diagnostics.observation.Some? ==>
      engine.accepted != [] && diagnostics.observation.value <= engine.accepted[|engine.accepted| - 1].timestamp
  }

  lemma {:induction false} ForgetsObservation(diagnostics: D.Engine)
    requires diagnostics.Valid() && diagnostics.history == []
    ensures diagnostics.observation.None?
  {
    hide D.Replay;
  }

  /** Show the newest snapshot to the diagnostics. It is never refused. */
  method Diagnose(engine: T.Engine, diagnostics: D.Engine) returns (generated: seq<D.Event>)
    requires engine.Valid() && diagnostics.Valid() && AllTyped(engine.accepted) && InStep(engine, diagnostics)
    requires engine.accepted != []
    requires diagnostics.rules == DefaultDiagnostics.DefaultRules()
    modifies diagnostics
    ensures diagnostics.Valid() && InStep(engine, diagnostics)
    ensures diagnostics.log == old(diagnostics.log) + generated
    ensures Diagnosed(old(diagnostics.history), diagnostics.history, engine.catalog, engine.accepted)
  {
    hide D.Replay, D.AcceptedHistory, D.ValidCatalog, T.IsSnapshot, T.Accepted, T.IsLatest, T.IsHistory,
      DefaultDiagnostics.DefaultRules, DefaultDiagnostics.DecodedTypes, D.Acceptable, AllTyped, T.AllSamples, Last,
      T.IsStatistics;
    var snapshot := engine.TakeSnapshot();
    SnapshotIsTyped(snapshot, engine.catalog, engine.accepted);
    SnapshotIsObserved(snapshot, engine.catalog, engine.accepted);
    DefaultDiagnostics.DefaultRulesAcceptDecodedSnapshots(snapshot);
    var outcome := diagnostics.Ingest(snapshot);
    generated := outcome.value;
  }
}
