/** The pipeline behind one service lock (telemetry/service.py): the service's methods change the
    engines and publish, and each of them is one step of the lifecycle model. */
module ServicePipeline {
  import opened Prelude
  import opened TelemetryModels
  import opened RawCan
  import opened TelemetryService
  import opened DecodedPipeline
  import T = TelemetryEngine
  import TC = TelemetryClient
  import X = CanExplorer
  import XC = CanClient
  import D = DiagnosticEngine
  import L = DiagnosticLifecycle
  import DefaultDiagnostics

  datatype ServiceError = AlreadyActive | Restarted | WorkerAlive | Watched | NoSignals | Refused(error: T.Error)

  /** One step of the lifecycle model. */
  ghost predicate Steps(u: Setup, before: World, step: Step, after: World) {
    Enabled(u, before, step) && after == Apply(u, before, step)
  }

  ghost predicate CanTakenAfter(e: XC.InitialEvent, d: X.Dbc, raw: seq<RawFrame>, capacity: nat, limit: Option<nat>) {
    capacity > 0 && XC.IsInitialFor(e, d, raw, capacity, limit)
  }

  predicate Clearable(states: map<string, L.RuleState>, code: string) {
    code in states && states[code].dtc.Some? && states[code].dtc.value.status in {L.Historical, L.Cleared}
  }

  /** Every subscription was sent one thing more, and none was opened or closed. */
  ghost predicate Told<U>(after: map<nat, Feed<U>>, before: map<nat, Feed<U>>, p: Published<U>) {
    && after.Keys == before.Keys
    && forall id <- before :: after[id].first == before[id].first && after[id].published == before[id].published + [p]
  }

  /** The retained frames a subscription starts with: no filter, at most `limit`. */
  lemma {:induction false} AllRetained(d: X.Dbc, raw: seq<RawFrame>, capacity: nat, limit: Option<nat>)
    ensures X.Newest(X.Selected(Last(X.AnnotateAll(d, raw), capacity), X.EVERYTHING), limit) ==
            Last(X.AnnotateAll(d, raw), XC.Held(capacity, limit))
  {
    hide X.AnnotateAll, X.Selected, Last;
    var all := X.AnnotateAll(d, raw);
    X.EverythingIsSelected(Last(all, capacity));
    if limit.Some? {
      NewestOfLast(all, capacity, limit.value);
    }
  }

  lemma {:induction false} NewestOfLast<T>(all: seq<T>, capacity: nat, limit: nat)
    ensures Last(Last(all, capacity), limit) == Last(all, XC.Min(limit, capacity))
  {
  }

  lemma {:induction false} ExploreIsStep(u: Setup, w: World, raw: RawFrame, event: XC.FrameEvent)
    requires u.capacity > 0 && XC.IsEventFor(event, u.dbc, w.raw + [raw], u.capacity, |w.raw|)
    ensures Steps(u, w, Explore(raw, event), w.(raw := w.raw + [raw], canFeeds := Publish(w.canFeeds, Delta(event))))
  {
    hide XC.IsEventFor, Publish;
  }

  class Service {
    const engine: T.Engine
    const diagnostics: D.Engine
    const explorer: X.Explorer
    var state: Lifecycle
    var liveStarted: bool
    var feeds: map<nat, Feed<TC.Update>>
    var canFeeds: map<nat, Feed<XC.FrameEvent>>

    ghost predicate Valid()
      reads this, engine, diagnostics, explorer
    {
      && engine.Valid() && diagnostics.Valid() && explorer.Valid()
      && diagnostics.rules == DefaultDiagnostics.DefaultRules()
      && AllTyped(engine.accepted)
      && InStep(engine, diagnostics)
    }

    ghost function Parts(): Setup {
      Setup(engine.catalog, explorer.dbc, explorer.capacity)
    }

    ghost function View(): World
      reads this, engine, explorer
    {
      World(state, liveStarted, engine.accepted, explorer.ingested, feeds, canFeeds)
    }

    constructor (catalog: T.Catalog, historyCapacity: nat, eventCapacity: nat, dbc: X.Dbc, frameCapacity: nat)
      requires historyCapacity > 0 && eventCapacity > 0 && frameCapacity > 0
      ensures Valid() && fresh(engine) && fresh(diagnostics) && fresh(explorer)
      ensures View() == InitialWorld() && Parts() == Setup(catalog, dbc, frameCapacity)
    {
      DefaultDiagnostics.DefaultRulesAreSound();
      engine := new T.Engine(catalog, historyCapacity);
      diagnostics := new D.Engine(DefaultDiagnostics.DefaultRules(), eventCapacity);
      explorer := new X.Explorer(dbc, frameCapacity);
      state, liveStarted := Stopped, false;
      feeds, canFeeds := map[], map[];
    }

    /** `_transition_locked`: remember the state and tell every subscriber of both kinds. */
    method TransitionLocked(to: Lifecycle)
      modifies `state, `feeds, `canFeeds
      ensures View() == Entered(old(View()), to)
      ensures state == to && Told(feeds, old(feeds), Changed(to)) && Told(canFeeds, old(canFeeds), Changed(to))
    {
      state := to;
      feeds := Publish(feeds, Changed(to));
      canFeeds := Publish(canFeeds, Changed(to));
    }

    /** Start the live source. The explorer and the diagnostics are emptied, the telemetry engine
        is not, and no subscriber is asked. */
    method Start() returns (r: Result<(), ServiceError>)
      requires Valid()
      modifies this, diagnostics, explorer
      ensures Valid()
      ensures r.Ok? <==> Enabled(Parts(), old(View()), TelemetryService.Start)
      ensures r.Ok? ==> Steps(Parts(), old(View()), TelemetryService.Start, View()) && diagnostics.history == []
      ensures r.Err? ==> View() == old(View()) && unchanged(diagnostics)
      ensures r == Err(Restarted) <==> old(liveStarted)
      ensures r == Err(AlreadyActive) <==> !old(liveStarted) && (old(state) == Connecting || old(state) == Running)
      ensures r.Ok? || r == Err(Restarted) || r == Err(AlreadyActive)
      ensures r.Ok? ==>
                && state == Connecting && liveStarted
                && explorer.ingested == [] && engine.accepted == old(engine.accepted)
                && Told(feeds, old(feeds), Changed(Connecting)) && Told(canFeeds, old(canFeeds), Changed(Connecting))
    {
      hide D.Engine.Valid, X.Explorer.Valid, T.Engine.Valid, DefaultDiagnostics.DefaultRules;
      if liveStarted {
        return Err(Restarted);
      }
      if state == Connecting || state == Running {
        return Err(AlreadyActive);
      }
      liveStarted := true;
      explorer.Reset();
      diagnostics.Reset();
      ForgetsObservation(diagnostics);
      TransitionLocked(Connecting);
      return Ok(());
    }

    /** Start a replay: everything is emptied, which is why every subscriber must have left, and the
        thread of the previous source must have ended. */
    method StartReplay(workerAlive: bool) returns (r: Result<(), ServiceError>)
      requires Valid()
      modifies this, engine, diagnostics, explorer
      ensures Valid()
      ensures r.Ok? <==> !workerAlive && Enabled(Parts(), old(View()), TelemetryService.StartReplay)
      ensures r.Ok? ==> Steps(Parts(), old(View()), TelemetryService.StartReplay, View()) && diagnostics.history == []
      ensures r.Err? ==> View() == old(View()) && unchanged(diagnostics)
      ensures r == Err(AlreadyActive) <==> old(state) == Connecting || old(state) == Running
      ensures r == Err(WorkerAlive) <==> old(state) != Connecting && old(state) != Running && workerAlive
      ensures r == Err(Watched) <==> old(state) != Connecting && old(state) != Running && !workerAlive
                                     && (old(feeds) != map[] || old(canFeeds) != map[])
      ensures r.Ok? || r == Err(AlreadyActive) || r == Err(WorkerAlive) || r == Err(Watched)
      ensures r.Ok? ==>
                && state == Running && liveStarted == old(liveStarted)
                && explorer.ingested == [] && engine.accepted == [] && feeds == map[] && canFeeds == map[]
    {
      hide D.Engine.Valid, X.Explorer.Valid, T.Engine.Valid, DefaultDiagnostics.DefaultRules;
      if state == Connecting || state == Running {
        return Err(AlreadyActive);
      }
      if workerAlive {
        return Err(WorkerAlive);
      }
      if feeds != map[] || canFeeds != map[] {
        return Err(Watched);
      }
      engine.Reset();
      explorer.Reset();
      diagnostics.Reset();
      ForgetsObservation(diagnostics);
      TransitionLocked(Running);
      return Ok(());
    }

    /** Accept one decoded frame: aggregate it, diagnose the resulting snapshot and publish one
        delta. A frame without signals, or one the engine refuses, changes nothing. */
    method IngestDecoded(frame: T.DecodedFrame) returns (r: Result<TC.Update, ServiceError>)
      requires Valid() && TypedFrame(frame)
      modifies this, engine, diagnostics
      ensures Valid()
      ensures r.Ok? <==> Enabled(Parts(), old(View()), Ingest(frame))
      ensures r.Ok? ==>
                && Steps(Parts(), old(View()), Ingest(frame), View())
                && Diagnosed(old(diagnostics.history), diagnostics.history, engine.catalog, engine.accepted)
                && engine.accepted == old(engine.accepted) + [frame] && state == old(state)
                && Told(feeds, old(feeds), Delta(r.value)) && canFeeds == old(canFeeds)
                && r.value.timestamp == frame.timestamp && r.value.frameSequence == |old(engine.accepted)|
                && r.value.arbitrationId == frame.arbitrationId && r.value.messageName == frame.messageName
                && T.CarriesFrame(r.value.samples, engine.catalog, frame, |old(engine.accepted)|)
      ensures r.Err? ==> View() == old(View()) && unchanged(diagnostics)
    {
      hide D.Engine.Valid, X.Explorer.Valid, T.Engine.Valid, DefaultDiagnostics.DefaultRules, T.Accepted, T.IsSnapshot,
        T.Described, T.SamplesOf, Publish, TypedFrame;
      if frame.signals == [] {
        return Err(NoSignals);
      }
      var ingested := engine.Ingest(frame);
      if ingested.Err? {
        return Err(Refused(ingested.error));
      }
      var samples := ingested.value;
      var _ := Diagnose(engine, diagnostics);
      var update :=
        TC.Update(frame.timestamp, samples[0].frameSequence, frame.arbitrationId, frame.messageName, samples);
      feeds := Publish(feeds, Delta(update));
      return Ok(update);
    }

    /** `_ingest_can_explorer`: every raw frame reaches the explorer and its subscribers, decoded
        or not. */
    method IngestCanExplorer(raw: RawFrame) returns (event: XC.FrameEvent)
      requires Valid()
      modifies this, explorer
      ensures Valid()
      ensures Steps(Parts(), old(View()), Explore(raw, event), View())
      ensures explorer.ingested == old(explorer.ingested) + [raw] && state == old(state)
      ensures Told(canFeeds, old(canFeeds), Delta(event)) && feeds == old(feeds)
      ensures X.Annotates(event.frame, explorer.dbc, raw, |old(explorer.ingested)|)
    {
      hide D.Engine.Valid, T.Engine.Valid, DefaultDiagnostics.DefaultRules, X.IsIndex, X.AnnotateAll, X.Annotate,
        X.IsExplorerStatistics, X.IsMessageStatistics, X.Occurrences, Last, Publish, Steps, InStep;
      var frame := explorer.Ingest(raw);
      var statistics := explorer.Statistics();
      X.OnlyAppend(raw.arbitrationId, old(explorer.ingested), raw);
      var message := explorer.MessageStatistic(raw.arbitrationId);
      event := XC.FrameEvent(frame, statistics, message.value);
      assert explorer.ingested[..|old(explorer.ingested)| + 1] == explorer.ingested;
      ExploreIsStep(Parts(), old(View()), raw, event);
      canFeeds := Publish(canFeeds, Delta(event));
    }

    /** Clear a trouble code. Nothing is published, and the next frame is diagnosed as if the clear had
        come from the engine's own client: it is one step of that code alone. */
    method ClearDiagnostic(code: string) returns (r: Result<L.TroubleCode, D.Error>)
      requires Valid()
      modifies diagnostics
      ensures Valid() && View() == old(View())
      ensures r.Ok? <==> Clearable(old(diagnostics.states), code)
      ensures r.Ok? ==> code in diagnostics.states && diagnostics.states[code].dtc == Some(r.value)
                        && r.value.status == L.Cleared
      ensures r.Ok? && old(diagnostics.states)[code].dtc.value.status == L.Historical ==>
                && diagnostics.history == old(diagnostics.history) +
                                          [D.ClearAsked(old(diagnostics.observation).value, code)]
                && |diagnostics.log| == |old(diagnostics.log)| + 1
      ensures r.Err? || old(diagnostics.states)[code].dtc.value.status == L.Cleared ==> unchanged(diagnostics)
    {
      hide D.Engine.Valid, X.Explorer.Valid, T.Engine.Valid, DefaultDiagnostics.DefaultRules;
      r := diagnostics.Clear(code);
    }

    /** Open a telemetry subscription together with the snapshot it continues. */
    method Subscribe(id: nat) returns (snapshot: Snapshot)
      requires Valid() && id !in feeds
      modifies this
      ensures Valid()
      ensures Steps(Parts(), old(View()), TelemetryService.Subscribe(id), View())
      ensures IsSnapshotAfter(snapshot, engine.catalog, engine.accepted)
    {
      hide D.Engine.Valid, X.Explorer.Valid, DefaultDiagnostics.DefaultRules, T.IsSnapshot, T.IsLatest, T.IsHistory,
        T.IsStatistics, T.AllSamples;
      feeds := feeds[id := Feed(engine.nextFrameSequence, [])];
      snapshot := engine.TakeSnapshot();
    }

    /** Open a raw-CAN subscription together with the explorer snapshot it continues, of all retained
        frames or the newest `limit`. */
    method SubscribeCan(id: nat, limit: Option<nat>) returns (initial: XC.InitialEvent)
      requires Valid() && id !in canFeeds && (limit.Some? ==> limit.value > 0)
      modifies this
      ensures Valid()
      ensures Steps(Parts(), old(View()), TelemetryService.SubscribeCan(id), View())
      ensures CanTakenAfter(initial, explorer.dbc, explorer.ingested, explorer.capacity, limit)
    {
      hide D.Engine.Valid, T.Engine.Valid, DefaultDiagnostics.DefaultRules, X.IsIndex, X.AnnotateAll,
        X.IsExplorerStatistics, X.IsMessageStatistics, Last, X.Selected;
      canFeeds := canFeeds[id := Feed(explorer.nextSequence, [])];
      var frames := explorer.Frames(limit, X.EVERYTHING);
      AllRetained(explorer.dbc, explorer.ingested, explorer.capacity, limit);
      var statistics := explorer.Statistics();
      var messages := explorer.AllMessageStatistics();
      initial := XC.InitialEvent(frames, statistics, messages);
    }
  }
}
