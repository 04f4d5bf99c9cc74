/** The telemetry aggregation engine (telemetry/engine.py, telemetry/catalog.py): latest values,
    bounded histories and counters, built frame by frame. */
module TelemetryEngine {
  import opened Prelude
  import opened TelemetryModels

  datatype Definition = Definition(arbitrationId: nat, sourceEcu: string, unit: string, expectedPeriod: nat)

  /** The telemetry view of the CAN database: message names by ID, definitions by signal key. */
  datatype Catalog = Catalog(messages: map<nat, string>, definitions: map<SignalKey, Definition>)

  /** Engineering values decoded from one raw frame, in message order. */
  datatype DecodedFrame = DecodedFrame(
    arbitrationId: nat,
    messageName: string,
    timestamp: nat,
    signals: seq<(string, SignalValue)>)

  datatype Error = OutOfOrder | UnknownArbitrationId | WrongMessageName | UndefinedSignal | UnknownKey | FutureSample

  const FRESHNESS_PERIOD_MULTIPLIER: nat := 2

  function KeyOf(f: DecodedFrame, i: nat): SignalKey
    requires i < |f.signals|
  {
    SignalKey(f.messageName, f.signals[i].0)
  }

  /** What `definitions_for_frame` demands. */
  predicate Described(c: Catalog, f: DecodedFrame) {
    && f.arbitrationId in c.messages
    && c.messages[f.arbitrationId] == f.messageName
    && forall i :: 0 <= i < |f.signals| ==> KeyOf(f, i) in c.definitions
  }

  /** A frame is described when its ID has its message name and every signal it decodes is defined for that
      message. */
  lemma {:induction false} DescribedMeans(c: Catalog, f: DecodedFrame)
    ensures Described(c, f) <==>
            && f.arbitrationId in c.messages && f.messageName == c.messages[f.arbitrationId]
            && forall x <- f.signals :: SignalKey(f.messageName, x.0) in c.definitions
  {
    if Described(c, f) {
      forall x | x in f.signals
        ensures SignalKey(f.messageName, x.0) in c.definitions
      {
        var i :| 0 <= i < |f.signals| && f.signals[i] == x;
        assert KeyOf(f, i) in c.definitions;
      }
    }
  }

  function SampleOf(c: Catalog, f: DecodedFrame, sequence: nat, i: nat): SignalSample
    requires Described(c, f) && i < |f.signals|
  {
    var k := KeyOf(f, i);
    SignalSample(k, f.signals[i].1, f.timestamp, sequence, f.arbitrationId,
                 c.definitions[k].sourceEcu, c.definitions[k].unit)
  }

  /** The samples of one frame, all stamped with its sequence number. */
  function SamplesOf(c: Catalog, f: DecodedFrame, sequence: nat): (r: seq<SignalSample>)
    requires Described(c, f)
    ensures |r| == |f.signals|
    ensures forall i :: 0 <= i < |r| ==> r[i] == SampleOf(c, f, sequence, i)
  {
    seq(|f.signals|, i requires 0 <= i < |f.signals| => SampleOf(c, f, sequence, i))
  }

  /** The samples carry what frame number `sequence` says: one for each decoded signal, in order, with its
      value, the time and ID of the frame, and the unit and control unit the catalog gives the signal. */
  predicate CarriesFrame(samples: seq<SignalSample>, c: Catalog, f: DecodedFrame, sequence: nat) {
    && |samples| == |f.signals|
    && forall i :: 0 <= i < |samples| ==>
         var (x, key) := (samples[i], SignalKey(f.messageName, f.signals[i].0));
         && x.key == key && x.value == f.signals[i].1
         && x.timestamp == f.timestamp && x.frameSequence == sequence && x.arbitrationId == f.arbitrationId
         && key in c.definitions && x.unit == c.definitions[key].unit && x.sourceEcu == c.definitions[key].sourceEcu
  }

  lemma {:induction false} SamplesCarryFrame(c: Catalog, f: DecodedFrame, sequence: nat)
    requires Described(c, f)
    ensures CarriesFrame(SamplesOf(c, f, sequence), c, f, sequence)
  {
    var r := SamplesOf(c, f, sequence);
    forall i | 0 <= i < |r|
      ensures r[i] == SampleOf(c, f, sequence, i)
    {
    }
  }

  // ---- the simple definitions, over the frames accepted so far ----

  ghost predicate Accepted(c: Catalog, fs: seq<DecodedFrame>) {
    && (forall i :: 0 <= i < |fs| ==> Described(c, fs[i]))
    && (forall i, j :: 0 <= i <= j < |fs| ==> fs[i].timestamp <= fs[j].timestamp)
  }

  /** Every sample ever accepted, in arrival order. */
  ghost function AllSamples(c: Catalog, fs: seq<DecodedFrame>): seq<SignalSample>
    requires Accepted(c, fs)
  {
    if fs == [] then []
    else AllSamples(c, fs[..|fs| - 1]) + SamplesOf(c, fs[|fs| - 1], |fs| - 1)
  }

  /** The samples of one signal, in arrival order. */
  function Only(k: SignalKey, s: seq<SignalSample>): (r: seq<SignalSample>)
    ensures |r| <= |s|
    ensures forall i :: 0 <= i < |r| ==> r[i].key == k && r[i] in s
  {
    if s == [] then []
    else Only(k, s[..|s| - 1]) + if s[|s| - 1].key == k then [s[|s| - 1]] else []
  }

  function CountId(id: nat, fs: seq<DecodedFrame>): nat {
    if fs == [] then 0
    else CountId(id, fs[..|fs| - 1]) + if fs[|fs| - 1].arbitrationId == id then 1 else 0
  }

  /** The most recent sample of every signal seen. */
  ghost predicate IsLatest(latest: map<SignalKey, SignalSample>, s: seq<SignalSample>) {
    forall k :: (k in latest <==> Only(k, s) != [])
                && (k in latest ==> latest[k] == Only(k, s)[|Only(k, s)| - 1])
  }

  ghost predicate IsHistory(histories: map<SignalKey, seq<SignalSample>>, s: seq<SignalSample>, capacity: nat) {
    forall k :: (k in histories <==> Only(k, s) != [])
                && (k in histories ==> histories[k] == Last(Only(k, s), capacity))
  }

  ghost predicate IsCount(counts: map<nat, nat>, fs: seq<DecodedFrame>) {
    forall id :: (id in counts <==> CountId(id, fs) > 0) && (id in counts ==> counts[id] == CountId(id, fs))
  }

  ghost predicate IsStatistics(s: Statistics, c: Catalog, fs: seq<DecodedFrame>)
    requires Accepted(c, fs)
  {
    && s.totalFrames == |fs|
    && s.totalSignalUpdates == |AllSamples(c, fs)|
    && s.latestTimestamp == (if fs == [] then None else Some(fs[|fs| - 1].timestamp))
    && s.lastFrameSequence == (if fs == [] then None else Some(|fs| - 1))
    && IsCount(s.framesById, fs)
  }

  /** A sample is fresh for two expected periods of its signal. */
  predicate IsFresh(c: Catalog, k: SignalKey, s: SignalSample, now: nat)
    requires k in c.definitions
  {
    now - s.timestamp <= c.definitions[k].expectedPeriod * FRESHNESS_PERIOD_MULTIPLIER
  }

  function Judged(c: Catalog, k: SignalKey, s: SignalSample, now: nat): Freshness
    requires k in c.definitions
  {
    if IsFresh(c, k, s, now) then Fresh else Stale
  }

  /** A snapshot without the signals outside `keys`; its observation time and statistics stay. */
  function CutDown(s: Snapshot, keys: seq<SignalKey>): Snapshot {
    s.(samples := map k | k in s.samples && k in keys :: s.samples[k],
       freshness := map k | k in s.freshness && k in keys :: s.freshness[k])
  }

  /** What a snapshot taken after the frames `fs` must contain. */
  ghost predicate IsSnapshot(s: Snapshot, c: Catalog, fs: seq<DecodedFrame>)
    requires Accepted(c, fs)
  {
    && IsLatest(s.samples, AllSamples(c, fs))
    && IsStatistics(s.statistics, c, fs)
    && s.observation == s.statistics.latestTimestamp
    && s.lastFrameSequence == s.statistics.lastFrameSequence
    && s.freshness.Keys == s.samples.Keys
    && (forall k <- s.samples ::
          k in c.definitions && s.samples[k].key == k && s.observation.Some?
          && s.samples[k].timestamp <= s.observation.value
          && (s.freshness[k] == Fresh <==> IsFresh(c, k, s.samples[k], s.observation.value)))
  }

  // ---- facts about the definitions ----

  lemma {:induction false} OnlyAppend(k: SignalKey, s: seq<SignalSample>, x: SignalSample)
    ensures Only(k, s + [x]) == Only(k, s) + if x.key == k then [x] else []
  {
    assert (s + [x])[..|s|] == s;
  }

  lemma {:induction false} SamplesAreOfFrames(c: Catalog, fs: seq<DecodedFrame>)
    requires Accepted(c, fs)
    ensures forall x <- AllSamples(c, fs) ::
              x.key in c.definitions && x.frameSequence < |fs| && x.timestamp == fs[x.frameSequence].timestamp
  {
    if fs != [] {
      var p := fs[..|fs| - 1];
      SamplesAreOfFrames(c, p);
      forall x | x in AllSamples(c, fs)
        ensures x.key in c.definitions && x.frameSequence < |fs| && x.timestamp == fs[x.frameSequence].timestamp
      {
        if x in AllSamples(c, p) {
          assert p[x.frameSequence] == fs[x.frameSequence];
        }
      }
    }
  }

  lemma {:induction false} CountAppend(id: nat, fs: seq<DecodedFrame>, f: DecodedFrame)
    ensures CountId(id, fs + [f]) == CountId(id, fs) + if f.arbitrationId == id then 1 else 0
  {
    assert (fs + [f])[..|fs|] == fs;
  }

  lemma {:induction false} AcceptedAppend(c: Catalog, fs: seq<DecodedFrame>, f: DecodedFrame)
    requires Accepted(c, fs) && Described(c, f)
    requires fs == [] || fs[|fs| - 1].timestamp <= f.timestamp
    ensures Accepted(c, fs + [f])
  {
  }

  lemma {:induction false} SamplesAppend(c: Catalog, fs: seq<DecodedFrame>, f: DecodedFrame)
    requires Accepted(c, fs + [f]) && Accepted(c, fs)
    ensures Described(c, f)
    ensures AllSamples(c, fs + [f]) == AllSamples(c, fs) + SamplesOf(c, f, |fs|)
  {
    assert (fs + [f])[..|fs|] == fs;
    assert (fs + [f])[|fs|] == f;
  }

  /** One more sample keeps the latest value of every signal. */
  lemma {:induction false} LatestAppend(latest: map<SignalKey, SignalSample>, s: seq<SignalSample>, x: SignalSample)
    requires IsLatest(latest, s)
    ensures IsLatest(latest[x.key := x], s + [x])
  {
    hide Only;
    forall k
      ensures Only(k, s + [x]) == Only(k, s) + if x.key == k then [x] else []
    {
      OnlyAppend(k, s, x);
    }
  }

  lemma {:induction false} LastOfNothing<T>(n: nat)
    ensures Last<T>([], n) == []
  {
  }

  /** One more sample keeps every bounded history. */
  lemma {:induction false} HistoryAppend(histories: map<SignalKey, seq<SignalSample>>, s: seq<SignalSample>,
                                         x: SignalSample, capacity: nat)
    requires capacity > 0 && IsHistory(histories, s, capacity)
    ensures var h := if x.key in histories then histories[x.key] else [];
            |h| <= capacity && IsHistory(histories[x.key := PushBounded(h, x, capacity)], s + [x], capacity)
  {
    hide Last, PushBounded, Only;
    var h := if x.key in histories then histories[x.key] else [];
    LastOfNothing<SignalSample>(capacity);
    assert h == Last(Only(x.key, s), capacity);
    PushBoundedIsLast(Only(x.key, s), x, capacity);
    var n := histories[x.key := PushBounded(h, x, capacity)];
    forall k
      ensures (k in n <==> Only(k, s + [x]) != []) && (k in n ==> n[k] == Last(Only(k, s + [x]), capacity))
    {
      OnlyAppend(k, s, x);
      assert Only(k, s) + [] == Only(k, s);
    }
  }

  lemma {:induction false} CountsAppend(counts: map<nat, nat>, fs: seq<DecodedFrame>, f: DecodedFrame)
    requires IsCount(counts, fs)
    ensures IsCount(counts[f.arbitrationId := (if f.arbitrationId in counts then counts[f.arbitrationId] else 0) + 1],
                    fs + [f])
  {
    forall id
      ensures CountId(id, fs + [f]) == CountId(id, fs) + if f.arbitrationId == id then 1 else 0
    {
      CountAppend(id, fs, f);
    }
  }

  lemma {:induction false} LatestTimeOf(s: Statistics, c: Catalog, fs: seq<DecodedFrame>)
    requires Accepted(c, fs) && IsStatistics(s, c, fs)
    ensures s.latestTimestamp == if fs == [] then None else Some(fs[|fs| - 1].timestamp)
  {
  }

  lemma {:induction false} StatisticsAppend(s: Statistics, c: Catalog, fs: seq<DecodedFrame>, f: DecodedFrame)
    requires Accepted(c, fs) && Accepted(c, fs + [f]) && Described(c, f) && IsStatistics(s, c, fs)
    ensures var counts := s.framesById[f.arbitrationId :=
                            (if f.arbitrationId in s.framesById then s.framesById[f.arbitrationId] else 0) + 1];
            IsStatistics(Statistics(s.totalFrames + 1, s.totalSignalUpdates + |f.signals|, Some(f.timestamp),
                                    Some(|fs|), counts),
                         c, fs + [f])
  {
    hide IsCount, AllSamples, Accepted, Described;
    SamplesAppend(c, fs, f);
    CountsAppend(s.framesById, fs, f);
  }

  /** The latest value of a signal is the last element of its history. */
  lemma {:induction false} LatestIsEndOfHistory(latest: map<SignalKey, SignalSample>,
                                                histories: map<SignalKey, seq<SignalSample>>,
                             s: seq<SignalSample>, capacity: nat, k: SignalKey)
    requires capacity > 0 && IsLatest(latest, s) && IsHistory(histories, s, capacity)
    ensures k in latest <==> k in histories
    ensures k in latest ==> histories[k] != [] && latest[k] == histories[k][|histories[k]| - 1]
  {
  }

  // ---- the engine ----

  class Engine {
    const catalog: Catalog
    const capacity: nat
    var latest: map<SignalKey, SignalSample>
    var histories: map<SignalKey, seq<SignalSample>>
    var nextFrameSequence: nat
    var totalFrames: nat
    var totalSignalUpdates: nat
    var latestTimestamp: Option<nat>
    var lastFrameSequence: Option<nat>
    var framesById: map<nat, nat>
    /** The frames accepted since the last reset. */
    ghost var accepted: seq<DecodedFrame>

    ghost predicate Valid()
      reads this
    {
      && capacity > 0
      && Accepted(catalog, accepted)
      && IsLatest(latest, AllSamples(catalog, accepted))
      && IsHistory(histories, AllSamples(catalog, accepted), capacity)
      && nextFrameSequence == |accepted|
      && IsStatistics(Statistics(totalFrames, totalSignalUpdates, latestTimestamp, lastFrameSequence, framesById),
                      catalog, accepted)
    }

    constructor (catalog: Catalog, capacity: nat)
      requires capacity > 0
      ensures Valid() && this.catalog == catalog && this.capacity == capacity && accepted == []
    {
      this.catalog := catalog;
      this.capacity := capacity;
      latest, histories, framesById := map[], map[], map[];
      nextFrameSequence, totalFrames, totalSignalUpdates := 0, 0, 0;
      latestTimestamp, lastFrameSequence := None, None;
      accepted := [];
    }

    method Reset()
      requires Valid()
      modifies this
      ensures Valid() && accepted == []
    {
      latest, histories, framesById := map[], map[], map[];
      nextFrameSequence, totalFrames, totalSignalUpdates := 0, 0, 0;
      latestTimestamp, lastFrameSequence := None, None;
      accepted := [];
    }

    /** `definitions_for_frame`: every signal of the frame is defined for its message. */
    method CheckDescribed(frame: DecodedFrame) returns (r: Result<(), Error>)
      ensures r.Ok? <==> Described(catalog, frame)
      ensures r.Ok? <==> frame.arbitrationId in catalog.messages
                         && frame.messageName == catalog.messages[frame.arbitrationId]
                         && forall x <- frame.signals :: SignalKey(frame.messageName, x.0) in catalog.definitions
      ensures r == Err(UnknownArbitrationId) <==> frame.arbitrationId !in catalog.messages
      ensures r == Err(WrongMessageName) <==> frame.arbitrationId in catalog.messages
                                              && frame.messageName != catalog.messages[frame.arbitrationId]
      ensures r.Ok? || r.error in {UnknownArbitrationId, WrongMessageName, UndefinedSignal}
    {
      DescribedMeans(catalog, frame);
      if frame.arbitrationId !in catalog.messages {
        return Err(UnknownArbitrationId);
      }
      if frame.messageName != catalog.messages[frame.arbitrationId] {
        return Err(WrongMessageName);
      }
      for i := 0 to |frame.signals|
        invariant forall j :: 0 <= j < i ==> KeyOf(frame, j) in catalog.definitions
      {
        if KeyOf(frame, i) !in catalog.definitions {
          return Err(UndefinedSignal);
        }
      }
      return Ok(());
    }

    /** The mutation loop of `ingest`: append each sample to its bounded history and make it the
        latest of its signal. */
    method Store(samples: seq<SignalSample>, ghost before: seq<SignalSample>)
      requires capacity > 0 && IsLatest(latest, before) && IsHistory(histories, before, capacity)
      modifies `latest, `histories
      ensures IsLatest(latest, before + samples) && IsHistory(histories, before + samples, capacity)
    {
      hide IsLatest, IsHistory, Last, PushBounded;
      assert before + samples[..0] == before;
      var i := 0;
      while i < |samples|
        invariant 0 <= i <= |samples|
        invariant IsLatest(latest, before + samples[..i])
        invariant IsHistory(histories, before + samples[..i], capacity)
      {
        var sample := samples[i];
        HistoryAppend(histories, before + samples[..i], sample, capacity);
        LatestAppend(latest, before + samples[..i], sample);
        assert before + samples[..i] + [sample] == before + samples[..i + 1];
        var history := if sample.key in histories then histories[sample.key] else [];
        histories := histories[sample.key := PushBounded(history, sample, capacity)];
        latest := latest[sample.key := sample];
        i := i + 1;
      }
      assert samples[..i] == samples;
    }

    /** Ingest one decoded frame. A frame that moves backward or that the catalog does not describe
        is refused and leaves the engine as it was. */
    method Ingest(frame: DecodedFrame) returns (r: Result<seq<SignalSample>, Error>)
      requires Valid()
      modifies this
      ensures Valid()
      ensures r.Ok? <==> Described(catalog, frame)
                         && (old(accepted) == [] || old(accepted)[|old(accepted)| - 1].timestamp <= frame.timestamp)
      ensures r.Ok? ==> accepted == old(accepted) + [frame]
                        && r.value == SamplesOf(catalog, frame, |old(accepted)|)
      ensures r.Ok? ==> CarriesFrame(r.value, catalog, frame, |old(accepted)|)
      ensures r == Err(OutOfOrder) <==>
              old(accepted) != [] && frame.timestamp < old(accepted)[|old(accepted)| - 1].timestamp
      ensures r.Err? ==> unchanged(this)
    {
      hide IsLatest, IsHistory, IsCount, Last, PushBounded, AllSamples, Accepted, SamplesOf, Described, IsStatistics,
        CarriesFrame;
      LatestTimeOf(Statistics(totalFrames, totalSignalUpdates, latestTimestamp, lastFrameSequence, framesById), catalog,
                   accepted);
      if latestTimestamp.Some? && frame.timestamp < latestTimestamp.value {
        return Err(OutOfOrder);
      }
      var described := CheckDescribed(frame);
      if described.Err? {
        return Err(described.error);
      }
      ghost var all := accepted + [frame];
      AcceptedAppend(catalog, accepted, frame);
      SamplesAppend(catalog, accepted, frame);
      StatisticsAppend(Statistics(totalFrames, totalSignalUpdates, latestTimestamp, lastFrameSequence, framesById),
                       catalog,
                       accepted, frame);
      SamplesCarryFrame(catalog, frame, nextFrameSequence);
      var samples := SamplesOf(catalog, frame, nextFrameSequence);
      Store(samples, AllSamples(catalog, accepted));
      totalFrames := totalFrames + 1;
      totalSignalUpdates := totalSignalUpdates + |samples|;
      framesById := framesById[frame.arbitrationId :=
        (if frame.arbitrationId in framesById then framesById[frame.arbitrationId] else 0) + 1];
      latestTimestamp := Some(frame.timestamp);
      lastFrameSequence := Some(nextFrameSequence);
      nextFrameSequence := nextFrameSequence + 1;
      accepted := all;
      return Ok(samples);
    }

    /** Freshness of the latest sample of `key`, judged at `at` or at the latest frame time. It
        can only fail for an unknown key or a time before the sample. */
    method FreshnessOf(key: SignalKey, at: Option<nat>) returns (r: Result<Option<Freshness>, Error>)
      requires Valid()
      ensures r.Err? <==> key !in catalog.definitions
                          || (key in latest && at.Some? && at.value < latest[key].timestamp)
      ensures r == Err(UnknownKey) <==> key !in catalog.definitions
      ensures r == Err(FutureSample) <==>
              key in catalog.definitions && key in latest && at.Some? && at.value < latest[key].timestamp
      ensures r.Ok? && key !in latest ==> r.value.None?
      ensures r.Ok? && key in latest ==>
                && (at.None? ==> latestTimestamp.Some? && latest[key].timestamp <= latestTimestamp.value)
                && r.value ==
                   Some(if IsFresh(catalog, key, latest[key], if at.Some? then at.value else latestTimestamp.value)
                                   then Fresh else Stale)
      ensures r.Ok? && key in latest ==>
                var now := if at.Some? then at.value else latestTimestamp.value;
                r.value == Some(if now - latest[key].timestamp <= 2 * catalog.definitions[key].expectedPeriod
                                then Fresh else Stale)
    {
      if key !in catalog.definitions {
        return Err(UnknownKey);
      }
      if key !in latest {
        return Ok(None);
      }
      var sample := latest[key];
      SampleIsOfFrame(key);
      var now := if at.None? then latestTimestamp else at;
      if now.None? || now.value < sample.timestamp {
        return Err(FutureSample);
      }
      var age := now.value - sample.timestamp;
      var threshold := catalog.definitions[key].expectedPeriod * FRESHNESS_PERIOD_MULTIPLIER;
      return Ok(Some(if age <= threshold then Fresh else Stale));
    }

    lemma {:induction false} SampleIsOfFrame(key: SignalKey)
      requires Valid() && key in latest
      ensures key in catalog.definitions && latest[key].key == key
      ensures latestTimestamp.Some? && latest[key].timestamp <= latestTimestamp.value
    {
      SamplesAreOfFrames(catalog, accepted);
      var s := Only(key, AllSamples(catalog, accepted));
      assert s[|s| - 1] in AllSamples(catalog, accepted);
    }

    /** Judging the freshness of present samples never fails. */
    method FreshnessOfAll(samples: map<SignalKey, SignalSample>) returns (freshness: map<SignalKey, Freshness>)
      requires Valid() && samples.Keys <= latest.Keys && forall k <- samples :: samples[k] == latest[k]
      ensures freshness.Keys == samples.Keys
      ensures forall k <- samples ::
                && k in catalog.definitions && samples[k].key == k
                && latestTimestamp.Some? && samples[k].timestamp <= latestTimestamp.value
                && freshness[k] == Judged(catalog, k, samples[k], latestTimestamp.value)
    {
      hide IsLatest, IsHistory, IsCount, AllSamples, IsFresh;
      freshness := map[];
      var keys := samples.Keys;
      while keys != {}
        invariant keys <= samples.Keys
        invariant freshness.Keys == samples.Keys - keys
        invariant forall k <- freshness ::
                    && k in catalog.definitions && samples[k].key == k
                    && latestTimestamp.Some? && samples[k].timestamp <= latestTimestamp.value
                    && freshness[k] == Judged(catalog, k, samples[k], latestTimestamp.value)
        decreases |keys|
      {
        var k :| k in keys;
        SampleIsOfFrame(k);
        var status := FreshnessOf(k, None);
        freshness := freshness[k := status.value.value];
        keys := keys - {k};
      }
    }

    /** An immutable snapshot of everything. */
    method TakeSnapshot() returns (s: Snapshot)
      requires Valid()
      ensures IsSnapshot(s, catalog, accepted)
      ensures s.samples == latest
    {
      hide IsLatest, IsHistory, IsCount, AllSamples, IsFresh;
      var freshness := FreshnessOfAll(latest);
      return Snapshot(latestTimestamp, lastFrameSequence, latest, freshness,
                      Statistics(totalFrames, totalSignalUpdates, latestTimestamp, lastFrameSequence, framesById));
    }

    /** A snapshot of chosen signals: refused exactly when one of them is not defined, and otherwise the
        snapshot of everything cut down to those of them that were received. */
    method TakeSnapshotOf(keys: seq<SignalKey>) returns (r: Result<Snapshot, Error>)
      requires Valid()
      ensures r.Ok? <==> forall k <- keys :: k in catalog.definitions
      ensures r.Ok? ==>
                exists whole: Snapshot :: IsSnapshot(whole, catalog, accepted) && r.value == CutDown(whole, keys)
      ensures r.Ok? ==>
                && r.value.samples == (map k | k in latest && k in keys :: latest[k])
                && r.value.freshness.Keys == r.value.samples.Keys
                && r.value.observation == latestTimestamp && r.value.lastFrameSequence == lastFrameSequence
                && r.value.statistics.totalFrames == |accepted|
    {
      hide IsLatest, IsHistory, IsCount, AllSamples, IsFresh;
      var samples: map<SignalKey, SignalSample> := map[];
      for i := 0 to |keys|
        invariant forall k <- keys[..i] :: k in catalog.definitions
        invariant samples == map k | k in latest && k in keys[..i] :: latest[k]
      {
        if keys[i] !in catalog.definitions {
          return Err(UnknownKey);
        }
        assert keys[..i + 1] == keys[..i] + [keys[i]];
        if keys[i] in latest {
          samples := samples[keys[i] := latest[keys[i]]];
        }
      }
      assert keys[..|keys|] == keys;
      var freshness := FreshnessOfAll(samples);
      var statistics := Statistics(totalFrames, totalSignalUpdates, latestTimestamp, lastFrameSequence, framesById);
      ghost var all := FreshnessOfAllSignals();
      ghost var whole := Snapshot(latestTimestamp, lastFrameSequence, latest, all, statistics);
      var snapshot := Snapshot(latestTimestamp, lastFrameSequence, samples, freshness, statistics);
      assert CutDown(whole, keys) == snapshot;
      return Ok(snapshot);
    }

    /** What judging every signal would give. */
    lemma {:induction false} FreshnessOfAllSignals() returns (all: map<SignalKey, Freshness>)
      requires Valid()
      ensures all.Keys == latest.Keys
      ensures forall k <- latest ::
                && k in catalog.definitions && latest[k].key == k
                && latestTimestamp.Some? && latest[k].timestamp <= latestTimestamp.value
                && all[k] == Judged(catalog, k, latest[k], latestTimestamp.value)
    {
      hide IsLatest, IsHistory, IsCount, AllSamples, IsFresh;
      forall k | k in latest
        ensures k in catalog.definitions && latest[k].key == k
        ensures latestTimestamp.Some? && latest[k].timestamp <= latestTimestamp.value
      {
        SampleIsOfFrame(k);
      }
      all := map k | k in latest :: Judged(catalog, k, latest[k], latestTimestamp.value);
    }

    /** The bounded history of one signal, newest last. */
    method History(key: SignalKey) returns (r: Result<seq<SignalSample>, Error>)
      requires Valid()
      ensures r.Ok? <==> key in catalog.definitions
      ensures r.Ok? ==> r.value == Last(Only(key, AllSamples(catalog, accepted)), capacity)
      ensures r.Ok? && key in latest ==> r.value != [] && r.value[|r.value| - 1] == latest[key]
    {
      if key !in catalog.definitions {
        return Err(UnknownKey);
      }
      LatestIsEndOfHistory(latest, histories, AllSamples(catalog, accepted), capacity, key);
      return Ok(if key in histories then histories[key] else []);
    }
  }
}
