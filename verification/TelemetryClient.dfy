/** The browser's decoded-telemetry reducer (frontend/lib/telemetry/state.ts) and the claim it
    lives by: snapshot plus deltas rebuilds what the server holds. */
module TelemetryClient {
  import opened Prelude
  import opened TelemetryModels
  import opened TelemetryEngine

  const SEPARATOR: char := '\U{1f}'
  const CHART_CAPACITY: nat := 180
  const CHART_INTERVAL: nat := 50_000

  datatype Update = Update(
    timestamp: nat,
    frameSequence: nat,
    arbitrationId: nat,
    messageName: string,
    samples: seq<SignalSample>)

  datatype MessageCount = MessageCount(arbitrationId: nat, frames: nat)

  datatype ChartPoint = ChartPoint(timestamp: nat, value: real)

  datatype Warning = Ignored(received: nat, latest: nat) | Gap(expected: nat, received: nat)

  datatype ClientStatistics = ClientStatistics(
    totalFrames: nat,
    totalSignalUpdates: nat,
    latestTimestamp: Option<nat>,
    lastFrameSequence: Option<nat>,
    framesByMessage: seq<MessageCount>)

  datatype Client = Client(
    samples: map<string, SignalSample>,
    histories: map<string, seq<ChartPoint>>,
    observation: Option<nat>,
    lastFrameSequence: Option<nat>,
    statistics: ClientStatistics,
    warning: Option<Warning>,
    initialized: bool)

  /** A snapshot as it travels: lists in place of maps. */
  datatype WireSnapshot = WireSnapshot(
    signals: seq<SignalSample>,
    observation: Option<nat>,
    lastFrameSequence: Option<nat>,
    statistics: ClientStatistics)

  function KeyId(k: SignalKey): string {
    k.messageName + [SEPARATOR] + k.signalName
  }

  predicate Clean(k: SignalKey) {
    SEPARATOR !in k.messageName
  }

  lemma {:induction false} KeyIdParts(k: SignalKey)
    requires Clean(k)
    ensures KeyId(k)[|k.messageName|] == SEPARATOR == '\U{1f}'
    ensures forall i :: 0 <= i < |k.messageName| ==> KeyId(k)[i] != SEPARATOR
    ensures KeyId(k)[..|k.messageName|] == k.messageName && KeyId(k)[|k.messageName| + 1..] == k.signalName
  {
    assert forall i :: 0 <= i < |k.messageName| ==> KeyId(k)[i] == k.messageName[i];
  }

  /** Distinct keys have distinct identifiers as long as message names avoid the separator. */
  lemma {:induction false} KeyIdIsInjective(a: SignalKey, b: SignalKey)
    requires Clean(a) && Clean(b)
    ensures KeyId(a) == KeyId(b) <==> a == b
  {
    KeyIdParts(a);
    KeyIdParts(b);
  }

  // ---- the reducer ----

  function AppendChartPoint(history: seq<ChartPoint>, s: SignalSample): seq<ChartPoint> {
    if !s.value.Number? then history
    else
      var point := ChartPoint(s.timestamp, s.value.number);
      if history == [] then [point]
      else if point.timestamp - history[|history| - 1].timestamp >= CHART_INTERVAL
      then Last(history + [point], CHART_CAPACITY)
      else Last(history[..|history| - 1] + [point], CHART_CAPACITY)
  }

  function StoreSamples(m: map<string, SignalSample>, ss: seq<SignalSample>): map<string, SignalSample> {
    if ss == [] then m
    else StoreSamples(m, ss[..|ss| - 1])[KeyId(ss[|ss| - 1].key) := ss[|ss| - 1]]
  }

  function StoreCharts(m: map<string, seq<ChartPoint>>, ss: seq<SignalSample>): map<string, seq<ChartPoint>> {
    if ss == [] then m
    else
      var before := StoreCharts(m, ss[..|ss| - 1]);
      var x := ss[|ss| - 1];
      var id := KeyId(x.key);
      before[id := AppendChartPoint(if id in before then before[id] else [], x)]
  }

  /** The position of an ID in the list, or its length. */
  function IndexOf(counts: seq<MessageCount>, id: nat): (i: nat)
    ensures i <= |counts|
    ensures i < |counts| ==> counts[i].arbitrationId == id
    ensures forall j :: 0 <= j < i ==> counts[j].arbitrationId != id
  {
    if counts == [] then 0
    else
      var i := IndexOf(counts[..|counts| - 1], id);
      if i < |counts| - 1 then i else if counts[i].arbitrationId == id then i else |counts|
  }

  function CountMessage(counts: seq<MessageCount>, id: nat): seq<MessageCount> {
    var i := IndexOf(counts, id);
    if i < |counts| then counts[i := MessageCount(id, counts[i].frames + 1)] else counts + [MessageCount(id, 1)]
  }

  function Max(a: nat, b: nat): nat {
    if a >= b then a else b
  }

  function ApplyUpdate(s: Client, u: Update): Client {
    if s.lastFrameSequence.Some? && u.frameSequence <= s.lastFrameSequence.value
    then s.(warning := Some(Ignored(u.frameSequence, s.lastFrameSequence.value)))
    else
      s.(samples := StoreSamples(s.samples, u.samples),
         histories := StoreCharts(s.histories, u.samples),
         observation := Some(u.timestamp),
         lastFrameSequence := Some(u.frameSequence),
         statistics := ClientStatistics(
           Max(s.statistics.totalFrames + 1, u.frameSequence + 1),
           s.statistics.totalSignalUpdates + |u.samples|,
           Some(u.timestamp),
           Some(u.frameSequence),
           CountMessage(s.statistics.framesByMessage, u.arbitrationId)),
         warning := if s.lastFrameSequence.Some? && u.frameSequence != s.lastFrameSequence.value + 1
                    then Some(Gap(s.lastFrameSequence.value + 1, u.frameSequence))
                    else s.warning,
         initialized := true)
  }

  function InitialSnapshot(s: Client, w: WireSnapshot): Client {
    s.(samples := StoreSamples(map[], w.signals),
       histories := StoreCharts(map[], w.signals),
       observation := w.observation,
       lastFrameSequence := w.lastFrameSequence,
       statistics := w.statistics,
       warning := None,
       initialized := true)
  }

  /** The `updates` action. */
  function ApplyUpdates(s: Client, us: seq<Update>): Client {
    if us == [] then s else ApplyUpdate(ApplyUpdates(s, us[..|us| - 1]), us[|us| - 1])
  }

  /** The loop of `applyUpdate` over its local copies. */
  method StoreAll(samples0: map<string, SignalSample>, histories0: map<string, seq<ChartPoint>>,
                  signals: seq<SignalSample>)
    returns (samples: map<string, SignalSample>, histories: map<string, seq<ChartPoint>>)
    ensures samples == StoreSamples(samples0, signals) && histories == StoreCharts(histories0, signals)
  {
    samples, histories := samples0, histories0;
    for i := 0 to |signals|
      invariant samples == StoreSamples(samples0, signals[..i])
      invariant histories == StoreCharts(histories0, signals[..i])
    {
      assert signals[..i + 1][..i] == signals[..i];
      var id := KeyId(signals[i].key);
      samples := samples[id := signals[i]];
      histories := histories[id := AppendChartPoint(if id in histories then histories[id] else [], signals[i])];
    }
    assert signals[..|signals|] == signals;
  }

  /** Whatever the client and the update: a sequence not beyond the latest changes nothing but the warning;
      any other is taken, with a warning that names both sequences when some were skipped, and the total
      counts the skipped ones too. */
  lemma {:induction false} SequencesAreChecked(s: Client, u: Update)
    ensures var t, latest := ApplyUpdate(s, u), s.lastFrameSequence;
            && (latest.Some? && u.frameSequence <= latest.value ==>
                  t == s.(warning := Some(Ignored(u.frameSequence, latest.value))))
            && (latest.None? || u.frameSequence > latest.value ==>
                  && t.lastFrameSequence == Some(u.frameSequence) && t.observation == Some(u.timestamp)
                  && t.statistics.lastFrameSequence == Some(u.frameSequence) && t.initialized
                  && t.statistics.latestTimestamp == Some(u.timestamp)
                  && t.statistics.totalSignalUpdates == s.statistics.totalSignalUpdates + |u.samples|
                  && t.statistics.totalFrames > s.statistics.totalFrames
                  && t.statistics.totalFrames > u.frameSequence
                  && (t.statistics.totalFrames == s.statistics.totalFrames + 1
                      || t.statistics.totalFrames == u.frameSequence + 1)
                  && t.warning == if latest.Some? && u.frameSequence > latest.value + 1
                                  then Some(Gap(latest.value + 1, u.frameSequence)) else s.warning)
  {
  }

  // ---- what the client must hold ----

  ghost predicate CleanNames(c: Catalog) {
    forall k <- c.definitions :: Clean(k)
  }

  /** The client's samples are the latest sample of every signal in `s`, under its identifier. */
  ghost predicate MirrorsSamples(m: map<string, SignalSample>, s: seq<SignalSample>) {
    && (forall k :: Only(k, s) != [] ==> KeyId(k) in m && m[KeyId(k)] == Only(k, s)[|Only(k, s)| - 1])
    && (forall id <- m :: Only(m[id].key, s) != [] && KeyId(m[id].key) == id)
  }

  /** The list holds the frame count of every ID seen, each once. */
  ghost predicate MirrorsCounts(counts: seq<MessageCount>, fs: seq<DecodedFrame>) {
    && (forall i, j :: 0 <= i < j < |counts| ==> counts[i].arbitrationId != counts[j].arbitrationId)
    && (forall i :: 0 <= i < |counts| ==> counts[i].frames == CountId(counts[i].arbitrationId, fs) > 0)
    && (forall id :: CountId(id, fs) > 0 ==> exists i :: 0 <= i < |counts| && counts[i].arbitrationId == id)
  }

  ghost predicate MirrorsStatistics(t: ClientStatistics, c: Catalog, fs: seq<DecodedFrame>)
    requires Accepted(c, fs)
  {
    && t.totalFrames == |fs|
    && t.totalSignalUpdates == |AllSamples(c, fs)|
    && t.latestTimestamp == (if fs == [] then None else Some(fs[|fs| - 1].timestamp))
    && t.lastFrameSequence == (if fs == [] then None else Some(|fs| - 1))
    && MirrorsCounts(t.framesByMessage, fs)
  }

  /** The client state is the engine's, as of the frames `fs`, with no warning. */
  ghost predicate Mirrors(s: Client, c: Catalog, fs: seq<DecodedFrame>)
    requires Accepted(c, fs)
  {
    && MirrorsSamples(s.samples, AllSamples(c, fs))
    && MirrorsStatistics(s.statistics, c, fs)
    && s.observation == s.statistics.latestTimestamp
    && s.lastFrameSequence == s.statistics.lastFrameSequence
    && s.warning.None?
    && s.initialized
  }

  ghost predicate ListsSamples(signals: seq<SignalSample>, samples: map<SignalKey, SignalSample>) {
    && (forall i, j :: 0 <= i < j < |signals| ==> signals[i].key != signals[j].key)
    && (forall x <- signals :: x.key in samples && samples[x.key] == x)
    && (forall k <- samples :: exists i :: 0 <= i < |signals| && signals[i].key == k)
  }

  ghost predicate ListsCounts(counts: seq<MessageCount>, framesById: map<nat, nat>) {
    && (forall i, j :: 0 <= i < j < |counts| ==> counts[i].arbitrationId != counts[j].arbitrationId)
    && (forall i :: 0 <= i < |counts| ==>
          counts[i].arbitrationId in framesById && framesById[counts[i].arbitrationId] == counts[i].frames)
    && (forall id <- framesById :: exists i :: 0 <= i < |counts| && counts[i].arbitrationId == id)
  }

  /** A wire snapshot lists the samples and counts of a snapshot, each once, in some order. */
  ghost predicate Serialises(w: WireSnapshot, s: Snapshot) {
    && ListsSamples(w.signals, s.samples)
    && w.observation == s.observation
    && w.lastFrameSequence == s.lastFrameSequence
    && w.statistics.totalFrames == s.statistics.totalFrames
    && w.statistics.totalSignalUpdates == s.statistics.totalSignalUpdates
    && w.statistics.latestTimestamp == s.statistics.latestTimestamp
    && w.statistics.lastFrameSequence == s.statistics.lastFrameSequence
    && ListsCounts(w.statistics.framesByMessage, s.statistics.framesById)
  }

  /** The delta the service publishes for an accepted frame. */
  function UpdateOf(c: Catalog, f: DecodedFrame, sequence: nat): Update
    requires Described(c, f)
  {
    Update(f.timestamp, sequence, f.arbitrationId, f.messageName, SamplesOf(c, f, sequence))
  }

  /** A delta is stamped and numbered as its frame, and carries what the frame decodes. */
  lemma {:induction false} UpdateCarriesFrame(c: Catalog, f: DecodedFrame, sequence: nat)
    requires Described(c, f)
    ensures var u := UpdateOf(c, f, sequence);
            && u.timestamp == f.timestamp && u.frameSequence == sequence
            && u.arbitrationId == f.arbitrationId && u.messageName == f.messageName
            && CarriesFrame(u.samples, c, f, sequence)
  {
    hide SamplesOf, CarriesFrame;
    SamplesCarryFrame(c, f, sequence);
  }

  // ---- replication ----

  ghost predicate CleanSamples(s: seq<SignalSample>) {
    forall x <- s :: Clean(x.key)
  }

  lemma {:induction false} OnlyHas(k: SignalKey, s: seq<SignalSample>, i: nat)
    requires i < |s| && s[i].key == k
    ensures Only(k, s) != []
  {
    if i < |s| - 1 {
      OnlyHas(k, s[..|s| - 1], i);
    }
  }

  lemma {:induction false} SeenIsClean(k: SignalKey, s: seq<SignalSample>)
    requires CleanSamples(s) && Only(k, s) != []
    ensures Clean(k)
  {
    assert Only(k, s)[0] in s;
  }

  lemma {:induction false} SampleStored(m: map<string, SignalSample>, s: seq<SignalSample>, x: SignalSample)
    requires MirrorsSamples(m, s) && CleanSamples(s) && Clean(x.key)
    ensures MirrorsSamples(m[KeyId(x.key) := x], s + [x])
  {
    hide Only, KeyId, CleanSamples, Clean;
    var n := m[KeyId(x.key) := x];
    forall k | Only(k, s + [x]) != []
      ensures KeyId(k) in n && n[KeyId(k)] == Only(k, s + [x])[|Only(k, s + [x])| - 1]
    {
      OnlyAppend(k, s, x);
      if k != x.key {
        assert Only(k, s) + [] == Only(k, s);
        SeenIsClean(k, s);
        KeyIdIsInjective(k, x.key);
      }
    }
    forall id | id in n
      ensures Only(n[id].key, s + [x]) != [] && KeyId(n[id].key) == id
    {
      OnlyAppend(n[id].key, s, x);
      if id != KeyId(x.key) {
        assert id in m && Only(m[id].key, s) != [];
      }
    }
  }

  lemma {:induction false} SamplesStored(m: map<string, SignalSample>, s: seq<SignalSample>, ss: seq<SignalSample>)
    requires MirrorsSamples(m, s) && CleanSamples(s) && CleanSamples(ss)
    ensures MirrorsSamples(StoreSamples(m, ss), s + ss)
  {
    if ss == [] {
      assert s + ss == s;
    } else {
      var p := ss[..|ss| - 1];
      SamplesStored(m, s, p);
      assert s + ss == s + p + [ss[|ss| - 1]];
      SampleStored(StoreSamples(m, p), s + p, ss[|ss| - 1]);
    }
  }

  lemma {:induction false} MessageCounted(counts: seq<MessageCount>, fs: seq<DecodedFrame>, f: DecodedFrame)
    requires MirrorsCounts(counts, fs)
    ensures MirrorsCounts(CountMessage(counts, f.arbitrationId), fs + [f])
  {
    hide CountId;
    var id := f.arbitrationId;
    var i := IndexOf(counts, id);
    var n := CountMessage(counts, id);
    forall x
      ensures CountId(x, fs + [f]) == CountId(x, fs) + if id == x then 1 else 0
    {
      CountAppend(x, fs, f);
    }
    forall x | CountId(x, fs + [f]) > 0
      ensures exists j :: 0 <= j < |n| && n[j].arbitrationId == x
    {
      if x == id {
        assert n[i].arbitrationId == x;
      } else {
        var j :| 0 <= j < |counts| && counts[j].arbitrationId == x;
        assert n[j].arbitrationId == x;
      }
    }
  }

  lemma {:induction false} OnlyOfListed(signals: seq<SignalSample>, samples: map<SignalKey, SignalSample>, k: SignalKey)
    requires ListsSamples(signals, samples)
    ensures Only(k, signals) != [] <==> k in samples
    ensures k in samples ==> Only(k, signals)[|Only(k, signals)| - 1] == samples[k]
  {
    if k in samples {
      var i :| 0 <= i < |signals| && signals[i].key == k;
      OnlyHas(k, signals, i);
    }
    if Only(k, signals) != [] {
      var x := Only(k, signals)[|Only(k, signals)| - 1];
      assert x in signals && x.key == k;
    }
  }

  lemma {:induction false} ListedSamplesMirror(signals: seq<SignalSample>, samples: map<SignalKey, SignalSample>,
                                               all: seq<SignalSample>)
    requires IsLatest(samples, all) && ListsSamples(signals, samples) && CleanSamples(signals)
    ensures MirrorsSamples(StoreSamples(map[], signals), all)
  {
    hide Only, ListsSamples, KeyId, StoreSamples;
    NothingStored();
    SamplesStored(map[], [], signals);
    assert [] + signals == signals;
    var m := StoreSamples(map[], signals);
    forall k | Only(k, all) != []
      ensures KeyId(k) in m && m[KeyId(k)] == Only(k, all)[|Only(k, all)| - 1]
    {
      OnlyOfListed(signals, samples, k);
    }
    forall id | id in m
      ensures Only(m[id].key, all) != [] && KeyId(m[id].key) == id
    {
      OnlyOfListed(signals, samples, m[id].key);
    }
  }

  lemma {:induction false} NothingStored()
    ensures MirrorsSamples(map[], [])
  {
  }

  lemma {:induction false} ListedCountsMirror(counts: seq<MessageCount>, framesById: map<nat, nat>,
                                              fs: seq<DecodedFrame>)
    requires IsCount(framesById, fs) && ListsCounts(counts, framesById)
    ensures MirrorsCounts(counts, fs)
  {
  }

  /** The initial snapshot makes the client mirror the engine. */
  lemma {:induction false} SnapshotMirrors(s0: Client, w: WireSnapshot, s: Snapshot, c: Catalog, fs: seq<DecodedFrame>)
    requires Accepted(c, fs) && CleanNames(c)
    requires IsSnapshot(s, c, fs) && Serialises(w, s)
    ensures Mirrors(InitialSnapshot(s0, w), c, fs)
  {
    forall x | x in w.signals
      ensures Clean(x.key)
    {
      assert x.key in s.samples;
    }
    hide IsLatest, ListsSamples, MirrorsSamples, IsCount, MirrorsCounts, ListsCounts, StoreCharts, Accepted, AllSamples;
    ListedSamplesMirror(w.signals, s.samples, AllSamples(c, fs));
    ListedCountsMirror(w.statistics.framesByMessage, s.statistics.framesById, fs);
  }

  /** One delta keeps the mirror: the client advances exactly as the engine does, and accepts the
      delta without a gap or duplicate warning. */
  lemma {:induction false} UpdateMirrors(s: Client, c: Catalog, fs: seq<DecodedFrame>, f: DecodedFrame)
    requires Accepted(c, fs + [f]) && Accepted(c, fs) && CleanNames(c)
    requires Mirrors(s, c, fs)
    ensures Described(c, f)
    ensures Mirrors(ApplyUpdate(s, UpdateOf(c, f, |fs|)), c, fs + [f])
  {
    SamplesAppend(c, fs, f);
    SamplesAreOfFrames(c, fs);
    assert (fs + [f])[|fs|] == f;
    SamplesStored(s.samples, AllSamples(c, fs), SamplesOf(c, f, |fs|));
    MessageCounted(s.statistics.framesByMessage, fs, f);
  }

  predicate AllDescribed(c: Catalog, fs: seq<DecodedFrame>) {
    forall i :: 0 <= i < |fs| ==> Described(c, fs[i])
  }

  /** The deltas the service publishes for the frames `later` when `first` frames came before. */
  function UpdatesOf(c: Catalog, first: nat, later: seq<DecodedFrame>): (us: seq<Update>)
    requires AllDescribed(c, later)
    ensures |us| == |later|
  {
    if later == [] then []
    else
      var n := |later| - 1;
      UpdatesOf(c, first, later[..n]) + [UpdateOf(c, later[n], first + n)]
  }

  lemma {:induction false} UpdatesOfPrefix(c: Catalog, first: nat, later: seq<DecodedFrame>, n: nat)
    requires AllDescribed(c, later) && n <= |later|
    ensures UpdatesOf(c, first, later)[..n] == UpdatesOf(c, first, later[..n])
  {
    hide UpdateOf, Described;
    if n < |later| {
      var p := later[..|later| - 1];
      UpdatesOfPrefix(c, first, p, n);
      assert p[..n] == later[..n];
    } else {
      assert later[..n] == later;
    }
  }

  lemma {:induction false} AcceptedPrefix(c: Catalog, fs: seq<DecodedFrame>, later: seq<DecodedFrame>, n: nat)
    requires Accepted(c, fs + later) && n <= |later|
    ensures Accepted(c, fs + later[..n]) && AllDescribed(c, later)
  {
    assert fs + later[..n] == (fs + later)[..|fs| + n];
    forall i | 0 <= i < |later|
      ensures Described(c, later[i])
    {
      assert later[i] == (fs + later)[|fs| + i];
    }
  }

  lemma {:induction false} DeltasKeepMirror(s: Client, c: Catalog, fs: seq<DecodedFrame>, later: seq<DecodedFrame>)
    requires Accepted(c, fs) && Accepted(c, fs + later) && AllDescribed(c, later) && CleanNames(c)
    requires Mirrors(s, c, fs)
    ensures Mirrors(ApplyUpdates(s, UpdatesOf(c, |fs|, later)), c, fs + later)
  {
    hide Mirrors, Accepted, CleanNames, ApplyUpdate, UpdateOf, Described;
    if later == [] {
      assert fs + later == fs;
    } else {
      var n := |later| - 1;
      AcceptedPrefix(c, fs, later, n);
      DeltasKeepMirror(s, c, fs, later[..n]);
      assert fs + later == fs + later[..n] + [later[n]];
      UpdateMirrors(ApplyUpdates(s, UpdatesOf(c, |fs|, later[..n])), c, fs + later[..n], later[n]);
    }
  }

  /** Replication: for a subscription taken after any frames `fs`, the reducer applied to the
      initial snapshot and then to any prefix of the deltas holds the engine's latest samples,
      observation time, last sequence and statistics as of that frame, with no warning. */
  lemma {:induction false} ReplicaFollowsEngine(s0: Client, w: WireSnapshot, s: Snapshot, c: Catalog,
                             fs: seq<DecodedFrame>, later: seq<DecodedFrame>, n: nat)
    requires Accepted(c, fs) && Accepted(c, fs + later) && CleanNames(c) && n <= |later|
    requires IsSnapshot(s, c, fs) && Serialises(w, s)
    ensures AllDescribed(c, later) && Accepted(c, fs + later[..n])
    ensures Mirrors(ApplyUpdates(InitialSnapshot(s0, w), UpdatesOf(c, |fs|, later)[..n]), c, fs + later[..n])
  {
    hide Mirrors, IsSnapshot, Serialises, Accepted, CleanNames, ApplyUpdate, InitialSnapshot, UpdateOf, Described,
      ApplyUpdates, UpdatesOf;
    AcceptedPrefix(c, fs, later, n);
    UpdatesOfPrefix(c, |fs|, later, n);
    SnapshotMirrors(s0, w, s, c, fs);
    DeltasKeepMirror(InitialSnapshot(s0, w), c, fs, later[..n]);
  }

  /** Neighbouring chart points are at least one interval apart and the chart stays bounded. */
  predicate ChartIsSpaced(h: seq<ChartPoint>) {
    |h| <= 180 && forall i :: 0 < i < |h| ==> h[i].timestamp - h[i - 1].timestamp >= 50_000
  }

  lemma {:induction false} ChartStaysSpaced(h: seq<ChartPoint>, x: SignalSample)
    requires ChartIsSpaced(h) && (h != [] ==> h[|h| - 1].timestamp <= x.timestamp)
    ensures ChartIsSpaced(AppendChartPoint(h, x))
    ensures x.value.Number? ==>
              var r := AppendChartPoint(h, x); r != [] && r[|r| - 1] == ChartPoint(x.timestamp, x.value.number)
  {
  }
}
