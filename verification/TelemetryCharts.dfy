/** The charts of the browser's reducer (frontend/lib/telemetry/state.ts): which of the samples a
    subscriber received its charts show. */
module TelemetryCharts {
  import opened Prelude
  import opened TelemetryModels
  import opened TelemetryEngine
  import opened TelemetryClient

  // ---- the points of one chart, defined on the samples alone ----

  /** The numeric samples as points. */
  function Points(ss: seq<SignalSample>): seq<ChartPoint> {
    if ss == [] then []
    else
      var x := ss[|ss| - 1];
      Points(ss[..|ss| - 1]) + if x.value.Number? then [ChartPoint(x.timestamp, x.value.number)] else []
  }

  /** Whether the point after position `i` comes a full interval later. */
  predicate GapAfter(ps: seq<ChartPoint>, i: nat)
    requires i + 1 < |ps|
  {
    ps[i + 1].timestamp - ps[i].timestamp >= 50_000
  }

  /** The points followed by a full interval without points, and the newest point. */
  function GapEnds(ps: seq<ChartPoint>): seq<ChartPoint> {
    if |ps| <= 1 then ps else (if GapAfter(ps, 0) then [ps[0]] else []) + GapEnds(ps[1..])
  }

  /** What a chart shows of the samples of its signal. */
  function Charted(ss: seq<SignalSample>): seq<ChartPoint> {
    Last(GapEnds(Points(ss)), 180)
  }

  /** The samples of every signal with the identifier `id`. */
  function OfId(id: string, ss: seq<SignalSample>): seq<SignalSample> {
    if ss == [] then []
    else OfId(id, ss[..|ss| - 1]) + if KeyId(ss[|ss| - 1].key) == id then [ss[|ss| - 1]] else []
  }

  /** `selectHistory`. */
  function ChartOf(charts: map<string, seq<ChartPoint>>, id: string): seq<ChartPoint> {
    if id in charts then charts[id] else []
  }

  /** Every chart shows what it is to show of the samples received. */
  ghost predicate ShowsAll(charts: map<string, seq<ChartPoint>>, received: seq<SignalSample>) {
    forall id :: ChartOf(charts, id) == Charted(OfId(id, received))
  }

  // ---- the reducer computes it ----

  lemma {:induction false} GapEndsEnd(ps: seq<ChartPoint>)
    requires ps != []
    ensures GapEnds(ps) != [] && GapEnds(ps)[|GapEnds(ps)| - 1] == ps[|ps| - 1]
  {
    if |ps| > 1 {
      GapEndsEnd(ps[1..]);
    }
  }

  /** A new point joins the chosen ones, in place of its predecessor unless it came a full interval later. */
  lemma {:induction false} GapEndsAppend(ps: seq<ChartPoint>, x: ChartPoint)
    requires ps != []
    ensures GapEnds(ps) != []
    ensures var kept := GapEnds(ps);
            GapEnds(ps + [x]) ==
            (if x.timestamp - ps[|ps| - 1].timestamp >= CHART_INTERVAL then kept else kept[..|kept| - 1]) + [x]
  {
    GapEndsEnd(ps);
    assert (ps + [x])[1..] == ps[1..] + [x];
    if |ps| > 1 {
      GapEndsEnd(ps[1..]);
      GapEndsAppend(ps[1..], x);
    } else {
      assert GapEnds([x]) == [x];
    }
  }

  lemma {:induction false} LastReplaced(s: seq<ChartPoint>, x: ChartPoint, n: nat)
    requires n > 0 && s != []
    ensures Last(s, n) != [] && Last(s, n)[|Last(s, n)| - 1] == s[|s| - 1]
    ensures Last(Last(s, n) + [x], n) == Last(s + [x], n)
    ensures Last(Last(s, n)[..|Last(s, n)| - 1] + [x], n) == Last(s[..|s| - 1] + [x], n)
  {
  }

  lemma {:induction false} SampleCharted(ss: seq<SignalSample>, x: SignalSample)
    ensures AppendChartPoint(Charted(ss), x) == Charted(ss + [x])
  {
    hide Last, GapEnds;
    PointsAppend(ss, x);
    if x.value.Number? {
      var ps, point := Points(ss), ChartPoint(x.timestamp, x.value.number);
      if ps == [] {
        OnePoint(point);
        assert ps + [point] == [point];
      } else {
        GapEndsEnd(ps);
        GapEndsAppend(ps, point);
        LastReplaced(GapEnds(ps), point, CHART_CAPACITY);
      }
    }
  }

  lemma {:induction false} PointsAppend(ss: seq<SignalSample>, x: SignalSample)
    ensures Points(ss + [x]) ==
            if x.value.Number? then Points(ss) + [ChartPoint(x.timestamp, x.value.number)] else Points(ss)
  {
    assert (ss + [x])[..|ss|] == ss;
  }

  lemma {:induction false} OnePoint(point: ChartPoint)
    ensures GapEnds([]) == [] && GapEnds([point]) == [point]
    ensures Last<ChartPoint>([], CHART_CAPACITY) == [] && Last([point], CHART_CAPACITY) == [point]
  {
  }

  lemma {:induction false} SamplesCharted(charts: map<string, seq<ChartPoint>>, received: seq<SignalSample>,
                                          ss: seq<SignalSample>)
    requires ShowsAll(charts, received)
    ensures ShowsAll(StoreCharts(charts, ss), received + ss)
  {
    hide Charted, AppendChartPoint, KeyId, OfId, ChartOf, StoreCharts;
    if ss == [] {
      assert received + ss == received;
      NoChartsStored(charts);
    } else {
      var p, x := ss[..|ss| - 1], ss[|ss| - 1];
      SamplesCharted(charts, received, p);
      assert received + ss == received + p + [x];
      forall id
        ensures ChartOf(StoreCharts(charts, ss), id) == Charted(OfId(id, received + ss))
      {
        OfIdAppend(id, received + p, x);
        StoreChartsLast(charts, ss, id);
        SampleCharted(OfId(id, received + p), x);
      }
    }
  }

  lemma {:induction false} OfIdAppend(id: string, ss: seq<SignalSample>, x: SignalSample)
    ensures OfId(id, ss + [x]) == if KeyId(x.key) == id then OfId(id, ss) + [x] else OfId(id, ss)
  {
    assert (ss + [x])[..|ss|] == ss;
  }

  lemma {:induction false} NoChartsStored(charts: map<string, seq<ChartPoint>>)
    ensures StoreCharts(charts, []) == charts
  {
  }

  lemma {:induction false} StoreChartsLast(charts: map<string, seq<ChartPoint>>, ss: seq<SignalSample>, id: string)
    requires ss != []
    ensures var before, x := ChartOf(StoreCharts(charts, ss[..|ss| - 1]), id), ss[|ss| - 1];
            ChartOf(StoreCharts(charts, ss), id) ==
            if KeyId(x.key) == id then AppendChartPoint(before, x) else before
  {
    hide AppendChartPoint, KeyId;
  }

  lemma {:induction false} NothingCharted()
    ensures ShowsAll(map[], [])
  {
  }

  // ---- what a chart looks like ----

  predicate TimesOrdered(ps: seq<ChartPoint>) {
    forall i, j :: 0 <= i <= j < |ps| ==> ps[i].timestamp <= ps[j].timestamp
  }

  predicate SamplesOrdered(ss: seq<SignalSample>) {
    forall i, j :: 0 <= i <= j < |ss| ==> ss[i].timestamp <= ss[j].timestamp
  }

  predicate Spaced(ps: seq<ChartPoint>) {
    forall i :: 0 <= i < |ps| - 1 ==> GapAfter(ps, i)
  }

  lemma {:induction false} GapEndsAreSpaced(ps: seq<ChartPoint>)
    requires TimesOrdered(ps)
    ensures var kept := GapEnds(ps);
            && Spaced(kept)
            && (|ps| > 0 ==> |kept| > 0 && kept[0].timestamp >= ps[0].timestamp)
  {
    if |ps| > 1 {
      var rest := GapEnds(ps[1..]);
      GapEndsAreSpaced(ps[1..]);
      var kept := GapEnds(ps);
      forall i | 0 <= i < |kept| - 1
        ensures GapAfter(kept, i)
      {
        var j := i - (|kept| - |rest|);
        if j >= 0 {
          assert GapAfter(rest, j) && kept[i] == rest[j] && kept[i + 1] == rest[j + 1];
        } else {
          assert kept[0] == ps[0] && kept[1] == rest[0];
        }
      }
    }
  }

  lemma {:induction false} PointsOrdered(ss: seq<SignalSample>)
    requires SamplesOrdered(ss)
    ensures TimesOrdered(Points(ss))
    ensures forall i :: 0 <= i < |Points(ss)| ==> Points(ss)[i].timestamp <= ss[|ss| - 1].timestamp
  {
    if ss != [] {
      PointsOrdered(ss[..|ss| - 1]);
    }
  }

  /** The chart of a signal whose samples arrive in time order: at most 180 points, an interval apart. */
  lemma {:induction false} ChartedIsSpaced(ss: seq<SignalSample>)
    requires SamplesOrdered(ss)
    ensures ChartIsSpaced(Charted(ss))
  {
    hide Points, GapEnds;
    PointsOrdered(ss);
    GapEndsAreSpaced(Points(ss));
    LastIsSpaced(GapEnds(Points(ss)));
  }

  lemma {:induction false} LastIsSpaced(kept: seq<ChartPoint>)
    requires Spaced(kept)
    ensures ChartIsSpaced(Last(kept, CHART_CAPACITY))
  {
    var shown := Last(kept, CHART_CAPACITY);
    forall i | 0 < i < |shown|
      ensures shown[i].timestamp - shown[i - 1].timestamp >= CHART_INTERVAL
    {
      var skipped := |kept| - |shown|;
      assert shown[i] == kept[skipped + i] && shown[i - 1] == kept[skipped + i - 1];
      assert GapAfter(kept, skipped + i - 1);
    }
  }

  ghost predicate HasGap(ps: seq<ChartPoint>) {
    exists i :: 0 <= i && i + 1 < |ps| && GapAfter(ps, i)
  }

  lemma {:induction false} GapEndsCount(ps: seq<ChartPoint>)
    ensures |GapEnds(ps)| >= 2 <==> HasGap(ps)
  {
    hide GapAfter;
    if |ps| > 1 {
      GapEndsCount(ps[1..]);
      GapEndsEnd(ps[1..]);
      ShiftGap(ps);
    }
  }

  lemma {:induction false} ShiftGap(ps: seq<ChartPoint>)
    requires |ps| > 1
    ensures HasGap(ps) <==> GapAfter(ps, 0) || HasGap(ps[1..])
  {
    if HasGap(ps[1..]) {
      var i :| 0 <= i && i + 1 < |ps[1..]| && GapAfter(ps[1..], i);
      assert GapAfter(ps, i + 1);
    }
    if HasGap(ps) && !GapAfter(ps, 0) {
      var i :| 0 <= i && i + 1 < |ps| && GapAfter(ps, i);
      assert GapAfter(ps[1..], i - 1);
    }
  }

  /** A chart has a line to draw, two points or more, exactly when two neighbouring numeric samples are a
      full interval apart. */
  lemma {:induction false} ChartHasLine(ss: seq<SignalSample>)
    ensures |Charted(ss)| >= 2 <==> HasGap(Points(ss))
  {
    hide Points, GapEnds;
    GapEndsCount(Points(ss));
  }

  /** A chart fed faster than the interval holds its newest point alone, however long it is fed. */
  lemma {:induction false} FastChartStarves(ss: seq<SignalSample>)
    requires ss != [] && forall x <- ss :: x.value.Number?
    requires forall i :: 0 < i < |ss| ==> ss[i].timestamp - ss[i - 1].timestamp < CHART_INTERVAL
    ensures var x := ss[|ss| - 1]; Charted(ss) == [ChartPoint(x.timestamp, x.value.number)]
  {
    hide Points, GapEnds, HasGap;
    PointsOfNumbers(ss);
    GapEndsEnd(Points(ss));
    GapEndsCount(Points(ss));
    NoGap(Points(ss));
  }

  /** `n` samples of a signal sent every 10 ms. */
  function HundredHertz(k: SignalKey, n: nat): (ss: seq<SignalSample>)
    ensures |ss| == n && forall i :: 0 <= i < n ==> ss[i].timestamp == 10_000 * i && ss[i].value.Number?
  {
    seq(n, i requires 0 <= i < n => SignalSample(k, Number(750.0), 10_000 * i, i, 0, "", ""))
  }

  /** The spacing the design gives a chart fails at 100 Hz: the samples may span any time, the chart holds
      one point. */
  lemma {:induction false} HundredHertzStarves(k: SignalKey, n: nat)
    requires n > 0
    ensures Charted(HundredHertz(k, n)) == [ChartPoint(10_000 * (n - 1), 750.0)]
  {
    hide Charted;
    FastChartStarves(HundredHertz(k, n));
  }

  lemma {:induction false} NoGap(ps: seq<ChartPoint>)
    requires forall i :: 0 < i < |ps| ==> ps[i].timestamp - ps[i - 1].timestamp < CHART_INTERVAL
    ensures !HasGap(ps)
  {
    forall i | 0 <= i && i + 1 < |ps|
      ensures !GapAfter(ps, i)
    {
      assert ps[i + 1].timestamp - ps[i + 1 - 1].timestamp < CHART_INTERVAL;
    }
  }

  lemma {:induction false} PointsOfNumbers(ss: seq<SignalSample>)
    requires forall x <- ss :: x.value.Number?
    ensures |Points(ss)| == |ss|
    ensures forall i :: 0 <= i < |ss| ==> Points(ss)[i] == ChartPoint(ss[i].timestamp, ss[i].value.number)
  {
    if ss != [] {
      PointsOfNumbers(ss[..|ss| - 1]);
    }
  }

  // ---- the charts of a replica ----

  /** The samples of `k` a subscriber receives when `before` of them came before its snapshot: the newest
      of those and all later ones. */
  function ReceivedOf(k: SignalKey, all: seq<SignalSample>, before: nat): seq<SignalSample>
    requires before <= |Only(k, all)|
  {
    Only(k, all)[if before == 0 then 0 else before - 1..]
  }

  lemma {:induction false} OfIdIsOnly(k: SignalKey, ss: seq<SignalSample>)
    requires Clean(k) && CleanSamples(ss)
    ensures OfId(KeyId(k), ss) == Only(k, ss)
  {
    hide KeyId, Clean;
    if ss != [] {
      OfIdIsOnly(k, ss[..|ss| - 1]);
      KeyIdIsInjective(k, ss[|ss| - 1].key);
    }
  }

  /** An identifier with samples is that of a clean key. */
  lemma {:induction false} IdIsOfKey(id: string, ss: seq<SignalSample>) returns (k: SignalKey)
    requires CleanSamples(ss) && OfId(id, ss) != []
    ensures Clean(k) && KeyId(k) == id
  {
    hide KeyId, Clean;
    if KeyId(ss[|ss| - 1].key) == id {
      k := ss[|ss| - 1].key;
    } else {
      k := IdIsOfKey(id, ss[..|ss| - 1]);
    }
  }

  lemma {:induction false} OnlyConcat(k: SignalKey, s: seq<SignalSample>, t: seq<SignalSample>)
    ensures Only(k, s + t) == Only(k, s) + Only(k, t)
  {
    if t == [] {
      assert s + t == s;
    } else {
      assert s + t == s + t[..|t| - 1] + [t[|t| - 1]];
      OnlyConcat(k, s, t[..|t| - 1]);
      OnlyAppend(k, s + t[..|t| - 1], t[|t| - 1]);
    }
  }

  /** The samples of frames that follow `first` others. */
  function SamplesSince(c: Catalog, first: nat, later: seq<DecodedFrame>): seq<SignalSample>
    requires AllDescribed(c, later)
  {
    if later == [] then []
    else
      var n := |later| - 1;
      SamplesSince(c, first, later[..n]) + SamplesOf(c, later[n], first + n)
  }

  lemma {:induction false} SinceAppends(c: Catalog, fs: seq<DecodedFrame>, later: seq<DecodedFrame>)
    requires Accepted(c, fs) && Accepted(c, fs + later) && AllDescribed(c, later)
    ensures AllSamples(c, fs + later) == AllSamples(c, fs) + SamplesSince(c, |fs|, later)
  {
    hide AllSamples, SamplesOf, Described, Accepted;
    if later == [] {
      assert fs + later == fs;
    } else {
      var n := |later| - 1;
      AcceptedPrefix(c, fs, later, n);
      SinceAppends(c, fs, later[..n]);
      assert fs + later == fs + later[..n] + [later[n]];
      SamplesAppend(c, fs + later[..n], later[n]);
    }
  }

  lemma {:induction false} UpdateCharted(s: Client, c: Catalog, fs: seq<DecodedFrame>, f: DecodedFrame,
                                         received: seq<SignalSample>)
    requires Accepted(c, fs) && Mirrors(s, c, fs) && Described(c, f) && ShowsAll(s.histories, received)
    ensures ShowsAll(ApplyUpdate(s, UpdateOf(c, f, |fs|)).histories, received + SamplesOf(c, f, |fs|))
  {
    hide ShowsAll, MirrorsSamples, MirrorsCounts, AllSamples, Described, Accepted, StoreCharts, StoreSamples,
      CountMessage;
    SamplesCharted(s.histories, received, SamplesOf(c, f, |fs|));
  }

  lemma {:induction false} DeltasCharted(s: Client, c: Catalog, fs: seq<DecodedFrame>, later: seq<DecodedFrame>,
                                         received: seq<SignalSample>)
    requires Accepted(c, fs) && Accepted(c, fs + later) && AllDescribed(c, later) && CleanNames(c)
    requires Mirrors(s, c, fs) && ShowsAll(s.histories, received)
    ensures ShowsAll(ApplyUpdates(s, UpdatesOf(c, |fs|, later)).histories, received + SamplesSince(c, |fs|, later))
  {
    hide Mirrors, Accepted, CleanNames, ApplyUpdate, UpdateOf, Described, ShowsAll, SamplesOf;
    if later == [] {
      assert received + [] == received;
    } else {
      var n := |later| - 1;
      AcceptedPrefix(c, fs, later, n);
      DeltasCharted(s, c, fs, later[..n], received);
      DeltasKeepMirror(s, c, fs, later[..n]);
      var since := SamplesSince(c, |fs|, later[..n]);
      var client := ApplyUpdates(s, UpdatesOf(c, |fs|, later[..n]));
      UpdateCharted(client, c, fs + later[..n], later[n], received + since);
      assert received + since + SamplesOf(c, later[n], |fs| + n) ==
             received + (since + SamplesOf(c, later[n], |fs| + n));
    }
  }

  lemma {:induction false} NoneOfKey(k: SignalKey, ss: seq<SignalSample>)
    requires forall x <- ss :: x.key != k
    ensures Only(k, ss) == []
  {
    if ss != [] {
      NoneOfKey(k, ss[..|ss| - 1]);
    }
  }

  lemma {:induction false} OnlyOfUnique(k: SignalKey, signals: seq<SignalSample>, i: nat)
    requires forall a, b :: 0 <= a < b < |signals| ==> signals[a].key != signals[b].key
    requires i < |signals| && signals[i].key == k
    ensures Only(k, signals) == [signals[i]]
  {
    var p := signals[..|signals| - 1];
    if i < |p| {
      OnlyOfUnique(k, p, i);
    } else {
      NoneOfKey(k, p);
    }
  }

  /** A snapshot brings the newest sample of each signal seen before it. */
  lemma {:induction false} SnapshotBringsNewest(w: WireSnapshot, s: Snapshot, c: Catalog, fs: seq<DecodedFrame>,
                                                k: SignalKey)
    requires Accepted(c, fs) && IsSnapshot(s, c, fs) && Serialises(w, s)
    ensures var seen := Only(k, AllSamples(c, fs));
            Only(k, w.signals) == if seen == [] then [] else [seen[|seen| - 1]]
  {
    hide Only, IsStatistics, Accepted, AllSamples, ListsCounts;
    if k in s.samples {
      var i :| 0 <= i < |w.signals| && w.signals[i].key == k;
      OnlyOfUnique(k, w.signals, i);
      assert w.signals[i] in w.signals;
    } else {
      NoneOfKey(k, w.signals);
    }
  }

  lemma {:induction false} AllSamplesOrdered(c: Catalog, fs: seq<DecodedFrame>)
    requires Accepted(c, fs)
    ensures SamplesOrdered(AllSamples(c, fs))
    ensures forall x <- AllSamples(c, fs) :: x.timestamp <= fs[|fs| - 1].timestamp
  {
    if fs != [] {
      AllSamplesOrdered(c, fs[..|fs| - 1]);
    }
  }

  lemma {:induction false} OnlyOrdered(k: SignalKey, ss: seq<SignalSample>)
    requires SamplesOrdered(ss)
    ensures SamplesOrdered(Only(k, ss))
  {
    if ss != [] {
      OnlyOrdered(k, ss[..|ss| - 1]);
    }
  }

  lemma {:induction false} ReceivedOrdered(c: Catalog, fs: seq<DecodedFrame>, k: SignalKey, before: nat)
    requires Accepted(c, fs) && before <= |Only(k, AllSamples(c, fs))|
    ensures SamplesOrdered(ReceivedOf(k, AllSamples(c, fs), before))
  {
    hide AllSamples, Accepted, Only;
    AllSamplesOrdered(c, fs);
    OnlyOrdered(k, AllSamples(c, fs));
  }

  lemma {:induction false} SamplesAreClean(c: Catalog, fs: seq<DecodedFrame>)
    requires Accepted(c, fs) && CleanNames(c)
    ensures CleanSamples(AllSamples(c, fs))
  {
    hide AllSamples, Accepted, Clean;
    SamplesAreOfFrames(c, fs);
  }

  /** What the chart of one signal has been fed: its newest sample before the snapshot, and all later ones. */
  lemma {:induction false} ReceivedSamples(w: WireSnapshot, s: Snapshot, c: Catalog, fs: seq<DecodedFrame>,
                                           later: seq<DecodedFrame>, k: SignalKey)
    requires Accepted(c, fs) && Accepted(c, fs + later) && AllDescribed(c, later) && CleanNames(c) && Clean(k)
    requires IsSnapshot(s, c, fs) && Serialises(w, s)
    ensures var all, before := AllSamples(c, fs + later), |Only(k, AllSamples(c, fs))|;
            && before <= |Only(k, all)|
            && OfId(KeyId(k), w.signals + SamplesSince(c, |fs|, later)) == ReceivedOf(k, all, before)
  {
    hide AllSamples, Accepted, Clean, Only, SamplesSince, KeyId, OfId, IsLatest, IsStatistics, ListsCounts;
    var since := SamplesSince(c, |fs|, later);
    var all, seen := AllSamples(c, fs + later), Only(k, AllSamples(c, fs));
    SinceAppends(c, fs, later);
    SamplesAreClean(c, fs + later);
    SnapshotBringsNewest(w, s, c, fs, k);
    SnapshotIsClean(w, s, c, fs);
    OnlyConcat(k, AllSamples(c, fs), since);
    OnlyConcat(k, w.signals, since);
    OfIdIsOnly(k, w.signals + since);
  }

  lemma {:induction false} SnapshotIsClean(w: WireSnapshot, s: Snapshot, c: Catalog, fs: seq<DecodedFrame>)
    requires Accepted(c, fs) && CleanNames(c) && IsSnapshot(s, c, fs) && Serialises(w, s)
    ensures CleanSamples(w.signals)
  {
    hide AllSamples, Accepted, Clean, IsLatest, IsStatistics, ListsCounts;
    forall x | x in w.signals
      ensures Clean(x.key)
    {
      assert x.key in s.samples;
    }
  }

  /** The charts of a replica: after the snapshot and any prefix of the deltas, the chart of every signal
      shows, of the newest sample before the snapshot and all samples since, those followed by a full
      interval without samples and the newest, the last 180 of them; every chart is spaced. */
  lemma {:induction false} ReplicaCharts(s0: Client, w: WireSnapshot, s: Snapshot, c: Catalog, fs: seq<DecodedFrame>,
                                         later: seq<DecodedFrame>, n: nat)
    requires Accepted(c, fs) && Accepted(c, fs + later) && CleanNames(c) && n <= |later|
    requires IsSnapshot(s, c, fs) && Serialises(w, s)
    ensures AllDescribed(c, later) && Accepted(c, fs + later[..n])
    ensures var charts := ApplyUpdates(InitialSnapshot(s0, w), UpdatesOf(c, |fs|, later)[..n]).histories;
            var all := AllSamples(c, fs + later[..n]);
            && (forall k :: Clean(k) ==>
                  var before := |Only(k, AllSamples(c, fs))|;
                  && before <= |Only(k, all)|
                  && ChartOf(charts, KeyId(k)) == Charted(ReceivedOf(k, all, before)))
            && forall id <- charts :: ChartIsSpaced(charts[id])
  {
    hide Mirrors, IsSnapshot, Serialises, Accepted, CleanNames, ApplyUpdate, UpdateOf, Described, ApplyUpdates,
      UpdatesOf, AllSamples, Clean, KeyId, Only, Charted, ReceivedOf, SamplesSince, ChartIsSpaced, StoreCharts, OfId;
    AcceptedPrefix(c, fs, later, n);
    UpdatesOfPrefix(c, |fs|, later, n);
    SnapshotMirrors(s0, w, s, c, fs);
    NothingCharted();
    SamplesCharted(map[], [], w.signals);
    assert [] + w.signals == w.signals;
    var received := w.signals + SamplesSince(c, |fs|, later[..n]);
    DeltasCharted(InitialSnapshot(s0, w), c, fs, later[..n], w.signals);
    var charts := ApplyUpdates(InitialSnapshot(s0, w), UpdatesOf(c, |fs|, later)[..n]).histories;
    forall k | Clean(k)
      ensures var before := |Only(k, AllSamples(c, fs))|;
              && before <= |Only(k, AllSamples(c, fs + later[..n]))|
              && ChartOf(charts, KeyId(k)) == Charted(ReceivedOf(k, AllSamples(c, fs + later[..n]), before))
              && ChartIsSpaced(ChartOf(charts, KeyId(k)))
    {
      ReceivedSamples(w, s, c, fs, later[..n], k);
      var before := |Only(k, AllSamples(c, fs))|;
      ReceivedOrdered(c, fs + later[..n], k, before);
      ChartedIsSpaced(ReceivedOf(k, AllSamples(c, fs + later[..n]), before));
    }
    forall id | id in charts
      ensures ChartIsSpaced(charts[id])
    {
      SpacedById(w, s, c, fs, later[..n], id);
      assert charts[id] == ChartOf(charts, id);
    }
  }

  lemma {:induction false} SpacedById(w: WireSnapshot, s: Snapshot, c: Catalog, fs: seq<DecodedFrame>,
                                      later: seq<DecodedFrame>, id: string)
    requires Accepted(c, fs) && Accepted(c, fs + later) && AllDescribed(c, later) && CleanNames(c)
    requires IsSnapshot(s, c, fs) && Serialises(w, s)
    ensures ChartIsSpaced(Charted(OfId(id, w.signals + SamplesSince(c, |fs|, later))))
  {
    hide IsSnapshot, Serialises, Accepted, CleanNames, Described, AllSamples, Clean, KeyId, Only, Charted,
      ReceivedOf, SamplesSince, ChartIsSpaced, OfId, AllDescribed;
    var received := w.signals + SamplesSince(c, |fs|, later);
    if OfId(id, received) == [] {
      ChartedIsSpaced([]);
    } else {
      ReceivedAreClean(w, s, c, fs, later);
      var k := IdIsOfKey(id, received);
      ReceivedSamples(w, s, c, fs, later, k);
      ReceivedOrdered(c, fs + later, k, |Only(k, AllSamples(c, fs))|);
      ChartedIsSpaced(OfId(id, received));
    }
  }

  lemma {:induction false} ReceivedAreClean(w: WireSnapshot, s: Snapshot, c: Catalog, fs: seq<DecodedFrame>,
                                            later: seq<DecodedFrame>)
    requires Accepted(c, fs) && Accepted(c, fs + later) && AllDescribed(c, later) && CleanNames(c)
    requires IsSnapshot(s, c, fs) && Serialises(w, s)
    ensures CleanSamples(w.signals + SamplesSince(c, |fs|, later))
  {
    hide AllSamples, Accepted, Clean, SamplesSince, IsSnapshot, Serialises;
    SinceAppends(c, fs, later);
    SamplesAreClean(c, fs + later);
    SnapshotIsClean(w, s, c, fs);
  }
}
