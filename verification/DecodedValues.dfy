/** What the telemetry engine holds, told by the decoded frames alone (telemetry/engine.py): whose value a
    latest value is, what a history lists, and which ages are fresh. */
module DecodedValues {
  import opened Prelude
  import opened TelemetryModels
  import opened TelemetryEngine

  /** Position `i` of the frame decodes the signal `k`. */
  predicate Decodes(f: DecodedFrame, i: nat, k: SignalKey) {
    i < |f.signals| && f.messageName == k.messageName && f.signals[i].0 == k.signalName
  }

  ghost predicate Carries(f: DecodedFrame, k: SignalKey) {
    exists i :: Decodes(f, i, k)
  }

  /** The sample that position `i` of frame number `n` gives the signal `k`. */
  function Given(c: Catalog, f: DecodedFrame, n: nat, i: nat, k: SignalKey): SignalSample
    requires Decodes(f, i, k) && k in c.definitions
  {
    SignalSample(k, f.signals[i].1, f.timestamp, n, f.arbitrationId, c.definitions[k].sourceEcu, c.definitions[k].unit)
  }

  /** The samples that the first `m` positions of frame number `n` give the signal `k`. */
  function FromFrame(c: Catalog, f: DecodedFrame, n: nat, m: nat, k: SignalKey): seq<SignalSample>
    requires m <= |f.signals| && k in c.definitions
  {
    if m == 0 then []
    else FromFrame(c, f, n, m - 1, k) + if Decodes(f, m - 1, k) then [Given(c, f, n, m - 1, k)] else []
  }

  /** The samples of `k`, read off the frames one after another. */
  function FromFrames(c: Catalog, fs: seq<DecodedFrame>, k: SignalKey): seq<SignalSample>
    requires k in c.definitions
  {
    if fs == [] then []
    else
      var n := |fs| - 1;
      FromFrames(c, fs[..n], k) + FromFrame(c, fs[n], n, |fs[n].signals|, k)
  }

  lemma {:induction false} OnlyOfFrame(c: Catalog, f: DecodedFrame, n: nat, m: nat, k: SignalKey)
    requires Described(c, f) && m <= |f.signals| && k in c.definitions
    ensures Only(k, SamplesOf(c, f, n)[..m]) == FromFrame(c, f, n, m, k)
  {
    hide SamplesOf, Described, Only;
    var samples := SamplesOf(c, f, n);
    SamplesCarryFrame(c, f, n);
    if m > 0 {
      OnlyOfFrame(c, f, n, m - 1, k);
      assert samples[..m] == samples[..m - 1] + [samples[m - 1]];
      OnlyAppend(k, samples[..m - 1], samples[m - 1]);
    } else {
      NoSamples(k);
    }
  }

  lemma {:induction false} NoSamples(k: SignalKey)
    ensures Only(k, []) == []
  {
  }

  lemma {:induction false} OnlyJoins(k: SignalKey, s: seq<SignalSample>, t: seq<SignalSample>)
    ensures Only(k, s + t) == Only(k, s) + Only(k, t)
  {
    hide Only;
    if t == [] {
      NoSamples(k);
      assert s + t == s;
    } else {
      var n := |t| - 1;
      assert s + t == s + t[..n] + [t[n]] && t == t[..n] + [t[n]];
      OnlyJoins(k, s, t[..n]);
      OnlyAppend(k, s + t[..n], t[n]);
      OnlyAppend(k, t[..n], t[n]);
    }
  }

  lemma {:induction false} LastFrameSamples(c: Catalog, fs: seq<DecodedFrame>)
    requires Accepted(c, fs)
    ensures fs == [] ==> AllSamples(c, fs) == []
    ensures fs != [] ==>
              var n := |fs| - 1;
              && Accepted(c, fs[..n]) && Described(c, fs[n])
              && AllSamples(c, fs) == AllSamples(c, fs[..n]) + SamplesOf(c, fs[n], n)
  {
  }

  /** The engine's samples of a signal are the ones the accepted frames decode for it, in order. */
  lemma {:induction false} SamplesAreDecoded(c: Catalog, fs: seq<DecodedFrame>, k: SignalKey)
    requires Accepted(c, fs) && k in c.definitions
    ensures Only(k, AllSamples(c, fs)) == FromFrames(c, fs, k)
  {
    hide AllSamples, Only, SamplesOf, Described, Accepted, FromFrame;
    LastFrameSamples(c, fs);
    if fs == [] {
      NoSamples(k);
    } else {
      var n := |fs| - 1;
      SamplesAreDecoded(c, fs[..n], k);
      OnlyOfFrame(c, fs[n], n, |fs[n].signals|, k);
      assert SamplesOf(c, fs[n], n)[..|fs[n].signals|] == SamplesOf(c, fs[n], n);
      OnlyJoins(k, AllSamples(c, fs[..n]), SamplesOf(c, fs[n], n));
    }
  }

  /** `x` is what the last frame that carries `k` decoded for it (the last position, should it do so twice). */
  ghost predicate IsLastDecoded(x: SignalSample, c: Catalog, fs: seq<DecodedFrame>, k: SignalKey)
    requires k in c.definitions
  {
    exists n, i ::
      && 0 <= n < |fs| && 0 <= i && Decodes(fs[n], i, k) && x == Given(c, fs[n], n, i, k)
      && (forall m :: n < m < |fs| ==> !Carries(fs[m], k))
      && forall j :: i < j ==> !Decodes(fs[n], j, k)
  }

  lemma {:induction false} LastOfFrame(c: Catalog, f: DecodedFrame, n: nat, m: nat, k: SignalKey)
    requires m <= |f.signals| && k in c.definitions
    ensures var r := FromFrame(c, f, n, m, k);
            && (r == [] <==> forall j :: 0 <= j < m ==> !Decodes(f, j, k))
            && (r != [] ==>
                  exists i :: 0 <= i < m && Decodes(f, i, k) && r[|r| - 1] == Given(c, f, n, i, k)
                              && forall j :: i < j < m ==> !Decodes(f, j, k))
  {
    hide Given, Decodes;
    if m > 0 {
      LastOfFrame(c, f, n, m - 1, k);
      var r := FromFrame(c, f, n, m, k);
      if Decodes(f, m - 1, k) {
        assert r[|r| - 1] == Given(c, f, n, m - 1, k);
      }
    }
  }

  lemma {:induction false} LastOfFrames(c: Catalog, fs: seq<DecodedFrame>, k: SignalKey)
    requires k in c.definitions
    ensures var r := FromFrames(c, fs, k);
            && (r == [] <==> forall m :: 0 <= m < |fs| ==> !Carries(fs[m], k))
            && (r != [] ==> IsLastDecoded(r[|r| - 1], c, fs, k))
  {
    hide FromFrame, Given, Decodes;
    if fs != [] {
      var n := |fs| - 1;
      LastOfFrames(c, fs[..n], k);
      LastOfWhole(c, fs[n], n, k);
      var before, own := FromFrames(c, fs[..n], k), FromFrame(c, fs[n], n, |fs[n].signals|, k);
      var r := FromFrames(c, fs, k);
      assert r == before + own;
      if own != [] {
        var i :| 0 <= i && Decodes(fs[n], i, k) && own[|own| - 1] == Given(c, fs[n], n, i, k)
                 && forall j :: i < j ==> !Decodes(fs[n], j, k);
        assert IsLastDecoded(r[|r| - 1], c, fs, k);
      } else if before != [] {
        StillLast(before[|before| - 1], c, fs, k);
      }
    }
  }

  lemma {:induction false} StillLast(x: SignalSample, c: Catalog, fs: seq<DecodedFrame>, k: SignalKey)
    requires fs != [] && k in c.definitions && IsLastDecoded(x, c, fs[..|fs| - 1], k) && !Carries(fs[|fs| - 1], k)
    ensures IsLastDecoded(x, c, fs, k)
  {
    hide Given, Decodes, Carries;
    var p := fs[..|fs| - 1];
    var n, i :| 0 <= n < |p| && 0 <= i && Decodes(p[n], i, k) && x == Given(c, p[n], n, i, k)
                && (forall m :: n < m < |p| ==> !Carries(p[m], k)) && forall j :: i < j ==> !Decodes(p[n], j, k);
    assert fs[n] == p[n];
    forall m | n < m < |fs|
      ensures !Carries(fs[m], k)
    {
      assert m < |p| ==> fs[m] == p[m];
    }
  }

  lemma {:induction false} LastOfWhole(c: Catalog, f: DecodedFrame, n: nat, k: SignalKey)
    requires k in c.definitions
    ensures var r := FromFrame(c, f, n, |f.signals|, k);
            && (r == [] <==> !Carries(f, k))
            && (r != [] ==>
                  exists i :: 0 <= i && Decodes(f, i, k) && r[|r| - 1] == Given(c, f, n, i, k)
                              && forall j :: i < j ==> !Decodes(f, j, k))
  {
    hide FromFrame, Given;
    LastOfFrame(c, f, n, |f.signals|, k);
  }

  /** The latest value of a signal is what the last accepted frame that carries it decoded for it; a signal no
      frame carries has none. */
  lemma {:induction false} LatestIsDecoded(latest: map<SignalKey, SignalSample>, c: Catalog, fs: seq<DecodedFrame>,
                                           k: SignalKey)
    requires Accepted(c, fs) && IsLatest(latest, AllSamples(c, fs)) && k in c.definitions
    ensures k in latest <==> exists n :: 0 <= n < |fs| && Carries(fs[n], k)
    ensures k in latest ==> IsLastDecoded(latest[k], c, fs, k)
  {
    hide Only, AllSamples, Accepted, Carries, IsLastDecoded;
    SamplesAreDecoded(c, fs, k);
    LastOfFrames(c, fs, k);
  }

  /** A history lists what the accepted frames decoded for its signal, in order, the newest of them up to the
      capacity. */
  lemma {:induction false} HistoryIsDecoded(histories: map<SignalKey, seq<SignalSample>>, c: Catalog,
                                            fs: seq<DecodedFrame>, capacity: nat, k: SignalKey)
    requires Accepted(c, fs) && IsHistory(histories, AllSamples(c, fs), capacity) && k in c.definitions
    ensures (if k in histories then histories[k] else []) == Last(FromFrames(c, fs, k), capacity)
  {
    hide Only, AllSamples, Accepted, FromFrames;
    SamplesAreDecoded(c, fs, k);
  }

  /** A snapshot shows, for every signal, what the last frame that carries it decoded, and calls it fresh
      exactly for two of its periods. */
  lemma {:induction false} SnapshotIsDecoded(s: Snapshot, c: Catalog, fs: seq<DecodedFrame>, k: SignalKey)
    requires Accepted(c, fs) && IsSnapshot(s, c, fs) && k in c.definitions
    ensures k in s.samples <==> exists n :: 0 <= n < |fs| && Carries(fs[n], k)
    ensures k in s.samples ==>
              && IsLastDecoded(s.samples[k], c, fs, k) && fs != [] && k in s.freshness
              && (s.freshness[k] == Fresh <==>
                  fs[|fs| - 1].timestamp - s.samples[k].timestamp <= 2 * c.definitions[k].expectedPeriod)
  {
    hide IsLatest, AllSamples, Accepted, Carries, IsLastDecoded, IsCount;
    LatestIsDecoded(s.samples, c, fs, k);
  }

  /** Every decoded signal of every accepted frame is counted. */
  lemma {:induction false} UpdatesAreCounted(c: Catalog, fs: seq<DecodedFrame>)
    requires Accepted(c, fs)
    ensures fs != [] ==>
              var n := |fs| - 1;
              Accepted(c, fs[..n]) && |AllSamples(c, fs)| == |AllSamples(c, fs[..n])| + |fs[n].signals|
    ensures fs == [] ==> AllSamples(c, fs) == []
  {
    hide AllSamples, Accepted;
    LastFrameSamples(c, fs);
  }
}
