/** The streaming loop of `investigate`, proved to give the answer `Investigation` defines. */
module Investigator {
  import opened Prelude
  import opened TelemetryModels
  import opened RawCan
  import opened InvestigationWindow
  import opened DecodedPipeline
  import opened Investigation
  import T = TelemetryEngine
  import X = CanExplorer
  import D = DiagnosticEngine
  import L = DiagnosticLifecycle
  import R = DiagnosticRules
  import DefaultDiagnostics

  /** The default event capacity of a diagnostic engine; the log itself is not bounded by it. */
  const EVENT_CAPACITY: nat := 1_024

  /** The private engines have processed exactly the frames `fs`. */
  ghost predicate Processed(engine: T.Engine, diagnostics: D.Engine, explorer: X.Explorer, d: Decoding,
                            fs: seq<RawFrame>)
    reads engine, diagnostics, explorer
  {
    && engine.Valid() && diagnostics.Valid() && explorer.Valid()
    && engine.catalog == d.catalog && explorer.dbc == d.dbc
    && diagnostics.rules == DefaultDiagnostics.DefaultRules()
    && AllDecode(d, fs)
    && engine.accepted == DecodedAll(d, fs) && explorer.ingested == fs
    && AllTyped(engine.accepted) && InStep(engine, diagnostics)
    && IsReplay(diagnostics.history, engine.catalog, engine.accepted)
  }

  lemma {:induction false} LogIsStamped(rules: seq<R.Rule>, before: seq<D.Operation>, op: D.Operation)
    requires D.AcceptedHistory(rules, before + [op]) && D.AcceptedHistory(rules, before)
    ensures D.StampedFrom(D.Replay(rules, before + [op]).log, |D.Replay(rules, before).log|, op.at)
  {
    hide D.ApplyRules, D.StampedFrom, D.Acceptable;
    assert (before + [op])[..|before|] == before;
    assert op == (before + [op])[|before|];
    D.ApplyRulesStamps(D.Replay(rules, before), rules, op);
  }

  lemma {:induction false} NewEventsAreStamped(before: seq<D.Event>, generated: seq<D.Event>, t: nat)
    requires D.StampedFrom(before + generated, |before|, t)
    ensures forall i :: 0 <= i < |generated| ==> generated[i].time == t
  {
    forall i | 0 <= i < |generated|
      ensures generated[i].time == t
    {
      assert (before + generated)[|before| + i] == generated[i];
    }
  }

  /** One frame through the explorer, the telemetry engine and the diagnostics. */
  method Absorb(engine: T.Engine, diagnostics: D.Engine, explorer: X.Explorer, ghost d: Decoding,
                ghost fs: seq<RawFrame>,
                raw: RawFrame, decoded: T.DecodedFrame)
    returns (annotated: X.ExplorerFrame, samples: seq<SignalSample>, generated: seq<D.Event>)
    requires Sound(d) && Sorted(fs + [raw]) && d.decode(raw) == Some(decoded)
    requires Processed(engine, diagnostics, explorer, d, fs)
    modifies engine, diagnostics, explorer
    ensures Processed(engine, diagnostics, explorer, d, fs + [raw])
    ensures annotated == X.Annotate(d.dbc, raw, |fs|)
    ensures T.Described(d.catalog, decoded) && samples == T.SamplesOf(d.catalog, decoded, |fs|)
    ensures diagnostics.log == old(diagnostics.log) + generated
    ensures forall i :: 0 <= i < |generated| ==> generated[i].time == raw.timestamp
    ensures |diagnostics.history| == |fs| + 1 && diagnostics.history[..|fs|] == old(diagnostics.history)
  {
    hide D.Replay, D.AcceptedHistory, D.ValidCatalog, T.IsSnapshot, T.Accepted, T.IsLatest, T.IsHistory, IsReplay,
      DefaultDiagnostics.DefaultRules, AllTyped, T.AllSamples, Last, T.IsStatistics, T.SamplesOf, X.IsIndex,
      X.AnnotateAll, X.Annotate, Sorted, Sound, Diagnosed, T.Described, TypedFrame, DecodedAll, AllDecode,
      D.Engine.Valid, T.Engine.Valid, X.Explorer.Valid;
    ghost var c := engine.catalog;
    ghost var before := diagnostics.history;
    ProcessedMeans(engine, diagnostics, explorer, d, fs);
    DecoderIsSound(d, raw);
    NextIsNotEarlier(d, fs, raw);
    annotated := explorer.Ingest(raw);
    var ingested := engine.Ingest(decoded);
    samples := ingested.value;
    DecodedAppend(d, fs, raw);
    TypedAppend(DecodedAll(d, fs), decoded);
    generated := Diagnose(engine, diagnostics);
    Continue(before, diagnostics.history, c, DecodedAll(d, fs), decoded);
    StampedHistory(diagnostics, before, old(diagnostics.log), generated, raw.timestamp);
  }

  lemma {:induction false} DecoderIsSound(d: Decoding, raw: RawFrame)
    requires Sound(d) && d.decode(raw).Some?
    ensures var f := d.decode(raw).value; f.timestamp == raw.timestamp && T.Described(d.catalog, f) && TypedFrame(f)
  {
  }

  lemma {:induction false} NextIsNotEarlier(d: Decoding, fs: seq<RawFrame>, raw: RawFrame)
    requires Sound(d) && Sorted(fs + [raw]) && AllDecode(d, fs)
    ensures fs != [] ==> DecodedAll(d, fs)[|fs| - 1].timestamp <= raw.timestamp
  {
    if fs != [] {
      var last := fs[|fs| - 1];
      DecoderIsSound(d, last);
      assert (fs + [raw])[|fs| - 1] == last && (fs + [raw])[|fs|] == raw;
    }
  }

  lemma {:induction false} TypedAppend(fs: seq<T.DecodedFrame>, f: T.DecodedFrame)
    requires AllTyped(fs) && TypedFrame(f)
    ensures AllTyped(fs + [f])
  {
    hide TypedFrame;
  }

  lemma {:induction false} Continue(before: seq<D.Operation>, after: seq<D.Operation>, c: T.Catalog,
                                    dec: seq<T.DecodedFrame>, f: T.DecodedFrame)
    requires IsReplay(before, c, dec) && Diagnosed(before, after, c, dec + [f])
    ensures IsReplay(after, c, dec + [f])
    ensures |after| == |dec| + 1 && after[..|dec|] == before
    ensures after == before + [after[|before|]] && after[|before|].at == f.timestamp
  {
    hide IsSnapshotAfter;
    assert (dec + [f])[..|dec|] == dec;
    ReplayOneMore(before, after, c, dec + [f]);
  }

  lemma {:induction false} StampedHistory(diagnostics: D.Engine, before: seq<D.Operation>, log: seq<D.Event>,
                                          generated: seq<D.Event>, t: nat)
    requires diagnostics.Valid() && D.AcceptedHistory(diagnostics.rules, before)
    requires log == D.Replay(diagnostics.rules, before).log && diagnostics.log == log + generated
    requires |diagnostics.history| == |before| + 1 && diagnostics.history == before + [diagnostics.history[|before|]]
    requires diagnostics.history[|before|].at == t
    ensures forall i :: 0 <= i < |generated| ==> generated[i].time == t
  {
    hide D.Replay, D.AcceptedHistory, D.ValidCatalog, D.StampedFrom;
    LogIsStamped(diagnostics.rules, before, diagnostics.history[|before|]);
    NewEventsAreStamped(log, generated, t);
  }

  // ---- gathering ----

  /** Append each sample of a selected signal to its series. */
  method AppendSelected(series: map<SignalKey, seq<SignalSample>>, samples: seq<SignalSample>)
    returns (r: map<SignalKey, seq<SignalSample>>)
    ensures r.Keys == series.Keys
    ensures forall k <- series :: r[k] == series[k] + T.Only(k, samples)
  {
    hide T.Only;
    r := series;
    forall k
      ensures T.Only(k, samples[..0]) == []
    {
      NothingOnly(k);
    }
    for i := 0 to |samples|
      invariant r.Keys == series.Keys
      invariant forall k <- series :: r[k] == series[k] + T.Only(k, samples[..i])
    {
      assert samples[..i + 1] == samples[..i] + [samples[i]];
      forall k
        ensures T.Only(k, samples[..i + 1]) ==
                T.Only(k, samples[..i]) + if samples[i].key == k then [samples[i]] else []
      {
        T.OnlyAppend(k, samples[..i], samples[i]);
      }
      if samples[i].key in r {
        r := r[samples[i].key := r[samples[i].key] + [samples[i]]];
      }
    }
    assert samples[..|samples|] == samples;
  }

  function LastOf(s: seq<SignalSample>, otherwise: Option<SignalSample>): Option<SignalSample> {
    if s == [] then otherwise else Some(s[|s| - 1])
  }

  function At(m: map<SignalKey, SignalSample>, k: SignalKey): Option<SignalSample> {
    if k in m then Some(m[k]) else None
  }

  ghost predicate Remembers(r: map<SignalKey, SignalSample>, context: map<SignalKey, SignalSample>,
                            selected: set<SignalKey>,
                            samples: seq<SignalSample>) {
    forall k :: At(r, k) == if k in selected then LastOf(T.Only(k, samples), At(context, k)) else At(context, k)
  }

  lemma {:induction false} RememberOneMore(r: map<SignalKey, SignalSample>,
                                           context: map<SignalKey, SignalSample>, selected: set<SignalKey>,
                        samples: seq<SignalSample>, x: SignalSample)
    requires Remembers(r, context, selected, samples)
    ensures Remembers(if x.key in selected then r[x.key := x] else r, context, selected, samples + [x])
  {
    hide T.Only;
    forall k
      ensures T.Only(k, samples + [x]) == T.Only(k, samples) + if x.key == k then [x] else []
    {
      T.OnlyAppend(k, samples, x);
    }
  }

  /** Remember each sample of a selected signal as its context. */
  method RememberSelected(context: map<SignalKey, SignalSample>, selected: set<SignalKey>, samples: seq<SignalSample>)
    returns (r: map<SignalKey, SignalSample>)
    ensures Remembers(r, context, selected, samples)
  {
    r := context;
    for i := 0 to |samples|
      invariant Remembers(r, context, selected, samples[..i])
    {
      hide Remembers;
      assert samples[..i + 1] == samples[..i] + [samples[i]];
      RememberOneMore(r, context, selected, samples[..i], samples[i]);
      if samples[i].key in selected {
        r := r[samples[i].key := samples[i]];
      }
    }
    assert samples[..|samples|] == samples;
  }

  predicate StampedAt(s: seq<SignalSample>, t: nat) {
    forall i :: 0 <= i < |s| ==> s[i].timestamp == t
  }

  lemma {:induction false} OnlyStamped(k: SignalKey, s: seq<SignalSample>, t: nat)
    requires StampedAt(s, t)
    ensures StampedAt(T.Only(k, s), t)
  {
    if s != [] {
      OnlyStamped(k, s[..|s| - 1], t);
    }
  }

  lemma {:induction false} WithinStamped(s: seq<SignalSample>, t: nat, start: nat, end: nat)
    requires StampedAt(s, t)
    ensures Within(s, SampleTime, start, end) == if start <= t <= end then s else []
  {
    if start <= t <= end {
      WithinAll(s, SampleTime, start, end);
    } else {
      WithinNone(s, SampleTime, start, end);
    }
  }

  /** What one frame's samples add to the window of one signal. */
  lemma {:induction false} SignalOneMore(k: SignalKey, all: seq<SignalSample>, new_: seq<SignalSample>, t: nat,
                                         start: nat, end: nat)
    requires StampedAt(new_, t)
    ensures Within(T.Only(k, all + new_), SampleTime, start, end) ==
            Within(T.Only(k, all), SampleTime, start, end) + if start <= t <= end then T.Only(k, new_) else []
  {
    hide Within, T.Only, StampedAt;
    OnlyConcat(k, all, new_);
    OnlyStamped(k, new_, t);
    WithinConcat(T.Only(k, all), T.Only(k, new_), SampleTime, start, end);
    WithinStamped(T.Only(k, new_), t, start, end);
  }

  lemma {:induction false} SeriesOneMore(before: map<SignalKey, seq<SignalSample>>,
                                         after: map<SignalKey, seq<SignalSample>>, selected: set<SignalKey>,
                      all: seq<SignalSample>, new_: seq<SignalSample>, t: nat, w: Window)
    requires IsSeries(before, selected, all, w) && StampedAt(new_, t) && t <= w.end && after.Keys == before.Keys
    requires forall k <- before :: after[k] == before[k] + if t >= w.start then T.Only(k, new_) else []
    ensures IsSeries(after, selected, all + new_, w)
  {
    hide Within, T.Only, StampedAt;
    forall k | k in after
      ensures after[k] == Within(T.Only(k, all + new_), SampleTime, w.start, w.end)
    {
      SignalOneMore(k, all, new_, t, w.start, w.end);
    }
  }

  lemma {:induction false} ContextOneMore(before: map<SignalKey, SignalSample>,
                                          after: map<SignalKey, SignalSample>, selected: set<SignalKey>,
                       all: seq<SignalSample>, new_: seq<SignalSample>, t: nat, start: nat)
    requires IsContext(before, selected, all, start) && StampedAt(new_, t)
    requires forall k :: At(after, k) ==
                         if t <= start && k in selected then LastOf(T.Only(k, new_), At(before, k)) else At(before, k)
    ensures IsContext(after, selected, all + new_, start)
  {
    hide Within, T.Only, StampedAt;
    forall k
      ensures (k in after <==> k in selected && LastAt(T.Only(k, all + new_), start).Some?)
              && (k in after ==> LastAt(T.Only(k, all + new_), start) == Some(after[k]))
    {
      SignalOneMore(k, all, new_, t, 0, start);
      assert At(after, k).Some? <==> k in after;
      assert At(before, k).Some? <==> k in before;
    }
  }

  lemma {:induction false} EventsOneMore(log: seq<D.Event>, generated: seq<D.Event>, t: nat, w: Window)
    requires t <= w.end && forall i :: 0 <= i < |generated| ==> generated[i].time == t
    ensures Within(log + generated, EventTime, w.start, w.end) ==
            Within(log, EventTime, w.start, w.end) + if t >= w.start then generated else []
  {
    WithinConcat(log, generated, EventTime, w.start, w.end);
    if t >= w.start {
      WithinAll(generated, EventTime, w.start, w.end);
    } else {
      WithinNone(generated, EventTime, w.start, w.end);
    }
  }

  lemma {:induction false} RawOneMore(dbc: X.Dbc, fs: seq<RawFrame>, raw: RawFrame, w: Window)
    ensures Within(X.AnnotateAll(dbc, fs + [raw]), FrameTime, w.start, w.end) ==
            Within(X.AnnotateAll(dbc, fs), FrameTime, w.start, w.end) +
            if w.start <= raw.timestamp <= w.end then [X.Annotate(dbc, raw, |fs|)] else []
  {
    hide Within, X.AnnotateAll, X.Annotate;
    var all := X.AnnotateAll(dbc, fs);
    var x := X.Annotate(dbc, raw, |fs|);
    X.AnnotateAppend(dbc, fs, raw);
    AnnotationCarriesRaw(dbc, raw, |fs|);
    WithinLast(all + [x], FrameTime, w.start, w.end);
    assert (all + [x])[..|all|] == all;
  }

  lemma {:induction false} FrameSamplesAreStamped(c: T.Catalog, f: T.DecodedFrame, n: nat)
    requires T.Described(c, f)
    ensures StampedAt(T.SamplesOf(c, f, n), f.timestamp)
  {
  }

  /** The second half of the loop body: context before the window, evidence inside it. */
  method Gather(a: Answer, annotated: X.ExplorerFrame, samples: seq<SignalSample>, generated: seq<D.Event>,
                raw: RawFrame,
                w: Window, selected: set<SignalKey>, ghost d: Decoding, ghost fs: seq<RawFrame>,
                ghost log: seq<D.Event>)
    returns (r: Result<Answer, Failure>)
    requires Sound(d) && Sorted(fs + [raw]) && AllDecode(d, fs + [raw]) && d.decode(raw).Some? && raw.timestamp <= w.end
    requires AllDecode(d, fs) && T.Accepted(d.catalog, DecodedAll(d, fs))
    requires IsEvidence(a, d, fs, w, selected, log)
    requires annotated == X.Annotate(d.dbc, raw, |fs|)
    requires T.Described(d.catalog, d.decode(raw).value) && samples == T.SamplesOf(d.catalog, d.decode(raw).value, |fs|)
    requires forall i :: 0 <= i < |generated| ==> generated[i].time == raw.timestamp
    ensures r.Err? <==> raw.timestamp >= w.start && |a.raw| >= MAX_RAW_FRAMES
    ensures r.Err? ==> r.error == TooManyFrames
    ensures r.Ok? ==>
              T.Accepted(d.catalog, DecodedAll(d, fs + [raw]))
              && IsEvidence(r.value, d, fs + [raw], w, selected, log + generated)
    ensures r.Ok? ==> |r.value.raw| == |a.raw| + if raw.timestamp >= w.start then 1 else 0
  {
    hide Within, IsSeries, IsContext, T.AllSamples, X.AnnotateAll, X.Annotate, T.SamplesOf, Sorted, Sound, T.Accepted,
      T.Described, T.Only;
    var t := raw.timestamp;
    var context := a.context;
    if t <= w.start {
      context := RememberSelected(a.context, selected, samples);
    }
    var b := a.(context := context);
    if t >= w.start {
      if |a.raw| >= MAX_RAW_FRAMES {
        return Err(TooManyFrames);
      }
      var series := AppendSelected(a.series, samples);
      b := b.(raw := a.raw + [annotated], updates := a.updates + |samples|, series := series,
              events := a.events + generated);
    }
    ghost var dec := DecodedAll(d, fs);
    ghost var f := d.decode(raw).value;
    ghost var all := T.AllSamples(d.catalog, dec);
    DecoderIsSound(d, raw);
    DecodedAreAccepted(d, fs + [raw]);
    DecodedAppend(d, fs, raw);
    T.SamplesAppend(d.catalog, dec, f);
    FrameSamplesAreStamped(d.catalog, f, |fs|);
    assert a.raw + [] == a.raw && a.events + [] == a.events;
    assert forall k <- a.series :: a.series[k] + [] == a.series[k];
    SeriesOneMore(a.series, b.series, selected, all, samples, t, w);
    ContextOneMore(a.context, b.context, selected, all, samples, t, w.start);
    WithinConcat(all, samples, SampleTime, w.start, w.end);
    WithinStamped(samples, t, w.start, w.end);
    EventsOneMore(log, generated, t, w);
    RawOneMore(d.dbc, fs, raw, w);
    return Ok(b);
  }

  /** `capture_center`. */
  method CaptureCenter(diagnostics: D.Engine)
    returns (records: seq<Option<L.TroubleCode>>, freezes: seq<L.FreezeFrame>)
    requires diagnostics.Valid() && diagnostics.rules == DefaultDiagnostics.DefaultRules()
    ensures IsCenterState(records, freezes, diagnostics.history)
  {
    hide D.Replay, DefaultDiagnostics.DefaultRules, D.AcceptedHistory, D.ValidCatalog;
    var rules, states := diagnostics.rules, diagnostics.states;
    D.ReplayCodes(rules, diagnostics.history);
    records, freezes := [], [];
    for i := 0 to |rules|
      invariant forall k :: 0 <= k < |rules| ==> rules[k].code in states
      invariant records == RecordsOf(rules[..i], states)
      invariant freezes == FreezesOf(rules[..i], states)
    {
      var state := states[rules[i].code];
      assert rules[..i + 1][..i] == rules[..i];
      records := records + [state.dtc];
      if state.freezeFrame.Some? {
        freezes := freezes + [state.freezeFrame.value];
      }
    }
    assert rules[..|rules|] == rules;
  }

  // ---- the pass over the session ----

  ghost function LowMark(fs: seq<RawFrame>, w: Window): (n: nat)
    ensures n <= |fs|
  {
    Upto(fs, RawTime, w.start - 1)
  }

  ghost function HighMark(fs: seq<RawFrame>, w: Window): (n: nat)
    ensures n <= |fs|
  {
    Upto(fs, RawTime, w.end)
  }

  ghost function CenterMark(fs: seq<RawFrame>, w: Window): (n: nat)
    ensures n <= |fs|
  {
    Upto(fs, RawTime, w.center)
  }

  lemma {:induction false} MarksSplit(fs: seq<RawFrame>, w: Window, i: nat)
    requires Sorted(fs) && i < |fs| && w.start <= w.center <= w.end
    ensures fs[i].timestamp > w.center <==> i >= CenterMark(fs, w)
    ensures fs[i].timestamp > w.end <==> i >= HighMark(fs, w)
    ensures fs[i].timestamp >= w.start <==> i >= LowMark(fs, w)
    ensures LowMark(fs, w) <= HighMark(fs, w) && CenterMark(fs, w) <= HighMark(fs, w)
  {
    hide Upto;
    SortedIsSortedBy(fs);
    UptoSplits(fs, RawTime, w.start - 1);
    UptoSplits(fs, RawTime, w.center);
    UptoSplits(fs, RawTime, w.end);
    UptoGrows(fs, RawTime, w.start - 1, w.end);
    UptoGrows(fs, RawTime, w.center, w.end);
    assert RawTime(fs[i]) == fs[i].timestamp;
  }

  lemma {:induction false} MarksAreOrdered(fs: seq<RawFrame>, w: Window)
    requires w.start <= w.center <= w.end
    ensures LowMark(fs, w) <= HighMark(fs, w) <= |fs| && CenterMark(fs, w) <= HighMark(fs, w)
  {
    hide Upto;
    UptoGrows(fs, RawTime, w.start - 1, w.end);
    UptoGrows(fs, RawTime, w.center, w.end);
  }

  lemma {:induction false} EndMark(fs: seq<RawFrame>, w: Window)
    ensures fs[..HighMark(fs, w)] == Until(fs, w.end)
  {
  }

  /** A failure at frame `i`, with `count` frames gathered so far, is the one the whole session
      calls for. */
  lemma {:induction false} FailureIsExact(d: Decoding, fs: seq<RawFrame>, w: Window, i: nat, count: nat, error: Failure)
    requires i < HighMark(fs, w) && AllDecode(d, fs[..i])
    requires count == (if i <= LowMark(fs, w) then 0 else i - LowMark(fs, w)) <= MAX_RAW_FRAMES
    requires error == if d.decode(fs[i]).None? then Undecodable else TooManyFrames
    requires error == TooManyFrames ==> i >= LowMark(fs, w) && count >= MAX_RAW_FRAMES
    ensures !(AllDecode(d, fs[..HighMark(fs, w)]) && HighMark(fs, w) - LowMark(fs, w) <= MAX_RAW_FRAMES)
    ensures error == TooManyFrames <==> HighMark(fs, w) - LowMark(fs, w) > MAX_RAW_FRAMES
                                        && AllDecode(d, fs[..LowMark(fs, w) + MAX_RAW_FRAMES + 1])
  {
    hide Upto, LowMark, HighMark;
    var limit := LowMark(fs, w) + MAX_RAW_FRAMES + 1;
    if d.decode(fs[i]).None? {
      assert fs[..HighMark(fs, w)][i] == fs[i];
      if limit <= HighMark(fs, w) {
        assert fs[..limit][i] == fs[i];
      }
    }
  }

  lemma {:induction false} SortedPrefix(fs: seq<RawFrame>, n: nat)
    requires Sorted(fs) && n < |fs|
    ensures Sorted(fs[..n] + [fs[n]]) && fs[..n] + [fs[n]] == fs[..n + 1]
  {
  }

  lemma {:induction false} NoEvidenceYet(d: Decoding, w: Window, selected: set<SignalKey>, a: Answer)
    requires a.raw == [] && a.context == map[] && a.updates == 0 && a.events == []
    requires a.series.Keys == selected && forall k <- a.series :: a.series[k] == []
    ensures AllDecode(d, []) && T.Accepted(d.catalog, DecodedAll(d, []))
    ensures IsEvidence(a, d, [], w, selected, [])
  {
  }

  lemma {:induction false} WindowOfPrefix(d: Decoding, fs: seq<RawFrame>, w: Window)
    requires Sorted(fs) && w.start <= w.center <= w.end
    ensures Within(X.AnnotateAll(d.dbc, fs), FrameTime, w.start, w.end)
            == Within(X.AnnotateAll(d.dbc, Until(fs, w.end)), FrameTime, w.start, w.end)
  {
    hide Within, Upto, X.AnnotateAll, X.Annotate;
    var n := HighMark(fs, w);
    var all := X.AnnotateAll(d.dbc, fs);
    assert all[..n] == X.AnnotateAll(d.dbc, fs[..n]);
    forall i | 0 <= i < |all[n..]|
      ensures w.end < FrameTime(all[n..][i])
    {
      MarksSplit(fs, w, n + i);
      X.RingHoldsRaws(d.dbc, fs, |fs|);
      assert all[n..][i] == X.Annotate(d.dbc, fs[n + i], n + i);
      AnnotationCarriesRaw(d.dbc, fs[n + i], n + i);
    }
    WithinNone(all[n..], FrameTime, w.start, w.end);
    WithinConcat(all[..n], all[n..], FrameTime, w.start, w.end);
    assert all[..n] + all[n..] == all;
  }

  lemma {:induction false} AnnotationCarriesRaw(dbc: X.Dbc, raw: RawFrame, sequence: nat)
    ensures X.Annotate(dbc, raw, sequence).raw == raw
  {
  }

  lemma {:induction false} ProcessedMeans(engine: T.Engine, diagnostics: D.Engine, explorer: X.Explorer,
                                          d: Decoding, fs: seq<RawFrame>)
    requires Processed(engine, diagnostics, explorer, d, fs)
    ensures AllDecode(d, fs) && T.Accepted(d.catalog, DecodedAll(d, fs))
    ensures diagnostics.Valid() && diagnostics.rules == DefaultDiagnostics.DefaultRules()
    ensures |diagnostics.history| == |fs| && IsReplay(diagnostics.history, d.catalog, DecodedAll(d, fs))
    ensures D.AcceptedHistory(DefaultDiagnostics.DefaultRules(), diagnostics.history)
    ensures diagnostics.log == D.Replay(DefaultDiagnostics.DefaultRules(), diagnostics.history).log
  {
    hide D.Replay, D.AcceptedHistory, D.ValidCatalog, T.Accepted, T.IsLatest, T.IsHistory, T.IsStatistics, X.IsIndex,
      DefaultDiagnostics.DefaultRules, IsSnapshotAfter;
  }

  lemma {:induction false} ProcessedNothing(engine: T.Engine, diagnostics: D.Engine, explorer: X.Explorer, d: Decoding)
    requires engine.Valid() && diagnostics.Valid() && explorer.Valid()
    requires engine.catalog == d.catalog && explorer.dbc == d.dbc
    requires diagnostics.rules == DefaultDiagnostics.DefaultRules()
    requires engine.accepted == [] && explorer.ingested == [] && diagnostics.history == []
    ensures Processed(engine, diagnostics, explorer, d, [])
    ensures diagnostics.log == []
  {
    hide D.ApplyRules, D.AcceptedHistory, D.ValidCatalog, T.Accepted, T.IsLatest, T.IsHistory, T.IsStatistics,
      X.IsIndex, DefaultDiagnostics.DefaultRules;
    ForgetsObservation(diagnostics);
  }

  lemma {:induction false} Complete(a: Answer, records: seq<Option<L.TroubleCode>>, freezes: seq<L.FreezeFrame>,
                                    d: Decoding, fs: seq<RawFrame>,
                 w: Window, selected: set<SignalKey>, ops: seq<D.Operation>)
    requires Sorted(fs) && w.start <= w.center <= w.end
    requires AllDecode(d, Until(fs, w.end)) && T.Accepted(d.catalog, DecodedAll(d, Until(fs, w.end)))
    requires IsReplay(ops, d.catalog, DecodedAll(d, Until(fs, w.end)))
    requires D.AcceptedHistory(DefaultDiagnostics.DefaultRules(), ops)
    requires IsEvidence(a, d, Until(fs, w.end), w, selected, D.Replay(DefaultDiagnostics.DefaultRules(), ops).log)
    requires CenterMark(fs, w) <= |ops| && IsCenterState(records, freezes, ops[..CenterMark(fs, w)])
    ensures IsInvestigation(a.(records := records, freezes := freezes), d, fs, w, selected, ops)
  {
    hide Within, Upto, X.AnnotateAll, IsSeries, IsContext, T.Accepted, D.AcceptedHistory, D.Replay, IsReplay,
      DefaultDiagnostics.DefaultRules, IsCenterState, T.AllSamples;
    WindowOfPrefix(d, fs, w);
  }

  /** The engines have processed the first frames `fs` and `a` holds the evidence gathered so far. */
  ghost predicate Underway(engine: T.Engine, diagnostics: D.Engine, explorer: X.Explorer, a: Answer, d: Decoding,
                           fs: seq<RawFrame>, w: Window, selected: set<SignalKey>)
    reads engine, diagnostics, explorer
  {
    && Processed(engine, diagnostics, explorer, d, fs)
    && AllDecode(d, fs) && T.Accepted(d.catalog, DecodedAll(d, fs))
    && IsEvidence(a, d, fs, w, selected, diagnostics.log)
    && |diagnostics.history| == |fs|
  }

  /** The loop body for a frame that is not past the window. */
  method Visit(engine: T.Engine, diagnostics: D.Engine, explorer: X.Explorer, a: Answer, raw: RawFrame,
               d: Decoding, w: Window, selected: set<SignalKey>, ghost fs: seq<RawFrame>)
    returns (r: Result<Answer, Failure>)
    requires Sound(d) && Sorted(fs + [raw]) && raw.timestamp <= w.end
    requires Underway(engine, diagnostics, explorer, a, d, fs, w, selected)
    modifies engine, diagnostics, explorer
    ensures r == Err(Undecodable) <==> d.decode(raw).None?
    ensures r == Err(TooManyFrames) <==> d.decode(raw).Some? && raw.timestamp >= w.start && |a.raw| >= MAX_RAW_FRAMES
    ensures r.Err? ==> r.error in [Undecodable, TooManyFrames]
    ensures r.Ok? ==> && Underway(engine, diagnostics, explorer, r.value, d, fs + [raw], w, selected)
                      && |diagnostics.history| == |fs| + 1 && diagnostics.history[..|fs|] == old(diagnostics.history)
                      && |r.value.raw| == |a.raw| + if raw.timestamp >= w.start then 1 else 0
  {
    hide Upto, Within, IsEvidence, Sound, Sorted, X.AnnotateAll, X.Annotate, T.Accepted, Processed, DecodedAll,
      T.Described, D.Engine.Valid, T.SamplesOf, T.Engine.Valid, X.Explorer.Valid, DefaultDiagnostics.DefaultRules,
      D.AcceptedHistory, D.Replay, IsReplay;
    var decoded := d.decode(raw);
    if decoded.None? {
      return Err(Undecodable);
    }
    ghost var log := diagnostics.log;
    var annotated, samples, generated := Absorb(engine, diagnostics, explorer, d, fs, raw, decoded.value);
    ProcessedMeans(engine, diagnostics, explorer, d, fs + [raw]);
    r := Gather(a, annotated, samples, generated, raw, w, selected, d, fs, log);
  }

  lemma {:induction false} UnderwayMeans(engine: T.Engine, diagnostics: D.Engine, explorer: X.Explorer,
                                         a: Answer, d: Decoding,
                      fs: seq<RawFrame>, w: Window, selected: set<SignalKey>)
    requires Underway(engine, diagnostics, explorer, a, d, fs, w, selected)
    ensures AllDecode(d, fs) && |diagnostics.history| == |fs|
    ensures diagnostics.Valid() && diagnostics.rules == DefaultDiagnostics.DefaultRules()
  {
    hide AllDecode, T.Accepted, DecodedAll, IsEvidence, D.Engine.Valid, T.Engine.Valid, X.Explorer.Valid,
      DefaultDiagnostics.DefaultRules, IsReplay, AllTyped;
  }

  lemma {:induction false} UnderwayNothing(engine: T.Engine, diagnostics: D.Engine, explorer: X.Explorer,
                                           a: Answer, d: Decoding,
                        w: Window, selected: set<SignalKey>)
    requires engine.Valid() && diagnostics.Valid() && explorer.Valid()
    requires engine.catalog == d.catalog && explorer.dbc == d.dbc
    requires diagnostics.rules == DefaultDiagnostics.DefaultRules()
    requires engine.accepted == [] && explorer.ingested == [] && diagnostics.history == []
    requires a.raw == [] && a.context == map[] && a.updates == 0 && a.events == []
    requires a.series.Keys == selected && forall k <- a.series :: a.series[k] == []
    ensures Underway(engine, diagnostics, explorer, a, d, [], w, selected)
  {
    hide D.Engine.Valid, T.Engine.Valid, X.Explorer.Valid, DefaultDiagnostics.DefaultRules, IsReplay, AllTyped,
      IsEvidence, T.Accepted, Processed;
    ProcessedNothing(engine, diagnostics, explorer, d);
    NoEvidenceYet(d, w, selected, a);
  }

  /** The answer once the pass is over. */
  lemma {:induction false} UnderwayEnds(engine: T.Engine, diagnostics: D.Engine, explorer: X.Explorer, a: Answer,
                                        d: Decoding, fs: seq<RawFrame>,
                     w: Window, selected: set<SignalKey>, records: seq<Option<L.TroubleCode>>,
                     freezes: seq<L.FreezeFrame>)
    requires Sorted(fs) && w.start <= w.center <= w.end
    requires Underway(engine, diagnostics, explorer, a, d, fs[..HighMark(fs, w)], w, selected)
    requires CenterMark(fs, w) <= |diagnostics.history|
    requires IsCenterState(records, freezes, diagnostics.history[..CenterMark(fs, w)])
    ensures IsInvestigation(a.(records := records, freezes := freezes), d, fs, w, selected, diagnostics.history)
  {
    hide Upto, IsEvidence, Sorted, IsCenterState, T.Accepted, Processed, DecodedAll, IsReplay, IsInvestigation,
      DefaultDiagnostics.DefaultRules, D.AcceptedHistory, D.Replay, AllDecode, CenterMark, D.Engine.Valid;
    ProcessedMeans(engine, diagnostics, explorer, d, fs[..HighMark(fs, w)]);
    EndMark(fs, w);
    Complete(a, records, freezes, d, fs, w, selected, diagnostics.history);
  }

  /** The center state, once captured, is that of the first `mid` operations. */
  ghost predicate Captured(center: Option<(seq<Option<L.TroubleCode>>, seq<L.FreezeFrame>)>,
                           history: seq<D.Operation>, mid: nat) {
    center.Some? ==> mid <= |history| && IsCenterState(center.value.0, center.value.1, history[..mid])
  }

  lemma {:induction false} CapturedNothing(mid: nat)
    ensures Captured(None, [], mid)
  {
  }

  lemma {:induction false} CapturedNow(records: seq<Option<L.TroubleCode>>, freezes: seq<L.FreezeFrame>,
                                       history: seq<D.Operation>)
    requires IsCenterState(records, freezes, history)
    ensures Captured(Some((records, freezes)), history, |history|)
  {
    hide IsCenterState;
    assert history[..|history|] == history;
  }

  lemma {:induction false} CapturedKept(center: Option<(seq<Option<L.TroubleCode>>, seq<L.FreezeFrame>)>,
                                        before: seq<D.Operation>, after: seq<D.Operation>, mid: nat)
    requires Captured(center, before, mid) && |before| <= |after| && after[..|before|] == before
    ensures Captured(center, after, mid)
  {
    hide IsCenterState;
    if center.Some? {
      assert after[..mid] == after[..|before|][..mid];
    }
  }

  lemma {:induction false} CapturedMeans(center: Option<(seq<Option<L.TroubleCode>>, seq<L.FreezeFrame>)>,
                                         history: seq<D.Operation>, mid: nat)
    requires center.Some? && Captured(center, history, mid)
    ensures mid <= |history| && IsCenterState(center.value.0, center.value.1, history[..mid])
  {
  }

  /** After the pass: a session that ends before the center passes is captured at its end. */
  method Conclude(engine: T.Engine, diagnostics: D.Engine, explorer: X.Explorer, a: Answer,
                  captured: Option<(seq<Option<L.TroubleCode>>, seq<L.FreezeFrame>)>, d: Decoding, fs: seq<RawFrame>,
                  w: Window, selected: set<SignalKey>)
    returns (r: Result<Answer, Failure>, ghost ops: seq<D.Operation>)
    requires Sorted(fs) && w.start <= w.center <= w.end
    requires Underway(engine, diagnostics, explorer, a, d, fs[..HighMark(fs, w)], w, selected)
    requires |diagnostics.history| == HighMark(fs, w)
    requires captured.Some? <==> |fs| > CenterMark(fs, w)
    requires Captured(captured, diagnostics.history, CenterMark(fs, w))
    ensures AllDecode(d, fs[..HighMark(fs, w)])
    ensures r.Ok? && IsInvestigation(r.value, d, fs, w, selected, ops)
  {
    hide Upto, Sorted, IsCenterState, Underway, D.Engine.Valid, T.Engine.Valid, X.Explorer.Valid, IsInvestigation,
      DefaultDiagnostics.DefaultRules, LowMark, CenterMark, HighMark, AllDecode, IsEvidence, Processed, DecodedAll,
      T.Accepted, D.Replay, D.AcceptedHistory, IsReplay, D.ValidCatalog, Captured;
    var center := captured;
    MarksAreOrdered(fs, w);
    UnderwayMeans(engine, diagnostics, explorer, a, d, fs[..HighMark(fs, w)], w, selected);
    if center.None? {
      var records, freezes := CaptureCenter(diagnostics);
      center := Some((records, freezes));
      CapturedNow(records, freezes, diagnostics.history);
    }
    CapturedMeans(center, diagnostics.history, CenterMark(fs, w));
    ops := diagnostics.history;
    UnderwayEnds(engine, diagnostics, explorer, a, d, fs, w, selected, center.value.0, center.value.1);
    r := Ok(a.(records := center.value.0, freezes := center.value.1));
  }

  /** `investigate`: every frame of the session once, in order. */
  method Investigate(d: Decoding, fs: seq<RawFrame>, w: Window, selected: set<SignalKey>)
    returns (r: Result<Answer, Failure>, ghost ops: seq<D.Operation>)
    requires Sound(d) && Sorted(fs) && w.start <= w.center <= w.end
    ensures r.Ok? <==> AllDecode(d, fs[..HighMark(fs, w)]) && HighMark(fs, w) - LowMark(fs, w) <= MAX_RAW_FRAMES
    ensures r == Err(TooManyFrames) <==> HighMark(fs, w) - LowMark(fs, w) > MAX_RAW_FRAMES
                                         && AllDecode(d, fs[..LowMark(fs, w) + MAX_RAW_FRAMES + 1])
    ensures r.Err? ==> r.error in [Undecodable, TooManyFrames]
    ensures r.Ok? ==> IsInvestigation(r.value, d, fs, w, selected, ops)
  {
    hide Upto, Sound, Sorted, IsCenterState, Underway, D.Engine.Valid, T.Engine.Valid, X.Explorer.Valid,
      IsInvestigation, DefaultDiagnostics.DefaultRules, LowMark, CenterMark, HighMark, AllDecode, IsEvidence, Processed,
      DecodedAll, T.Accepted, D.Replay, D.AcceptedHistory, IsReplay, D.ValidCatalog, Captured;
    CapturedNothing(CenterMark(fs, w));
    DefaultDiagnostics.DefaultRulesAreSound();
    var engine := new T.Engine(d.catalog, 1);
    var diagnostics := new D.Engine(DefaultDiagnostics.DefaultRules(), EVENT_CAPACITY);
    var explorer := new X.Explorer(d.dbc, 1);
    var a := Answer(map[], [], map k | k in selected :: [], 0, [], [], []);
    var center: Option<(seq<Option<L.TroubleCode>>, seq<L.FreezeFrame>)> := None;
    ghost var lo, mid, hi := LowMark(fs, w), CenterMark(fs, w), HighMark(fs, w);
    ghost var j := 0;
    MarksAreOrdered(fs, w);
    UnderwayNothing(engine, diagnostics, explorer, a, d, w, selected);
    assert fs[..0] == [];
    for i := 0 to |fs|
      invariant fresh(engine) && fresh(diagnostics) && fresh(explorer)
      invariant j == if i <= hi then i else hi
      invariant Underway(engine, diagnostics, explorer, a, d, fs[..j], w, selected) && |diagnostics.history| == j
      invariant |a.raw| <= MAX_RAW_FRAMES && |a.raw| == if j <= lo then 0 else j - lo
      invariant center.Some? <==> i > mid
      invariant Captured(center, diagnostics.history, mid)
    {
      MarksSplit(fs, w, i);
      SortedPrefix(fs, i);
      UnderwayMeans(engine, diagnostics, explorer, a, d, fs[..j], w, selected);
      var raw := fs[i];
      if raw.timestamp > w.center && center.None? {
        var records, freezes := CaptureCenter(diagnostics);
        center := Some((records, freezes));
        CapturedNow(records, freezes, diagnostics.history);
      }
      if raw.timestamp > w.end {
        continue;
      }
      ghost var before := diagnostics.history;
      var visited := Visit(engine, diagnostics, explorer, a, raw, d, w, selected, fs[..j]);
      if visited.Err? {
        FailureIsExact(d, fs, w, i, |a.raw|, visited.error);
        return visited, [];
      }
      a := visited.value;
      j := j + 1;
      CapturedKept(center, before, diagnostics.history, mid);
    }
    r, ops := Conclude(engine, diagnostics, explorer, a, center, d, fs, w, selected);
  }
}
