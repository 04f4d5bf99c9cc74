/** Streaming investigation of a recorded session (investigation/service.py): one pass over the
    frames, with early capture at the center and skipping after the window. */
module Investigation {
  import opened Prelude
  import opened TelemetryModels
  import opened RawCan
  import opened InvestigationWindow
  import opened DecodedPipeline
  import T = TelemetryEngine
  import X = CanExplorer
  import D = DiagnosticEngine
  import L = DiagnosticLifecycle
  import R = DiagnosticRules
  import DefaultDiagnostics

  /** The decoder and the two views of its database. */
  datatype Decoding = Decoding(catalog: T.Catalog, dbc: X.Dbc, decode: RawFrame -> Option<T.DecodedFrame>)

  /** What the decoder owes: its frames keep the raw timestamp, are described by the catalog made
      from the same database, and carry the database's value types. */
  ghost predicate Sound(d: Decoding) {
    forall f: RawFrame :: d.decode(f).Some? ==>
      d.decode(f).value.timestamp == f.timestamp && T.Described(d.catalog, d.decode(f).value)
      && TypedFrame(d.decode(f).value)
  }

  predicate AllDecode(d: Decoding, fs: seq<RawFrame>) {
    forall i :: 0 <= i < |fs| ==> d.decode(fs[i]).Some?
  }

  function DecodedAll(d: Decoding, fs: seq<RawFrame>): (r: seq<T.DecodedFrame>)
    requires AllDecode(d, fs)
    ensures |r| == |fs|
    ensures forall i :: 0 <= i < |r| ==> r[i] == d.decode(fs[i]).value
  {
    if fs == [] then [] else DecodedAll(d, fs[..|fs| - 1]) + [d.decode(fs[|fs| - 1]).value]
  }

  function RawTime(f: RawFrame): nat {
    f.timestamp
  }

  /** The frames of the session stamped at or before `t`. */
  function Until(fs: seq<RawFrame>, t: int): seq<RawFrame> {
    fs[..Upto(fs, RawTime, t)]
  }

  lemma {:induction false} SortedIsSortedBy(fs: seq<RawFrame>)
    ensures Sorted(fs) <==> SortedBy(fs, RawTime)
  {
  }

  lemma {:induction false} DecodedAreAccepted(d: Decoding, fs: seq<RawFrame>)
    requires Sound(d) && Sorted(fs) && AllDecode(d, fs)
    ensures T.Accepted(d.catalog, DecodedAll(d, fs)) && AllTyped(DecodedAll(d, fs))
  {
    hide T.Described, TypedFrame;
  }

  lemma {:induction false} DecodedAppend(d: Decoding, fs: seq<RawFrame>, f: RawFrame)
    requires AllDecode(d, fs) && d.decode(f).Some?
    ensures AllDecode(d, fs + [f])
    ensures DecodedAll(d, fs + [f]) == DecodedAll(d, fs) + [d.decode(f).value]
  {
    assert (fs + [f])[..|fs|] == fs;
  }

  // ---- replay up to a moment ----

  /** The operations a diagnostic engine sees when the decoded frames are replayed. */
  ghost predicate IsReplay(ops: seq<D.Operation>, c: T.Catalog, dec: seq<T.DecodedFrame>) {
    && |ops| == |dec|
    && forall i :: 0 <= i < |ops| ==>
         ops[i].Observed? && ops[i].at == dec[i].timestamp && IsSnapshotAfter(ops[i].snapshot, c, dec[..i + 1])
  }

  lemma {:induction false} SnapshotIsUnique(a: Snapshot, b: Snapshot, c: T.Catalog, dec: seq<T.DecodedFrame>)
    requires IsSnapshotAfter(a, c, dec) && IsSnapshotAfter(b, c, dec)
    ensures a == b
  {
    hide T.AllSamples, T.Only, T.IsFresh, T.CountId, T.Accepted;
    assert a.samples == b.samples;
    forall k | k in a.freshness
      ensures a.freshness[k] == b.freshness[k]
    {
      assert k in a.samples;
    }
    assert a.freshness == b.freshness;
    assert a.statistics.framesById == b.statistics.framesById;
  }

  /** A replay is determined by its frames. */
  lemma {:induction false} ReplayIsUnique(a: seq<D.Operation>, b: seq<D.Operation>, c: T.Catalog,
                                          dec: seq<T.DecodedFrame>)
    requires IsReplay(a, c, dec) && IsReplay(b, c, dec)
    ensures a == b
  {
    hide IsSnapshotAfter;
    forall i | 0 <= i < |a|
      ensures a[i] == b[i]
    {
      SnapshotIsUnique(a[i].snapshot, b[i].snapshot, c, dec[..i + 1]);
    }
  }

  lemma {:induction false} ReplayPrefix(ops: seq<D.Operation>, c: T.Catalog, dec: seq<T.DecodedFrame>, n: nat)
    requires IsReplay(ops, c, dec) && n <= |dec|
    ensures IsReplay(ops[..n], c, dec[..n])
  {
    hide IsSnapshotAfter;
    forall i | 0 <= i < n
      ensures IsSnapshotAfter(ops[i].snapshot, c, dec[..n][..i + 1])
    {
      assert dec[..n][..i + 1] == dec[..i + 1];
    }
  }

  lemma {:induction false} ReplayOneMore(before: seq<D.Operation>, after: seq<D.Operation>, c: T.Catalog,
                                         dec: seq<T.DecodedFrame>)
    requires dec != [] && IsReplay(before, c, dec[..|dec| - 1]) && Diagnosed(before, after, c, dec)
    ensures IsReplay(after, c, dec)
  {
    hide IsSnapshotAfter;
    var n := |dec| - 1;
    assert dec[..n + 1] == dec;
    forall i | 0 <= i < n
      ensures IsSnapshotAfter(before[i].snapshot, c, dec[..i + 1])
    {
      assert dec[..n][..i + 1] == dec[..i + 1];
    }
  }

  /** Status and record of every rule, in catalog order. */
  function RecordsOf(rules: seq<R.Rule>, states: map<string, L.RuleState>): (r: seq<Option<L.TroubleCode>>)
    requires forall i :: 0 <= i < |rules| ==> rules[i].code in states
    ensures |r| == |rules|
    ensures forall i :: 0 <= i < |r| ==> r[i] == states[rules[i].code].dtc
  {
    if rules == [] then [] else RecordsOf(rules[..|rules| - 1], states) + [states[rules[|rules| - 1].code].dtc]
  }

  /** The freeze frames that exist, in catalog order. */
  function FreezesOf(rules: seq<R.Rule>, states: map<string, L.RuleState>): seq<L.FreezeFrame>
    requires forall i :: 0 <= i < |rules| ==> rules[i].code in states
  {
    if rules == [] then []
    else
      var f := states[rules[|rules| - 1].code].freezeFrame;
      FreezesOf(rules[..|rules| - 1], states) + if f.Some? then [f.value] else []
  }

  /** The freeze frames are those of the rules that have one, each after those of earlier rules. */
  lemma {:induction false} FreezesAreExact(rules: seq<R.Rule>, states: map<string, L.RuleState>)
    requires forall i :: 0 <= i < |rules| ==> rules[i].code in states
    ensures forall i :: 0 <= i < |rules| && states[rules[i].code].freezeFrame.Some? ==>
              var n := |FreezesOf(rules[..i], states)|;
              n < |FreezesOf(rules, states)|
              && FreezesOf(rules, states)[n] == states[rules[i].code].freezeFrame.value
    ensures forall f <- FreezesOf(rules, states) ::
              exists i :: 0 <= i < |rules| && states[rules[i].code].freezeFrame == Some(f)
  {
    if rules != [] {
      var p := rules[..|rules| - 1];
      FreezesAreExact(p, states);
      forall i | 0 <= i < |rules| && states[rules[i].code].freezeFrame.Some?
        ensures var n := |FreezesOf(rules[..i], states)|;
                n < |FreezesOf(rules, states)|
                && FreezesOf(rules, states)[n] == states[rules[i].code].freezeFrame.value
      {
        if i < |p| {
          assert p[..i] == rules[..i];
        }
      }
      forall f | f in FreezesOf(rules, states)
        ensures exists i :: 0 <= i < |rules| && states[rules[i].code].freezeFrame == Some(f)
      {
        if f in FreezesOf(p, states) {
          var i :| 0 <= i < |p| && states[p[i].code].freezeFrame == Some(f);
          assert rules[i] == p[i];
        }
      }
    }
  }

  // ---- the answer ----

  datatype Answer = Answer(
    context: map<SignalKey, SignalSample>,
    raw: seq<X.ExplorerFrame>,
    series: map<SignalKey, seq<SignalSample>>,
    updates: nat,
    events: seq<D.Event>,
    records: seq<Option<L.TroubleCode>>,
    freezes: seq<L.FreezeFrame>)

  datatype Failure = Query(reason: QueryError) | Undecodable | TooManyFrames

  /** The last selected sample at or before the window start. */
  ghost predicate IsContext(context: map<SignalKey, SignalSample>, selected: set<SignalKey>,
                            all: seq<SignalSample>, start: nat) {
    forall k :: (k in context <==> k in selected && LastAt(T.Only(k, all), start).Some?)
                && (k in context ==> LastAt(T.Only(k, all), start) == Some(context[k]))
  }

  ghost predicate IsSeries(series: map<SignalKey, seq<SignalSample>>, selected: set<SignalKey>,
                           all: seq<SignalSample>, w: Window) {
    && series.Keys == selected
    && forall k <- series :: series[k] == Within(T.Only(k, all), SampleTime, w.start, w.end)
  }

  /** What the part of the answer gathered from the frames `fs` must be. */
  ghost predicate IsEvidence(a: Answer, d: Decoding, fs: seq<RawFrame>, w: Window, selected: set<SignalKey>,
                             log: seq<D.Event>)
    requires AllDecode(d, fs) && T.Accepted(d.catalog, DecodedAll(d, fs))
  {
    var all := T.AllSamples(d.catalog, DecodedAll(d, fs));
    && a.raw == Within(X.AnnotateAll(d.dbc, fs), FrameTime, w.start, w.end)
    && IsSeries(a.series, selected, all, w)
    && IsContext(a.context, selected, all, w.start)
    && a.updates == |Within(all, SampleTime, w.start, w.end)|
    && a.events == Within(log, EventTime, w.start, w.end)
  }

  /** Records and freeze frames are those of a replay of the frames up to the center. */
  ghost predicate IsCenterState(records: seq<Option<L.TroubleCode>>, freezes: seq<L.FreezeFrame>,
                                ops: seq<D.Operation>) {
    var rules := DefaultDiagnostics.DefaultRules();
    && D.AcceptedHistory(rules, ops)
    && var states := D.Replay(rules, ops).states;
    && (forall i :: 0 <= i < |rules| ==> rules[i].code in states)
    && records == RecordsOf(rules, states)
    && freezes == FreezesOf(rules, states)
  }

  /** The whole answer, over the whole session: `ops` is the replay of every frame up to the end of
      the window. */
  ghost predicate IsInvestigation(a: Answer, d: Decoding, fs: seq<RawFrame>, w: Window, selected: set<SignalKey>,
                                  ops: seq<D.Operation>) {
    var seen := Until(fs, w.end);
    && AllDecode(d, seen)
    && IsReplay(ops, d.catalog, DecodedAll(d, seen))
    && D.AcceptedHistory(DefaultDiagnostics.DefaultRules(), ops)
    && T.Accepted(d.catalog, DecodedAll(d, seen))
    && IsEvidence(a, d, seen, w, selected, D.Replay(DefaultDiagnostics.DefaultRules(), ops).log)
    && a.raw == Within(X.AnnotateAll(d.dbc, fs), FrameTime, w.start, w.end)
    && Upto(fs, RawTime, w.center) <= |ops|
    && IsCenterState(a.records, a.freezes, ops[..Upto(fs, RawTime, w.center)])
  }

  /** The diagnostic state at the center is that of replaying every frame up to the center, so it is
      the same for every window and selection around that center. */
  lemma {:induction false} CenterStateIsIndependent(a: Answer, b: Answer, d: Decoding, fs: seq<RawFrame>,
                                                    v: Window, w: Window,
                                 p: set<SignalKey>, q: set<SignalKey>, ops: seq<D.Operation>, oqs: seq<D.Operation>)
    requires IsInvestigation(a, d, fs, v, p, ops) && IsInvestigation(b, d, fs, w, q, oqs)
    requires v.center == w.center && v.center <= v.end && w.center <= w.end
    ensures a.records == b.records && a.freezes == b.freezes
    ensures var n := Upto(fs, RawTime, v.center);
            n <= |ops| && AllDecode(d, fs[..n]) && IsReplay(ops[..n], d.catalog, DecodedAll(d, fs[..n]))
  {
    hide IsEvidence, IsReplay, D.Replay, D.AcceptedHistory, DefaultDiagnostics.DefaultRules, RecordsOf, FreezesOf, Upto,
      X.AnnotateAll, Within, T.Accepted;
    CenterReplay(a, d, fs, v, p, ops);
    CenterReplay(b, d, fs, w, q, oqs);
    var n := Upto(fs, RawTime, v.center);
    ReplayIsUnique(ops[..n], oqs[..n], d.catalog, DecodedAll(d, fs[..n]));
  }

  lemma {:induction false} CenterReplay(a: Answer, d: Decoding, fs: seq<RawFrame>, w: Window,
                                        selected: set<SignalKey>, ops: seq<D.Operation>)
    requires IsInvestigation(a, d, fs, w, selected, ops) && w.center <= w.end
    ensures var n := Upto(fs, RawTime, w.center);
            n <= |ops| && AllDecode(d, fs[..n]) && IsReplay(ops[..n], d.catalog, DecodedAll(d, fs[..n]))
  {
    hide IsEvidence, IsReplay, D.Replay, D.AcceptedHistory, DefaultDiagnostics.DefaultRules, RecordsOf, FreezesOf, Upto,
      X.AnnotateAll, Within, T.Accepted, IsCenterState;
    var n := Upto(fs, RawTime, w.center);
    UptoGrows(fs, RawTime, w.center, w.end);
    var seen := Until(fs, w.end);
    assert seen[..n] == fs[..n];
    assert forall i :: 0 <= i < n ==> fs[..n][i] == seen[i];
    assert DecodedAll(d, seen)[..n] == DecodedAll(d, fs[..n]);
    ReplayPrefix(ops, d.catalog, DecodedAll(d, seen), n);
  }

  lemma {:induction false} WindowIsAnIndexRange(fs: seq<RawFrame>, w: Window, i: nat)
    requires Sorted(fs) && i < |fs|
    ensures w.start <= fs[i].timestamp <= w.end <==> Upto(fs, RawTime, w.start - 1) <= i < Upto(fs, RawTime, w.end)
  {
    hide Upto;
    SortedIsSortedBy(fs);
    UptoSplits(fs, RawTime, w.start - 1);
    UptoSplits(fs, RawTime, w.end);
    assert RawTime(fs[i]) == fs[i].timestamp;
  }

  lemma {:induction false} WindowFrame(dbc: X.Dbc, fs: seq<RawFrame>, w: Window, i: nat)
    requires Sorted(fs) && w.start <= w.end
    requires i < Upto(fs, RawTime, w.end) - Upto(fs, RawTime, w.start - 1)
    ensures var n := Upto(fs, RawTime, w.start - 1) + i;
            && n < |fs| && w.start <= fs[n].timestamp <= w.end
            && X.AnnotateAll(dbc, fs)[n] == X.Annotate(dbc, fs[n], n) && X.Annotate(dbc, fs[n], n).sequence == n
  {
    hide Upto, Sorted, X.Annotate, X.AnnotateAll, RawTime;
    var n := Upto(fs, RawTime, w.start - 1) + i;
    WindowIsAnIndexRange(fs, w, n);
    AnnotatedAt(dbc, fs, n);
  }

  /** Position `i` of the returned raw frames is the session frame `first + i`, numbered so. */
  lemma {:induction false} RawFramesKeepTheirIndex(a: Answer, d: Decoding, fs: seq<RawFrame>, w: Window,
                                                   selected: set<SignalKey>,
                                ops: seq<D.Operation>, i: nat)
    requires IsInvestigation(a, d, fs, w, selected, ops) && Sorted(fs) && w.start <= w.end
    ensures |a.raw| == Upto(fs, RawTime, w.end) - Upto(fs, RawTime, w.start - 1)
    ensures var n := Upto(fs, RawTime, w.start - 1) + i;
            i < |a.raw| ==> n < |fs| && a.raw[i] == X.Annotate(d.dbc, fs[n], n) && a.raw[i].sequence == n
                            && w.start <= fs[n].timestamp <= w.end
  {
    hide IsInvestigation, Upto, Within, Sorted, X.Annotate, X.AnnotateAll, RawTime, FrameTime;
    RawOf(a, d, fs, w, selected, ops);
    AnnotatedWindow(d.dbc, fs, w);
    if i < |a.raw| {
      WindowFrame(d.dbc, fs, w, i);
    }
  }

  lemma {:induction false} AnnotatedAt(dbc: X.Dbc, fs: seq<RawFrame>, n: nat)
    requires n < |fs|
    ensures X.AnnotateAll(dbc, fs)[n] == X.Annotate(dbc, fs[n], n) && X.Annotate(dbc, fs[n], n).sequence == n
  {
  }

  lemma {:induction false} RawOf(a: Answer, d: Decoding, fs: seq<RawFrame>, w: Window, selected: set<SignalKey>,
                                 ops: seq<D.Operation>)
    requires IsInvestigation(a, d, fs, w, selected, ops)
    ensures a.raw == Within(X.AnnotateAll(d.dbc, fs), FrameTime, w.start, w.end)
  {
  }

  lemma {:induction false} AnnotatedUpto(dbc: X.Dbc, fs: seq<RawFrame>, t: int)
    ensures Upto(X.AnnotateAll(dbc, fs), FrameTime, t) == Upto(fs, RawTime, t)
  {
    if fs != [] {
      AnnotatedUpto(dbc, fs[..|fs| - 1], t);
      assert X.AnnotateAll(dbc, fs)[..|fs| - 1] == X.AnnotateAll(dbc, fs[..|fs| - 1]);
    }
  }

  lemma {:induction false} AnnotatedWindow(dbc: X.Dbc, fs: seq<RawFrame>, w: Window)
    requires Sorted(fs) && w.start <= w.end
    ensures Upto(fs, RawTime, w.start - 1) <= Upto(fs, RawTime, w.end)
    ensures Within(X.AnnotateAll(dbc, fs), FrameTime, w.start, w.end)
            == X.AnnotateAll(dbc, fs)[Upto(fs, RawTime, w.start - 1)..Upto(fs, RawTime, w.end)]
  {
    hide Upto, Within;
    AnnotatedUpto(dbc, fs, w.start - 1);
    AnnotatedUpto(dbc, fs, w.end);
    WithinIsSlice(X.AnnotateAll(dbc, fs), FrameTime, w.start, w.end);
  }
}
