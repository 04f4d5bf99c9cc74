/** What the answer to an investigation means for the page that shows it: queries are refused exactly
    when they are malformed, and the cursor reads the whole recording. */
module InvestigationAnswers {
  import opened Prelude
  import opened TelemetryModels
  import opened RawCan
  import opened InvestigationWindow
  import opened Investigation
  import opened Investigator
  import T = TelemetryEngine
  import D = DiagnosticEngine
  import X = CanExplorer
  import R = DiagnosticRules
  import DefaultDiagnostics

  function Bounds(fs: seq<RawFrame>): Option<(nat, nat)> {
    if fs == [] then None else Some((fs[0].timestamp, fs[|fs| - 1].timestamp))
  }

  /** What a selection of signals must be. */
  predicate ValidSelection(c: T.Catalog, selected: seq<SignalKey>) {
    && 0 < |selected| <= MAX_SELECTED_SIGNALS
    && (forall i, j :: 0 <= i < j < |selected| ==> selected[i] != selected[j])
    && forall i :: 0 <= i < |selected| ==> selected[i] in c.definitions
  }

  /** The rule of a trouble code. */
  function RuleOf(rules: seq<R.Rule>, code: string): (r: Option<R.Rule>)
    ensures r.Some? ==> r.value in rules && r.value.code == code
    ensures r.None? ==> forall x <- rules :: x.code != code
  {
    if rules == [] then None
    else if rules[0].code == code then Some(rules[0])
    else RuleOf(rules[1..], code)
  }

  /** The signals of a query: those asked for, else those the asked trouble code is judged by, else the
      first of the catalog. */
  function Chosen(listed: seq<SignalKey>, selected: Option<seq<SignalKey>>, rule: Option<R.Rule>): seq<SignalKey> {
    if selected.Some? then selected.value
    else if rule.Some? then rule.value.requiredSignals
    else listed[..Min(|listed|, MAX_SELECTED_SIGNALS)]
  }

  /** `_resolve_signals`. */
  function ResolveSignals(c: T.Catalog, listed: seq<SignalKey>, selected: Option<seq<SignalKey>>,
                          code: Option<string>): (r: Result<seq<SignalKey>, QueryError>)
    ensures r.Ok? ==> ValidSelection(c, r.value)
  {
    var rule := if code.Some? then RuleOf(DefaultDiagnostics.DefaultRules(), code.value) else None;
    if code.Some? && rule.None? then Err(UnknownCode)
    else if !ValidSelection(c, Chosen(listed, selected, rule)) then Err(BadSelection)
    else Ok(Chosen(listed, selected, rule))
  }

  /** The catalog's definitions in their order. */
  ghost predicate Lists(c: T.Catalog, listed: seq<SignalKey>) {
    && (forall i, j :: 0 <= i < j < |listed| ==> listed[i] != listed[j])
    && forall k :: k in listed <==> k in c.definitions
  }

  lemma {:induction false} ShippedSelectionsAreDistinct(rule: R.Rule)
    requires rule in DefaultDiagnostics.DefaultRules()
    ensures var ks := rule.requiredSignals;
            0 < |ks| <= MAX_SELECTED_SIGNALS && forall i, j :: 0 <= i < j < |ks| ==> ks[i] != ks[j]
  {
    DefaultDiagnostics.RequiredSignalsAreDistinct(rule);
  }

  /** Queries that select nothing are well-formed: over a catalog that defines the signals of the shipped
      rules, leaving the selection out is refused exactly for a code no rule has. */
  lemma {:induction false} DefaultSelectionIsValid(c: T.Catalog, listed: seq<SignalKey>, code: Option<string>)
    requires Lists(c, listed) && listed != []
    requires forall r <- DefaultDiagnostics.DefaultRules(), k <- r.requiredSignals :: k in c.definitions
    ensures ResolveSignals(c, listed, None, code).Ok? <==>
            (code.Some? ==> exists r <- DefaultDiagnostics.DefaultRules() :: r.code == code.value)
  {
    hide DefaultDiagnostics.DefaultRules;
    var rules := DefaultDiagnostics.DefaultRules();
    if code.Some? && RuleOf(rules, code.value).Some? {
      var rule := RuleOf(rules, code.value).value;
      ShippedSelectionsAreDistinct(rule);
      assert ValidSelection(c, rule.requiredSignals);
    } else if code.None? {
      assert forall i :: 0 <= i < |listed| ==> listed[i] in listed;
      assert ValidSelection(c, Chosen(listed, None, None));
    }
  }

  /** A query as it is sent. */
  datatype Question = Question(center: Option<int>, before: int, after: int, selected: Option<seq<SignalKey>>,
                               code: Option<string>)

  /** The window and the signals a query means; the window is looked at first. */
  function Understood(d: Decoding, listed: seq<SignalKey>, fs: seq<RawFrame>,
                      q: Question): Result<(Window, seq<SignalKey>), QueryError> {
    match ResolveWindow(Bounds(fs), q.center, q.before, q.after)
    case Err(e) => Err(e)
    case Ok(w) =>
      match ResolveSignals(d.catalog, listed, q.selected, q.code)
      case Err(e) => Err(e)
      case Ok(keys) => Ok((w, keys))
  }

  /** The answer is about the moment `center`: its raw frames are the frames of the session stamped from
      `before` before it to `after` after it, each under its index in the session; records and freeze frames
      are those of replaying the frames stamped up to it. */
  ghost predicate IsAbout(a: Answer, d: Decoding, fs: seq<RawFrame>, center: int, before: int, after: int,
                          ops: seq<D.Operation>) {
    && HasFramesAround(a, fs, center, before, after)
    && HasStateAt(a, d, fs, center, ops)
  }

  ghost predicate HasFramesAround(a: Answer, fs: seq<RawFrame>, center: int, before: int, after: int) {
    exists low: nat :: HasFramesFrom(low, a, fs, center, before, after)
  }

  ghost predicate HasFramesFrom(low: nat, a: Answer, fs: seq<RawFrame>, center: int, before: int, after: int) {
    && low + |a.raw| <= |fs|
    && (forall i :: 0 <= i < |fs| ==>
          (low <= i < low + |a.raw| <==> center - before <= fs[i].timestamp <= center + after))
    && forall i :: 0 <= i < |a.raw| ==> a.raw[i].raw == fs[low + i] && a.raw[i].sequence == low + i
  }

  ghost predicate HasStateAt(a: Answer, d: Decoding, fs: seq<RawFrame>, center: int, ops: seq<D.Operation>) {
    exists n: nat ::
      && n <= |fs| && n <= |ops| && (forall i :: 0 <= i < |fs| ==> (i < n <==> fs[i].timestamp <= center))
      && AllDecode(d, fs[..n]) && IsReplay(ops[..n], d.catalog, DecodedAll(d, fs[..n]))
      && IsCenterState(a.records, a.freezes, ops[..n])
  }

  lemma {:induction false} FramesAround(a: Answer, d: Decoding, fs: seq<RawFrame>, w: Window,
                                        selected: set<SignalKey>, ops: seq<D.Operation>, before: int, after: int)
    requires IsInvestigation(a, d, fs, w, selected, ops) && Sorted(fs) && w.start <= w.end
    requires forall i :: 0 <= i < |fs| ==>
                           (w.start <= fs[i].timestamp <= w.end <==>
                            w.center - before <= fs[i].timestamp <= w.center + after)
    ensures HasFramesAround(a, fs, w.center, before, after)
  {
    hide IsInvestigation, Upto, Sorted, X.Annotate, RawTime;
    var low := Upto(fs, RawTime, w.start - 1);
    RawFramesKeepTheirIndex(a, d, fs, w, selected, ops, 0);
    forall i | 0 <= i < |a.raw|
      ensures a.raw[i].raw == fs[low + i] && a.raw[i].sequence == low + i
    {
      RawFramesKeepTheirIndex(a, d, fs, w, selected, ops, i);
      AnnotationCarriesRaw(d.dbc, fs[low + i], low + i);
    }
    forall i | 0 <= i < |fs|
      ensures low <= i < low + |a.raw| <==> w.center - before <= fs[i].timestamp <= w.center + after
    {
      WindowIsAnIndexRange(fs, w, i);
    }
    assert HasFramesFrom(low, a, fs, w.center, before, after);
  }

  lemma {:induction false} SeriesAreSelected(a: Answer, d: Decoding, fs: seq<RawFrame>, w: Window,
                                             selected: set<SignalKey>, ops: seq<D.Operation>)
    requires IsInvestigation(a, d, fs, w, selected, ops)
    ensures a.series.Keys == selected
  {
    hide IsReplay, IsCenterState, AllDecode, Within, Upto, IsContext, T.Accepted;
  }

  lemma {:induction false} StateAtCenter(a: Answer, d: Decoding, fs: seq<RawFrame>, w: Window,
                                         selected: set<SignalKey>, ops: seq<D.Operation>)
    requires IsInvestigation(a, d, fs, w, selected, ops) && Sorted(fs) && w.center <= w.end
    ensures HasStateAt(a, d, fs, w.center, ops)
  {
    hide IsEvidence, IsReplay, D.Replay, D.AcceptedHistory, DefaultDiagnostics.DefaultRules, Upto, X.AnnotateAll,
      Within, T.Accepted, IsCenterState, RawTime;
    CenterReplay(a, d, fs, w, selected, ops);
    SortedIsSortedBy(fs);
    UptoSplits(fs, RawTime, w.center);
    var n := Upto(fs, RawTime, w.center);
    RawTimes(fs);
    assert forall i :: 0 <= i < |fs| ==> (i < n <==> RawTime(fs[i]) <= w.center);
    assert IsCenterState(a.records, a.freezes, ops[..n]);
  }

  lemma {:induction false} RawTimes(fs: seq<RawFrame>)
    ensures forall i :: 0 <= i < |fs| ==> RawTime(fs[i]) == fs[i].timestamp
  {
  }

  /** A resolved question is answered about its center. */
  lemma {:induction false} AnsweredAbout(a: Answer, d: Decoding, fs: seq<RawFrame>, w: Window,
                                         selected: set<SignalKey>, ops: seq<D.Operation>, q: Question)
    requires fs != [] && Sorted(fs) && ResolveWindow(Bounds(fs), q.center, q.before, q.after) == Ok(w)
    requires IsInvestigation(a, d, fs, w, selected, ops)
    ensures IsAbout(a, d, fs, w.center, q.before, q.after, ops)
    ensures q.center.Some? ==> w.center == q.center.value
    ensures q.center.None? ==> w.center == (fs[0].timestamp + fs[|fs| - 1].timestamp) / 2
    ensures a.series.Keys == selected
  {
    hide IsInvestigation, HasFramesAround, HasStateAt, ResolveWindow;
    SeriesAreSelected(a, d, fs, w, selected, ops);
    var first, last := fs[0].timestamp, fs[|fs| - 1].timestamp;
    forall i | 0 <= i < |fs|
      ensures w.start <= fs[i].timestamp <= w.end <==>
              w.center - q.before <= fs[i].timestamp <= w.center + q.after
    {
      ResolvedWindowIsInside(first, last, q.center, q.before, q.after, fs[i].timestamp);
    }
    ResolvedWindowIsInside(first, last, q.center, q.before, q.after, 0);
    FramesAround(a, d, fs, w, selected, ops, q.before, q.after);
    StateAtCenter(a, d, fs, w, selected, ops);
  }

  /** Why a question is refused: the window is looked at before the code and the code before the
      selection. */
  lemma {:induction false} RefusalsAreExact(d: Decoding, listed: seq<SignalKey>, fs: seq<RawFrame>, q: Question)
    ensures var u := Understood(d, listed, fs, q);
            && (u == Err(NegativeSpan) <==> q.before < 0 || q.after < 0)
            && (u == Err(WindowTooWide) <==> q.before >= 0 && q.after >= 0 && q.before + q.after > 30_000_000)
            && (q.before >= 0 && q.after >= 0 && q.before + q.after <= 30_000_000 ==>
                  && (u == Err(EmptySession) <==> fs == [])
                  && (fs != [] ==>
                        var outside := q.center.Some? && (q.center.value < fs[0].timestamp
                                                          || q.center.value > fs[|fs| - 1].timestamp);
                        (outside ==> u == Err(CenterOutside))
                        && (u == Err(CenterOutside) && Sorted(fs) ==> outside)
                        && (Sorted(fs) && !outside ==>
                              && (u == Err(UnknownCode) <==>
                                  q.code.Some?
                                  && forall r <- DefaultDiagnostics.DefaultRules() :: r.code != q.code.value)
                              && (u.Ok? || u == Err(UnknownCode) || u == Err(BadSelection)))))
  {
    hide DefaultDiagnostics.DefaultRules, ValidSelection;
  }

  /** Which signals are answered: the ones asked for; else those the trouble code is judged by; else the
      first six of the catalog. Never none, more than six, one twice or an undefined one. */
  lemma {:induction false} SelectionIsExact(d: Decoding, listed: seq<SignalKey>, fs: seq<RawFrame>, q: Question)
    requires Understood(d, listed, fs, q).Ok?
    ensures var keys := Understood(d, listed, fs, q).value.1;
            && (q.selected.Some? ==> keys == q.selected.value)
            && (q.selected.None? && q.code.Some? ==>
                  exists r <- DefaultDiagnostics.DefaultRules() :: r.code == q.code.value && keys == r.requiredSignals)
            && (q.selected.None? && q.code.None? ==> keys == if |listed| <= 6 then listed else listed[..6])
            && 1 <= |keys| <= 6
            && (forall i, j :: 0 <= i < j < |keys| ==> keys[i] != keys[j])
            && forall k <- keys :: k in d.catalog.definitions
  {
    hide DefaultDiagnostics.DefaultRules, ResolveWindow;
    if q.selected.None? && q.code.None? && |listed| <= 6 {
      assert listed[..|listed|] == listed;
    }
  }

  /** The query as the service takes it. A malformed query is refused with its error; every other one is
      answered exactly when the frames decode and the window holds no more than the limit. */
  method Ask(d: Decoding, listed: seq<SignalKey>, fs: seq<RawFrame>, q: Question)
    returns (r: Result<Answer, Failure>, ghost ops: seq<D.Operation>)
    requires Sound(d) && Sorted(fs) && Lists(d.catalog, listed)
    ensures var u := Understood(d, listed, fs, q);
            if u.Err? then r == Err(Query(u.error)) else r.Err? ==> r.error in [Undecodable, TooManyFrames]
    ensures var u := Understood(d, listed, fs, q);
            u.Ok? ==>
              var w := u.value.0;
              (r.Ok? <==> AllDecode(d, fs[..HighMark(fs, w)]) && HighMark(fs, w) - LowMark(fs, w) <= 8_192)
    ensures var u := Understood(d, listed, fs, q);
            u.Ok? ==>
              var w := u.value.0;
              (r == Err(TooManyFrames) <==> HighMark(fs, w) - LowMark(fs, w) > 8_192
                                            && AllDecode(d, fs[..LowMark(fs, w) + 8_193]))
    ensures var u := Understood(d, listed, fs, q);
            r.Ok? ==> u.Ok? && IsInvestigation(r.value, d, fs, u.value.0, (set k | k in u.value.1), ops)
    ensures r.Ok? ==> fs != []
    ensures r.Ok? && q.center.Some? ==> IsAbout(r.value, d, fs, q.center.value, q.before, q.after, ops)
    ensures r.Ok? && q.center.None? ==>
              IsAbout(r.value, d, fs, (fs[0].timestamp + fs[|fs| - 1].timestamp) / 2, q.before, q.after, ops)
    ensures r.Ok? && q.selected.Some? ==> r.value.series.Keys == set k | k in q.selected.value
  {
    hide IsInvestigation, HighMark, LowMark, AllDecode, Sound, ResolveSignals, ValidSelection, Lists, IsAbout;
    ops := [];
    var window := ResolveWindow(Bounds(fs), q.center, q.before, q.after);
    if window.Err? {
      return Err(Query(window.error)), [];
    }
    var signals := ResolveSignals(d.catalog, listed, q.selected, q.code);
    if signals.Err? {
      return Err(Query(signals.error)), [];
    }
    ResolvedWindowIsInside(fs[0].timestamp, fs[|fs| - 1].timestamp, q.center, q.before, q.after, 0);
    r, ops := Investigate(d, fs, window.value, set k | k in signals.value);
    SelectionIsExact(d, listed, fs, q);
    if r.Ok? {
      AnsweredAbout(r.value, d, fs, window.value, (set k | k in signals.value), ops, q);
    }
  }

  // ---- the cursor over the whole recording ----

  predicate NotAfter(s: seq<SignalSample>, t: nat) {
    forall i :: 0 <= i < |s| ==> s[i].timestamp <= t
  }

  lemma {:induction false} SamplesAreSorted(c: T.Catalog, fs: seq<T.DecodedFrame>)
    requires T.Accepted(c, fs)
    ensures SortedBy(T.AllSamples(c, fs), SampleTime)
    ensures fs != [] ==> NotAfter(T.AllSamples(c, fs), fs[|fs| - 1].timestamp)
  {
    if fs != [] {
      SamplesAreSorted(c, fs[..|fs| - 1]);
    }
  }

  lemma {:induction false} OnlyIsSorted(k: SignalKey, s: seq<SignalSample>)
    requires SortedBy(s, SampleTime)
    ensures SortedBy(T.Only(k, s), SampleTime)
    ensures s != [] ==> NotAfter(T.Only(k, s), s[|s| - 1].timestamp)
  {
    hide T.Only;
    OnlyLast(k, s);
    if s != [] {
      var n := |s| - 1;
      OnlyIsSorted(k, s[..n]);
      assert n > 0 ==> SampleTime(s[n - 1]) <= SampleTime(s[n]);
    }
  }

  lemma {:induction false} OnlyLast(k: SignalKey, s: seq<SignalSample>)
    ensures s == [] ==> T.Only(k, s) == []
    ensures s != [] ==>
              var n := |s| - 1;
              T.Only(k, s) == T.Only(k, s[..n]) + if s[n].key == k then [s[n]] else []
  {
  }

  /** The samples of the last frame come after those of the frames before it. */
  lemma {:induction false} LastFrameSamples(d: Decoding, fs: seq<RawFrame>) returns (last: seq<SignalSample>)
    requires Sound(d) && Sorted(fs) && AllDecode(d, fs) && fs != []
    ensures var p := fs[..|fs| - 1];
            && AllDecode(d, p) && Sorted(p)
            && T.Accepted(d.catalog, DecodedAll(d, fs)) && T.Accepted(d.catalog, DecodedAll(d, p))
            && T.AllSamples(d.catalog, DecodedAll(d, fs)) == T.AllSamples(d.catalog, DecodedAll(d, p)) + last
    ensures StampedAt(last, fs[|fs| - 1].timestamp)
  {
    hide T.AllSamples, T.Described, T.SamplesOf, Sound, StampedAt, T.Accepted;
    var m := |fs| - 1;
    var f := fs[m];
    assert fs[..m] + [f] == fs;
    DecodedAreAccepted(d, fs);
    DecodedAreAccepted(d, fs[..m]);
    DecoderIsSound(d, f);
    DecodedAppend(d, fs[..m], f);
    T.SamplesAppend(d.catalog, DecodedAll(d, fs[..m]), d.decode(f).value);
    FrameSamplesAreStamped(d.catalog, d.decode(f).value, m);
    last := T.SamplesOf(d.catalog, d.decode(f).value, m);
  }

  /** The recording's samples are those up to any moment followed by later ones. */
  lemma {:induction false} SamplesSplit(d: Decoding, fs: seq<RawFrame>, n: nat,
                                        t: nat) returns (later: seq<SignalSample>)
    requires Sound(d) && Sorted(fs) && AllDecode(d, fs) && n <= |fs|
    requires forall i :: n <= i < |fs| ==> t < fs[i].timestamp
    ensures AllDecode(d, fs[..n]) && T.Accepted(d.catalog, DecodedAll(d, fs))
    ensures T.Accepted(d.catalog, DecodedAll(d, fs[..n]))
    ensures T.AllSamples(d.catalog, DecodedAll(d, fs)) == T.AllSamples(d.catalog, DecodedAll(d, fs[..n])) + later
    ensures forall i :: 0 <= i < |later| ==> t < later[i].timestamp
  {
    hide T.AllSamples, Sound, Sorted, AllDecode, T.Accepted, DecodedAll;
    if n == |fs| {
      assert fs[..n] == fs;
      DecodedAreAccepted(d, fs);
      later := [];
    } else {
      var m := |fs| - 1;
      var last := LastFrameSamples(d, fs);
      var earlier := SamplesSplit(d, fs[..m], n, t);
      assert fs[..m][..n] == fs[..n];
      later := earlier + last;
    }
  }

  /** For every answer over a decodable recording, every selected signal and every cursor inside the
      window: the browser's lookup finds the signal's last sample in the whole recording at or
      before the cursor, whichever side of the window start it lies on. */
  lemma {:induction false} CursorReadsTheRecording(a: Answer, d: Decoding, fs: seq<RawFrame>, w: Window,
                                                   selected: set<SignalKey>,
                                ops: seq<D.Operation>, k: SignalKey, cursor: nat)
    requires IsInvestigation(a, d, fs, w, selected, ops) && Sound(d) && Sorted(fs) && AllDecode(d, fs)
    requires k in selected && w.start <= cursor <= w.end
    ensures T.Accepted(d.catalog, DecodedAll(d, fs)) && k in a.series
    ensures CursorSpec(a.series[k], At(a.context, k), cursor)
            == LastAt(T.Only(k, T.AllSamples(d.catalog, DecodedAll(d, fs))), cursor)
  {
    hide Sound, T.AllSamples, T.Only, Within, Upto, IsInvestigation, SortedBy, CursorSpec, Sorted, AllDecode, LastAt,
      DecodedAll, T.Accepted;
    EvidenceOf(a, d, fs, w, selected, ops, k);
    var seen := Until(fs, w.end);
    var later := LaterSamples(d, fs, w);
    var samples := T.AllSamples(d.catalog, DecodedAll(d, seen));
    var own := T.Only(k, samples);
    SamplesAreSorted(d.catalog, DecodedAll(d, seen));
    OnlyIsSorted(k, samples);
    CursorIsGloballyCorrect(own, w, cursor);
    OnlyConcat(k, samples, later);
    LaterOnly(k, later, w.end);
    LaterIsIrrelevant(own, T.Only(k, later), cursor, w.end);
  }

  lemma {:induction false} LaterSamples(d: Decoding, fs: seq<RawFrame>, w: Window) returns (later: seq<SignalSample>)
    requires Sound(d) && Sorted(fs) && AllDecode(d, fs)
    ensures var seen := Until(fs, w.end);
            && AllDecode(d, seen) && T.Accepted(d.catalog, DecodedAll(d, fs))
            && T.Accepted(d.catalog, DecodedAll(d, seen))
            && T.AllSamples(d.catalog, DecodedAll(d, fs)) == T.AllSamples(d.catalog, DecodedAll(d, seen)) + later
    ensures forall i :: 0 <= i < |later| ==> w.end < later[i].timestamp
  {
    hide Sound, T.AllSamples, Upto, AllDecode, DecodedAll, T.Accepted;
    SortedIsSortedBy(fs);
    UptoSplits(fs, RawTime, w.end);
    var n := Upto(fs, RawTime, w.end);
    assert forall i :: n <= i < |fs| ==> RawTime(fs[i]) == fs[i].timestamp;
    later := SamplesSplit(d, fs, n, w.end);
  }

  lemma {:induction false} EvidenceOf(a: Answer, d: Decoding, fs: seq<RawFrame>, w: Window,
                                      selected: set<SignalKey>, ops: seq<D.Operation>, k: SignalKey)
    requires IsInvestigation(a, d, fs, w, selected, ops) && k in selected
    ensures var seen := Until(fs, w.end);
            && AllDecode(d, seen) && T.Accepted(d.catalog, DecodedAll(d, seen)) && k in a.series
            && var own := T.Only(k, T.AllSamples(d.catalog, DecodedAll(d, seen)));
            && a.series[k] == Within(own, SampleTime, w.start, w.end)
            && At(a.context, k) == LastAt(own, w.start)
  {
    hide T.AllSamples, T.Only, Within, Upto, LastAt, DecodedAll, T.Accepted, IsReplay, IsCenterState;
  }

  lemma {:induction false} LaterOnly(k: SignalKey, s: seq<SignalSample>, t: nat)
    requires forall i :: 0 <= i < |s| ==> t < s[i].timestamp
    ensures forall i :: 0 <= i < |T.Only(k, s)| ==> t < T.Only(k, s)[i].timestamp
  {
    if s != [] {
      LaterOnly(k, s[..|s| - 1], t);
    }
  }

  lemma {:induction false} LaterIsIrrelevant(s: seq<SignalSample>, later: seq<SignalSample>, cursor: nat, end: nat)
    requires cursor <= end && forall i :: 0 <= i < |later| ==> end < later[i].timestamp
    ensures LastAt(s + later, cursor) == LastAt(s, cursor)
  {
    hide Within;
    WithinConcat(s, later, SampleTime, 0, cursor);
    WithinNone(later, SampleTime, 0, cursor);
  }
}
