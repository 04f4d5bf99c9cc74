/** What an investigation window means (investigation/service.py, frontend/lib/investigation/state.ts):
    plain filters over a recorded session, and the cursor lookup the browser runs on the result. */
module InvestigationWindow {
  import opened Prelude
  import opened TelemetryModels
  import opened RawCan
  import T = TelemetryEngine
  import X = CanExplorer
  import D = DiagnosticEngine

  const MAX_WINDOW: int := 30_000_000
  const MAX_RAW_FRAMES: nat := 8_192
  const MAX_SELECTED_SIGNALS: nat := 6

  datatype Window = Window(center: nat, start: nat, end: nat)

  datatype QueryError = NegativeSpan | WindowTooWide | EmptySession | CenterOutside | UnknownCode | BadSelection

  function Max(a: int, b: int): int {
    if a >= b then a else b
  }

  function Min(a: int, b: int): int {
    if a <= b then a else b
  }

  /** `_resolve_window`, given the first and last timestamps of a session that has frames. */
  function ResolveWindow(bounds: Option<(nat, nat)>, center: Option<int>, before: int,
                         after: int): Result<Window, QueryError> {
    if before < 0 || after < 0 then Err(NegativeSpan)
    else if before + after > MAX_WINDOW then Err(WindowTooWide)
    else if bounds.None? then Err(EmptySession)
    else
      var (first, last) := bounds.value;
      var c := if center.None? then (first + last) / 2 else center.value;
      if c < first || c > last then Err(CenterOutside)
      else Ok(Window(c, Max(first, c - before), Min(last, c + after)))
  }

  /** `_clamp_center`, for a baseline session. */
  function ClampCenter(bounds: (nat, nat), center: nat): nat
    requires bounds.0 <= bounds.1
  {
    Min(Max(center, bounds.0), bounds.1)
  }

  /** A window is refused exactly for a negative or too wide span or a center outside the session. A
      resolved one has the requested center, or the middle of the session (rounded down), and holds exactly
      the times of the session from `before` before that center to `after` after it. */
  lemma {:induction false} ResolvedWindowIsInside(first: nat, last: nat, center: Option<int>, before: int,
                                                  after: int, t: int)
    requires first <= last
    ensures var r := ResolveWindow(Some((first, last)), center, before, after);
            && (r.Ok? <==> before >= 0 && after >= 0 && before + after <= 30_000_000
                           && (center.Some? ==> first <= center.value <= last))
            && (r.Ok? ==> && first <= r.value.start <= r.value.center <= r.value.end <= last
                          && r.value.end - r.value.start <= before + after
                          && (center.Some? ==> r.value.center == center.value)
                          && (center.None? ==> 2 * r.value.center <= first + last <= 2 * r.value.center + 1)
                          && (first <= t <= last && r.value.center - before <= t <= r.value.center + after
                              <==> r.value.start <= t <= r.value.end))
  {
  }

  /** A clamped baseline center always resolves, and no time of the session is nearer. */
  lemma {:induction false} ClampedCenterResolves(first: nat, last: nat, center: nat, before: nat, after: nat, t: nat)
    requires first <= t <= last && before + after <= MAX_WINDOW
    ensures var k := ClampCenter((first, last), center);
            && ResolveWindow(Some((first, last)), Some(k), before, after).Ok?
            && (if k <= center then center - k else k - center) <= (if t <= center then center - t else t - center)
  {
  }

  // ---- filters ----

  function SampleTime(x: SignalSample): nat {
    x.timestamp
  }

  function FrameTime(x: X.ExplorerFrame): nat {
    x.raw.timestamp
  }

  function EventTime(x: D.Event): nat {
    x.time
  }

  /** The elements stamped inside the closed interval, in order. */
  function Within<A>(s: seq<A>, time: A -> nat, start: nat, end: nat): (r: seq<A>)
    ensures |r| <= |s|
  {
    if s == [] then []
    else
      var x := s[|s| - 1];
      Within(s[..|s| - 1], time, start, end) + if start <= time(x) <= end then [x] else []
  }

  lemma {:induction false} WithinLast<A>(s: seq<A>, time: A -> nat, start: nat, end: nat)
    ensures s == [] ==> Within(s, time, start, end) == []
    ensures s != [] ==>
              var x := s[|s| - 1];
              Within(s, time, start, end) ==
              Within(s[..|s| - 1], time, start, end) + if start <= time(x) <= end then [x] else []
  {
  }

  lemma {:induction false} WithinConcat<A>(a: seq<A>, b: seq<A>, time: A -> nat, start: nat, end: nat)
    ensures Within(a + b, time, start, end) == Within(a, time, start, end) + Within(b, time, start, end)
  {
    hide Within;
    WithinLast(b, time, start, end);
    if b == [] {
      assert a + b == a;
    } else {
      var n := |b| - 1;
      WithinConcat(a, b[..n], time, start, end);
      WithinLast(a + b, time, start, end);
      assert (a + b)[..|a + b| - 1] == a + b[..n] && (a + b)[|a + b| - 1] == b[n];
    }
  }

  lemma {:induction false} WithinAll<A>(s: seq<A>, time: A -> nat, start: nat, end: nat)
    requires forall i :: 0 <= i < |s| ==> start <= time(s[i]) <= end
    ensures Within(s, time, start, end) == s
  {
    if s != [] {
      WithinAll(s[..|s| - 1], time, start, end);
    }
  }

  lemma {:induction false} WithinNone<A>(s: seq<A>, time: A -> nat, start: nat, end: nat)
    requires forall i :: 0 <= i < |s| ==> time(s[i]) < start || end < time(s[i])
    ensures Within(s, time, start, end) == []
  {
    if s != [] {
      WithinNone(s[..|s| - 1], time, start, end);
    }
  }

  predicate SortedBy<A>(s: seq<A>, time: A -> nat) {
    forall i, j :: 0 <= i <= j < |s| ==> time(s[i]) <= time(s[j])
  }

  /** How many leading elements are stamped at or before `t`. */
  function Upto<A>(s: seq<A>, time: A -> nat, t: int): (n: nat)
    ensures n <= |s|
  {
    if s == [] || time(s[|s| - 1]) <= t then |s| else Upto(s[..|s| - 1], time, t)
  }

  lemma {:induction false} UptoSplits<A>(s: seq<A>, time: A -> nat, t: int)
    requires SortedBy(s, time)
    ensures forall i :: 0 <= i < Upto(s, time, t) ==> time(s[i]) <= t
    ensures forall i :: Upto(s, time, t) <= i < |s| ==> t < time(s[i])
  {
    if s != [] && time(s[|s| - 1]) > t {
      UptoSplits(s[..|s| - 1], time, t);
    }
  }

  lemma {:induction false} UptoGrows<A>(s: seq<A>, time: A -> nat, t: int, u: int)
    requires t <= u
    ensures Upto(s, time, t) <= Upto(s, time, u)
  {
    if s != [] && time(s[|s| - 1]) > u {
      UptoGrows(s[..|s| - 1], time, t, u);
    }
  }

  /** In a sorted sequence the interval is a slice. */
  lemma {:induction false} WithinIsSlice<A>(s: seq<A>, time: A -> nat, start: nat, end: nat)
    requires SortedBy(s, time) && start <= end
    ensures Upto(s, time, start - 1) <= Upto(s, time, end)
    ensures Within(s, time, start, end) == s[Upto(s, time, start - 1)..Upto(s, time, end)]
  {
    hide SortedBy, Upto, Within;
    var lo, hi := Upto(s, time, start - 1), Upto(s, time, end);
    UptoSplits(s, time, start - 1);
    UptoSplits(s, time, end);
    UptoGrows(s, time, start - 1, end);
    WithinNone(s[..lo], time, start, end);
    WithinAll(s[lo..hi], time, start, end);
    WithinNone(s[hi..], time, start, end);
    WithinConcat(s[..lo], s[lo..hi], time, start, end);
    assert s[..lo] + s[lo..hi] == s[..hi];
    WithinConcat(s[..hi], s[hi..], time, start, end);
    assert s[..hi] + s[hi..] == s;
  }

  lemma {:induction false} OnlyConcat(k: SignalKey, a: seq<SignalSample>, b: seq<SignalSample>)
    ensures T.Only(k, a + b) == T.Only(k, a) + T.Only(k, b)
  {
    hide T.Only;
    if b == [] {
      NothingOnly(k);
      assert a + b == a;
    } else {
      var n := |b| - 1;
      OnlyConcat(k, a, b[..n]);
      T.OnlyAppend(k, a + b[..n], b[n]);
      T.OnlyAppend(k, b[..n], b[n]);
      assert a + b == a + b[..n] + [b[n]] && b == b[..n] + [b[n]];
    }
  }

  lemma {:induction false} NothingOnly(k: SignalKey)
    ensures T.Only(k, []) == []
  {
  }

  /** Filtering by time and by signal commute. */
  lemma {:induction false} OnlyWithin(k: SignalKey, s: seq<SignalSample>, start: nat, end: nat)
    ensures T.Only(k, Within(s, SampleTime, start, end)) == Within(T.Only(k, s), SampleTime, start, end)
  {
    if s != [] {
      var n := |s| - 1;
      OnlyWithin(k, s[..n], start, end);
      var tail := if start <= SampleTime(s[n]) <= end then [s[n]] else [];
      OnlyConcat(k, Within(s[..n], SampleTime, start, end), tail);
      WithinConcat(T.Only(k, s[..n]), if s[n].key == k then [s[n]] else [], SampleTime, start, end);
      assert [s[n]][..0] == [];
    }
  }

  // ---- the cursor ----

  /** `latestAtOrBefore`: scan the series backward, then fall back on the start context. */
  method LatestAtOrBefore(series: seq<SignalSample>, context: Option<SignalSample>, cursor: nat)
    returns (r: Option<SignalSample>)
    ensures r == CursorSpec(series, context, cursor)
  {
    var i := |series|;
    assert series[..i] == series;
    while i > 0
      invariant 0 <= i <= |series|
      invariant forall j :: i <= j < |series| ==> series[j].timestamp > cursor
      invariant CursorSpec(series[..i], context, cursor) == CursorSpec(series, context, cursor)
    {
      i := i - 1;
      if series[i].timestamp <= cursor {
        return Some(series[i]);
      }
      assert series[..i + 1][..i] == series[..i];
    }
    return if context.Some? && context.value.timestamp <= cursor then context else None;
  }

  function CursorSpec(series: seq<SignalSample>, context: Option<SignalSample>, cursor: nat): Option<SignalSample> {
    if series == [] then (if context.Some? && context.value.timestamp <= cursor then context else None)
    else if series[|series| - 1].timestamp <= cursor then Some(series[|series| - 1])
    else CursorSpec(series[..|series| - 1], context, cursor)
  }

  /** The last of the samples stamped at or before `t`, ties going to the one that arrived last. */
  function LastAt(samples: seq<SignalSample>, t: nat): Option<SignalSample> {
    var s := Within(samples, SampleTime, 0, t);
    if s == [] then None else Some(s[|s| - 1])
  }

  lemma {:induction false} CursorSplits(series: seq<SignalSample>, context: Option<SignalSample>, cursor: nat)
    requires SortedBy(series, SampleTime)
    ensures var n := Upto(series, SampleTime, cursor);
            CursorSpec(series, context, cursor) ==
            if n > 0 then Some(series[n - 1])
            else if context.Some? && context.value.timestamp <= cursor then context
            else None
  {
    if series != [] && SampleTime(series[|series| - 1]) > cursor {
      CursorSplits(series[..|series| - 1], context, cursor);
    }
  }

  lemma {:induction false} LastAtIsPrefixEnd(samples: seq<SignalSample>, t: nat)
    requires SortedBy(samples, SampleTime)
    ensures var n := Upto(samples, SampleTime, t);
            LastAt(samples, t) == if n == 0 then None else Some(samples[n - 1])
  {
    hide SortedBy, Upto, Within;
    WithinIsSlice(samples, SampleTime, 0, t);
    UptoSplits(samples, SampleTime, -1);
  }

  /** For every cursor inside the window, looking it up in the returned series and start context
      gives the last sample of the whole recording at or before that cursor. */
  lemma {:induction false} CursorIsGloballyCorrect(samples: seq<SignalSample>, w: Window, cursor: nat)
    requires SortedBy(samples, SampleTime)
    requires w.start <= cursor <= w.end
    ensures CursorSpec(Within(samples, SampleTime, w.start, w.end), LastAt(samples, w.start), cursor) ==
            LastAt(samples, cursor)
  {
    hide SortedBy, Upto, Within, LastAt, CursorSpec;
    var lo, hi := Upto(samples, SampleTime, w.start - 1), Upto(samples, SampleTime, w.end);
    WithinIsSlice(samples, SampleTime, w.start, w.end);
    LastAtIsPrefixEnd(samples, w.start);
    LastAtIsPrefixEnd(samples, cursor);
    UptoSplits(samples, SampleTime, w.start);
    UptoGrows(samples, SampleTime, w.start - 1, w.start);
    UptoGrows(samples, SampleTime, w.start, cursor);
    UptoGrows(samples, SampleTime, cursor, w.end);
    SliceUpto(samples, lo, hi, cursor);
    CursorSplits(samples[lo..hi], LastAt(samples, w.start), cursor);
    var n := Upto(samples, SampleTime, cursor);
    assert n > lo ==> samples[lo..hi][n - lo - 1] == samples[n - 1];
  }

  lemma {:induction false} SliceIsSorted(samples: seq<SignalSample>, lo: nat, hi: nat)
    requires SortedBy(samples, SampleTime) && lo <= hi <= |samples|
    ensures SortedBy(samples[lo..hi], SampleTime)
  {
    var part := samples[lo..hi];
    forall i, j | 0 <= i <= j < |part|
      ensures SampleTime(part[i]) <= SampleTime(part[j])
    {
      assert part[i] == samples[lo + i] && part[j] == samples[lo + j];
    }
  }

  /** The split point of a slice is the split point of the whole, moved into the slice. */
  lemma {:induction false} SliceUpto(samples: seq<SignalSample>, lo: nat, hi: nat, cursor: nat)
    requires SortedBy(samples, SampleTime) && lo <= hi <= |samples|
    ensures SortedBy(samples[lo..hi], SampleTime)
    ensures Upto(samples[lo..hi], SampleTime, cursor) ==
            Min(Max(Upto(samples, SampleTime, cursor), lo), hi) - lo
  {
    hide SortedBy, Upto, SampleTime;
    var part := samples[lo..hi];
    SliceIsSorted(samples, lo, hi);
    UptoSplits(samples, SampleTime, cursor);
    UptoSplits(part, SampleTime, cursor);
    var m := Upto(part, SampleTime, cursor);
    assert m > 0 ==> part[m - 1] == samples[lo + m - 1];
    assert m < |part| ==> part[m] == samples[lo + m];
  }
}
