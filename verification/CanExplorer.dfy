/** Bounded raw-CAN inspection state (can/explorer.py): a ring of annotated frames and counters by
    arbitration ID that must agree with it. */
module CanExplorer {
  import opened Prelude
  import opened TelemetryModels
  import opened RawCan

  datatype Metadata = Metadata(messageName: string, transmitter: string, cycleTime: nat)

  datatype DecodeOutcome = Values(values: seq<(string, SignalValue)>) | Malformed(reason: string)

  datatype DecodeStatus = Decoded | Unknown | DecodeError

  datatype ExplorerFrame = ExplorerFrame(
    sequence: nat,
    raw: RawFrame,
    metadata: Option<Metadata>,
    status: DecodeStatus,
    error: Option<string>,
    signals: seq<(string, SignalValue)>)

  datatype MessageStatistics = MessageStatistics(
    arbitrationId: nat,
    metadata: Option<Metadata>,
    retained: nat,
    total: nat,
    first: nat,
    latest: nat,
    latestDlc: nat)

  datatype ExplorerStatistics = ExplorerStatistics(
    retained: nat,
    total: nat,
    uniqueIds: nat,
    oldest: Option<nat>,
    newest: Option<nat>,
    lastSequence: Option<nat>)

  /** The DBC as the explorer sees it. */
  datatype Dbc = Dbc(metadata: map<nat, Metadata>, decode: RawFrame -> DecodeOutcome)

  function Annotate(d: Dbc, raw: RawFrame, sequence: nat): ExplorerFrame {
    if raw.arbitrationId !in d.metadata then ExplorerFrame(sequence, raw, None, Unknown, None, [])
    else
      var m := Some(d.metadata[raw.arbitrationId]);
      match d.decode(raw)
      case Values(vs) => ExplorerFrame(sequence, raw, m, Decoded, None, vs)
      case Malformed(reason) => ExplorerFrame(sequence, raw, m, DecodeError, Some(reason), [])
  }

  /** What the explorer makes of one raw frame: it keeps the frame and its number; an ID the database does not
      know is shown undecoded and without metadata; a known one with its metadata and either its decoded
      signals or the reason they could not be decoded. */
  predicate Annotates(f: ExplorerFrame, d: Dbc, raw: RawFrame, sequence: nat) {
    && f.raw == raw && f.sequence == sequence
    && (if raw.arbitrationId in d.metadata then f.metadata == Some(d.metadata[raw.arbitrationId])
        else f.metadata.None?)
    && (f.status == Unknown <==> raw.arbitrationId !in d.metadata)
    && (f.status == Decoded <==> raw.arbitrationId in d.metadata && d.decode(raw).Values?)
    && (f.status == Decoded ==> f.signals == d.decode(raw).values)
    && (f.status != Decoded ==> f.signals == [])
    && (f.status == DecodeError ==> d.decode(raw).Malformed? && f.error == Some(d.decode(raw).reason))
    && (f.status != DecodeError ==> f.error.None?)
  }

  lemma {:induction false} AnnotationIsExact(d: Dbc, raw: RawFrame, sequence: nat)
    ensures Annotates(Annotate(d, raw, sequence), d, raw, sequence)
  {
  }

  // ---- the simple definitions, over the raw frames ingested so far ----

  /** Every frame ingested, annotated and numbered by arrival. */
  function AnnotateAll(d: Dbc, fs: seq<RawFrame>): (r: seq<ExplorerFrame>)
    ensures |r| == |fs|
    ensures forall i :: 0 <= i < |r| ==> r[i] == Annotate(d, fs[i], i)
  {
    if fs == [] then [] else AnnotateAll(d, fs[..|fs| - 1]) + [Annotate(d, fs[|fs| - 1], |fs| - 1)]
  }

  function Occurrences(id: nat, fs: seq<RawFrame>): (n: nat)
    ensures n <= |fs|
  {
    if fs == [] then 0
    else Occurrences(id, fs[..|fs| - 1]) + if fs[|fs| - 1].arbitrationId == id then 1 else 0
  }

  /** The frames of one ID, in arrival order. */
  function Only(id: nat, fs: seq<RawFrame>): (r: seq<RawFrame>)
    ensures |r| == Occurrences(id, fs)
  {
    if fs == [] then []
    else Only(id, fs[..|fs| - 1]) + if fs[|fs| - 1].arbitrationId == id then [fs[|fs| - 1]] else []
  }

  predicate IsMessageStatistics(m: MessageStatistics, d: Dbc, id: nat, fs: seq<RawFrame>, capacity: nat) {
    var own := Only(id, fs);
    && own != []
    && m.arbitrationId == id
    && m.metadata == (if id in d.metadata then Some(d.metadata[id]) else None)
    && m.retained == Occurrences(id, Last(fs, capacity))
    && m.total == |own|
    && m.first == own[0].timestamp
    && m.latest == own[|own| - 1].timestamp
    && m.latestDlc == |own[|own| - 1].payload|
  }

  /** The observed average period of a message, computed from its counters when they are handed out. */
  function ObservedPeriod(m: MessageStatistics): Option<real> {
    if m.total < 2 then None else Some((m.latest - m.first) as real / (m.total - 1) as real)
  }

  /** And its frequency in hertz. */
  function ObservedFrequency(m: MessageStatistics): Option<real> {
    match ObservedPeriod(m)
    case None => None
    case Some(period) => if period > 0.0 then Some(1_000_000.0 / period) else None
  }

  /** The distances between consecutive frames. */
  function Gaps(fs: seq<RawFrame>): (r: seq<int>)
    requires fs != []
    ensures |r| == |fs| - 1
  {
    seq(|fs| - 1, i requires 0 <= i < |fs| - 1 => fs[i + 1].timestamp - fs[i].timestamp)
  }

  function Sum(xs: seq<int>): int {
    if xs == [] then 0 else Sum(xs[..|xs| - 1]) + xs[|xs| - 1]
  }

  lemma {:induction false} GapsTelescope(fs: seq<RawFrame>)
    requires fs != []
    ensures Sum(Gaps(fs)) == fs[|fs| - 1].timestamp - fs[0].timestamp
  {
    if |fs| > 1 {
      GapsTelescope(fs[..|fs| - 1]);
      assert Gaps(fs)[..|fs| - 2] == Gaps(fs[..|fs| - 1]);
    }
  }

  lemma {:induction false} PeriodOf(m: MessageStatistics)
    ensures ObservedPeriod(m).Some? <==> m.total >= 2
    ensures m.total >= 2 ==> ObservedPeriod(m).value * (m.total - 1) as real == (m.latest - m.first) as real
  {
    if m.total >= 2 {
      Quotient((m.latest - m.first) as real, (m.total - 1) as real);
    }
  }

  /** Period and frequency are each other's inverse. */
  lemma {:induction false} FrequencyInvertsPeriod(m: MessageStatistics)
    ensures ObservedFrequency(m).Some? <==> ObservedPeriod(m).Some? && ObservedPeriod(m).value > 0.0
    ensures ObservedFrequency(m).Some? ==> ObservedFrequency(m).value * ObservedPeriod(m).value == 1_000_000.0
  {
    hide ObservedPeriod;
    if ObservedFrequency(m).Some? {
      Quotient(1_000_000.0, ObservedPeriod(m).value);
    }
  }

  /** The observed period is the mean distance between consecutive frames of the ID, over the whole run,
      present from its second frame on. */
  lemma {:induction false} ObservedPeriodIsMeanGap(m: MessageStatistics, d: Dbc, id: nat, fs: seq<RawFrame>,
                                                   capacity: nat)
    requires IsMessageStatistics(m, d, id, fs, capacity)
    ensures var own := Only(id, fs);
            && own != []
            && (ObservedPeriod(m).Some? <==> |own| >= 2)
            && (|own| >= 2 ==> ObservedPeriod(m).value * |Gaps(own)| as real == Sum(Gaps(own)) as real)
  {
    hide Only, Gaps, Sum, ObservedPeriod, Occurrences, Last;
    GapsTelescope(Only(id, fs));
    PeriodOf(m);
  }

  lemma {:induction false} Quotient(a: real, b: real)
    requires b > 0.0
    ensures a / b * b == a
  {
  }

  ghost predicate IsIndex(messages: map<nat, MessageStatistics>, d: Dbc, fs: seq<RawFrame>, capacity: nat) {
    forall id :: (id in messages <==> Occurrences(id, fs) > 0)
                 && (id in messages ==> IsMessageStatistics(messages[id], d, id, fs, capacity))
  }

  predicate IsExplorerStatistics(s: ExplorerStatistics, fs: seq<RawFrame>, capacity: nat)
    requires capacity > 0
  {
    && s.retained == |Last(fs, capacity)|
    && s.total == |fs|
    && s.uniqueIds == |set f <- fs :: f.arbitrationId|
    && s.oldest == (if fs == [] then None else Some(Last(fs, capacity)[0].timestamp))
    && s.newest == (if fs == [] then None else Some(fs[|fs| - 1].timestamp))
    && s.lastSequence == (if fs == [] then None else Some(|fs| - 1))
  }

  // ---- queries ----

  /** What a frame query asks for; everything absent selects all frames. */
  datatype Filter = Filter(arbitrationId: Option<nat>, messageName: Option<string>, sourceEcu: Option<string>)

  const EVERYTHING := Filter(None, None, None)

  predicate Matches(f: ExplorerFrame, q: Filter) {
    && (q.arbitrationId.None? || f.raw.arbitrationId == q.arbitrationId.value)
    && (q.messageName.None? || (f.metadata.Some? && f.metadata.value.messageName == q.messageName.value))
    && (q.sourceEcu.None? || (f.metadata.Some? && f.metadata.value.transmitter == q.sourceEcu.value))
  }

  function Selected(fs: seq<ExplorerFrame>, q: Filter): (r: seq<ExplorerFrame>)
    ensures |r| <= |fs|
  {
    if fs == [] then []
    else Selected(fs[..|fs| - 1], q) + if Matches(fs[|fs| - 1], q) then [fs[|fs| - 1]] else []
  }

  function Newest(fs: seq<ExplorerFrame>, limit: Option<nat>): seq<ExplorerFrame> {
    if limit.None? then fs else Last(fs, limit.value)
  }

  predicate Ordered(fs: seq<ExplorerFrame>) {
    forall i, j :: 0 <= i < j < |fs| ==> fs[i].sequence < fs[j].sequence
  }

  /** A frame passes a filter when it has the ID, the message name and the sending unit asked for; a frame
      without metadata has neither of the last two. */
  lemma {:induction false} MatchesExactly(f: ExplorerFrame, q: Filter)
    ensures Matches(f, q) <==>
            && (q.arbitrationId == None || q.arbitrationId == Some(f.raw.arbitrationId))
            && (q.messageName == None || (exists m :: f.metadata == Some(m) && q.messageName == Some(m.messageName)))
            && (q.sourceEcu == None || (exists m :: f.metadata == Some(m) && q.sourceEcu == Some(m.transmitter)))
  {
    if f.metadata.Some? {
      assert f.metadata == Some(f.metadata.value);
    }
  }

  /** A selection holds exactly the matching frames, in their order. */
  lemma {:induction false} SelectedIsExact(fs: seq<ExplorerFrame>, q: Filter)
    requires Ordered(fs)
    ensures Ordered(Selected(fs, q))
    ensures forall f :: f in Selected(fs, q) <==> f in fs && Matches(f, q)
  {
    hide Matches;
    if fs != [] {
      var n := |fs| - 1;
      SelectedIsExact(fs[..n], q);
      assert fs == fs[..n] + [fs[n]];
      forall f | f in Selected(fs[..n], q)
        ensures f.sequence < fs[n].sequence
      {
        assert f in fs[..n];
      }
    }
  }

  lemma {:induction false} EverythingIsSelected(fs: seq<ExplorerFrame>)
    ensures Selected(fs, EVERYTHING) == fs
  {
    if fs != [] {
      EverythingIsSelected(fs[..|fs| - 1]);
      assert fs == fs[..|fs| - 1] + [fs[|fs| - 1]];
    }
  }

  // ---- facts ----

  lemma {:induction false} AnnotateAppend(d: Dbc, fs: seq<RawFrame>, f: RawFrame)
    ensures AnnotateAll(d, fs + [f]) == AnnotateAll(d, fs) + [Annotate(d, f, |fs|)]
  {
    assert (fs + [f])[..|fs|] == fs;
  }

  lemma {:induction false} OnlyAppend(id: nat, fs: seq<RawFrame>, f: RawFrame)
    ensures Only(id, fs + [f]) == Only(id, fs) + if f.arbitrationId == id then [f] else []
    ensures Occurrences(id, fs + [f]) == Occurrences(id, fs) + if f.arbitrationId == id then 1 else 0
  {
    assert (fs + [f])[..|fs|] == fs;
  }

  lemma {:induction false} OccurrencesConcat(id: nat, a: seq<RawFrame>, b: seq<RawFrame>)
    ensures Occurrences(id, a + b) == Occurrences(id, a) + Occurrences(id, b)
  {
    if b == [] {
      assert a + b == a;
    } else {
      OccurrencesConcat(id, a, b[..|b| - 1]);
      assert (a + b)[..|a + b| - 1] == a + b[..|b| - 1];
    }
  }

  /** Appending to a full ring replaces its oldest frame: the count of the evicted ID drops by one
      and the count of the new ID rises by one. */
  lemma {:induction false} RetainedAppend(id: nat, fs: seq<RawFrame>, f: RawFrame, capacity: nat)
    requires capacity > 0
    ensures Occurrences(id, Last(fs + [f], capacity)) ==
            Occurrences(id, Last(fs, capacity))
            - (if |fs| >= capacity && Last(fs, capacity)[0].arbitrationId == id then 1 else 0)
            + (if f.arbitrationId == id then 1 else 0)
  {
    var ring := Last(fs, capacity);
    PushBoundedIsLast(fs, f, capacity);
    if |fs| >= capacity {
      assert ring == [ring[0]] + ring[1..];
      OccurrencesConcat(id, [ring[0]], ring[1..]);
      assert [ring[0]][..0] == [];
      OnlyAppend(id, ring[1..], f);
    } else {
      OnlyAppend(id, ring, f);
    }
  }

  lemma {:induction false} RetainedAtMostTotal(id: nat, fs: seq<RawFrame>, capacity: nat)
    ensures Occurrences(id, Last(fs, capacity)) <= Occurrences(id, fs)
  {
    if |fs| > capacity {
      var n := |fs| - capacity;
      assert fs == fs[..n] + fs[n..];
      OccurrencesConcat(id, fs[..n], fs[n..]);
    }
  }

  /** An ID list that names every frame's ID once splits the frames among its members. */
  function SumOccurrences(ids: seq<nat>, fs: seq<RawFrame>): nat {
    if ids == [] then 0 else SumOccurrences(ids[..|ids| - 1], fs) + Occurrences(ids[|ids| - 1], fs)
  }

  predicate Distinct(ids: seq<nat>) {
    forall i, j :: 0 <= i < j < |ids| ==> ids[i] != ids[j]
  }

  lemma {:induction false} SumAppend(ids: seq<nat>, fs: seq<RawFrame>, f: RawFrame)
    requires Distinct(ids)
    ensures SumOccurrences(ids, fs + [f]) == SumOccurrences(ids, fs) + if f.arbitrationId in ids then 1 else 0
  {
    if ids != [] {
      var n := |ids| - 1;
      SumAppend(ids[..n], fs, f);
      OnlyAppend(ids[n], fs, f);
      assert ids == ids[..n] + [ids[n]];
    }
  }

  lemma {:induction false} CountsPartition(ids: seq<nat>, fs: seq<RawFrame>)
    requires Distinct(ids) && forall f <- fs :: f.arbitrationId in ids
    ensures SumOccurrences(ids, fs) == |fs|
  {
    if fs == [] {
      SumOfNothing(ids);
    } else {
      var n := |fs| - 1;
      CountsPartition(ids, fs[..n]);
      SumAppend(ids, fs[..n], fs[n]);
      assert fs == fs[..n] + [fs[n]];
    }
  }

  lemma {:induction false} SumOfNothing(ids: seq<nat>)
    ensures SumOccurrences(ids, []) == 0
  {
    if ids != [] {
      SumOfNothing(ids[..|ids| - 1]);
    }
  }

  lemma {:induction false} OccursIfPresent(fs: seq<RawFrame>, i: nat)
    requires i < |fs|
    ensures Occurrences(fs[i].arbitrationId, fs) > 0
  {
    if i < |fs| - 1 {
      OccursIfPresent(fs[..|fs| - 1], i);
    }
  }

  // ---- the explorer ----

  class Explorer {
    const dbc: Dbc
    const capacity: nat
    var buffer: seq<ExplorerFrame>
    var messages: map<nat, MessageStatistics>
    var nextSequence: nat
    /** The raw frames ingested since the last reset. */
    ghost var ingested: seq<RawFrame>

    ghost predicate Valid()
      reads this
    {
      && capacity > 0
      && buffer == Last(AnnotateAll(dbc, ingested), capacity)
      && IsIndex(messages, dbc, ingested, capacity)
      && nextSequence == |ingested|
    }

    constructor (dbc: Dbc, capacity: nat)
      requires capacity > 0
      ensures Valid() && this.dbc == dbc && this.capacity == capacity && ingested == []
    {
      this.dbc, this.capacity := dbc, capacity;
      buffer, messages, nextSequence := [], map[], 0;
      ingested := [];
    }

    method Reset()
      requires Valid()
      modifies this
      ensures Valid() && ingested == []
    {
      buffer, messages, nextSequence := [], map[], 0;
      ingested := [];
    }

    /** Observe one raw frame, evicting the oldest when full; decode failures are annotations. */
    method Ingest(raw: RawFrame) returns (frame: ExplorerFrame)
      requires Valid()
      modifies this
      ensures Valid()
      ensures ingested == old(ingested) + [raw]
      ensures frame == Annotate(dbc, raw, |old(ingested)|)
      ensures Annotates(frame, dbc, raw, |old(ingested)|)
    {
      hide Last, PushBounded, Occurrences, Only, IsIndex, IsMessageStatistics, AnnotateAll, Annotates;
      AnnotationIsExact(dbc, raw, nextSequence);
      frame := Annotate(dbc, raw, nextSequence);
      nextSequence := nextSequence + 1;
      AnnotateAppend(dbc, ingested, raw);
      PushBoundedIsLast(AnnotateAll(dbc, ingested), frame, capacity);
      RingHoldsRaws(dbc, ingested, capacity);
      ghost var before := messages;
      if |buffer| == capacity {
        var evicted := buffer[0].raw.arbitrationId;
        EvictedIsIndexed(messages, dbc, ingested, capacity);
        messages := messages[evicted := messages[evicted].(retained := messages[evicted].retained - 1)];
      }
      buffer := PushBounded(buffer, frame, capacity);
      UpdateMessage(raw, frame.metadata);
      IndexAfterIngest(before, messages, dbc, ingested, raw, capacity);
      ingested := ingested + [raw];
    }

    method UpdateMessage(raw: RawFrame, metadata: Option<Metadata>)
      modifies `messages
      ensures messages == Touched(old(messages), raw, metadata)
    {
      var id := raw.arbitrationId;
      if id !in messages {
        messages := messages[id := MessageStatistics(id, metadata, 1, 1, raw.timestamp, raw.timestamp, |raw.payload|)];
        return;
      }
      var m := messages[id];
      messages := messages[id := m.(retained := m.retained + 1, total := m.total + 1, latest := raw.timestamp,
                                    latestDlc := |raw.payload|)];
    }

    /** The retained frame with this sequence number, if it has not been evicted. */
    method Frame(sequence: nat) returns (r: Option<ExplorerFrame>)
      requires Valid()
      ensures r.Some? <==> |ingested| - |Last(ingested, capacity)| <= sequence < |ingested|
      ensures r.Some? ==> r.value == Annotate(dbc, ingested[sequence], sequence)
    {
      hide AnnotateAll, Last, IsIndex, Annotate;
      RingPositions(dbc, ingested, capacity);
      AnnotationCarriesSequence(dbc);
      for i := 0 to |buffer|
        invariant forall j :: 0 <= j < i ==> buffer[j].sequence != sequence
      {
        if buffer[i].sequence == sequence {
          return Some(buffer[i]);
        }
      }
      ghost var k := sequence - (|ingested| - |buffer|);
      assert 0 <= k < |buffer| ==> buffer[k].sequence == sequence;
      return None;
    }

    method Statistics() returns (s: ExplorerStatistics)
      requires Valid()
      ensures IsExplorerStatistics(s, ingested, capacity)
    {
      RingHoldsRaws(dbc, ingested, capacity);
      IndexedIds(messages, dbc, ingested, capacity);
      return ExplorerStatistics(
        |buffer|, nextSequence, |messages|,
        if buffer == [] then None else Some(buffer[0].raw.timestamp),
        if buffer == [] then None else Some(buffer[|buffer| - 1].raw.timestamp),
        if nextSequence == 0 then None else Some(nextSequence - 1));
    }

    /** The most recent `limit` retained frames among those the filter selects. */
    method Frames(limit: Option<nat>, filter: Filter) returns (r: seq<ExplorerFrame>)
      requires Valid() && (limit.Some? ==> limit.value > 0)
      ensures r == Newest(Selected(Last(AnnotateAll(dbc, ingested), capacity), filter), limit)
    {
      hide AnnotateAll, IsIndex, Last, Matches;
      var selected: seq<ExplorerFrame> := [];
      for i := 0 to |buffer|
        invariant selected == Selected(buffer[..i], filter)
      {
        assert buffer[..i + 1][..i] == buffer[..i];
        if Matches(buffer[i], filter) {
          selected := selected + [buffer[i]];
        }
      }
      assert buffer[..|buffer|] == buffer;
      return Newest(selected, limit);
    }

    /** Counters of one ID, present once a frame with it was ingested. */
    method MessageStatistic(id: nat) returns (m: Option<MessageStatistics>)
      requires Valid()
      ensures m.Some? <==> Occurrences(id, ingested) > 0
      ensures m.Some? ==> IsMessageStatistics(m.value, dbc, id, ingested, capacity)
    {
      hide Last, Occurrences, Only, AnnotateAll, IsMessageStatistics;
      return if id in messages then Some(messages[id]) else None;
    }

    /** Counters of every ID, sorted by ID. */
    method AllMessageStatistics() returns (r: seq<MessageStatistics>)
      requires Valid()
      ensures forall i, j :: 0 <= i < j < |r| ==> r[i].arbitrationId < r[j].arbitrationId
      ensures forall m <- r :: IsMessageStatistics(m, dbc, m.arbitrationId, ingested, capacity)
      ensures forall f <- ingested :: exists i :: 0 <= i < |r| && r[i].arbitrationId == f.arbitrationId
    {
      hide Last, Occurrences, Only, AnnotateAll, IsMessageStatistics;
      var ids := SortedKeys(messages.Keys);
      var index := messages;
      r := seq(|ids|, i requires 0 <= i < |ids| && ids[i] in index => index[ids[i]]);
      forall f | f in ingested
        ensures f.arbitrationId in messages
      {
        var i :| 0 <= i < |ingested| && ingested[i] == f;
        OccursIfPresent(ingested, i);
      }
      forall i | 0 <= i < |r|
        ensures r[i].arbitrationId == ids[i] && IsMessageStatistics(r[i], dbc, ids[i], ingested, capacity)
      {
        StatisticsCarryId(messages[ids[i]], dbc, ids[i], ingested, capacity);
      }
      forall f | f in ingested
        ensures exists i :: 0 <= i < |r| && r[i].arbitrationId == f.arbitrationId
      {
        var i :| 0 <= i < |ids| && ids[i] == f.arbitrationId;
        assert r[i].arbitrationId == f.arbitrationId;
      }
    }
  }

  predicate Ascending(ids: seq<nat>) {
    forall i, j :: 0 <= i < j < |ids| ==> ids[i] < ids[j]
  }

  predicate Below(ids: seq<nat>, rest: set<nat>) {
    forall x <- ids, y <- rest :: x < y
  }

  lemma {:induction false} AppendLeast(ids: seq<nat>, rest: set<nat>, least: nat)
    requires Ascending(ids) && Below(ids, rest)
    requires least in rest && forall id <- rest :: least <= id
    ensures Ascending(ids + [least]) && Below(ids + [least], rest - {least})
  {
    MemberAppend(ids, least);
    forall i | 0 <= i < |ids|
      ensures ids[i] < least
    {
      assert ids[i] in ids;
    }
  }

  /** `sorted` of a set of IDs. */
  method SortedKeys(keys: set<nat>) returns (ids: seq<nat>)
    ensures Ascending(ids)
    ensures forall id :: id in ids <==> id in keys
  {
    ids := [];
    var rest := keys;
    while rest != {}
      invariant rest <= keys
      invariant forall id :: id in ids <==> id in keys - rest
      invariant Ascending(ids) && Below(ids, rest)
      decreases |rest|
    {
      hide Ascending, Below;
      var least := Smallest(rest);
      MemberAppend(ids, least);
      AppendLeast(ids, rest, least);
      ids := ids + [least];
      rest := rest - {least};
    }
  }

  lemma {:induction false} MemberAppend(ids: seq<nat>, x: nat)
    ensures forall id :: id in ids + [x] <==> id in ids || id == x
  {
  }

  lemma {:induction false} AnnotationCarriesSequence(d: Dbc)
    ensures forall raw, sequence :: Annotate(d, raw, sequence).sequence == sequence
  {
  }

  lemma {:induction false} StatisticsCarryId(m: MessageStatistics, d: Dbc, id: nat, fs: seq<RawFrame>, capacity: nat)
    requires IsMessageStatistics(m, d, id, fs, capacity)
    ensures m.arbitrationId == id
  {
  }

  method Smallest(s: set<nat>) returns (least: nat)
    requires s != {}
    ensures least in s && forall id <- s :: least <= id
  {
    least :| least in s;
    var rest := s - {least};
    while rest != {}
      invariant least in s && rest <= s
      invariant forall id :: id in s && id !in rest ==> least <= id
      decreases |rest|
    {
      var x :| x in rest;
      rest := rest - {x};
      if x < least {
        least := x;
      }
    }
  }

  /** `_update_message`. */
  function Touched(messages: map<nat, MessageStatistics>, raw: RawFrame,
                   metadata: Option<Metadata>): map<nat, MessageStatistics> {
    var id := raw.arbitrationId;
    if id !in messages
    then messages[id := MessageStatistics(id, metadata, 1, 1, raw.timestamp, raw.timestamp, |raw.payload|)]
    else
      var m := messages[id];
      messages[id := m.(retained := m.retained + 1, total := m.total + 1, latest := raw.timestamp,
                        latestDlc := |raw.payload|)]
  }

  lemma {:induction false} SomeoneOccurs(id: nat, fs: seq<RawFrame>) returns (i: nat)
    requires Occurrences(id, fs) > 0
    ensures i < |fs| && fs[i].arbitrationId == id
  {
    i := |fs| - 1;
    if fs[i].arbitrationId != id {
      i := SomeoneOccurs(id, fs[..i]);
    }
  }

  /** The index has an entry for exactly the IDs ever seen. */
  lemma {:induction false} IndexedIds(messages: map<nat, MessageStatistics>, d: Dbc, fs: seq<RawFrame>, capacity: nat)
    requires IsIndex(messages, d, fs, capacity)
    ensures messages.Keys == set f <- fs :: f.arbitrationId
  {
    hide Occurrences, IsMessageStatistics;
    forall id
      ensures id in messages <==> id in set f <- fs :: f.arbitrationId
    {
      if id in messages {
        var i := SomeoneOccurs(id, fs);
        assert fs[i] in fs;
      }
      if f :| f in fs && f.arbitrationId == id {
        var i :| 0 <= i < |fs| && fs[i] == f;
        OccursIfPresent(fs, i);
      }
    }
  }

  /** The ring holds exactly the last raw frames. */
  lemma {:induction false} RingHoldsRaws(d: Dbc, fs: seq<RawFrame>, capacity: nat)
    ensures var ring := Last(AnnotateAll(d, fs), capacity);
            |ring| == |Last(fs, capacity)| && forall i :: 0 <= i < |ring| ==> ring[i].raw == Last(fs, capacity)[i]
  {
    hide AnnotateAll;
  }

  lemma {:induction false} RingPositions(d: Dbc, fs: seq<RawFrame>, capacity: nat)
    ensures var ring := Last(AnnotateAll(d, fs), capacity);
            && |ring| == |Last(fs, capacity)| <= |fs|
            && forall i :: 0 <= i < |ring| ==> var s := |fs| - |ring| + i; ring[i] == Annotate(d, fs[s], s)
  {
    hide AnnotateAll, Annotate, Last;
    var all := AnnotateAll(d, fs);
    var ring := Last(all, capacity);
    assert ring == all[|fs| - |ring|..] by { LastIsSuffix(all, capacity); }
    forall i | 0 <= i < |ring|
      ensures var s := |fs| - |ring| + i; ring[i] == Annotate(d, fs[s], s)
    {
      assert ring[i] == all[|fs| - |ring| + i];
    }
  }

  lemma {:induction false} LastIsSuffix<T>(s: seq<T>, n: nat)
    ensures Last(s, n) == s[|s| - |Last(s, n)|..]
  {
  }

  lemma {:induction false} EvictedIsIndexed(messages: map<nat, MessageStatistics>, d: Dbc, fs: seq<RawFrame>,
                                            capacity: nat)
    requires capacity > 0 && IsIndex(messages, d, fs, capacity) && |fs| >= capacity
    ensures var id := Last(fs, capacity)[0].arbitrationId;
            id in messages && messages[id].retained > 0
  {
    OccursIfPresent(Last(fs, capacity), 0);
    OccursIfPresent(fs, |fs| - capacity);
  }

  /** Evict-then-touch keeps the index in agreement with the ring. */
  lemma {:induction false} IndexAfterIngest(before: map<nat, MessageStatistics>,
                                            after: map<nat, MessageStatistics>, d: Dbc,
                         fs: seq<RawFrame>, raw: RawFrame, capacity: nat)
    requires capacity > 0 && IsIndex(before, d, fs, capacity)
    requires |fs| >= capacity ==> Last(fs, capacity)[0].arbitrationId in before
                                  && before[Last(fs, capacity)[0].arbitrationId].retained > 0
    requires after == Touched(Evicted(before, fs, capacity), raw, Annotate(d, raw, |fs|).metadata)
    ensures IsIndex(after, d, fs + [raw], capacity)
  {
    hide Last, Only, Occurrences, IsMessageStatistics, Touched, Annotate;
    forall id
      ensures (id in after <==> Occurrences(id, fs + [raw]) > 0)
              && (id in after ==> IsMessageStatistics(after[id], d, id, fs + [raw], capacity))
    {
      EntryAfterIngest(id, before, after, d, fs, raw, capacity);
    }
  }

  lemma {:induction false} EntryAfterIngest(id: nat, before: map<nat, MessageStatistics>,
                                            after: map<nat, MessageStatistics>, d: Dbc,
                         fs: seq<RawFrame>, raw: RawFrame, capacity: nat)
    requires capacity > 0
    requires id in before <==> Occurrences(id, fs) > 0
    requires id in before ==> IsMessageStatistics(before[id], d, id, fs, capacity)
    requires |fs| >= capacity ==> Last(fs, capacity)[0].arbitrationId in before
                                  && before[Last(fs, capacity)[0].arbitrationId].retained > 0
    requires after == Touched(Evicted(before, fs, capacity), raw, Annotate(d, raw, |fs|).metadata)
    ensures id in after <==> Occurrences(id, fs + [raw]) > 0
    ensures id in after ==> IsMessageStatistics(after[id], d, id, fs + [raw], capacity)
  {
    hide Last, Only, Occurrences, Evicted;
    EvictedEntry(id, before, fs, capacity);
    OnlyAppend(id, fs, raw);
    RetainedAppend(id, fs, raw, capacity);
    if raw.arbitrationId != id {
      assert Only(id, fs) + [] == Only(id, fs);
    } else {
      RetainedAtMostTotal(id, fs, capacity);
    }
  }

  lemma {:induction false} EvictedEntry(id: nat, before: map<nat, MessageStatistics>, fs: seq<RawFrame>, capacity: nat)
    requires capacity > 0
    requires |fs| >= capacity ==> Last(fs, capacity)[0].arbitrationId in before
                                  && before[Last(fs, capacity)[0].arbitrationId].retained > 0
    ensures var e := Evicted(before, fs, capacity);
            var drops := |fs| >= capacity && Last(fs, capacity)[0].arbitrationId == id;
            && (id in e <==> id in before)
            && (id in before && drops ==>
                 before[id].retained > 0 && e[id] == before[id].(retained := before[id].retained - 1))
            && (id in before && !drops ==> e[id] == before[id])
  {
  }

  function Evicted(messages: map<nat, MessageStatistics>, fs: seq<RawFrame>, capacity: nat): map<nat, MessageStatistics>
    requires capacity > 0
    requires |fs| >= capacity ==> Last(fs, capacity)[0].arbitrationId in messages
                                  && messages[Last(fs, capacity)[0].arbitrationId].retained > 0
  {
    if |fs| < capacity then messages
    else
      var id := Last(fs, capacity)[0].arbitrationId;
      messages[id := messages[id].(retained := messages[id].retained - 1)]
  }

  function Ids(ms: seq<MessageStatistics>): (ids: seq<nat>)
    ensures |ids| == |ms| && forall i :: 0 <= i < |ms| ==> ids[i] == ms[i].arbitrationId
  {
    seq(|ms|, i requires 0 <= i < |ms| => ms[i].arbitrationId)
  }

  function SumRetained(ms: seq<MessageStatistics>): nat {
    if ms == [] then 0 else SumRetained(ms[..|ms| - 1]) + ms[|ms| - 1].retained
  }

  function SumTotal(ms: seq<MessageStatistics>): nat {
    if ms == [] then 0 else SumTotal(ms[..|ms| - 1]) + ms[|ms| - 1].total
  }

  lemma {:induction false} SumsAreOccurrences(ms: seq<MessageStatistics>, d: Dbc, fs: seq<RawFrame>, capacity: nat)
    requires forall m <- ms :: IsMessageStatistics(m, d, m.arbitrationId, fs, capacity)
    ensures SumTotal(ms) == SumOccurrences(Ids(ms), fs)
    ensures SumRetained(ms) == SumOccurrences(Ids(ms), Last(fs, capacity))
  {
    if ms != [] {
      hide Only, Occurrences, Last;
      var n := |ms| - 1;
      SumsAreOccurrences(ms[..n], d, fs, capacity);
      assert Ids(ms)[..n] == Ids(ms[..n]);
      assert ms[n] in ms;
    }
  }

  /** The counters add up: over the list of every ID, retained counts sum to the length of the ring
      and totals to the number of frames ever ingested. */
  lemma {:induction false} CountersAddUp(ms: seq<MessageStatistics>, d: Dbc, fs: seq<RawFrame>, capacity: nat)
    requires forall i, j :: 0 <= i < j < |ms| ==> ms[i].arbitrationId < ms[j].arbitrationId
    requires forall m <- ms :: IsMessageStatistics(m, d, m.arbitrationId, fs, capacity)
    requires forall f <- fs :: exists i :: 0 <= i < |ms| && ms[i].arbitrationId == f.arbitrationId
    ensures SumRetained(ms) == |Last(fs, capacity)|
    ensures SumTotal(ms) == |fs|
  {
    hide IsMessageStatistics, SumRetained, SumTotal, SumOccurrences;
    SumsAreOccurrences(ms, d, fs, capacity);
    var ids := Ids(ms);
    forall f | f in fs
      ensures f.arbitrationId in ids
    {
      var i :| 0 <= i < |ms| && ms[i].arbitrationId == f.arbitrationId;
      assert ids[i] == f.arbitrationId;
    }
    CountsPartition(ids, fs);
    CountsPartition(ids, Last(fs, capacity));
  }
}
