/** The browser's raw-CAN reducer (frontend/lib/can/state.ts): a bounded mirror of the explorer
    with a presentation-only freeze. */
module CanClient {
  import opened Prelude
  import opened RawCan
  import opened CanExplorer

  const CLIENT_CAPACITY: nat := 1_000

  datatype FrameEvent = FrameEvent(
    frame: ExplorerFrame,
    statistics: ExplorerStatistics,
    message: MessageStatistics)

  datatype InitialEvent = InitialEvent(
    frames: seq<ExplorerFrame>,
    statistics: ExplorerStatistics,
    messages: seq<MessageStatistics>)

  datatype Warning = Ignored(received: nat, latest: nat) | Gap(expected: nat, received: nat)

  datatype Client = Client(
    current: seq<ExplorerFrame>,
    displayed: seq<ExplorerFrame>,
    messages: map<nat, MessageStatistics>,
    statistics: ExplorerStatistics,
    frozen: bool,
    passedWhileFrozen: int,
    warning: Option<Warning>,
    initialized: bool)

  datatype Action =
    | Initial(event: InitialEvent)
    | Frames(events: seq<FrameEvent>)
    | ToggleFreeze

  function ApplyFrame(s: Client, e: FrameEvent): Client {
    var latest := s.statistics.lastSequence;
    if latest.Some? && e.frame.sequence <= latest.value
    then s.(warning := Some(Ignored(e.frame.sequence, latest.value)))
    else
      var current := Last(s.current + [e.frame], CLIENT_CAPACITY);
      s.(current := current,
         displayed := if s.frozen then s.displayed else current,
         messages := s.messages[e.message.arbitrationId := e.message],
         statistics := e.statistics,
         passedWhileFrozen :=
           if s.frozen then s.passedWhileFrozen + (if latest.None? then 1 else e.frame.sequence - latest.value) else 0,
         warning := if latest.Some? && e.frame.sequence != latest.value + 1
                    then Some(Gap(latest.value + 1, e.frame.sequence)) else s.warning,
         initialized := true)
  }

  function ApplyFrames(s: Client, es: seq<FrameEvent>): Client {
    if es == [] then s else ApplyFrame(ApplyFrames(s, es[..|es| - 1]), es[|es| - 1])
  }

  function MessagesById(ms: seq<MessageStatistics>): map<nat, MessageStatistics> {
    if ms == [] then map[] else MessagesById(ms[..|ms| - 1])[ms[|ms| - 1].arbitrationId := ms[|ms| - 1]]
  }

  function SequenceOr(o: Option<nat>, otherwise: int): int {
    if o.Some? then o.value else otherwise
  }

  function Reduce(s: Client, a: Action): Client {
    match a
    case Initial(e) =>
      var frames := Last(e.frames, CLIENT_CAPACITY);
      var behind := SequenceOr(e.statistics.lastSequence, -1) - SequenceOr(s.statistics.lastSequence, -1);
      s.(current := frames,
         displayed := if s.frozen then s.displayed else frames,
         messages := MessagesById(e.messages),
         statistics := e.statistics,
         passedWhileFrozen := if s.frozen then (if behind > 0 then behind else 0) else 0,
         warning := None,
         initialized := true)
    case Frames(es) => ApplyFrames(s, es)
    case ToggleFreeze =>
      if s.frozen then s.(frozen := false, displayed := s.current, passedWhileFrozen := 0) else s.(frozen := true)
  }

  // ---- what the server sends ----

  /** The event published for the frame at position `n` of `fs`. */
  ghost predicate IsEventFor(e: FrameEvent, d: Dbc, fs: seq<RawFrame>, capacity: nat, n: nat)
    requires n < |fs| && capacity > 0
  {
    && e.frame == Annotate(d, fs[n], n)
    && IsExplorerStatistics(e.statistics, fs[..n + 1], capacity)
    && IsMessageStatistics(e.message, d, fs[n].arbitrationId, fs[..n + 1], capacity)
  }

  /** How many frames a snapshot holds at most. */
  function Held(capacity: nat, limit: Option<nat>): nat {
    if limit.Some? then Min(limit.value, capacity) else capacity
  }

  /** The snapshot handed to a new subscriber, with the last `limit` retained frames, or all. */
  ghost predicate IsInitialFor(e: InitialEvent, d: Dbc, fs: seq<RawFrame>, capacity: nat, limit: Option<nat>)
    requires capacity > 0
  {
    && e.frames == Last(AnnotateAll(d, fs), Held(capacity, limit))
    && IsExplorerStatistics(e.statistics, fs, capacity)
    && (forall m <- e.messages :: IsMessageStatistics(m, d, m.arbitrationId, fs, capacity))
    && (forall f <- fs :: exists i :: 0 <= i < |e.messages| && e.messages[i].arbitrationId == f.arbitrationId)
  }

  /** The counters of one ID apart from its retained count. */
  predicate SameCounters(m: MessageStatistics, d: Dbc, id: nat, fs: seq<RawFrame>) {
    var own := Only(id, fs);
    && own != []
    && m.arbitrationId == id
    && m.metadata == (if id in d.metadata then Some(d.metadata[id]) else None)
    && m.total == |own|
    && m.first == own[0].timestamp
    && m.latest == own[|own| - 1].timestamp
    && m.latestDlc == |own[|own| - 1].payload|
  }

  /** The retained count of one ID is the explorer's after `n` frames: after the snapshot, which covered
      `first` frames, or after the newest frame of that ID, whichever is later. Frames of other IDs may
      lower it in the explorer without the client being told. */
  ghost predicate RetainedAsOf(m: MessageStatistics, id: nat, fs: seq<RawFrame>, capacity: nat, first: nat, n: nat) {
    && first <= n <= |fs|
    && (n == first || fs[n - 1].arbitrationId == id)
    && Occurrences(id, fs[n..]) == 0
    && m.retained == Occurrences(id, Last(fs[..n], capacity))
  }

  ghost predicate MirrorsMessage(m: MessageStatistics, d: Dbc, id: nat, fs: seq<RawFrame>, capacity: nat, first: nat) {
    SameCounters(m, d, id, fs) && exists n: nat :: RetainedAsOf(m, id, fs, capacity, first, n)
  }

  ghost predicate MirrorsMessages(ms: map<nat, MessageStatistics>, d: Dbc, fs: seq<RawFrame>, capacity: nat,
                                  first: nat) {
    forall id :: (id in ms <==> Occurrences(id, fs) > 0)
                 && (id in ms ==> MirrorsMessage(ms[id], d, id, fs, capacity, first))
  }

  /** The client of a snapshot that covered `first` frames holds the last `held` frames of the explorer's
      run and its counters, unwarned. */
  ghost predicate Mirrors(s: Client, d: Dbc, fs: seq<RawFrame>, capacity: nat, first: nat, held: nat)
    requires capacity > 0
  {
    && s.current == Last(AnnotateAll(d, fs), held)
    && IsExplorerStatistics(s.statistics, fs, capacity)
    && MirrorsMessages(s.messages, d, fs, capacity, first)
    && s.warning.None?
    && s.initialized
  }

  function Min(a: nat, b: nat): nat {
    if a <= b then a else b
  }

  // ---- replication ----

  ghost predicate Lists(ms: seq<MessageStatistics>, id: nat) {
    exists i :: 0 <= i < |ms| && ms[i].arbitrationId == id
  }

  lemma {:induction false} ListsAppend(ms: seq<MessageStatistics>, m: MessageStatistics, id: nat)
    ensures Lists(ms + [m], id) <==> Lists(ms, id) || m.arbitrationId == id
  {
    var n := ms + [m];
    if i :| 0 <= i < |ms| && ms[i].arbitrationId == id {
      assert n[i].arbitrationId == id;
    }
    if m.arbitrationId == id {
      assert n[|ms|].arbitrationId == id;
    }
  }

  lemma {:induction false} CountersOf(m: MessageStatistics, d: Dbc, id: nat, fs: seq<RawFrame>, capacity: nat)
    requires IsMessageStatistics(m, d, id, fs, capacity)
    ensures SameCounters(m, d, id, fs)
    ensures forall first: nat :: first <= |fs| && (first < |fs| ==> fs[|fs| - 1].arbitrationId == id) ==>
              MirrorsMessage(m, d, id, fs, capacity, first)
  {
    hide Last, Only;
    assert fs[..|fs|] == fs && fs[|fs|..] == [];
    forall first: nat | first <= |fs| && (first < |fs| ==> fs[|fs| - 1].arbitrationId == id)
      ensures MirrorsMessage(m, d, id, fs, capacity, first)
    {
      assert RetainedAsOf(m, id, fs, capacity, first, |fs|);
    }
  }

  lemma {:induction false} ListedMessagesMirror(ms: seq<MessageStatistics>, d: Dbc, fs: seq<RawFrame>, capacity: nat)
    requires forall i :: 0 <= i < |ms| ==> IsMessageStatistics(ms[i], d, ms[i].arbitrationId, fs, capacity)
    ensures forall id :: id in MessagesById(ms) <==> Lists(ms, id)
    ensures forall id <- MessagesById(ms) :: IsMessageStatistics(MessagesById(ms)[id], d, id, fs, capacity)
  {
    hide Lists, IsMessageStatistics;
    if ms == [] {
      NothingListed();
    } else {
      var n := |ms| - 1;
      ListedMessagesMirror(ms[..n], d, fs, capacity);
      assert ms == ms[..n] + [ms[n]];
      forall id
        ensures Lists(ms, id) <==> Lists(ms[..n], id) || ms[n].arbitrationId == id
      {
        ListsAppend(ms[..n], ms[n], id);
      }
    }
  }

  lemma {:induction false} NothingListed()
    ensures forall id :: !Lists([], id)
  {
  }

  /** Loading a snapshot mirrors the explorer, every retained count included. */
  lemma {:induction false} InitialMirrors(s: Client, e: InitialEvent, d: Dbc, fs: seq<RawFrame>, capacity: nat,
                                          limit: Option<nat>)
    requires capacity > 0 && IsInitialFor(e, d, fs, capacity, limit)
    ensures var t := Reduce(s, Initial(e));
            && Mirrors(t, d, fs, capacity, |fs|, Min(1_000, Held(capacity, limit)))
            && forall id <- t.messages :: IsMessageStatistics(t.messages[id], d, id, fs, capacity)
  {
    hide AnnotateAll, IsExplorerStatistics, IsMessageStatistics, SameCounters, Only, Occurrences, Held, MirrorsMessage;
    var all := AnnotateAll(d, fs);
    var ms := MessagesById(e.messages);
    ListedMessagesMirror(e.messages, d, fs, capacity);
    forall id
      ensures id in ms <==> Occurrences(id, fs) > 0
      ensures id in ms ==> MirrorsMessage(ms[id], d, id, fs, capacity, |fs|)
    {
      if id in ms {
        CountersOf(ms[id], d, id, fs, capacity);
        MirroredOccurs(ms[id], d, id, fs);
      }
      if Occurrences(id, fs) > 0 {
        var i := SomeoneOccurs(id, fs);
        assert fs[i] in fs;
        assert Lists(e.messages, id);
      }
    }
    var held := Held(capacity, limit);
    LastOfLast(all, [], held, Min(CLIENT_CAPACITY, held));
    assert Last(all, held) + [] == Last(all, held) && all + [] == all;
    assert Last(Last(all, held), CLIENT_CAPACITY) == Last(all, Min(CLIENT_CAPACITY, held));
  }

  lemma {:induction false} MirroredOccurs(m: MessageStatistics, d: Dbc, id: nat, fs: seq<RawFrame>)
    requires SameCounters(m, d, id, fs)
    ensures Occurrences(id, fs) > 0
  {
  }

  lemma {:induction false} CountersCarryOver(m: MessageStatistics, d: Dbc, id: nat, fs: seq<RawFrame>, f: RawFrame,
                                             capacity: nat, first: nat)
    requires MirrorsMessage(m, d, id, fs, capacity, first) && f.arbitrationId != id
    ensures MirrorsMessage(m, d, id, fs + [f], capacity, first)
  {
    hide Last, Only, Occurrences;
    OnlyAppend(id, fs, f);
    assert Only(id, fs) + [] == Only(id, fs);
    var n: nat :| RetainedAsOf(m, id, fs, capacity, first, n);
    OnlyAppend(id, fs[n..], f);
    assert (fs + [f])[n..] == fs[n..] + [f] && (fs + [f])[..n] == fs[..n];
    assert RetainedAsOf(m, id, fs + [f], capacity, first, n);
  }

  lemma {:induction false} MessagesMirror(ms: map<nat, MessageStatistics>, m: MessageStatistics, d: Dbc,
                                          fs: seq<RawFrame>, f: RawFrame, capacity: nat, first: nat)
    requires MirrorsMessages(ms, d, fs, capacity, first) && first <= |fs|
    requires IsMessageStatistics(m, d, f.arbitrationId, fs + [f], capacity)
    ensures MirrorsMessages(ms[f.arbitrationId := m], d, fs + [f], capacity, first)
  {
    hide MirrorsMessage, Only, Occurrences, IsMessageStatistics;
    CountersOf(m, d, f.arbitrationId, fs + [f], capacity);
    forall id
      ensures Occurrences(id, fs + [f]) == Occurrences(id, fs) + if f.arbitrationId == id then 1 else 0
      ensures id in ms && id != f.arbitrationId ==> MirrorsMessage(ms[id], d, id, fs + [f], capacity, first)
    {
      OnlyAppend(id, fs, f);
      if id in ms && id != f.arbitrationId {
        CountersCarryOver(ms[id], d, id, fs, f, capacity, first);
      }
    }
  }

  lemma {:induction false} RingMirrors<T>(all: seq<T>, x: T, held: nat)
    requires held <= CLIENT_CAPACITY
    ensures Last(Last(all, held) + [x], CLIENT_CAPACITY) == Last(all + [x], Min(CLIENT_CAPACITY, held + 1))
  {
  }

  lemma {:induction false} EventFacts(e: FrameEvent, d: Dbc, fs: seq<RawFrame>, capacity: nat, n: nat)
    requires capacity > 0 && n < |fs| && IsEventFor(e, d, fs, capacity, n)
    ensures e.frame == Annotate(d, fs[n], n) && e.frame.sequence == n
    ensures e.message.arbitrationId == fs[n].arbitrationId
    ensures IsExplorerStatistics(e.statistics, fs[..n + 1], capacity)
    ensures IsMessageStatistics(e.message, d, fs[n].arbitrationId, fs[..n + 1], capacity)
  {
    hide Last, Only, Occurrences, AnnotateAll;
  }

  lemma {:induction false} LastSequenceOf(s: ExplorerStatistics, fs: seq<RawFrame>, capacity: nat)
    requires capacity > 0 && IsExplorerStatistics(s, fs, capacity)
    ensures s.lastSequence == if fs == [] then None else Some(|fs| - 1)
  {
  }

  /** One delta keeps the mirror and is accepted without a gap or duplicate warning. */
  lemma {:induction false} FrameMirrors(s: Client, e: FrameEvent, d: Dbc, fs: seq<RawFrame>, f: RawFrame,
                                        capacity: nat, first: nat, held: nat)
    requires capacity > 0 && held <= CLIENT_CAPACITY && first <= |fs|
    requires Mirrors(s, d, fs, capacity, first, held) && IsEventFor(e, d, fs + [f], capacity, |fs|)
    ensures Mirrors(ApplyFrame(s, e), d, fs + [f], capacity, first, Min(CLIENT_CAPACITY, held + 1))
  {
    hide AnnotateAll, Annotate, Last, MirrorsMessages, IsMessageStatistics, IsExplorerStatistics, IsEventFor, Min;
    assert (fs + [f])[..|fs| + 1] == fs + [f] && (fs + [f])[|fs|] == f;
    EventFacts(e, d, fs + [f], capacity, |fs|);
    LastSequenceOf(s.statistics, fs, capacity);
    AnnotateAppend(d, fs, f);
    RingMirrors(AnnotateAll(d, fs), e.frame, held);
    MessagesMirror(s.messages, e.message, d, fs, f, capacity, first);
  }

  /** The events published for the frames that follow the first `first` of `all`. */
  ghost predicate AreEvents(es: seq<FrameEvent>, d: Dbc, all: seq<RawFrame>, capacity: nat, first: nat)
    requires capacity > 0
  {
    first + |es| <= |all| && forall i :: 0 <= i < |es| ==> IsEventFor(es[i], d, all, capacity, first + i)
  }

  lemma {:induction false} FirstEvents(es: seq<FrameEvent>, d: Dbc, all: seq<RawFrame>, capacity: nat, first: nat)
    requires capacity > 0 && es != [] && AreEvents(es, d, all, capacity, first)
    ensures AreEvents(es[..|es| - 1], d, all, capacity, first)
    ensures first + |es| <= |all| && IsEventFor(es[|es| - 1], d, all, capacity, first + |es| - 1)
    ensures var n := first + |es| - 1; all[..n + 1] == all[..n] + [all[n]]
  {
    hide IsEventFor;
  }

  lemma {:induction false} EventOfPrefix(e: FrameEvent, d: Dbc, all: seq<RawFrame>, capacity: nat, n: nat)
    requires capacity > 0 && n < |all| && IsEventFor(e, d, all, capacity, n)
    ensures IsEventFor(e, d, all[..n] + [all[n]], capacity, n)
  {
    hide Last, Only, Occurrences, IsExplorerStatistics, IsMessageStatistics, Annotate;
    var some := all[..n] + [all[n]];
    assert some[..n + 1] == all[..n + 1] && some[n] == all[n];
  }

  /** Replication of the raw bus: after a snapshot taken at any moment and any number of deltas,
      the client holds the last min(1000, initial + received) frames of the whole run, and the
      server's statistics and per-ID counters as of that frame, with no warning; only the retained count of
      an ID is as old as that ID's newest frame. */
  lemma {:induction false} ClientFollowsExplorer(s: Client, es: seq<FrameEvent>, d: Dbc, all: seq<RawFrame>,
                                                 capacity: nat,
                                                 first: nat, held: nat)
    requires capacity > 0 && held <= CLIENT_CAPACITY && AreEvents(es, d, all, capacity, first)
    requires Mirrors(s, d, all[..first], capacity, first, held)
    ensures Mirrors(Reduce(s, Frames(es)), d, all[..first + |es|], capacity, first, Min(1_000, held + |es|))
  {
    hide Mirrors, IsEventFor, ApplyFrame, AreEvents, Last, IsInitialFor;
    if es != [] {
      var n := |es| - 1;
      FirstEvents(es, d, all, capacity, first);
      ClientFollowsExplorer(s, es[..n], d, all, capacity, first, held);
      EventOfPrefix(es[n], d, all, capacity, first + n);
      FrameMirrors(ApplyFrames(s, es[..n]), es[n], d, all[..first + n], all[first + n], capacity, first,
                   Min(CLIENT_CAPACITY, held + n));
    }
  }

  /** Whatever the client and the event: a sequence not beyond the latest changes nothing but the warning, one
      beyond the next is taken with a warning that names both, and the next one is taken as it is. A frozen view
      counts skipped frames as passed. */
  lemma {:induction false} SequencesAreChecked(s: Client, e: FrameEvent)
    ensures var t, latest := ApplyFrame(s, e), s.statistics.lastSequence;
            && (latest.Some? && e.frame.sequence <= latest.value ==>
                  t == s.(warning := Some(Ignored(e.frame.sequence, latest.value))))
            && (latest.None? || e.frame.sequence > latest.value ==>
                  && t.current != [] && t.current[|t.current| - 1] == e.frame && t.initialized
                  && t.statistics == e.statistics && t.frozen == s.frozen
                  && t.messages == s.messages[e.message.arbitrationId := e.message]
                  && t.displayed == (if s.frozen then s.displayed else t.current)
                  && (!s.frozen ==> t.passedWhileFrozen == 0)
                  && (s.frozen && latest.None? ==> t.passedWhileFrozen == s.passedWhileFrozen + 1)
                  && (s.frozen && latest.Some? ==>
                        t.passedWhileFrozen - s.passedWhileFrozen == e.frame.sequence - latest.value)
                  && t.warning == if latest.Some? && e.frame.sequence > latest.value + 1
                                  then Some(Gap(latest.value + 1, e.frame.sequence)) else s.warning)
  {
  }

  /** A snapshot reloads what is current and clears the warning; a frozen view stands still, and counts the
      frames of the explorer's run that have passed it since the state the client had. */
  lemma {:induction false} SnapshotKeepsFreeze(s: Client, e: InitialEvent, d: Dbc, before: seq<RawFrame>,
                                               after: seq<RawFrame>, capacity: nat, limit: Option<nat>)
    requires capacity > 0 && IsExplorerStatistics(s.statistics, before, capacity)
    requires IsInitialFor(e, d, after, capacity, limit)
    ensures var t := Reduce(s, Initial(e));
            && t.warning.None? && t.frozen == s.frozen
            && (!s.frozen ==> t.displayed == t.current && t.passedWhileFrozen == 0)
            && (s.frozen ==>
                  && t.displayed == s.displayed
                  && t.passedWhileFrozen == if |after| > |before| then |after| - |before| else 0)
  {
    hide Last, AnnotateAll, IsMessageStatistics;
    LastSequenceOf(s.statistics, before, capacity);
    LastSequenceOf(e.statistics, after, capacity);
  }

  /** One delta that is neither a duplicate nor after a gap, seen by a live and by a frozen client. */
  lemma {:induction false} FrozenStep(live: Client, e: FrameEvent, displayed: seq<ExplorerFrame>, passed: nat)
    requires !live.frozen && live.displayed == live.current && live.passedWhileFrozen == 0
    requires live.statistics.lastSequence.Some? ==> e.frame.sequence == live.statistics.lastSequence.value + 1
    ensures var next := ApplyFrame(live, e);
            && !next.frozen && next.displayed == next.current && next.passedWhileFrozen == 0
            && ApplyFrame(live.(frozen := true, displayed := displayed, passedWhileFrozen := passed), e)
               == next.(frozen := true, displayed := displayed, passedWhileFrozen := passed + 1)
  {
    hide Last;
  }

  lemma {:induction false} NextInSequence(s: Client, e: FrameEvent, d: Dbc, all: seq<RawFrame>, capacity: nat,
                                          n: nat, first: nat, held: nat)
    requires capacity > 0 && n < |all| && Mirrors(s, d, all[..n], capacity, first, held)
             && IsEventFor(e, d, all, capacity, n)
    ensures s.statistics.lastSequence.Some? ==> e.frame.sequence == s.statistics.lastSequence.value + 1
  {
    hide IsEventFor, IsExplorerStatistics, IsMessageStatistics, MirrorsMessages, Last, AnnotateAll;
    EventFacts(e, d, all, capacity, n);
    LastSequenceOf(s.statistics, all[..n], capacity);
  }

  /** What freezing does to a batch of deltas. */
  lemma {:induction false} FrozenBatch(s: Client, es: seq<FrameEvent>, d: Dbc, all: seq<RawFrame>, capacity: nat,
                                       first: nat, held: nat)
    requires capacity > 0 && held <= CLIENT_CAPACITY && AreEvents(es, d, all, capacity, first)
    requires Mirrors(s, d, all[..first], capacity, first, held)
    requires !s.frozen && s.displayed == s.current && s.passedWhileFrozen == 0
    ensures var live := ApplyFrames(s, es);
            && !live.frozen && live.displayed == live.current && live.passedWhileFrozen == 0
            && ApplyFrames(s.(frozen := true), es)
               == live.(frozen := true, displayed := s.displayed, passedWhileFrozen := |es|)
  {
    hide Mirrors, IsEventFor, ApplyFrame, AreEvents, Min;
    if es != [] {
      var n := |es| - 1;
      FirstEvents(es, d, all, capacity, first);
      FrozenBatch(s, es[..n], d, all, capacity, first, held);
      ClientFollowsExplorer(s, es[..n], d, all, capacity, first, held);
      NextInSequence(ApplyFrames(s, es[..n]), es[n], d, all, capacity, first + n, first,
                     Min(CLIENT_CAPACITY, held + n));
      FrozenStep(ApplyFrames(s, es[..n]), es[n], s.displayed, n);
    }
  }

  /** Freezing is presentation only: the frozen view stands still and counts exactly the frames
      that pass it, and unfreezing gives the state a client that never froze would have. */
  lemma {:induction false} FreezeIsPresentationOnly(s: Client, es: seq<FrameEvent>, d: Dbc, all: seq<RawFrame>,
                                                    capacity: nat,
                                 first: nat, held: nat)
    requires capacity > 0 && held <= CLIENT_CAPACITY && AreEvents(es, d, all, capacity, first)
    requires Mirrors(s, d, all[..first], capacity, first, held)
    requires !s.frozen && s.displayed == s.current && s.passedWhileFrozen == 0
    ensures var frozen := Reduce(Reduce(s, ToggleFreeze), Frames(es));
            && frozen.displayed == s.displayed
            && frozen.passedWhileFrozen == |es|
            && Reduce(frozen, ToggleFreeze) == Reduce(s, Frames(es))
  {
    hide ApplyFrames, Mirrors, AreEvents;
    FrozenBatch(s, es, d, all, capacity, first, held);
  }
}
