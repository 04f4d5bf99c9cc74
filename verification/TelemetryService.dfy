/** The service that owns the pipeline (telemetry/service.py): its lifecycle, the engines it feeds,
    and what it publishes to every open subscription. */
module TelemetryService {
  import opened Prelude
  import opened TelemetryModels
  import opened RawCan
  import T = TelemetryEngine
  import TC = TelemetryClient
  import X = CanExplorer
  import XC = CanClient

  datatype Lifecycle = Stopped | Connecting | Running | Completed | Failed

  datatype Published<U> = Delta(update: U) | Changed(state: Lifecycle)

  /** One subscription as the publisher sees it: how many frames its initial snapshot covered, and
      everything published to it since. */
  datatype Feed<U> = Feed(first: nat, published: seq<Published<U>>)

  datatype World = World(
    state: Lifecycle,
    liveStarted: bool,
    decoded: seq<T.DecodedFrame>,
    raw: seq<RawFrame>,
    feeds: map<nat, Feed<TC.Update>>,
    canFeeds: map<nat, Feed<XC.FrameEvent>>)

  /** The fixed parts: signal catalog, CAN database and explorer capacity. */
  datatype Setup = Setup(catalog: T.Catalog, dbc: X.Dbc, capacity: nat)

  datatype Step =
    | Start
    | StartReplay
    | Transition(state: Lifecycle)
    | Explore(raw: RawFrame, event: XC.FrameEvent)
    | Ingest(frame: T.DecodedFrame)
    | Subscribe(id: nat)
    | SubscribeCan(id: nat)
    | Close(id: nat)
    | CloseCan(id: nat)

  function InitialWorld(): World {
    World(Stopped, false, [], [], map[], map[])
  }

  predicate SourceIsActive(w: World) {
    w.state in [Connecting, Running]
  }

  ghost predicate Enabled(u: Setup, w: World, step: Step) {
    match step
    case Start => !w.liveStarted && !SourceIsActive(w)
    case StartReplay => !SourceIsActive(w) && w.feeds == map[] && w.canFeeds == map[]
    case Transition(_) => true
    case Explore(f, e) => u.capacity > 0 && XC.IsEventFor(e, u.dbc, w.raw + [f], u.capacity, |w.raw|)
    case Ingest(f) =>
      && T.Described(u.catalog, f) && f.signals != []
      && (w.decoded != [] ==> w.decoded[|w.decoded| - 1].timestamp <= f.timestamp)
    case Subscribe(id) => id !in w.feeds
    case SubscribeCan(id) => id !in w.canFeeds
    case Close(id) => id in w.feeds
    case CloseCan(id) => id in w.canFeeds
  }

  /** `publish`: every open subscription is offered the event. */
  function Publish<U>(feeds: map<nat, Feed<U>>, p: Published<U>): (r: map<nat, Feed<U>>)
    ensures r.Keys == feeds.Keys
    ensures forall id <- feeds :: r[id].first == feeds[id].first && r[id].published == feeds[id].published + [p]
  {
    map id | id in feeds :: Feed(feeds[id].first, feeds[id].published + [p])
  }

  function Entered(w: World, s: Lifecycle): World {
    w.(state := s, feeds := Publish(w.feeds, Changed(s)), canFeeds := Publish(w.canFeeds, Changed(s)))
  }

  ghost function Apply(u: Setup, w: World, step: Step): World
    requires Enabled(u, w, step)
  {
    match step
    case Start => Entered(w.(liveStarted := true, raw := []), Connecting)
    case StartReplay => Entered(w.(decoded := [], raw := []), Running)
    case Transition(s) => Entered(w, s)
    case Explore(f, e) => w.(raw := w.raw + [f], canFeeds := Publish(w.canFeeds, Delta(e)))
    case Ingest(f) =>
      w.(decoded := w.decoded + [f],
         feeds := Publish(w.feeds, Delta(TC.UpdateOf(u.catalog, f, |w.decoded|))))
    case Subscribe(id) => w.(feeds := w.feeds[id := Feed(|w.decoded|, [])])
    case SubscribeCan(id) => w.(canFeeds := w.canFeeds[id := Feed(|w.raw|, [])])
    case Close(id) => w.(feeds := w.feeds - {id})
    case CloseCan(id) => w.(canFeeds := w.canFeeds - {id})
  }

  function DeltasOf<U>(ps: seq<Published<U>>): (r: seq<U>)
    ensures |r| <= |ps|
  {
    if ps == [] then []
    else DeltasOf(ps[..|ps| - 1]) + if ps[|ps| - 1].Delta? then [ps[|ps| - 1].update] else []
  }

  lemma {:induction false} DeltasAppend<U>(ps: seq<Published<U>>, p: Published<U>)
    ensures DeltasOf(ps + [p]) == DeltasOf(ps) + if p.Delta? then [p.update] else []
  {
    assert (ps + [p])[..|ps|] == ps;
  }

  // ---- what a subscription must have been sent ----

  /** Since its snapshot, exactly one delta for every frame the telemetry engine accepted. */
  ghost predicate Follows(u: Setup, f: Feed<TC.Update>, decoded: seq<T.DecodedFrame>) {
    && f.first <= |decoded|
    && TC.AllDescribed(u.catalog, decoded[f.first..])
    && DeltasOf(f.published) == TC.UpdatesOf(u.catalog, f.first, decoded[f.first..])
  }

  /** Since its snapshot, exactly one delta for every frame the explorer ingested. */
  ghost predicate FollowsCan(u: Setup, f: Feed<XC.FrameEvent>, raw: seq<RawFrame>)
    requires u.capacity > 0
  {
    f.first + |DeltasOf(f.published)| == |raw| && XC.AreEvents(DeltasOf(f.published), u.dbc, raw, u.capacity, f.first)
  }

  ghost predicate AllFollow(u: Setup, w: World) {
    && T.Accepted(u.catalog, w.decoded)
    && forall id <- w.feeds :: Follows(u, w.feeds[id], w.decoded)
  }

  ghost predicate AllFollowCan(u: Setup, w: World)
    requires u.capacity > 0
  {
    forall id <- w.canFeeds :: FollowsCan(u, w.canFeeds[id], w.raw)
  }

  lemma {:induction false} FollowsOneMore(u: Setup, f: Feed<TC.Update>, decoded: seq<T.DecodedFrame>, x: T.DecodedFrame)
    requires Follows(u, f, decoded) && T.Described(u.catalog, x)
    ensures Follows(u, Feed(f.first, f.published + [Delta(TC.UpdateOf(u.catalog, x, |decoded|))]), decoded + [x])
  {
    hide T.Described, TC.UpdateOf, DeltasOf;
    var later := decoded[f.first..];
    assert (decoded + [x])[f.first..] == later + [x];
    assert (later + [x])[..|later|] == later;
    DeltasAppend(f.published, Delta(TC.UpdateOf(u.catalog, x, |decoded|)));
  }

  lemma {:induction false} FollowsThroughChange(u: Setup, f: Feed<TC.Update>, decoded: seq<T.DecodedFrame>,
                                                s: Lifecycle)
    requires Follows(u, f, decoded)
    ensures Follows(u, Feed(f.first, f.published + [Changed(s)]), decoded)
  {
    hide DeltasOf, TC.UpdatesOf, TC.AllDescribed;
    DeltasAppend(f.published, Changed(s));
    assert DeltasOf(f.published) + [] == DeltasOf(f.published);
  }

  lemma {:induction false} FollowsCanOneMore(u: Setup, f: Feed<XC.FrameEvent>, raw: seq<RawFrame>, x: RawFrame,
                                             e: XC.FrameEvent)
    requires u.capacity > 0 && FollowsCan(u, f, raw)
    requires XC.IsEventFor(e, u.dbc, raw + [x], u.capacity, |raw|)
    ensures FollowsCan(u, Feed(f.first, f.published + [Delta(e)]), raw + [x])
  {
    hide DeltasOf, XC.IsEventFor;
    DeltasAppend(f.published, Delta(e));
    var before := DeltasOf(f.published);
    forall i | 0 <= i < |before|
      ensures XC.IsEventFor(before[i], u.dbc, raw + [x], u.capacity, f.first + i)
    {
      EventSurvives(before[i], u, raw, x, f.first + i);
    }
  }

  lemma {:induction false} EventSurvives(e: XC.FrameEvent, u: Setup, raw: seq<RawFrame>, x: RawFrame, n: nat)
    requires u.capacity > 0 && n < |raw| && XC.IsEventFor(e, u.dbc, raw, u.capacity, n)
    ensures XC.IsEventFor(e, u.dbc, raw + [x], u.capacity, n)
  {
    hide X.IsExplorerStatistics, X.IsMessageStatistics, X.Annotate;
    assert (raw + [x])[..n + 1] == raw[..n + 1];
  }

  lemma {:induction false} FollowsCanThroughChange(u: Setup, f: Feed<XC.FrameEvent>, raw: seq<RawFrame>, s: Lifecycle)
    requires u.capacity > 0 && FollowsCan(u, f, raw)
    ensures FollowsCan(u, Feed(f.first, f.published + [Changed(s)]), raw)
  {
    hide DeltasOf, XC.AreEvents;
    DeltasAppend(f.published, Changed(s));
    assert DeltasOf(f.published) + [] == DeltasOf(f.published);
  }

  lemma {:induction false} FeedsThroughChange(u: Setup, w: World, s: Lifecycle)
    requires u.capacity > 0
    ensures AllFollow(u, w) ==> AllFollow(u, Entered(w, s))
    ensures AllFollowCan(u, w) ==> AllFollowCan(u, Entered(w, s))
  {
    hide Follows, FollowsCan, T.Accepted;
    if AllFollow(u, w) {
      forall id | id in w.feeds
        ensures Follows(u, Entered(w, s).feeds[id], w.decoded)
      {
        FollowsThroughChange(u, w.feeds[id], w.decoded, s);
      }
    }
    if AllFollowCan(u, w) {
      forall id | id in w.canFeeds
        ensures FollowsCan(u, Entered(w, s).canFeeds[id], w.raw)
      {
        FollowsCanThroughChange(u, w.canFeeds[id], w.raw, s);
      }
    }
  }

  /** Every step keeps every telemetry subscription complete: the only step that empties the
      telemetry engine requires that nobody is subscribed. */
  lemma {:induction false} StepKeepsFeeds(u: Setup, w: World, step: Step)
    requires u.capacity > 0 && AllFollow(u, w) && Enabled(u, w, step)
    ensures AllFollow(u, Apply(u, w, step))
  {
    hide Follows, FollowsCan, AllFollowCan, T.Accepted, T.Described, TC.UpdateOf, XC.IsEventFor;
    match step
    case Start => FeedsThroughChange(u, w.(liveStarted := true, raw := []), Connecting);
    case StartReplay =>
      NothingAccepted(u.catalog);
      FeedsThroughChange(u, w.(decoded := [], raw := []), Running);
    case Transition(s) => FeedsThroughChange(u, w, s);
    case Ingest(x) =>
      T.AcceptedAppend(u.catalog, w.decoded, x);
      forall id | id in w.feeds
        ensures Follows(u, Apply(u, w, step).feeds[id], w.decoded + [x])
      {
        FollowsOneMore(u, w.feeds[id], w.decoded, x);
      }
    case Subscribe(id) => NewFeedFollows(u, w.decoded);
    case _ =>
  }

  lemma {:induction false} NothingAccepted(c: T.Catalog)
    ensures T.Accepted(c, [])
  {
  }

  lemma {:induction false} NewFeedFollows(u: Setup, decoded: seq<T.DecodedFrame>)
    ensures Follows(u, Feed(|decoded|, []), decoded)
  {
  }

  lemma {:induction false} NewCanFeedFollows(u: Setup, raw: seq<RawFrame>)
    requires u.capacity > 0
    ensures FollowsCan(u, Feed(|raw|, []), raw)
  {
  }

  /** Every step keeps every raw-CAN subscription complete, except that `Start` empties the
      explorer without looking at its subscribers: it does so exactly when nobody is subscribed to
      raw CAN or the explorer is empty already. */
  lemma {:induction false} StepKeepsCanFeeds(u: Setup, w: World, step: Step)
    requires u.capacity > 0 && AllFollowCan(u, w) && Enabled(u, w, step)
    ensures AllFollowCan(u, Apply(u, w, step)) <==> (step.Start? ==> w.canFeeds == map[] || w.raw == [])
  {
    hide Follows, FollowsCan, AllFollow, T.Described, TC.UpdateOf, XC.IsEventFor;
    match step
    case Start => StartKeepsCanFeeds(u, w);
    case StartReplay => FeedsThroughChange(u, w.(decoded := [], raw := []), Running);
    case Transition(s) => FeedsThroughChange(u, w, s);
    case Explore(x, e) =>
      forall id | id in w.canFeeds
        ensures FollowsCan(u, Apply(u, w, step).canFeeds[id], w.raw + [x])
      {
        FollowsCanOneMore(u, w.canFeeds[id], w.raw, x, e);
      }
    case SubscribeCan(id) => NewCanFeedFollows(u, w.raw);
    case _ =>
  }

  lemma {:induction false} StartKeepsCanFeeds(u: Setup, w: World)
    requires u.capacity > 0 && AllFollowCan(u, w) && Enabled(u, w, Start)
    ensures AllFollowCan(u, Apply(u, w, Start)) <==> w.canFeeds == map[] || w.raw == []
  {
    hide DeltasOf, XC.AreEvents;
    var reset := w.(liveStarted := true, raw := []);
    if w.raw == [] {
      FeedsThroughChange(u, reset, Connecting);
    } else if id :| id in w.canFeeds {
      var f := w.canFeeds[id];
      DeltasAppend(f.published, Changed(Connecting));
      var g := Apply(u, w, Start).canFeeds[id];
      assert g.first == f.first && DeltasOf(g.published) == DeltasOf(f.published);
      assert !FollowsCan(u, g, []);
    }
  }

  // ---- whole runs ----

  ghost predicate IsRun(u: Setup, worlds: seq<World>, steps: seq<Step>) {
    && |worlds| == |steps| + 1
    && worlds[0] == InitialWorld()
    && forall i :: 0 <= i < |steps| ==>
         Enabled(u, worlds[i], steps[i]) && worlds[i + 1] == Apply(u, worlds[i], steps[i])
  }

  lemma {:induction false} RunKeepsFeeds(u: Setup, worlds: seq<World>, steps: seq<Step>, n: nat)
    requires u.capacity > 0 && IsRun(u, worlds, steps) && n <= |steps|
    ensures AllFollow(u, worlds[n])
  {
    hide Enabled, Apply, Follows;
    if n > 0 {
      RunKeepsFeeds(u, worlds, steps, n - 1);
      StepKeepsFeeds(u, worlds[n - 1], steps[n - 1]);
    }
  }

  /** No live start happened while raw-CAN subscribers were watching a non-empty explorer. */
  predicate NoStartOverWatchers(worlds: seq<World>, steps: seq<Step>, n: nat)
    requires n <= |steps| < |worlds|
  {
    forall i :: 0 <= i < n && steps[i].Start? ==> worlds[i].canFeeds == map[] || worlds[i].raw == []
  }

  lemma {:induction false} RunKeepsCanFeeds(u: Setup, worlds: seq<World>, steps: seq<Step>, n: nat)
    requires u.capacity > 0 && IsRun(u, worlds, steps) && n <= |steps| && NoStartOverWatchers(worlds, steps, n)
    ensures AllFollowCan(u, worlds[n])
  {
    hide Enabled, Apply, FollowsCan;
    if n > 0 {
      RunKeepsCanFeeds(u, worlds, steps, n - 1);
      StepKeepsCanFeeds(u, worlds[n - 1], steps[n - 1]);
    }
  }

  /** The snapshot `s` was taken after the first `n` accepted frames. */
  ghost predicate TakenAt(s: Snapshot, u: Setup, decoded: seq<T.DecodedFrame>, n: nat) {
    n <= |decoded| && T.Accepted(u.catalog, decoded[..n]) && T.IsSnapshot(s, u.catalog, decoded[..n])
  }

  /** A client that has loaded the snapshot of its subscription and the first `k` deltas. */
  ghost predicate SeesEngine(client: TC.Client, u: Setup, f: Feed<TC.Update>, k: nat, decoded: seq<T.DecodedFrame>) {
    && f.first + k <= |decoded|
    && T.Accepted(u.catalog, decoded[..f.first + k])
    && TC.Mirrors(client, u.catalog, decoded[..f.first + k])
  }

  lemma {:induction false} FeedShowsEngine(u: Setup, f: Feed<TC.Update>, decoded: seq<T.DecodedFrame>, k: nat,
                        s0: TC.Client, wire: TC.WireSnapshot, s: Snapshot)
    requires Follows(u, f, decoded) && T.Accepted(u.catalog, decoded) && TC.CleanNames(u.catalog)
    requires k <= |DeltasOf(f.published)| && TakenAt(s, u, decoded, f.first) && TC.Serialises(wire, s)
    ensures SeesEngine(TC.ApplyUpdates(TC.InitialSnapshot(s0, wire), DeltasOf(f.published)[..k]), u, f, k, decoded)
  {
    hide DeltasOf, TC.UpdatesOf, TC.AllDescribed, TC.Mirrors, TC.ApplyUpdates, TC.InitialSnapshot, TC.Serialises,
      T.IsSnapshot, TC.CleanNames, T.Accepted;
    var fs, later := decoded[..f.first], decoded[f.first..];
    assert fs + later == decoded;
    assert decoded[..f.first + k] == fs + later[..k];
    TC.ReplicaFollowsEngine(s0, wire, s, u.catalog, fs, later, k);
  }

  /** End to end: in every run of the service, a client that loaded the snapshot its subscription
      was opened with and then applied any prefix of the deltas sent to it is the engine's state
      as of that frame. */
  lemma {:induction false} SubscriberSeesEngine(u: Setup, worlds: seq<World>, steps: seq<Step>, n: nat, id: nat, k: nat,
                             s0: TC.Client, wire: TC.WireSnapshot, s: Snapshot)
    requires u.capacity > 0 && IsRun(u, worlds, steps) && n < |worlds| && TC.CleanNames(u.catalog)
    requires id in worlds[n].feeds && k <= |DeltasOf(worlds[n].feeds[id].published)|
    requires TakenAt(s, u, worlds[n].decoded, worlds[n].feeds[id].first) && TC.Serialises(wire, s)
    ensures var f := worlds[n].feeds[id];
            SeesEngine(TC.ApplyUpdates(TC.InitialSnapshot(s0, wire), DeltasOf(f.published)[..k]), u, f, k,
                       worlds[n].decoded)
  {
    hide DeltasOf, Follows, Enabled, Apply, SeesEngine, TakenAt, TC.Serialises, TC.CleanNames, T.Accepted,
      TC.ApplyUpdates, TC.InitialSnapshot;
    RunKeepsFeeds(u, worlds, steps, n);
    FeedShowsEngine(u, worlds[n].feeds[id], worlds[n].decoded, k, s0, wire, s);
  }

  ghost predicate CanTakenAt(e: XC.InitialEvent, u: Setup, raw: seq<RawFrame>, n: nat, limit: Option<nat>)
    requires u.capacity > 0
  {
    n <= |raw| && XC.IsInitialFor(e, u.dbc, raw[..n], u.capacity, limit)
  }

  /** A raw-CAN client whose snapshot was limited to `limit` frames, after `k` deltas. */
  ghost predicate SeesExplorer(client: XC.Client, u: Setup, f: Feed<XC.FrameEvent>, k: nat, raw: seq<RawFrame>,
                               limit: Option<nat>)
    requires u.capacity > 0
  {
    && f.first + k <= |raw|
    && XC.Mirrors(client, u.dbc, raw[..f.first + k], u.capacity, f.first,
                  XC.Min(XC.CLIENT_CAPACITY, XC.Min(XC.CLIENT_CAPACITY, XC.Held(u.capacity, limit)) + k))
  }

  lemma {:induction false} FeedShowsExplorer(u: Setup, f: Feed<XC.FrameEvent>, raw: seq<RawFrame>, k: nat,
                          s0: XC.Client, initial: XC.InitialEvent, limit: Option<nat>)
    requires u.capacity > 0 && FollowsCan(u, f, raw)
    requires k <= |DeltasOf(f.published)| && CanTakenAt(initial, u, raw, f.first, limit)
    ensures SeesExplorer(XC.Reduce(XC.Reduce(s0, XC.Initial(initial)), XC.Frames(DeltasOf(f.published)[..k])),
                         u, f, k, raw, limit)
  {
    hide DeltasOf, XC.Mirrors, XC.Reduce, XC.IsInitialFor, XC.Min, XC.IsEventFor, XC.Held, X.IsMessageStatistics;
    XC.InitialMirrors(s0, initial, u.dbc, raw[..f.first], u.capacity, limit);
    var held := XC.Min(XC.CLIENT_CAPACITY, XC.Held(u.capacity, limit));
    MinIsSmall(XC.CLIENT_CAPACITY, XC.Held(u.capacity, limit));
    XC.ClientFollowsExplorer(XC.Reduce(s0, XC.Initial(initial)), DeltasOf(f.published)[..k], u.dbc, raw,
                             u.capacity, f.first, held);
  }

  /** The same for raw CAN, in every run without a live start over watchers: the client holds the
      last min(1000, snapshot + k) frames and the explorer's counters. */
  lemma {:induction false} CanSubscriberSeesExplorer(u: Setup, worlds: seq<World>, steps: seq<Step>, n: nat,
                                                     id: nat, k: nat,
                                  s0: XC.Client, initial: XC.InitialEvent, limit: Option<nat>)
    requires u.capacity > 0 && IsRun(u, worlds, steps) && n < |worlds| && NoStartOverWatchers(worlds, steps, n)
    requires id in worlds[n].canFeeds && k <= |DeltasOf(worlds[n].canFeeds[id].published)|
    requires CanTakenAt(initial, u, worlds[n].raw, worlds[n].canFeeds[id].first, limit)
    ensures var f := worlds[n].canFeeds[id];
            SeesExplorer(XC.Reduce(XC.Reduce(s0, XC.Initial(initial)), XC.Frames(DeltasOf(f.published)[..k])),
                         u, f, k, worlds[n].raw, limit)
  {
    hide DeltasOf, FollowsCan, Enabled, Apply, SeesExplorer, CanTakenAt, XC.Reduce;
    RunKeepsCanFeeds(u, worlds, steps, n);
    FeedShowsExplorer(u, worlds[n].canFeeds[id], worlds[n].raw, k, s0, initial, limit);
  }

  lemma {:induction false} MinIsSmall(a: nat, b: nat)
    ensures XC.Min(a, b) <= a && XC.Min(a, b) <= b
  {
  }

  // ---- the live start over watchers ----

  /** A completed replay of one frame, watched by a raw-CAN subscriber, followed by a live start. */
  function ReplayThenStart(f: RawFrame, e: XC.FrameEvent): seq<Step> {
    [StartReplay, SubscribeCan(0), Explore(f, e), Transition(Completed), Start]
  }

  ghost function WorldsOf(u: Setup, f: RawFrame, e: XC.FrameEvent): seq<World>
    requires u.capacity > 0 && XC.IsEventFor(e, u.dbc, [f], u.capacity, 0)
  {
    assert [] + [f] == [f];
    var w0 := InitialWorld();
    var w1 := Apply(u, w0, StartReplay);
    var w2 := Apply(u, w1, SubscribeCan(0));
    var w3 := Apply(u, w2, Explore(f, e));
    var w4 := Apply(u, w3, Transition(Completed));
    [w0, w1, w2, w3, w4, Apply(u, w4, Start)]
  }

  lemma {:induction false} PublishToOne<U>(id: nat, first: nat, ps: seq<Published<U>>, p: Published<U>)
    ensures Publish(map[id := Feed(first, ps)], p) == map[id := Feed(first, ps + [p])]
    ensures Publish(map[], p) == map[]
  {
  }

  /** The worlds of that run, one by one. */
  lemma {:induction false} ReplayThenStartRuns(u: Setup, f: RawFrame, e: XC.FrameEvent)
    requires u.capacity > 0 && XC.IsEventFor(e, u.dbc, [f], u.capacity, 0)
    ensures IsRun(u, WorldsOf(u, f, e), ReplayThenStart(f, e))
    ensures var w := WorldsOf(u, f, e)[4]; 0 in w.canFeeds && w.raw == [f] && Enabled(u, w, Start)
  {
    hide XC.IsEventFor, Publish;
    assert [] + [f] == [f];
    var worlds, steps := WorldsOf(u, f, e), ReplayThenStart(f, e);
    PublishToOne<TC.Update>(0, 0, [], Changed(Running));
    PublishToOne<TC.Update>(0, 0, [], Changed(Completed));
    PublishToOne<XC.FrameEvent>(0, 0, [], Changed(Running));
    PublishToOne(0, 0, [], Delta(e));
    PublishToOne(0, 0, [Delta(e)], Changed(Completed));
    assert worlds[1] == World(Running, false, [], [], map[], map[]);
    assert worlds[2] == World(Running, false, [], [], map[], map[0 := Feed(0, [])]);
    assert worlds[3] == World(Running, false, [], [f], map[], map[0 := Feed(0, [] + [Delta(e)])]);
    assert [] + [Delta(e)] == [Delta(e)];
    assert worlds[4] == World(Completed, false, [], [f], map[], map[0 := Feed(0, [Delta(e)] + [Changed(Completed)])]);
    assert steps[0] == StartReplay && steps[1] == SubscribeCan(0) && steps[2] == Explore(f, e);
    assert steps[3] == Transition(Completed) && steps[4] == Start;
  }

  /** The service allows it, and the subscription no longer follows the explorer: its snapshot and
      deltas still hold the replayed frame while the explorer is empty. */
  lemma {:induction false} LiveStartBreaksCanFeed(u: Setup, f: RawFrame, e: XC.FrameEvent)
    requires u.capacity > 0 && XC.IsEventFor(e, u.dbc, [f], u.capacity, 0)
    ensures IsRun(u, WorldsOf(u, f, e), ReplayThenStart(f, e))
    ensures !AllFollowCan(u, WorldsOf(u, f, e)[5])
  {
    hide XC.IsEventFor, FollowsCan, AllFollowCan, Enabled, Apply, WorldsOf;
    ReplayThenStartRuns(u, f, e);
    var worlds, steps := WorldsOf(u, f, e), ReplayThenStart(f, e);
    RunKeepsCanFeeds(u, worlds, steps, 4);
    StepKeepsCanFeeds(u, worlds[4], Start);
  }

  /** What the client then shows: the live frames restart at sequence 0, so every one of the first
      as many as it had already seen is ignored, and its frames and counters stay those of the
      replay. */
  lemma {:induction false} StaleClientIgnoresLiveFrames(s: XC.Client, es: seq<XC.FrameEvent>, seen: nat)
    requires s.statistics.lastSequence.Some? && s.statistics.lastSequence.value + 1 == seen && |es| <= seen
    requires forall i :: 0 <= i < |es| ==> es[i].frame.sequence == i
    ensures var t := XC.Reduce(s, XC.Frames(es));
            && t.current == s.current && t.displayed == s.displayed
            && t.messages == s.messages && t.statistics == s.statistics
            && (es != [] ==> t.warning == Some(XC.Ignored(|es| - 1, seen - 1)))
  {
    hide Last;
    if es != [] {
      var n := |es| - 1;
      StaleClientIgnoresLiveFrames(s, es[..n], seen);
    }
  }
}
