/** From the service to the browser: what the service publishes (`TelemetryService`) goes through the
    bounded queue of one subscription (`SubscriptionProtocol`) to the client that replays it. */
module LiveDelivery {
  import opened Prelude
  import opened TelemetryModels
  import opened RawCan
  import opened TelemetryService
  import P = SubscriptionProtocol
  import T = TelemetryEngine
  import TC = TelemetryClient
  import XC = CanClient

  lemma {:induction false} DeltasConcat<U>(a: seq<Published<U>>, b: seq<Published<U>>)
    ensures DeltasOf(a + b) == DeltasOf(a) + DeltasOf(b)
  {
    if b == [] {
      assert a + b == a;
    } else {
      DeltasConcat(a, b[..|b| - 1]);
      assert (a + b)[..|a + b| - 1] == a + b[..|b| - 1];
    }
  }

  /** The deltas of a beginning are a beginning of the deltas. */
  lemma {:induction false} DeltasOfPrefix<U>(a: seq<Published<U>>, b: seq<Published<U>>)
    requires a <= b
    ensures DeltasOf(a) <= DeltasOf(b)
    ensures DeltasOf(a) == DeltasOf(b)[..|DeltasOf(a)|]
  {
    hide DeltasOf;
    assert b == a + b[|a|..];
    DeltasConcat(a, b[|a|..]);
  }

  /** The deltas among what a receiver has taken from its queue. */
  function Received<U>(s: P.State<Published<U>>): seq<U> {
    DeltasOf(P.EventsIn(s.received))
  }

  /** In every interleaving of the queue protocol, what has been received is a prefix of the deltas
      published to the subscription, and all of them when an active subscription has caught up. */
  lemma {:induction false} ReceivedDeltas<U>(f: Feed<U>, capacity: nat, states: seq<P.State<Published<U>>>,
                                             steps: seq<P.Step<Published<U>>>, n: nat)
    requires capacity > 0 && P.IsRun(capacity, states, steps) && n < |states|
    requires states[n].published <= f.published
    ensures var k := |Received(states[n])|;
            && k <= |DeltasOf(f.published)| && Received(states[n]) == DeltasOf(f.published)[..k]
            && (states[n].active && P.CaughtUp(states[n]) && states[n].published == f.published ==>
                  k == |DeltasOf(f.published)|)
  {
    hide P.IsRun, DeltasOf, P.EventsIn;
    P.ReceivedIsPrefixOfPublished(capacity, states, steps, n);
    DeltasOfPrefix(P.EventsIn(states[n].received), f.published);
  }

  /** The client of one telemetry subscription, through the service, the queue and the reducer: whatever
      the interleaving, after any run of the service and of the queue, a client that loaded its snapshot
      and applied what it received is the engine as of some accepted frame. That includes a slow
      subscriber already disconnected that still drains its queue: `m` is then the last moment the service
      knew it. An active subscriber that has caught up is the engine as it is now. */
  lemma {:induction false} ReceiverSeesEngine(u: Setup, worlds: seq<World>, serviceSteps: seq<Step>, m: nat, id: nat,
                                              capacity: nat, states: seq<P.State<Published<TC.Update>>>,
                                              steps: seq<P.Step<Published<TC.Update>>>, n: nat,
                                              s0: TC.Client, wire: TC.WireSnapshot, s: Snapshot)
    requires u.capacity > 0 && IsRun(u, worlds, serviceSteps) && m <= |serviceSteps| < |worlds|
             && TC.CleanNames(u.catalog)
    requires id in worlds[m].feeds
    requires TakenAt(s, u, worlds[m].decoded, worlds[m].feeds[id].first) && TC.Serialises(wire, s)
    requires capacity > 0 && P.IsRun(capacity, states, steps) && n < |states|
    requires states[n].published <= worlds[m].feeds[id].published
    ensures var f, got := worlds[m].feeds[id], Received(states[n]);
            && SeesEngine(TC.ApplyUpdates(TC.InitialSnapshot(s0, wire), got), u, f, |got|, worlds[m].decoded)
            && (states[n].active && P.CaughtUp(states[n]) && states[n].published == f.published ==>
                  f.first + |got| == |worlds[m].decoded|)
  {
    hide P.IsRun, DeltasOf, Received, Follows, IsRun, SeesEngine, TakenAt, TC.Serialises, TC.CleanNames,
      TC.ApplyUpdates, TC.InitialSnapshot, P.CaughtUp, T.Accepted;
    var f := worlds[m].feeds[id];
    ReceivedDeltas(f, capacity, states, steps, n);
    SubscriberSeesEngine(u, worlds, serviceSteps, m, id, |Received(states[n])|, s0, wire, s);
    RunKeepsFeeds(u, worlds, serviceSteps, m);
    DeltasReachNow(u, f, worlds[m].decoded);
  }

  lemma {:induction false} DeltasReachNow(u: Setup, f: Feed<TC.Update>, decoded: seq<T.DecodedFrame>)
    requires Follows(u, f, decoded)
    ensures f.first + |DeltasOf(f.published)| == |decoded|
  {
    hide DeltasOf, TC.AllDescribed;
  }

  /** The same for raw CAN, in every run of the service without a live start over watchers. */
  lemma {:induction false} ReceiverSeesExplorer(u: Setup, worlds: seq<World>, serviceSteps: seq<Step>, m: nat, id: nat,
                                                capacity: nat, states: seq<P.State<Published<XC.FrameEvent>>>,
                                                steps: seq<P.Step<Published<XC.FrameEvent>>>, n: nat,
                                                s0: XC.Client, initial: XC.InitialEvent, limit: Option<nat>)
    requires u.capacity > 0 && IsRun(u, worlds, serviceSteps) && m <= |serviceSteps| < |worlds|
    requires NoStartOverWatchers(worlds, serviceSteps, m) && id in worlds[m].canFeeds
    requires CanTakenAt(initial, u, worlds[m].raw, worlds[m].canFeeds[id].first, limit)
    requires capacity > 0 && P.IsRun(capacity, states, steps) && n < |states|
    requires states[n].published <= worlds[m].canFeeds[id].published
    ensures var f, got := worlds[m].canFeeds[id], Received(states[n]);
            && SeesExplorer(XC.Reduce(XC.Reduce(s0, XC.Initial(initial)), XC.Frames(got)), u, f, |got|,
                            worlds[m].raw, limit)
            && (states[n].active && P.CaughtUp(states[n]) && states[n].published == f.published ==>
                  f.first + |got| == |worlds[m].raw|)
  {
    hide P.IsRun, DeltasOf, Received, IsRun, SeesExplorer, CanTakenAt, XC.Reduce, P.CaughtUp, XC.AreEvents,
      NoStartOverWatchers;
    var f := worlds[m].canFeeds[id];
    ReceivedDeltas(f, capacity, states, steps, n);
    CanSubscriberSeesExplorer(u, worlds, serviceSteps, m, id, |Received(states[n])|, s0, initial, limit);
    RunKeepsCanFeeds(u, worlds, serviceSteps, m);
  }
}
