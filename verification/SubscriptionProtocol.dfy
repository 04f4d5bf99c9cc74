/** The bounded subscriber queue (telemetry/service.py, TelemetrySubscription and
    TelemetryBroadcaster) as a state machine. One publisher at a time runs (the service lock
    serialises them); the event loop runs callbacks and the receiver on one thread; `close` may be
    called from anywhere. Every lock-protected section and every hand-over to the loop is one step. */
module SubscriptionProtocol {
  import opened Prelude

  datatype Item<E> = Update(event: E) | SubscriberClosed

  datatype Callback<E> = Deliver(event: E) | DeliverClosed

  /** Where the publisher is inside `publish` and `_schedule`. */
  datatype Publisher<E> =
    | Resting
    | Publishing(event: E)      // copied the subscription set, about to enter the state lock
    | Reserved(event: E)        // counted the delivery, about to call the loop
    | Overflowed(event: E)      // found the queue full, about to disconnect the subscriber
    | Removing(event: E)        // holds the broadcaster lock, removed the subscriber from the set
    | Announcing                // deactivated it, about to schedule the closing callback
    | Refused(event: E)         // the loop is closed, about to unsubscribe
    | Unsubscribing(event: E)   // holds the broadcaster lock on that path

  datatype Loop<E> =
    | Ready
    | Checked(event: E)         // `_deliver` saw the subscription active, about to put
    | Taken(event: E)           // `receive` got the item, about to count it

  datatype Holder = Free | PublisherHolds | CloserHolds

  datatype State<E> = State(
    capacity: nat,
    subscribed: bool,
    active: bool,
    outstanding: int,
    lock: Holder,
    publisher: Publisher<E>,
    loop: Loop<E>,
    callbacks: seq<Callback<E>>,
    queue: seq<Item<E>>,
    received: seq<Item<E>>,
    published: seq<E>,     // events published since the subscription was made
    slow: bool,            // deactivated as a slow client
    silenced: bool)        // the loop refused the closing callback

  datatype Step<E> =
    | Publish(event: E)
    | Schedule
    | Enqueue
    | LoopRefuses
    | BeginDisconnect
    | Deactivate
    | Announce(accepted: bool)
    | BeginUnsubscribe
    | EndUnsubscribe
    | BeginClose
    | EndClose
    | RunCallback
    | Put
    | Take
    | Count

  function Initial<E>(capacity: nat): State<E> {
    State(capacity, true, true, 0, Free, Resting, Ready, [], [], [], [], false, false)
  }

  predicate Enabled<E>(s: State<E>, step: Step<E>) {
    match step
    case Publish(_) => s.publisher.Resting? && s.lock.Free?
    case Schedule => s.publisher.Publishing?
    case Enqueue => s.publisher.Reserved?
    case LoopRefuses => s.publisher.Reserved?
    case BeginDisconnect => s.publisher.Overflowed? && s.lock.Free?
    case Deactivate => s.publisher.Removing?
    case Announce(_) => s.publisher.Announcing?
    case BeginUnsubscribe => s.publisher.Refused? && s.lock.Free?
    case EndUnsubscribe => s.publisher.Unsubscribing?
    case BeginClose => s.lock.Free?
    case EndClose => s.lock.CloserHolds?
    case RunCallback => s.loop.Ready? && s.callbacks != []
    case Put => s.loop.Checked?
    case Take => s.loop.Ready? && s.queue != []
    case Count => s.loop.Taken?
  }

  function Deactivated<E>(s: State<E>): State<E> {
    if s.active then s.(active := false, outstanding := 0) else s
  }

  function Apply<E>(s: State<E>, step: Step<E>): State<E>
    requires Enabled(s, step)
  {
    match step
    case Publish(e) =>
      if s.subscribed then s.(publisher := Publishing(e), published := s.published + [e]) else s
    case Schedule =>
      if !s.active then s.(publisher := Resting)
      else if s.outstanding >= s.capacity then s.(publisher := Overflowed(s.publisher.event))
      else s.(outstanding := s.outstanding + 1, publisher := Reserved(s.publisher.event))
    case Enqueue => s.(callbacks := s.callbacks + [Deliver(s.publisher.event)], publisher := Resting)
    case LoopRefuses => s.(publisher := Refused(s.publisher.event))
    case BeginDisconnect =>
      if !s.subscribed then s.(publisher := Resting)
      else s.(subscribed := false, lock := PublisherHolds, publisher := Removing(s.publisher.event))
    case Deactivate =>
      if !s.active then s.(lock := Free, publisher := Resting)
      else Deactivated(s).(slow := true, publisher := Announcing)
    case Announce(accepted) =>
      s.(callbacks := if accepted then s.callbacks + [DeliverClosed] else s.callbacks,
         silenced := !accepted, lock := Free, publisher := Resting)
    case BeginUnsubscribe =>
      s.(subscribed := false, lock := PublisherHolds, publisher := Unsubscribing(s.publisher.event))
    case EndUnsubscribe => Deactivated(s).(lock := Free, publisher := Resting)
    case BeginClose => s.(subscribed := false, lock := CloserHolds)
    case EndClose => Deactivated(s).(lock := Free)
    case RunCallback =>
      var rest := s.(callbacks := s.callbacks[1..]);
      (match s.callbacks[0]
       case Deliver(e) => if s.active then rest.(loop := Checked(e)) else rest
       case DeliverClosed => rest.(queue := [SubscriberClosed]))
    case Put => s.(queue := s.queue + [Update(s.loop.event)], loop := Ready)
    case Take =>
      (match s.queue[0]
       case Update(e) => s.(queue := s.queue[1..], loop := Taken(e))
       case SubscriberClosed => s.(queue := s.queue[1..], received := s.received + [SubscriberClosed]))
    case Count =>
      s.(outstanding := if s.active then s.outstanding - 1 else s.outstanding,
         received := s.received + [Update(s.loop.event)], loop := Ready)
  }

  // ---- where the events are ----

  function EventsIn<E>(items: seq<Item<E>>): (r: seq<E>)
    ensures |r| <= |items|
  {
    if items == [] then []
    else EventsIn(items[..|items| - 1]) + if items[|items| - 1].Update? then [items[|items| - 1].event] else []
  }

  function InFlight<E>(callbacks: seq<Callback<E>>): (r: seq<E>)
    ensures |r| <= |callbacks|
  {
    if callbacks == [] then []
    else InFlight(callbacks[..|callbacks| - 1])
         + if callbacks[|callbacks| - 1].Deliver? then [callbacks[|callbacks| - 1].event] else []
  }

  function AtPublisher<E>(p: Publisher<E>): seq<E> {
    if p.Resting? || p.Announcing? then [] else [p.event]
  }

  function AtLoop<E>(l: Loop<E>, taken: bool): seq<E> {
    if (taken && l.Taken?) || (!taken && l.Checked?) then [l.event] else []
  }

  /** Everything the receiver has or can still reach in its queue, in order. */
  function Delivered<E>(s: State<E>): seq<E> {
    EventsIn(s.received) + AtLoop(s.loop, true) + EventsIn(s.queue) + AtLoop(s.loop, false)
  }

  /** Deliveries counted in `_outstanding_deliveries`. */
  function Counted<E>(s: State<E>): int {
    |InFlight(s.callbacks)| + |s.queue|
    + (if s.loop.Ready? then 0 else 1)
    + (if s.publisher.Reserved? || s.publisher.Refused? || s.publisher.Unsubscribing? then 1 else 0)
  }

  ghost predicate AllUpdates<E>(items: seq<Item<E>>) {
    forall k :: 0 <= k < |items| ==> items[k].Update?
  }

  ghost predicate AllDeliveries<E>(callbacks: seq<Callback<E>>) {
    forall k :: 0 <= k < |callbacks| ==> callbacks[k].Deliver?
  }

  /** The receiver got the closing item. */
  predicate Ended<E>(s: State<E>) {
    s.received != [] && s.received[|s.received| - 1].SubscriberClosed?
  }

  /** Closing signals under way or received. */
  ghost function Signals<E>(s: State<E>): nat {
    (if s.publisher.Announcing? then 1 else 0)
    + (if s.callbacks != [] && s.callbacks[|s.callbacks| - 1].DeliverClosed? then 1 else 0)
    + (if s.queue == [SubscriberClosed] then 1 else 0)
    + (if Ended(s) then 1 else 0)
  }

  /** Who may be where: what the two locks and the membership test guarantee. */
  ghost predicate Control<E>(s: State<E>) {
    && s.capacity > 0
    && (s.subscribed ==> s.active)
    && (s.active && !s.subscribed ==> !s.lock.Free?)
    && (s.lock.PublisherHolds? <==> s.publisher.Removing? || s.publisher.Announcing? || s.publisher.Unsubscribing?)
    && (!s.lock.Free? ==> !s.subscribed)
    && (s.publisher.Removing? ==> s.active)
    && (s.publisher.Announcing? ==> s.slow && !s.silenced)
    && (s.slow ==> !s.active && !s.subscribed && (s.publisher.Resting? || s.publisher.Announcing?))
    && (s.silenced ==> s.slow)
  }

  /** Where the closing signal may be: nowhere unless the client was slow, and then in exactly one
      place, behind everything else. */
  ghost predicate Signalling<E>(s: State<E>) {
    && (AllUpdates(s.queue) || s.queue == [SubscriberClosed])
    && (s.received != [] ==> AllUpdates(s.received[..|s.received| - 1]))
    && (s.callbacks != [] ==> AllDeliveries(s.callbacks[..|s.callbacks| - 1]))
    && Signals(s) == (if s.slow && !s.silenced then 1 else 0)
    && (s.queue == [SubscriberClosed] || Ended(s) ==> s.callbacks == [] && s.loop.Ready?)
    && (Ended(s) ==> s.queue == [])
  }

  ghost predicate Shape<E>(s: State<E>) {
    Control(s) && Signalling(s)
  }

  ghost predicate Accounting<E>(s: State<E>) {
    && (s.active ==> s.outstanding == Counted(s) && s.outstanding <= s.capacity)
    && (!s.active ==> s.outstanding == 0)
    && |s.queue| + (if s.loop.Checked? then 1 else 0) <= s.capacity
  }

  ghost predicate Ordered<E>(s: State<E>) {
    && Delivered(s) <= s.published
    && (s.active ==> Delivered(s) + InFlight(s.callbacks) + AtPublisher(s.publisher) == s.published)
  }

  ghost predicate Invariant<E>(s: State<E>) {
    Shape(s) && Accounting(s) && Ordered(s)
  }

  lemma {:induction false} EventsInConcat<E>(a: seq<Item<E>>, b: seq<Item<E>>)
    ensures EventsIn(a + b) == EventsIn(a) + EventsIn(b)
  {
    if b == [] {
      assert a + b == a;
    } else {
      EventsInConcat(a, b[..|b| - 1]);
      assert (a + b)[..|a + b| - 1] == a + b[..|b| - 1];
    }
  }

  lemma {:induction false} InFlightConcat<E>(a: seq<Callback<E>>, b: seq<Callback<E>>)
    ensures InFlight(a + b) == InFlight(a) + InFlight(b)
  {
    if b == [] {
      assert a + b == a;
    } else {
      InFlightConcat(a, b[..|b| - 1]);
      assert (a + b)[..|a + b| - 1] == a + b[..|b| - 1];
    }
  }

  lemma {:induction false} OneEvent<E>(i: Item<E>)
    ensures EventsIn([i]) == if i.Update? then [i.event] else []
  {
    assert [i][..0] == [];
  }

  lemma {:induction false} OneFlight<E>(c: Callback<E>)
    ensures InFlight([c]) == if c.Deliver? then [c.event] else []
  {
    assert [c][..0] == [];
  }

  lemma {:induction false} HeadEvent<E>(items: seq<Item<E>>)
    requires items != []
    ensures EventsIn(items) == (if items[0].Update? then [items[0].event] else []) + EventsIn(items[1..])
  {
    assert items == [items[0]] + items[1..];
    EventsInConcat([items[0]], items[1..]);
    OneEvent(items[0]);
  }

  lemma {:induction false} HeadFlight<E>(cs: seq<Callback<E>>)
    requires cs != []
    ensures InFlight(cs) == (if cs[0].Deliver? then [cs[0].event] else []) + InFlight(cs[1..])
  {
    assert cs == [cs[0]] + cs[1..];
    InFlightConcat([cs[0]], cs[1..]);
    OneFlight(cs[0]);
  }

  lemma {:induction false} InitialInvariant<E>(capacity: nat)
    requires capacity > 0
    ensures Invariant<E>(Initial(capacity))
  {
  }

  lemma {:induction false} ControlKept<E>(s: State<E>, step: Step<E>)
    requires Control(s) && Enabled(s, step)
    ensures Control(Apply(s, step)) && Apply(s, step).capacity == s.capacity
  {
  }

  /** Appending a callback behind deliveries only. */
  lemma {:induction false} CallbacksSoFar<E>(callbacks: seq<Callback<E>>, callback: Callback<E>)
    requires callbacks == [] || (AllDeliveries(callbacks[..|callbacks| - 1]) && callbacks[|callbacks| - 1].Deliver?)
    ensures var n := callbacks + [callback];
            AllDeliveries(n[..|n| - 1]) && n[|n| - 1] == callback
  {
    var n := callbacks + [callback];
    assert n[..|n| - 1] == callbacks;
    if callbacks != [] {
      assert callbacks == callbacks[..|callbacks| - 1] + [callbacks[|callbacks| - 1]];
    }
  }

  /** As long as no closing signal is under way, there is none anywhere. */
  lemma {:induction false} NoSignal<E>(s: State<E>)
    requires Signals(s) == 0
    ensures !s.publisher.Announcing? && s.queue != [SubscriberClosed] && !Ended(s)
    ensures s.callbacks != [] ==> s.callbacks[|s.callbacks| - 1].Deliver?
  {
  }

  lemma {:induction false} SignallingKeptByEnqueue<E>(s: State<E>)
    requires Control(s) && Signalling(s) && Enabled(s, Enqueue)
    ensures Signalling(Apply(s, Enqueue))
  {
    hide AllUpdates, AllDeliveries, Control;
    var n := Apply(s, Enqueue);
    HandingOver(s);
    NoSignal(s);
    CallbacksSoFar(s.callbacks, Deliver(s.publisher.event));
    assert Ended(n) == Ended(s) && Signals(n) == 0;
  }

  lemma {:induction false} SignallingKeptByAnnounce<E>(s: State<E>, accepted: bool)
    requires Control(s) && Signalling(s) && Enabled(s, Announce(accepted))
    ensures Signalling(Apply(s, Announce(accepted)))
  {
    hide AllUpdates, AllDeliveries, Control;
    var n := Apply(s, Announce(accepted));
    HandingOver(s);
    OneSignal(s);
    assert Ended(n) == Ended(s);
    if accepted {
      CallbacksSoFar(s.callbacks, DeliverClosed);
      assert Signals(n) == 1;
    } else {
      assert Signals(n) == 0;
    }
  }

  /** Only a publisher about to announce it has a slow subscriber in hand. */
  lemma {:induction false} HandingOver<E>(s: State<E>)
    requires Control(s)
    ensures s.publisher.Reserved? ==> !s.slow
    ensures s.publisher.Announcing? ==> s.slow && !s.silenced
  {
  }

  lemma {:induction false} OneSignal<E>(s: State<E>)
    requires Signals(s) <= 1 && s.publisher.Announcing?
    ensures s.queue != [SubscriberClosed] && !Ended(s)
    ensures s.callbacks != [] ==> s.callbacks[|s.callbacks| - 1].Deliver?
  {
  }

  lemma {:induction false} SignallingKeptByPublisher<E>(s: State<E>, step: Step<E>)
    requires Control(s) && Signalling(s) && Enabled(s, step)
    requires !step.RunCallback? && !step.Put? && !step.Take? && !step.Count? && !step.Enqueue? && !step.Announce?
    ensures Signalling(Apply(s, step))
  {
  }

  lemma {:induction false} SignallingKeptByCallback<E>(s: State<E>)
    requires Control(s) && Signalling(s) && Enabled(s, RunCallback)
    ensures Signalling(Apply(s, RunCallback))
  {
    var n := Apply(s, RunCallback);
    var last := |s.callbacks| - 1;
    if last > 0 {
      assert s.callbacks[..last][0] == s.callbacks[0];
      assert n.callbacks[..last - 1] == s.callbacks[..last][1..];
      assert n.callbacks[last - 1] == s.callbacks[last];
    }
  }

  lemma {:induction false} SignallingKeptByPut<E>(s: State<E>)
    requires Control(s) && Signalling(s) && Enabled(s, Put)
    ensures Signalling(Apply(s, Put))
  {
    var n := Apply(s, Put);
    assert n.queue[|n.queue| - 1].Update?;
  }

  /** Appending an item leaves everything before the last item as it was. */
  lemma {:induction false} ReceivedSoFar<E>(received: seq<Item<E>>, item: Item<E>)
    requires received == [] || (AllUpdates(received[..|received| - 1]) && received[|received| - 1].Update?)
    ensures var n := received + [item];
            AllUpdates(n[..|n| - 1]) && n[|n| - 1] == item
  {
    var n := received + [item];
    assert n[..|n| - 1] == received;
    if received != [] {
      assert received == received[..|received| - 1] + [received[|received| - 1]];
    }
  }

  lemma {:induction false} SignallingKeptByTake<E>(s: State<E>)
    requires Control(s) && Signalling(s) && Enabled(s, Take)
    ensures Signalling(Apply(s, Take))
  {
    var n := Apply(s, Take);
    if s.queue[0].Update? {
      if |n.queue| > 0 {
        assert n.queue[0] == s.queue[1];
      }
    } else {
      ReceivedSoFar(s.received, SubscriberClosed);
    }
  }

  lemma {:induction false} SignallingKeptByCount<E>(s: State<E>)
    requires Control(s) && Signalling(s) && Enabled(s, Count)
    ensures Signalling(Apply(s, Count))
  {
    hide AllUpdates, AllDeliveries, Control;
    var n := Apply(s, Count);
    assert !Ended(s);
    ReceivedSoFar(s.received, Update(s.loop.event));
    assert !Ended(n) && Signals(n) == Signals(s);
  }

  lemma {:induction false} AccountingKept<E>(s: State<E>, step: Step<E>)
    requires Shape(s) && Accounting(s) && Enabled(s, step)
    ensures Accounting(Apply(s, step))
  {
    hide InFlight, Signalling;
    match step
    case Enqueue =>
      InFlightConcat(s.callbacks, [Deliver(s.publisher.event)]);
      OneFlight(Deliver(s.publisher.event));
    case RunCallback => AccountingKeptByCallback(s);
    case Take =>
      if s.queue[0].SubscriberClosed? {
        ClosedMeansInactive(s);
      }
    case _ =>
  }

  lemma {:induction false} AccountingKeptByCallback<E>(s: State<E>)
    requires Shape(s) && Accounting(s) && Enabled(s, RunCallback)
    ensures Accounting(Apply(s, RunCallback))
  {
    hide InFlight, Signalling, Control;
    HeadFlight(s.callbacks);
    if s.callbacks[0].DeliverClosed? {
      ClosingMeansInactive(s);
      assert s.capacity > 0 by {
        HasCapacity(s);
      }
    }
  }

  /** A closing item is the whole queue and finds the subscription inactive. */
  lemma {:induction false} ClosedMeansInactive<E>(s: State<E>)
    requires Shape(s) && s.queue != [] && s.queue[0].SubscriberClosed?
    ensures !s.active
  {
  }

  lemma {:induction false} HasCapacity<E>(s: State<E>)
    requires Control(s)
    ensures s.capacity > 0
  {
  }

  /** Publisher and closer do not touch what is delivered. */
  lemma {:induction false} DeliveredByPublisher<E>(s: State<E>, step: Step<E>)
    requires Enabled(s, step) && !step.RunCallback? && !step.Put? && !step.Take? && !step.Count?
    ensures Delivered(Apply(s, step)) == Delivered(s)
  {
    hide EventsIn, InFlight;
  }

  lemma {:induction false} OrderKeptByPublisher<E>(s: State<E>, step: Step<E>)
    requires Control(s) && Ordered(s) && Enabled(s, step)
    requires !step.RunCallback? && !step.Put? && !step.Take? && !step.Count?
    ensures Ordered(Apply(s, step))
  {
    hide EventsIn, InFlight, Delivered;
    DeliveredByPublisher(s, step);
    if step.Enqueue? {
      InFlightConcat(s.callbacks, [Deliver(s.publisher.event)]);
      OneFlight(Deliver(s.publisher.event));
    }
  }

  lemma {:induction false} OrderKeptByCallback<E>(s: State<E>)
    requires Shape(s) && Ordered(s) && Enabled(s, RunCallback)
    ensures Ordered(Apply(s, RunCallback))
  {
    hide EventsIn, InFlight, Signalling, Delivered;
    HeadFlight(s.callbacks);
    DeliveredByCallback(s);
    if s.callbacks[0].Deliver? && s.active {
      var e := s.callbacks[0].event;
      assert Delivered(s) + InFlight(s.callbacks) == Delivered(s) + [e] + InFlight(s.callbacks[1..]);
    } else if s.callbacks[0].DeliverClosed? {
      ClosingMeansInactive(s);
    }
  }

  /** A closing callback is the last one and finds the subscription inactive. */
  lemma {:induction false} ClosingMeansInactive<E>(s: State<E>)
    requires Shape(s) && s.callbacks != [] && s.callbacks[0].DeliverClosed?
    ensures !s.active
  {
  }

  /** A callback delivers its event, is dropped, or replaces the queue by the closing signal. */
  lemma {:induction false} DeliveredByCallback<E>(s: State<E>)
    requires Enabled(s, RunCallback)
    ensures var n := Apply(s, RunCallback);
            if s.callbacks[0].DeliverClosed? then Delivered(n) <= Delivered(s)
            else Delivered(n) == Delivered(s) + if s.active then [s.callbacks[0].event] else []
  {
    hide EventsIn, InFlight;
    OneEvent<E>(SubscriberClosed);
  }

  lemma {:induction false} OrderKeptByPut<E>(s: State<E>)
    requires Ordered(s) && Enabled(s, Put)
    ensures Ordered(Apply(s, Put))
  {
    hide EventsIn, InFlight;
    EventsInConcat(s.queue, [Update(s.loop.event)]);
    OneEvent(Update(s.loop.event));
    assert Delivered(Apply(s, Put)) == Delivered(s);
  }

  lemma {:induction false} OrderKeptByTake<E>(s: State<E>)
    requires Ordered(s) && Enabled(s, Take)
    ensures Ordered(Apply(s, Take))
  {
    hide EventsIn, InFlight, Delivered;
    DeliveredByTake(s);
  }

  /** Taking moves an event from the head of the queue to the hand of the receiver. */
  lemma {:induction false} DeliveredByTake<E>(s: State<E>)
    requires Enabled(s, Take)
    ensures Delivered(Apply(s, Take)) == Delivered(s)
  {
    hide EventsIn, InFlight;
    var r, q := EventsIn(s.received), EventsIn(s.queue[1..]);
    HeadEvent(s.queue);
    if s.queue[0].Update? {
      assert r + [] + ([s.queue[0].event] + q) + [] == r + [s.queue[0].event] + q + [];
    } else {
      EventsInConcat(s.received, [SubscriberClosed]);
      OneEvent<E>(SubscriberClosed);
      assert r + [] == r && [] + q == q;
    }
  }

  lemma {:induction false} OrderKeptByCount<E>(s: State<E>)
    requires Ordered(s) && Enabled(s, Count)
    ensures Ordered(Apply(s, Count))
  {
    hide EventsIn, InFlight;
    EventsInConcat(s.received, [Update(s.loop.event)]);
    OneEvent(Update(s.loop.event));
    assert Delivered(Apply(s, Count)) == Delivered(s);
  }

  /** Every atomic step of every participant keeps the invariant. */
  lemma {:induction false} StepKeepsInvariant<E>(s: State<E>, step: Step<E>)
    requires Invariant(s) && Enabled(s, step)
    ensures Invariant(Apply(s, step)) && Apply(s, step).capacity == s.capacity
  {
    hide Apply, Control, Signalling, Accounting, Ordered;
    ControlKept(s, step);
    AccountingKept(s, step);
    match step
    case RunCallback => SignallingKeptByCallback(s); OrderKeptByCallback(s);
    case Put => SignallingKeptByPut(s); OrderKeptByPut(s);
    case Take => SignallingKeptByTake(s); OrderKeptByTake(s);
    case Count => SignallingKeptByCount(s); OrderKeptByCount(s);
    case Enqueue => SignallingKeptByEnqueue(s); OrderKeptByPublisher(s, step);
    case Announce(accepted) => SignallingKeptByAnnounce(s, accepted); OrderKeptByPublisher(s, step);
    case _ => SignallingKeptByPublisher(s, step); OrderKeptByPublisher(s, step);
  }

  // ---- every run ----

  /** The states of a run: `states[i + 1]` follows `states[i]` by `steps[i]`. */
  ghost predicate IsRun<E>(capacity: nat, states: seq<State<E>>, steps: seq<Step<E>>) {
    && |states| == |steps| + 1
    && states[0] == Initial(capacity)
    && forall i :: 0 <= i < |steps| ==> Enabled(states[i], steps[i]) && states[i + 1] == Apply(states[i], steps[i])
  }

  lemma {:induction false} RunKeepsInvariant<E>(capacity: nat, states: seq<State<E>>, steps: seq<Step<E>>, n: nat)
    requires capacity > 0 && IsRun(capacity, states, steps) && n < |states|
    ensures Invariant(states[n]) && states[n].capacity == capacity
  {
    hide Invariant, Enabled, Apply;
    if n == 0 {
      InitialInvariant<E>(capacity);
    } else {
      RunKeepsInvariant(capacity, states, steps, n - 1);
      StepKeepsInvariant(states[n - 1], steps[n - 1]);
    }
  }

  /** Bounded delivery under every interleaving: while the subscription is active the outstanding
      count is exactly what is in flight, queued or taken but uncounted, and stays within capacity;
      and whenever the loop is about to put an event the queue has room for it. */
  lemma {:induction false} QueueNeverOverflows<E>(capacity: nat, states: seq<State<E>>, steps: seq<Step<E>>, n: nat)
    requires capacity > 0 && IsRun(capacity, states, steps) && n < |states|
    ensures states[n].active ==> states[n].outstanding == Counted(states[n]) && 0 <= states[n].outstanding <= capacity
    ensures states[n].loop.Checked? ==> |states[n].queue| < capacity
  {
    RunKeepsInvariant(capacity, states, steps, n);
  }

  /** Nothing is between the publisher and the receiver. */
  ghost predicate CaughtUp<E>(s: State<E>) {
    s.publisher.Resting? && s.callbacks == [] && s.loop.Ready? && s.queue == []
  }

  /** What the receiver got is always an in-order prefix of what was published since it
      subscribed; and while the subscription is active nothing has been dropped, so a receiver
      that has caught up has everything. */
  lemma {:induction false} ReceivedIsPrefixOfPublished<E>(capacity: nat, states: seq<State<E>>,
                                                          steps: seq<Step<E>>, n: nat)
    requires capacity > 0 && IsRun(capacity, states, steps) && n < |states|
    ensures EventsIn(states[n].received) <= states[n].published
    ensures states[n].active && CaughtUp(states[n]) ==> EventsIn(states[n].received) == states[n].published
  {
    RunKeepsInvariant(capacity, states, steps, n);
  }

  lemma {:induction false} ReceivedGrowsByStep<E>(s: State<E>, step: Step<E>)
    requires Invariant(s) && Enabled(s, step)
    ensures s.received <= Apply(s, step).received
    ensures Ended(s) ==> Apply(s, step).received == s.received
    ensures s.slow ==> Apply(s, step).slow
    ensures s.silenced ==> Apply(s, step).silenced
  {
    hide EventsIn, InFlight;
  }

  lemma {:induction false} ReceivedGrows<E>(capacity: nat, states: seq<State<E>>, steps: seq<Step<E>>, i: nat, j: nat)
    requires capacity > 0 && IsRun(capacity, states, steps) && i <= j < |states|
    ensures states[i].received <= states[j].received
    ensures Ended(states[i]) ==> states[j].received == states[i].received
  {
    hide Invariant, Enabled, Apply;
    if i < j {
      ReceivedGrows(capacity, states, steps, i, j - 1);
      RunKeepsInvariant(capacity, states, steps, j - 1);
      ReceivedGrowsByStep(states[j - 1], steps[j - 1]);
    }
  }

  /** An overflow yields exactly one closing item with nothing after it. A subscriber that was
      not disconnected as slow never sees one; one that was sees it as its last item, at the
      latest when its loop and queue have drained (unless the loop refused the callback); and
      once it has been received nothing is ever received again. */
  lemma {:induction false} OverflowClosesExactlyOnce<E>(capacity: nat, states: seq<State<E>>,
                                                        steps: seq<Step<E>>, i: nat, j: nat)
    requires capacity > 0 && IsRun(capacity, states, steps) && i <= j < |states|
    ensures !states[i].slow ==> AllUpdates(states[i].received)
    ensures states[i].received != [] ==> AllUpdates(states[i].received[..|states[i].received| - 1])
    ensures states[i].slow && !states[i].silenced && CaughtUp(states[i]) ==> Ended(states[i])
    ensures Ended(states[i]) ==> states[j].received == states[i].received
  {
    RunKeepsInvariant(capacity, states, steps, i);
    ReceivedGrows(capacity, states, steps, i, j);
    var r := states[i].received;
    if !states[i].slow && r != [] {
      assert r == r[..|r| - 1] + [r[|r| - 1]];
    }
  }

  /** The disconnection an overflow decided on is still to come, under way, or done. */
  predicate Disconnecting<E>(s: State<E>) {
    s.slow || (s.publisher.Overflowed? && s.subscribed) || s.publisher.Removing?
  }

  lemma {:induction false} StepKeepsDisconnecting<E>(s: State<E>, step: Step<E>)
    requires Control(s) && Enabled(s, step) && Disconnecting(s) && !step.BeginClose?
    ensures Disconnecting(Apply(s, step))
  {
  }

  /** An overflow is followed by the disconnection it decided on, unless somebody else closes first. */
  lemma {:induction false} OverflowDisconnects<E>(capacity: nat, states: seq<State<E>>, steps: seq<Step<E>>,
                                                  i: nat, n: nat)
    requires capacity > 0 && IsRun(capacity, states, steps) && i <= n < |states|
    requires states[i].publisher.Overflowed? && states[i].subscribed
    requires forall k :: i <= k < n ==> !steps[k].BeginClose?
    ensures Disconnecting(states[n])
  {
    hide Control, Signalling, Accounting, Ordered, Enabled, Apply;
    if i < n {
      OverflowDisconnects(capacity, states, steps, i, n - 1);
      RunKeepsInvariant(capacity, states, steps, n - 1);
      StepKeepsDisconnecting(states[n - 1], steps[n - 1]);
    }
  }

  /** Overflow is never lost: when the publisher finds the queue of a subscriber full and nobody else
      closes the subscription, then the receiver that has drained its queue has received the closing item
      as its last one, unless the loop refused the callback. */
  lemma {:induction false} OverflowCloses<E>(capacity: nat, states: seq<State<E>>, steps: seq<Step<E>>, i: nat, n: nat)
    requires capacity > 0 && IsRun(capacity, states, steps) && i <= n < |states|
    requires states[i].publisher.Overflowed? && states[i].subscribed
    requires forall k :: i <= k < n ==> !steps[k].BeginClose?
    ensures CaughtUp(states[n]) ==> states[n].slow && !states[n].active
    ensures CaughtUp(states[n]) && !states[n].silenced ==> Ended(states[n])
  {
    hide Signalling, Accounting, Ordered, IsRun;
    OverflowDisconnects(capacity, states, steps, i, n);
    RunKeepsInvariant(capacity, states, steps, n);
    OverflowClosesExactlyOnce(capacity, states, steps, n, n);
  }

  // ---- who is slow ----

  /** Events the receiver was promised and has not counted: handed to the loop, queued, or in hand. */
  function Waiting<E>(s: State<E>): nat {
    |InFlight(s.callbacks)| + |EventsIn(s.queue)| + if s.loop.Ready? then 0 else 1
  }

  lemma {:induction false} EventsOfUpdates<E>(items: seq<Item<E>>)
    requires AllUpdates(items)
    ensures |EventsIn(items)| == |items|
  {
    if items != [] {
      EventsOfUpdates(items[..|items| - 1]);
    }
  }

  lemma {:induction false} WaitingIsOutstanding<E>(s: State<E>)
    requires Invariant(s) && s.publisher.Publishing? && s.active
    ensures s.outstanding == Waiting(s) <= s.capacity
  {
    hide InFlight, EventsIn, Ordered;
    NoSignal(s);
    if s.queue != [SubscriberClosed] {
      EventsOfUpdates(s.queue);
    }
  }

  /** Under every interleaving an event is found to overflow exactly when the subscription is active and
      as many events wait as it has capacity; with fewer it is reserved, and only a closed subscription
      lets it go. */
  lemma {:induction false} ScheduleIsExact<E>(capacity: nat, states: seq<State<E>>, steps: seq<Step<E>>, n: nat)
    requires capacity > 0 && IsRun(capacity, states, steps) && n < |steps| && steps[n].Schedule?
    ensures states[n].publisher.Publishing?
    ensures var s, next := states[n], states[n + 1].publisher;
            var e := s.publisher.event;
            && (next == Overflowed(e) <==> s.active && Waiting(s) == capacity)
            && (next == Reserved(e) <==> s.active && Waiting(s) < capacity)
            && (next == Resting <==> !s.active)
  {
    hide Invariant, Waiting;
    RunKeepsInvariant(capacity, states, steps, n);
    if states[n].active {
      WaitingIsOutstanding(states[n]);
    }
  }

  /** Tick `k` of a run found the subscription with no room. */
  ghost predicate FoundFull<E>(capacity: nat, states: seq<State<E>>, steps: seq<Step<E>>, k: nat) {
    k < |steps| && k < |states| && steps[k].Schedule? && states[k].active && Waiting(states[k]) == capacity
  }

  /** The publisher holds a verdict that the subscriber is slow, or has acted on it. */
  predicate Condemned<E>(s: State<E>) {
    s.slow || s.publisher.Overflowed? || s.publisher.Removing? || s.publisher.Announcing?
  }

  lemma {:induction false} CondemnedFrom<E>(s: State<E>, step: Step<E>)
    requires Enabled(s, step) && Condemned(Apply(s, step)) && !Condemned(s)
    ensures step.Schedule? && Apply(s, step).publisher == Overflowed(s.publisher.event)
  {
  }

  /** Nobody with room is disconnected as slow: some earlier event found as many waiting as there is
      capacity for. */
  lemma {:induction false} SlowMeansFull<E>(capacity: nat, states: seq<State<E>>, steps: seq<Step<E>>, n: nat)
    requires capacity > 0 && IsRun(capacity, states, steps) && n < |states|
    ensures Condemned(states[n]) ==> exists k :: 0 <= k < n && FoundFull(capacity, states, steps, k)
  {
    hide Invariant, Enabled, Apply, Waiting;
    if n > 0 && Condemned(states[n]) {
      SlowMeansFull(capacity, states, steps, n - 1);
      if !Condemned(states[n - 1]) {
        CondemnedFrom(states[n - 1], steps[n - 1]);
        ScheduleIsExact(capacity, states, steps, n - 1);
        assert FoundFull(capacity, states, steps, n - 1);
      }
    }
  }

  /** Publish `n` events that the loop never gets to run. */
  lemma {:induction false} Fill<E>(capacity: nat, event: E, n: nat)
    returns (states: seq<State<E>>, steps: seq<Step<E>>)
    requires n <= capacity
    ensures IsRun(capacity, states, steps)
    ensures var s := states[|steps|];
            && s.capacity == capacity && s.subscribed && s.active && s.outstanding == n
            && s.lock.Free? && s.publisher.Resting? && !s.slow
  {
    hide InFlight, EventsIn;
    if n == 0 {
      states, steps := [Initial(capacity)], [];
    } else {
      states, steps := Fill(capacity, event, n - 1);
      states, steps := Extend(capacity, states, steps, Publish(event));
      states, steps := Extend(capacity, states, steps, Schedule);
      states, steps := Extend(capacity, states, steps, Enqueue);
    }
  }

  lemma {:induction false} Extend<E>(capacity: nat, before: seq<State<E>>, done: seq<Step<E>>, step: Step<E>)
    returns (states: seq<State<E>>, steps: seq<Step<E>>)
    requires IsRun(capacity, before, done) && Enabled(before[|done|], step)
    ensures IsRun(capacity, states, steps)
    ensures steps == done + [step] && states[|steps|] == Apply(before[|done|], step)
  {
    hide Enabled, Apply;
    steps := done + [step];
    states := before + [Apply(before[|done|], step)];
  }

  /** It does happen: for every capacity there is a run whose receiver takes nothing and is disconnected
      as slow by one event too many. */
  lemma {:induction false} SlowHappens<E>(capacity: nat, event: E)
    returns (states: seq<State<E>>, steps: seq<Step<E>>)
    requires capacity > 0
    ensures IsRun(capacity, states, steps) && states[|steps|].slow && !states[|steps|].active
    ensures states[|steps|].callbacks != [] && states[|steps|].callbacks[|states[|steps|].callbacks| - 1].DeliverClosed?
  {
    hide InFlight, EventsIn;
    states, steps := Fill(capacity, event, capacity);
    states, steps := Extend(capacity, states, steps, Publish(event));
    states, steps := Extend(capacity, states, steps, Schedule);
    states, steps := Extend(capacity, states, steps, BeginDisconnect);
    states, steps := Extend(capacity, states, steps, Deactivate);
    states, steps := Extend(capacity, states, steps, Announce(true));
  }

  /** A subscription with nothing under way. */
  predicate Idle<E>(s: State<E>) {
    && s.subscribed && s.active && s.lock.Free? && s.publisher.Resting? && s.loop.Ready?
    && s.callbacks == [] && s.queue == [] && s.outstanding == 0 && s.capacity > 0 && !s.slow
  }

  lemma {:induction false} Send<E>(capacity: nat, before: seq<State<E>>, done: seq<Step<E>>, e: E)
    returns (states: seq<State<E>>, steps: seq<Step<E>>)
    requires IsRun(capacity, before, done) && Idle(before[|done|])
    ensures IsRun(capacity, states, steps)
    ensures var s := before[|done|];
            states[|steps|] == s.(outstanding := 1, callbacks := [Deliver(e)], published := s.published + [e])
  {
    hide IsRun;
    states, steps := Extend(capacity, before, done, Publish(e));
    states, steps := Extend(capacity, states, steps, Schedule);
    states, steps := Extend(capacity, states, steps, Enqueue);
  }

  lemma {:induction false} Receive<E>(capacity: nat, before: seq<State<E>>, done: seq<Step<E>>, s: State<E>, e: E)
    returns (states: seq<State<E>>, steps: seq<Step<E>>)
    requires IsRun(capacity, before, done) && Idle(s)
    requires before[|done|] == s.(outstanding := 1, callbacks := [Deliver(e)])
    ensures IsRun(capacity, states, steps)
    ensures states[|steps|] == s.(received := s.received + [Update(e)])
  {
    hide IsRun;
    states, steps := Extend(capacity, before, done, RunCallback);
    states, steps := Extend(capacity, states, steps, Put);
    states, steps := Extend(capacity, states, steps, Take);
    states, steps := Extend(capacity, states, steps, Count);
  }

  /** Relay the events of `es` one by one to a receiver that takes each. */
  lemma {:induction false} RelayHappens<E>(capacity: nat, es: seq<E>)
    returns (states: seq<State<E>>, steps: seq<Step<E>>)
    requires capacity > 0
    ensures IsRun(capacity, states, steps)
    ensures var s := states[|steps|]; Idle(s) && s.published == es && s.received == Received(es)
  {
    hide InFlight, EventsIn, Apply, Enabled;
    if es == [] {
      states, steps := [Initial(capacity)], [];
    } else {
      var e := es[|es| - 1];
      states, steps := RelayHappens(capacity, es[..|es| - 1]);
      var s := states[|steps|];
      states, steps := Send(capacity, states, steps, e);
      states, steps := Receive(capacity, states, steps, s.(published := s.published + [e]), e);
      assert es == es[..|es| - 1] + [e];
    }
  }

  function Received<E>(es: seq<E>): seq<Item<E>> {
    if es == [] then [] else Received(es[..|es| - 1]) + [Update(es[|es| - 1])]
  }

  /** A subscription can be closed from outside, and by a publisher whose loop is gone, without being slow. */
  lemma {:induction false} CloseHappens<E>(capacity: nat, event: E, byLoop: bool)
    returns (states: seq<State<E>>, steps: seq<Step<E>>)
    requires capacity > 0
    ensures IsRun(capacity, states, steps)
    ensures var s := states[|steps|]; !s.active && !s.subscribed && !s.slow && s.lock.Free? && s.received == []
    ensures byLoop ==> states[|steps|].published == [event]
  {
    hide InFlight, EventsIn;
    states, steps := [Initial(capacity)], [];
    if byLoop {
      states, steps := Extend(capacity, states, steps, Publish(event));
      states, steps := Extend(capacity, states, steps, Schedule);
      states, steps := Extend(capacity, states, steps, LoopRefuses);
      states, steps := Extend(capacity, states, steps, BeginUnsubscribe);
      states, steps := Extend(capacity, states, steps, EndUnsubscribe);
    } else {
      states, steps := Extend(capacity, states, steps, BeginClose);
      states, steps := Extend(capacity, states, steps, EndClose);
    }
  }

  // ---- the subscription object ----

  datatype Verdict = Inactive | Full | Accepted

  /** The fields of one subscription. Each method is one atomic section of the source, and takes
      the object from one state of the protocol to the next. */
  class TelemetrySubscription<E(==)> {
    const capacity: nat
    var active: bool
    var outstanding: int
    var queue: seq<Item<E>>

    ghost predicate Agrees(s: State<E>)
      reads this
    {
      s.capacity == capacity && s.active == active && s.outstanding == outstanding && s.queue == queue
    }

    constructor (capacity: nat)
      ensures Agrees(Initial(capacity))
    {
      this.capacity := capacity;
      active, outstanding, queue := true, 0, [];
    }

    /** The locked part of `_schedule`: full exactly when as many events wait as there is capacity. */
    method Reserve(ghost s: State<E>) returns (verdict: Verdict)
      requires Agrees(s) && Enabled(s, Schedule)
      modifies this
      ensures Agrees(Apply(s, Schedule))
      ensures verdict == match Apply(s, Schedule).publisher
                         case Overflowed(_) => Full
                         case Reserved(_) => Accepted
                         case _ => Inactive
      ensures Invariant(s) ==>
                && (verdict == Full <==> s.active && Waiting(s) == capacity)
                && (verdict == Accepted <==> s.active && Waiting(s) < capacity)
      ensures verdict == Inactive <==> !s.active
    {
      hide Invariant, Waiting;
      if Invariant(s) && s.active {
        WaitingIsOutstanding(s);
      }
      if !active {
        return Inactive;
      }
      if outstanding >= capacity {
        return Full;
      }
      outstanding := outstanding + 1;
      return Accepted;
    }

    /** The check that opens `_deliver`. */
    method MayDeliver(ghost s: State<E>) returns (proceed: bool)
      requires Agrees(s) && Enabled(s, RunCallback) && s.callbacks[0].Deliver?
      ensures Agrees(Apply(s, RunCallback))
      ensures proceed <==> Apply(s, RunCallback).loop.Checked?
    {
      return active;
    }

    /** `put_nowait`, whose QueueFull error the protocol rules out. */
    method PutNowait(ghost s: State<E>, event: E)
      requires Agrees(s) && s.loop == Checked(event)
      requires Invariant(s)
      modifies this
      ensures Agrees(Apply(s, Put))
      ensures |queue| <= capacity
    {
      assert |queue| < capacity;
      queue := queue + [Update(event)];
    }

    /** The locked part of `_deactivate`; false when the subscription was inactive already. */
    method Deactivate(ghost s: State<E>) returns (changed: bool)
      requires Agrees(s)
      modifies this
      ensures Agrees(Deactivated(s))
      ensures changed <==> s.active
      ensures changed ==> !active && outstanding == 0
    {
      if !active {
        return false;
      }
      active, outstanding := false, 0;
      return true;
    }

    /** `_deliver_closed`: drain the queue, then put the closing item. */
    method DeliverClosing(ghost s: State<E>)
      requires Agrees(s) && Enabled(s, RunCallback) && s.callbacks[0].DeliverClosed?
      modifies this
      ensures Agrees(Apply(s, RunCallback))
    {
      while queue != []
        invariant s.capacity == capacity && s.active == active && s.outstanding == outstanding
        decreases |queue|
      {
        queue := queue[1..];
      }
      queue := queue + [SubscriberClosed];
    }

    /** `queue.get` in `receive`. */
    method Get(ghost s: State<E>) returns (item: Item<E>)
      requires Agrees(s) && Enabled(s, Take)
      modifies this
      ensures item == s.queue[0]
      ensures Agrees(Apply(s, Take))
    {
      item := queue[0];
      queue := queue[1..];
    }

    /** The locked part of `receive`. */
    method CountTaken(ghost s: State<E>)
      requires Agrees(s) && Enabled(s, Count)
      requires Invariant(s)
      modifies this
      ensures Agrees(Apply(s, Count))
      ensures outstanding >= 0 || !active
    {
      assert s.active ==> s.outstanding == Counted(s);
      if active {
        outstanding := outstanding - 1;
      }
    }
  }
}
