/** The vehicle on the bus (can/src/vehicle_network_simulation.cpp): every control unit's due frames,
    merged in ID order after every tick. */
module VehicleNetwork {
  import opened Prelude
  import opened Arithmetic
  import opened RawCan
  import opened VehicleModel
  import opened VehicleDynamics
  import opened VehicleSimulation
  import opened SimulationRun
  import opened EcuFrames
  import opened PeriodicPublication
  import opened SimulatedEcus

  datatype Schedule = Schedule(dme: DmeSchedule, dsc: DscSchedule)

  predicate ValidSchedule(s: Schedule) {
    ValidDme(s.dme) && ValidDsc(s.dsc)
  }

  /** `schedule_for`: the full-throttle pull also observes combustion. */
  function ScheduleFor(c: Config, s: Schedule): Schedule {
    if c.scenario.WideOpenThrottlePull? then s.(dme := s.dme.(combustionEnabled := true)) else s
  }

  /** A pull always shows its combustion, any other run only when asked to; no period changes. */
  lemma {:induction false} ScheduleIsExact(c: Config, s: Schedule)
    ensures var plan := ScheduleFor(c, s);
            && (plan.dme.combustionEnabled <==> s.dme.combustionEnabled || c.scenario == WideOpenThrottlePull)
            && plan.dsc == s.dsc && plan.dme.fast == s.dme.fast && plan.dme.air == s.dme.air
            && plan.dme.thermal == s.dme.thermal && plan.dme.combustion == s.dme.combustion
  {
  }

  // ---- sorting the merge ----

  predicate AscendingIds(fs: seq<CanFrame>) {
    forall i, j :: 0 <= i < j < |fs| ==> fs[i].arbitrationId < fs[j].arbitrationId
  }

  predicate SortedIds(fs: seq<CanFrame>) {
    forall i, j :: 0 <= i < j < |fs| ==> fs[i].arbitrationId <= fs[j].arbitrationId
  }

  /** Place one frame into a sorted sequence. */
  function Insert(fs: seq<CanFrame>, f: CanFrame): (r: seq<CanFrame>)
    requires SortedIds(fs)
    ensures SortedIds(r) && multiset(r) == multiset(fs) + multiset{f}
    ensures fs == [] || fs[|fs| - 1].arbitrationId <= f.arbitrationId ==> r == fs + [f]
  {
    if fs == [] || fs[|fs| - 1].arbitrationId <= f.arbitrationId then fs + [f]
    else
      var n := |fs| - 1;
      assert fs == fs[..n] + [fs[n]];
      var r := Insert(fs[..n], f);
      InsertedBelow(fs, f, r);
      r + [fs[n]]
  }

  lemma {:induction false} InsertedBelow(fs: seq<CanFrame>, f: CanFrame, r: seq<CanFrame>)
    requires fs != [] && SortedIds(fs) && f.arbitrationId < fs[|fs| - 1].arbitrationId
    requires SortedIds(r) && multiset(r) == multiset(fs[..|fs| - 1]) + multiset{f}
    ensures SortedIds(r + [fs[|fs| - 1]])
  {
    forall i | 0 <= i < |r|
      ensures r[i].arbitrationId <= fs[|fs| - 1].arbitrationId
    {
      assert r[i] in multiset(r);
      if r[i] != f {
        assert r[i] in fs[..|fs| - 1];
      }
    }
  }

  /** `std::sort` by arbitration ID: a sorted rearrangement. */
  function SortById(fs: seq<CanFrame>): (r: seq<CanFrame>)
    ensures SortedIds(r) && multiset(r) == multiset(fs)
  {
    if fs == [] then []
    else
      assert fs == fs[..|fs| - 1] + [fs[|fs| - 1]];
      Insert(SortById(fs[..|fs| - 1]), fs[|fs| - 1])
  }

  lemma {:induction false} SortLast(fs: seq<CanFrame>)
    ensures fs == [] ==> SortById(fs) == []
    ensures fs != [] ==> SortById(fs) == Insert(SortById(fs[..|fs| - 1]), fs[|fs| - 1])
  {
    hide Insert, SortedIds;
  }

  /** The merge is in ID order already, so sorting it changes nothing. */
  lemma {:induction false} SortingOrderedFrames(fs: seq<CanFrame>)
    requires AscendingIds(fs)
    ensures SortById(fs) == fs
  {
    hide Insert, SortedIds, SortById;
    SortLast(fs);
    if fs != [] {
      var n := |fs| - 1;
      SortingOrderedFrames(fs[..n]);
      assert n > 0 ==> fs[..n][n - 1].arbitrationId < fs[n].arbitrationId;
      assert fs == fs[..n] + [fs[n]];
    }
  }

  // ---- what is due on the bus ----

  function BusDue(s: Schedule, ts: seq<u64>): seq<Message>
    requires ValidSchedule(s) && ts != []
  {
    DmeDue(s.dme, ts) + DscDue(s.dsc, ts)
  }

  predicate AscendingMessages(ms: seq<Message>) {
    forall i, j :: 0 <= i < j < |ms| ==> ms[i].id < ms[j].id
  }

  /** In ID order, with IDs from `low` on and below `high`. */
  predicate IdsWithin(ms: seq<Message>, low: nat, high: nat) {
    AscendingMessages(ms) && forall i :: 0 <= i < |ms| ==> low <= ms[i].id < high
  }

  lemma {:induction false} JoinIds(a: seq<Message>, b: seq<Message>, low: nat, middle: nat, high: nat)
    requires low <= middle <= high && IdsWithin(a, low, middle) && IdsWithin(b, middle, high)
    ensures IdsWithin(a + b, low, high)
  {
  }

  lemma {:induction false} OneId(due: bool, m: Message)
    ensures IdsWithin(If(due, m), m.id, m.id + 1)
  {
  }

  lemma {:induction false} DueMessagesAscend(s: Schedule, ts: seq<u64>)
    requires ValidSchedule(s) && ts != []
    ensures AscendingMessages(BusDue(s, ts))
  {
    hide Publishes, If, AscendingMessages, IdsWithin;
    var fast, air := If(Publishes(s.dme.fast, ts), FAST_ENGINE), If(Publishes(s.dme.air, ts), AIR_LOAD);
    var thermal := If(Publishes(s.dme.thermal, ts), THERMAL_ELECTRICAL);
    var combustion := If(s.dme.combustionEnabled && Publishes(s.dme.combustion, ts), COMBUSTION);
    var motion, wheels :=
      If(Publishes(s.dsc.motion, ts), VEHICLE_MOTION), If(Publishes(s.dsc.wheels, ts), WHEEL_SPEEDS);
    OneId(Publishes(s.dme.fast, ts), FAST_ENGINE);
    OneId(Publishes(s.dme.air, ts), AIR_LOAD);
    OneId(Publishes(s.dme.thermal, ts), THERMAL_ELECTRICAL);
    OneId(s.dme.combustionEnabled && Publishes(s.dme.combustion, ts), COMBUSTION);
    OneId(Publishes(s.dsc.motion, ts), VEHICLE_MOTION);
    OneId(Publishes(s.dsc.wheels, ts), WHEEL_SPEEDS);
    JoinIds(fast, air, 0x500, 0x501, 0x502);
    JoinIds(fast + air, thermal, 0x500, 0x502, 0x503);
    JoinIds(fast + air + thermal, combustion, 0x500, 0x503, 0x504);
    JoinIds(motion, wheels, 0x520, 0x521, 0x522);
    WidenIds(DmeDue(s.dme, ts), 0x500, 0x504, 0x520);
    JoinIds(DmeDue(s.dme, ts), DscDue(s.dsc, ts), 0x500, 0x520, 0x522);
    WithinAscends(BusDue(s, ts), 0x500, 0x522);
  }

  lemma {:induction false} WidenIds(ms: seq<Message>, low: nat, high: nat, higher: nat)
    requires IdsWithin(ms, low, high) && high <= higher
    ensures IdsWithin(ms, low, higher)
  {
  }

  lemma {:induction false} WithinAscends(ms: seq<Message>, low: nat, high: nat)
    requires IdsWithin(ms, low, high)
    ensures AscendingMessages(ms)
  {
  }

  lemma {:induction false} BornFramesAscend(fs: seq<CanFrame>, ms: seq<Message>, dme: VehicleState,
                                            truth: VehicleState, wheels: seq<real>)
    requires AllBear(fs, ms, dme, truth, wheels) && AscendingMessages(ms)
    ensures AscendingIds(fs)
  {
    forall i | 0 <= i < |fs|
      ensures fs[i].arbitrationId == ms[i].id
    {
      BornWithId(fs[i], ms[i], dme, truth, wheels);
    }
  }

  lemma {:induction false} BornWithId(f: CanFrame, m: Message, dme: VehicleState, truth: VehicleState,
                                      wheels: seq<real>)
    requires Bears(f, m, dme, truth, wheels)
    ensures f.arbitrationId == m.id && f.timestamp == truth.timestamp
  {
    hide ValuesOf, WellLaid;
  }

  /** The frames sent for one observed state: what is due, in ID order, bearing what was observed. */
  ghost predicate SentFor(frames: seq<CanFrame>, plan: Schedule, observed: seq<u64>, state: VehicleState,
                          faults: seq<Fault>) {
    && ValidSchedule(plan) && observed != []
    && var o := ObserveSensors(state, faults);
    && AllBear(frames, BusDue(plan, observed), o.dme, state, o.wheels)
  }

  lemma {:induction false} MergedFramesAscend(a: seq<CanFrame>, b: seq<CanFrame>, plan: Schedule,
                                              observed: seq<u64>, state: VehicleState, faults: seq<Fault>)
    requires ValidSchedule(plan) && observed != []
    requires var o := ObserveSensors(state, faults);
             AllBear(a, DmeDue(plan.dme, observed), o.dme, state, o.wheels)
             && AllBear(b, DscDue(plan.dsc, observed), o.dme, state, o.wheels)
    ensures SentFor(a + b, plan, observed, state, faults) && AscendingIds(a + b)
  {
    hide AllBear, DmeDue, DscDue, ActiveFaultsAt, AscendingMessages, AscendingIds, ObserveSensors;
    var o := ObserveSensors(state, faults);
    JoinFrames(a, DmeDue(plan.dme, observed), b, DscDue(plan.dsc, observed), o.dme, state, o.wheels);
    DueMessagesAscend(plan, observed);
    BornFramesAscend(a + b, BusDue(plan, observed), o.dme, state, o.wheels);
  }

  /** The receiving end of the bus: frames in the order they were sent. */
  class Transport {
    var sent: seq<CanFrame>

    constructor ()
      ensures sent == []
    {
      sent := [];
    }

    method Send(frame: CanFrame)
      modifies this
      ensures sent == old(sent) + [frame]
    {
      sent := sent + [frame];
    }

    method Clear()
      modifies this
      ensures sent == []
    {
      sent := [];
    }
  }

  class VehicleNetworkPublisher {
    const dme: SimulatedDme
    const dsc: SimulatedDsc
    const faults: seq<Fault>

    ghost predicate Valid()
      reads dme, dsc
    {
      dme.Valid() && dsc.Valid() && dme.observed == dsc.observed && ValidFaults(faults)
    }

    ghost function Plan(): Schedule {
      Schedule(dme.schedule, dsc.schedule)
    }

    constructor (schedule: Schedule, faults: seq<Fault>)
      requires ValidSchedule(schedule) && ValidFaults(faults)
      ensures Valid() && fresh(dme) && fresh(dsc)
      ensures Plan() == schedule && this.faults == faults && dme.observed == []
    {
      dme := new SimulatedDme(schedule.dme);
      dsc := new SimulatedDsc(schedule.dsc);
      this.faults := faults;
    }

    /** Observe the sensors, collect what is due from both units, and send it in ID order. */
    method ObserveAndPublish(state: VehicleState, transport: Transport) returns (ghost frames: seq<CanFrame>)
      requires Valid() && state.timestamp <= MAX_U64
      modifies dme, dsc, transport
      ensures Valid() && dme.observed == old(dme.observed) + [state.timestamp]
      ensures transport.sent == old(transport.sent) + frames
      ensures SentFor(frames, Plan(), dme.observed, state, faults)
    {
      hide AllBear, DmeDue, DscDue, DueAfter, ActiveFaultsAt, ValidFaults, Publishes, SentFor, AscendingIds, SortById,
        BusDue;
      var o := ObserveSensors(state, faults);
      var dmeFrames := dme.CollectDueFrames(o.dme, state, o.wheels);
      var dscFrames := dsc.CollectDueFrames(state, o.wheels, o.dme);
      var merged := dmeFrames + dscFrames;
      MergedFramesAscend(dmeFrames, dscFrames, Plan(), dme.observed, state, faults);
      SortingOrderedFrames(merged);
      frames := merged;
      SendAll(SortById(merged), transport);
    }

    method SendAll(frames: seq<CanFrame>, transport: Transport)
      modifies transport
      ensures transport.sent == old(transport.sent) + frames
    {
      for i := 0 to |frames|
        invariant transport.sent == old(transport.sent) + frames[..i]
      {
        transport.Send(frames[i]);
      }
    }

    method Reset()
      requires Valid()
      modifies dme, dsc
      ensures Valid() && dme.observed == []
    {
      dme.Reset();
      dsc.Reset();
    }
  }

  // ---- the whole bus of a run ----

  datatype Slot = Slot(tick: nat, message: Message)

  function SlotsOf(tick: nat, ms: seq<Message>): (r: seq<Slot>)
    ensures |r| == |ms|
    ensures forall i :: 0 <= i < |r| ==> r[i] == Slot(tick, ms[i])
  {
    if ms == [] then [] else SlotsOf(tick, ms[..|ms| - 1]) + [Slot(tick, ms[|ms| - 1])]
  }

  /** Every message due at every tick up to `k`, in order. */
  function Expected(s: Schedule, step: nat, k: nat): seq<Slot>
    requires ValidSchedule(s) && k * step <= MAX_U64
  {
    if k == 0 then SlotsOf(0, BusDue(s, Ticks(0, step)))
    else
      MulKeepsOrder(k - 1, k, step);
      Expected(s, step, k - 1) + SlotsOf(k, BusDue(s, Ticks(k, step)))
  }

  lemma {:induction false} ExpectedStep(s: Schedule, step: nat, k: nat)
    requires ValidSchedule(s) && k * step <= MAX_U64
    ensures k > 0 ==> (k - 1) * step <= k * step
    ensures Expected(s, step, k) ==
            (if k == 0 then [] else Expected(s, step, k - 1)) + SlotsOf(k, BusDue(s, Ticks(k, step)))
  {
    hide BusDue, SlotsOf, Ticks;
    if k > 0 {
      MulKeepsOrder(k - 1, k, step);
    } else {
      assert [] + SlotsOf(0, BusDue(s, Ticks(0, step))) == SlotsOf(0, BusDue(s, Ticks(0, step)));
    }
  }

  predicate BearsAt(f: CanFrame, slot: Slot, exp: real -> real, c: Config)
    requires ValidCalibration(c.calibration)
  {
    var s := StateAt(exp, c, slot.tick);
    var o := ObserveSensors(s, c.faults);
    Bears(f, slot.message, o.dme, s, o.wheels)
  }

  /** The bus holds, frame for frame, the messages due, each carrying the state of its tick. */
  ghost predicate IsBus(bus: seq<CanFrame>, slots: seq<Slot>, exp: real -> real, c: Config)
    requires ValidCalibration(c.calibration)
  {
    |bus| == |slots| && forall i :: 0 <= i < |bus| ==> BearsAt(bus[i], slots[i], exp, c)
  }

  lemma {:induction false} BusGrows(bus: seq<CanFrame>, slots: seq<Slot>, frames: seq<CanFrame>,
                                    ms: seq<Message>, exp: real -> real, c: Config, k: nat)
    requires ValidCalibration(c.calibration) && IsBus(bus, slots, exp, c)
    requires var s := StateAt(exp, c, k); var o := ObserveSensors(s, c.faults); AllBear(frames, ms, o.dme, s, o.wheels)
    ensures IsBus(bus + frames, slots + SlotsOf(k, ms), exp, c)
  {
    hide Bears, ValidCalibration, StateAt, ObserveSensors;
  }

  predicate Before(a: Slot, b: Slot) {
    a.tick < b.tick || (a.tick == b.tick && a.message.id < b.message.id)
  }

  predicate AscendingSlots(slots: seq<Slot>, last: nat) {
    && (forall i, j :: 0 <= i < j < |slots| ==> Before(slots[i], slots[j]))
    && forall i :: 0 <= i < |slots| ==> slots[i].tick <= last
  }

  /** The slots of one more tick come after those of the ticks before it. */
  lemma {:induction false} TickAscends(slots: seq<Slot>, ms: seq<Message>, k: nat)
    requires slots != [] ==> k > 0 && AscendingSlots(slots, k - 1)
    requires AscendingMessages(ms)
    ensures AscendingSlots(slots + SlotsOf(k, ms), k)
  {
    hide SlotsOf;
  }

  lemma {:induction false} ExpectedAscends(s: Schedule, step: nat, k: nat)
    requires ValidSchedule(s) && k * step <= MAX_U64
    ensures AscendingSlots(Expected(s, step, k), k)
  {
    hide BusDue, AscendingSlots, AscendingMessages, Expected, Ticks;
    DueMessagesAscend(s, Ticks(k, step));
    ExpectedStep(s, step, k);
    if k > 0 {
      MulKeepsOrder(k - 1, k, step);
      ExpectedAscends(s, step, k - 1);
      TickAscends(Expected(s, step, k - 1), BusDue(s, Ticks(k, step)), k);
    } else {
      TickAscends([], BusDue(s, Ticks(0, step)), 0);
    }
  }

  /** The merged bus is strictly increasing in (timestamp, arbitration ID). */
  lemma {:induction false} BusIsOrdered(bus: seq<CanFrame>, s: Schedule, exp: real -> real, c: Config, k: nat,
                                        i: nat, j: nat)
    requires ValidConfig(c) && ValidSchedule(s) && k * c.step <= MAX_U64
    requires IsBus(bus, Expected(s, c.step, k), exp, c) && i < j < |bus|
    ensures bus[i].timestamp < bus[j].timestamp
            || (bus[i].timestamp == bus[j].timestamp && bus[i].arbitrationId < bus[j].arbitrationId)
  {
    hide Expected, ValidCalibration, StateAt, ObserveSensors, Bears;
    ExpectedAscends(s, c.step, k);
    var slots := Expected(s, c.step, k);
    assert Before(slots[i], slots[j]);
    SlotStamp(bus[i], slots[i], exp, c);
    SlotStamp(bus[j], slots[j], exp, c);
    if slots[i].tick < slots[j].tick {
      LaterTick(slots[i].tick, slots[j].tick, c.step);
    }
  }

  lemma {:induction false} LaterTick(a: nat, b: nat, step: nat)
    requires a < b && step > 0
    ensures a * step < b * step
  {
    MulKeepsOrder(a + 1, b, step);
    assert (a + 1) * step == a * step + step;
  }

  lemma {:induction false} SlotStamp(f: CanFrame, slot: Slot, exp: real -> real, c: Config)
    requires ValidConfig(c) && BearsAt(f, slot, exp, c)
    ensures f.timestamp == slot.tick * c.step && f.arbitrationId == slot.message.id
  {
    hide ValidCalibration, StateAt, Bears;
    StampOf(exp, c, slot.tick);
    var s := StateAt(exp, c, slot.tick);
    var o := ObserveSensors(s, c.faults);
    BornWithId(f, slot.message, o.dme, s, o.wheels);
  }

  // ---- how many frames of each message ----

  function PeriodOf(s: Schedule, m: Message): u64 {
    if m == FAST_ENGINE then s.dme.fast
    else if m == AIR_LOAD then s.dme.air
    else if m == THERMAL_ELECTRICAL then s.dme.thermal
    else if m == COMBUSTION then s.dme.combustion
    else if m == VEHICLE_MOTION then s.dsc.motion
    else s.dsc.wheels
  }

  predicate Streams(s: Schedule, m: Message) {
    m in Messages() && (m == COMBUSTION ==> s.dme.combustionEnabled)
  }

  function CountSlots(slots: seq<Slot>, m: Message): nat {
    if slots == [] then 0
    else CountSlots(slots[..|slots| - 1], m) + if slots[|slots| - 1].message == m then 1 else 0
  }

  lemma {:induction false} CountConcat(a: seq<Slot>, b: seq<Slot>, m: Message)
    ensures CountSlots(a + b, m) == CountSlots(a, m) + CountSlots(b, m)
  {
    if b == [] {
      assert a + b == a;
    } else {
      var n := |b| - 1;
      CountConcat(a, b[..n], m);
      assert (a + b)[..|a + b| - 1] == a + b[..n];
    }
  }

  lemma {:induction false} CountAbsent(tick: nat, ms: seq<Message>, m: Message)
    requires forall i :: 0 <= i < |ms| ==> ms[i].id != m.id
    ensures CountSlots(SlotsOf(tick, ms), m) == 0
  {
    if ms != [] {
      var n := |ms| - 1;
      CountAbsent(tick, ms[..n], m);
      assert SlotsOf(tick, ms)[..n] == SlotsOf(tick, ms[..n]);
    }
  }

  lemma {:induction false} CountPresent(tick: nat, ms: seq<Message>, m: Message, i: nat)
    requires AscendingMessages(ms) && i < |ms| && ms[i] == m
    ensures CountSlots(SlotsOf(tick, ms), m) == 1
  {
    var n := |ms| - 1;
    assert SlotsOf(tick, ms)[..n] == SlotsOf(tick, ms[..n]);
    if i == n {
      CountAbsent(tick, ms[..n], m);
    } else {
      assert ms[i].id < ms[n].id;
      CountPresent(tick, ms[..n], m, i);
    }
  }

  /** Messages due together are distinct, so each is sent at most once per observation. */
  lemma {:induction false} CountOnce(tick: nat, ms: seq<Message>, m: Message)
    requires AscendingMessages(ms) && m in Messages() && forall i :: 0 <= i < |ms| ==> ms[i] in Messages()
    ensures CountSlots(SlotsOf(tick, ms), m) == if m in ms then 1 else 0
  {
    hide Messages, AscendingMessages, CountSlots, SlotsOf;
    if i :| 0 <= i < |ms| && ms[i] == m {
      CountPresent(tick, ms, m, i);
    } else {
      forall i | 0 <= i < |ms|
        ensures ms[i].id != m.id
      {
        DistinctIds(ms[i], m);
      }
      CountAbsent(tick, ms, m);
    }
  }

  lemma {:induction false} InIf(due: bool, x: Message, m: Message)
    ensures m in If(due, x) <==> due && m == x
  {
  }

  lemma {:induction false} InJoin(a: seq<Message>, b: seq<Message>, m: Message)
    ensures m in a + b <==> m in a || m in b
  {
  }

  /** What is due, said message by message. */
  lemma {:induction false} InBusDue(s: Schedule, ts: seq<u64>, m: Message)
    requires ValidSchedule(s) && ts != []
    ensures m in BusDue(s, ts) <==>
              || (Publishes(s.dme.fast, ts) && m == FAST_ENGINE) || (Publishes(s.dme.air, ts) && m == AIR_LOAD)
              || (Publishes(s.dme.thermal, ts) && m == THERMAL_ELECTRICAL)
              || (s.dme.combustionEnabled && Publishes(s.dme.combustion, ts) && m == COMBUSTION)
              || (Publishes(s.dsc.motion, ts) && m == VEHICLE_MOTION)
              || (Publishes(s.dsc.wheels, ts) && m == WHEEL_SPEEDS)
  {
    hide Publishes, If;
    var fast, air := If(Publishes(s.dme.fast, ts), FAST_ENGINE), If(Publishes(s.dme.air, ts), AIR_LOAD);
    var thermal := If(Publishes(s.dme.thermal, ts), THERMAL_ELECTRICAL);
    var combustion := If(s.dme.combustionEnabled && Publishes(s.dme.combustion, ts), COMBUSTION);
    InIf(Publishes(s.dme.fast, ts), FAST_ENGINE, m);
    InIf(Publishes(s.dme.air, ts), AIR_LOAD, m);
    InIf(Publishes(s.dme.thermal, ts), THERMAL_ELECTRICAL, m);
    InIf(s.dme.combustionEnabled && Publishes(s.dme.combustion, ts), COMBUSTION, m);
    InIf(Publishes(s.dsc.motion, ts), VEHICLE_MOTION, m);
    InIf(Publishes(s.dsc.wheels, ts), WHEEL_SPEEDS, m);
    InJoin(fast, air, m);
    InJoin(fast + air, thermal, m);
    InJoin(fast + air + thermal, combustion, m);
    InJoin(If(Publishes(s.dsc.motion, ts), VEHICLE_MOTION), If(Publishes(s.dsc.wheels, ts), WHEEL_SPEEDS), m);
    InJoin(DmeDue(s.dme, ts), DscDue(s.dsc, ts), m);
  }

  lemma {:induction false} DueIffPublishes(s: Schedule, ts: seq<u64>, m: Message)
    requires ValidSchedule(s) && ts != [] && m in Messages()
    ensures PeriodOf(s, m) > 0
    ensures m in BusDue(s, ts) <==> Streams(s, m) && Publishes(PeriodOf(s, m), ts)
  {
    hide Publishes, BusDue;
    InBusDue(s, ts, m);
  }

  lemma {:induction false} SlotsFollowPublication(s: Schedule, step: nat, k: nat, m: Message)
    requires ValidSchedule(s) && k * step <= MAX_U64 && Streams(s, m)
    ensures PeriodOf(s, m) > 0
    ensures CountSlots(Expected(s, step, k), m) == Published(PeriodOf(s, m), Ticks(k, step))
  {
    hide BusDue, Publishes, PeriodOf, SlotsOf, Messages;
    var ts := Ticks(k, step);
    DueAreMessages(s, ts);
    DueIffPublishes(s, ts, m);
    DueMessagesAscend(s, ts);
    CountOnce(k, BusDue(s, ts), m);
    if k == 0 {
      assert ts[..0] == [];
    } else {
      MulKeepsOrder(k - 1, k, step);
      SlotsFollowPublication(s, step, k - 1, m);
      CountConcat(Expected(s, step, k - 1), SlotsOf(k, BusDue(s, ts)), m);
    }
  }

  function CountId(bus: seq<CanFrame>, id: nat): nat {
    if bus == [] then 0 else CountId(bus[..|bus| - 1], id) + if bus[|bus| - 1].arbitrationId == id then 1 else 0
  }

  lemma {:induction false} BusCounts(bus: seq<CanFrame>, slots: seq<Slot>, exp: real -> real, c: Config, m: Message)
    requires ValidConfig(c) && IsBus(bus, slots, exp, c) && m in Messages()
    requires forall i :: 0 <= i < |slots| ==> slots[i].message in Messages()
    ensures CountId(bus, m.id) == CountSlots(slots, m)
  {
    if bus != [] {
      hide ValidCalibration, StateAt, ObserveSensors, Bears, Messages, BearsAt;
      var n := |bus| - 1;
      BusCounts(bus[..n], slots[..n], exp, c, m);
      SlotStamp(bus[n], slots[n], exp, c);
      DistinctIds(m, slots[n].message);
    }
  }

  lemma {:induction false} DistinctIds(a: Message, b: Message)
    requires a in Messages() && b in Messages()
    ensures a.id == b.id ==> a == b
  {
  }

  lemma {:induction false} DueAreMessages(s: Schedule, ts: seq<u64>)
    requires ValidSchedule(s) && ts != []
    ensures forall i :: 0 <= i < |BusDue(s, ts)| ==> BusDue(s, ts)[i] in Messages()
  {
    hide Publishes, BusDue;
    forall i | 0 <= i < |BusDue(s, ts)|
      ensures BusDue(s, ts)[i] in Messages()
    {
      InBusDue(s, ts, BusDue(s, ts)[i]);
    }
  }

  lemma {:induction false} ExpectedAreMessages(s: Schedule, step: nat, k: nat)
    requires ValidSchedule(s) && k * step <= MAX_U64
    ensures forall i :: 0 <= i < |Expected(s, step, k)| ==> Expected(s, step, k)[i].message in Messages()
  {
    hide BusDue, Messages;
    DueAreMessages(s, Ticks(k, step));
    if k > 0 {
      MulKeepsOrder(k - 1, k, step);
      ExpectedAreMessages(s, step, k - 1);
    }
  }

  /** The number of frames of each streamed message on the bus after `k` ticks: one per period, or one
      per tick when the step is longer, exactly unless the run ends in an extra frame. */
  lemma {:induction false} BusCountIsExact(bus: seq<CanFrame>, s: Schedule, exp: real -> real, c: Config, k: nat,
                                           m: Message)
    requires ValidConfig(c) && ValidSchedule(s) && k * c.step <= MAX_U64 && Streams(s, m)
    requires IsBus(bus, Expected(s, c.step, k), exp, c)
    ensures PeriodOf(s, m) > 0
    ensures CountId(bus, m.id) ==
            ExpectedFrames(k, c.step, PeriodOf(s, m)) + if ExtraFrame(k, c.step, PeriodOf(s, m)) then 1 else 0
  {
    hide Expected, IsBus, ExpectedFrames, ExtraFrame, PeriodOf, ValidCalibration;
    SlotsFollowPublication(s, c.step, k, m);
    ExpectedAreMessages(s, c.step, k);
    BusCounts(bus, Expected(s, c.step, k), exp, c, m);
    FrameCountIsExact(k, c.step, PeriodOf(s, m));
  }

  // ---- the object ----

  class VehicleNetworkSimulation {
    const vehicle: Simulation
    const publisher: VehicleNetworkPublisher
    const transport: Transport

    ghost predicate Valid()
      reads this, vehicle, vehicle.clock, publisher.dme, publisher.dsc, transport
    {
      && vehicle.Valid() && publisher.Valid() && !vehicle.clock.paused
      && publisher.faults == vehicle.config.faults
      && ValidSchedule(publisher.Plan())
      && publisher.dme.observed == Ticks(vehicle.clock.tickCount, vehicle.config.step)
      && IsBus(transport.sent, Expected(publisher.Plan(), vehicle.config.step, vehicle.clock.tickCount), vehicle.exp,
               vehicle.config)
    }

    constructor (exp: real -> real, config: Config, schedule: Schedule)
      requires ValidConfig(config) && ValidSchedule(schedule)
      ensures Valid() && fresh(vehicle) && fresh(vehicle.clock) && fresh(publisher) && fresh(publisher.dme)
      ensures fresh(publisher.dsc)
      ensures fresh(transport)
      ensures vehicle.config == config && vehicle.exp == exp && publisher.Plan() == ScheduleFor(config, schedule)
      ensures vehicle.clock.tickCount == 0
    {
      vehicle := new Simulation(exp, config);
      publisher := new VehicleNetworkPublisher(ScheduleFor(config, schedule), config.faults);
      transport := new Transport();
      new;
      PublishCurrentState([], []);
    }

    /** Publish the state just reached. */
    method PublishCurrentState(ghost before: seq<u64>, ghost slots: seq<Slot>)
      requires vehicle.Valid() && publisher.Valid() && !vehicle.clock.paused
      requires publisher.faults == vehicle.config.faults && ValidSchedule(publisher.Plan())
      requires publisher.dme.observed == before
      requires var k := vehicle.clock.tickCount;
               && before + [k * vehicle.config.step] == Ticks(k, vehicle.config.step)
               && slots == if k == 0 then [] else Expected(publisher.Plan(), vehicle.config.step, k - 1)
      requires IsBus(transport.sent, slots, vehicle.exp, vehicle.config)
      modifies publisher.dme, publisher.dsc, transport
      ensures Valid()
    {
      hide StateAt, Expected, IsBus, AllBear, ObserveSensors, ValidCalibration, ValidFaults, BusDue, Ticks;
      ghost var k := vehicle.clock.tickCount;
      ghost var sent := transport.sent;
      StampOf(vehicle.exp, vehicle.config, k);
      ExpectedStep(publisher.Plan(), vehicle.config.step, k);
      var frames := publisher.ObserveAndPublish(vehicle.state, transport);
      BusGrows(sent, slots, frames, BusDue(publisher.Plan(), publisher.dme.observed), vehicle.exp, vehicle.config, k);
    }

    /** One vehicle tick and its publication, unless the run is over. */
    method Tick() returns (advanced: bool)
      requires Valid()
      modifies vehicle`state, vehicle.clock, publisher.dme, publisher.dsc, transport
      ensures Valid()
      ensures advanced == (old(vehicle.clock.timestamp) < vehicle.config.duration)
      ensures vehicle.clock.tickCount == old(vehicle.clock.tickCount) + if advanced then 1 else 0
      ensures !advanced ==> transport.sent == old(transport.sent)
    {
      hide StateAt, Expected, IsBus, AllBear, ObserveSensors, ValidCalibration, ValidFaults, BusDue, Ticks,
        InitialState;
      ghost var k := vehicle.clock.tickCount;
      ghost var before, slots := publisher.dme.observed, Expected(publisher.Plan(), vehicle.config.step, k);
      advanced := vehicle.Tick();
      if !advanced {
        return;
      }
      TicksGrow(k + 1, vehicle.config.step);
      PublishCurrentState(before, slots);
    }

    /** Run to the end: exactly the ticks that are left, and the bus of the whole run. */
    method RunToCompletion() returns (ticks: nat)
      requires Valid()
      modifies vehicle`state, vehicle.clock, publisher.dme, publisher.dsc, transport
      ensures Valid()
      ensures ticks == TicksLeft(vehicle.config, old(vehicle.clock.tickCount))
      ensures vehicle.clock.timestamp == vehicle.config.duration
    {
      hide StateAt, Expected, IsBus, AllBear, ObserveSensors, ValidCalibration, ValidFaults, BusDue, Ticks,
        InitialState, TicksLeft;
      ticks := 0;
      ghost var start := vehicle.clock.tickCount;
      LeftMeansMore(vehicle.config, start);
      var more := true;
      while more
        invariant Valid() && vehicle.clock.tickCount == start + ticks
        invariant ticks <= TicksLeft(vehicle.config, start)
        invariant !more ==> vehicle.clock.timestamp == vehicle.config.duration
        decreases more, TicksLeft(vehicle.config, start) - ticks
      {
        more := Tick();
        if more {
          ticks := ticks + 1;
          LeftShrinks(vehicle.config, start, ticks);
        }
      }
      RemainingIsExact(vehicle.config, start);
      RemainingIsExact(vehicle.config, start + ticks);
      LeftMeansMore(vehicle.config, start + ticks);
    }

    /** Back to the first observation: the same bus as a new simulation. */
    method Reset()
      requires Valid()
      modifies vehicle`state, vehicle.clock, publisher.dme, publisher.dsc, transport
      ensures Valid() && vehicle.clock.tickCount == 0
    {
      hide StateAt, Expected, IsBus, AllBear, ObserveSensors, ValidCalibration, ValidFaults, BusDue, InitialState;
      vehicle.Reset();
      publisher.Reset();
      transport.Clear();
      EmptyBus(vehicle.exp, vehicle.config);
      PublishCurrentState([], []);
    }
  }

  lemma {:induction false} EmptyBus(exp: real -> real, c: Config)
    requires ValidCalibration(c.calibration)
    ensures IsBus([], [], exp, c)
  {
  }

  lemma {:induction false} TicksGrow(k: nat, step: nat)
    requires k > 0 && k * step <= MAX_U64
    ensures (k - 1) * step <= k * step && Ticks(k - 1, step) + [k * step] == Ticks(k, step)
  {
    MulKeepsOrder(k - 1, k, step);
  }
}
