/** The two publishing control units (can/src/simulated_dme.cpp, simulated_dsc.cpp). */
module SimulatedEcus {
  import opened Prelude
  import opened Arithmetic
  import opened RawCan
  import opened VehicleModel
  import opened SignalEncoding
  import opened EcuFrames
  import opened PeriodicPublication

  datatype DmeSchedule = DmeSchedule(fast: u64, air: u64, thermal: u64, combustion: u64, combustionEnabled: bool)

  datatype DscSchedule = DscSchedule(motion: u64, wheels: u64)

  predicate ValidDme(s: DmeSchedule) {
    s.fast > 0 && s.air > 0 && s.thermal > 0 && s.combustion > 0
  }

  predicate ValidDsc(s: DscSchedule) {
    s.motion > 0 && s.wheels > 0
  }

  /** A schedule is refused exactly when one of its periods is zero. */
  lemma {:induction false} PeriodsExactly(dme: DmeSchedule, dsc: DscSchedule)
    ensures ValidDme(dme) <==> 0 !in [dme.fast, dme.air, dme.thermal, dme.combustion]
    ensures ValidDsc(dsc) <==> 0 !in [dsc.motion, dsc.wheels]
  {
  }

  function If<A>(b: bool, x: A): seq<A> {
    if b then [x] else []
  }

  /** The messages the last of the observations `ts` publishes, in ID order. */
  function DmeDue(s: DmeSchedule, ts: seq<u64>): seq<Message>
    requires ValidDme(s) && ts != []
  {
    If(Publishes(s.fast, ts), FAST_ENGINE) + If(Publishes(s.air, ts), AIR_LOAD)
    + If(Publishes(s.thermal, ts), THERMAL_ELECTRICAL)
    + If(s.combustionEnabled && Publishes(s.combustion, ts), COMBUSTION)
  }

  function DscDue(s: DscSchedule, ts: seq<u64>): seq<Message>
    requires ValidDsc(s) && ts != []
  {
    If(Publishes(s.motion, ts), VEHICLE_MOTION) + If(Publishes(s.wheels, ts), WHEEL_SPEEDS)
  }

  /** The values of a message, given what the DME is shown, the true state and the wheel readings. */
  function ValuesOf(m: Message, dme: VehicleState, truth: VehicleState, wheels: seq<real>): seq<real> {
    if m == FAST_ENGINE then FastEngineValues(dme)
    else if m == AIR_LOAD then AirLoadValues(dme)
    else if m == THERMAL_ELECTRICAL then ThermalElectricalValues(dme)
    else if m == COMBUSTION then CombustionValues(dme)
    else if m == VEHICLE_MOTION then VehicleMotionValues(truth)
    else wheels
  }

  predicate Bears(f: CanFrame, m: Message, dme: VehicleState, truth: VehicleState, wheels: seq<real>) {
    WellLaid(m) && Carries(f, m, ValuesOf(m, dme, truth, wheels), truth.timestamp)
  }

  /** Which of the three views each message shows: the DME's of the engine, the true state's of the motion, and
      the sensors' of the wheels; all stamped with the true time. */
  lemma {:induction false} ViewsAreExact(f: CanFrame, m: Message, dme: VehicleState, truth: VehicleState,
                                         wheels: seq<real>)
    requires Bears(f, m, dme, truth, wheels) && |wheels| == 4
    ensures f.timestamp == truth.timestamp && |f.payload| == 8
    ensures m == FAST_ENGINE ==> U16At(f.payload, 0) == Encode(dme.rpm, 0.25, 0.0, 65_535)
    ensures m == AIR_LOAD ==> U16At(f.payload, 0) == Encode(dme.manifoldPressure, 0.1, 0.0, 65_535)
    ensures m == THERMAL_ELECTRICAL ==> U16At(f.payload, 0) == Encode(dme.coolant, 0.1, -100.0, 65_535)
    ensures m == COMBUSTION ==> f.payload[0] == Encode(dme.lambda_, 0.01, 0.0, 255)
    ensures m == VEHICLE_MOTION ==> U16At(f.payload, 0) == Encode(truth.speed, 0.01, 0.0, 65_535)
    ensures m == WHEEL_SPEEDS ==>
              forall i :: 0 <= i < 4 ==> U16At(f.payload, 2 * i) == Encode(wheels[i], 0.01, 0.0, 65_535)
  {
    hide Encode, U16At, Carries, WellLaid, FastEngineValues, AirLoadValues, ThermalElectricalValues, CombustionValues,
      VehicleMotionValues;
    DistinctMessages();
    var t := truth.timestamp;
    if m == FAST_ENGINE {
      EngineInBytes(f, dme, t);
    } else if m == AIR_LOAD {
      AirLoadInBytes(f, dme, t);
    } else if m == THERMAL_ELECTRICAL {
      ThermalInBytes(f, dme, t);
    } else if m == COMBUSTION || m == VEHICLE_MOTION {
      MessagesAreLaid();
      CombustionAndMotionInBytes(f, if m == COMBUSTION then dme else truth, t);
    } else if m == WHEEL_SPEEDS {
      WheelsInBytes(f, wheels, t);
    }
    BornWhole(f, m, ValuesOf(m, dme, truth, wheels), t);
  }

  lemma {:induction false} BornWhole(f: CanFrame, m: Message, values: seq<real>, t: nat)
    requires WellLaid(m) && Carries(f, m, values, t)
    ensures f.timestamp == t && |f.payload| == 8
  {
    hide Encode, RawSignal;
  }

  lemma {:induction false} MessagesAreLaid()
    ensures WellLaid(COMBUSTION) && WellLaid(VEHICLE_MOTION)
  {
    hide WellLaid;
    DmeMessagesAreWellLaid();
    DscMessagesAreWellLaid();
  }

  lemma {:induction false} DistinctMessages()
    ensures FAST_ENGINE.id < AIR_LOAD.id < THERMAL_ELECTRICAL.id < COMBUSTION.id < VEHICLE_MOTION.id < WHEEL_SPEEDS.id
  {
  }

  predicate AllBear(fs: seq<CanFrame>, ms: seq<Message>, dme: VehicleState, truth: VehicleState, wheels: seq<real>) {
    |fs| == |ms| && forall i :: 0 <= i < |fs| ==> Bears(fs[i], ms[i], dme, truth, wheels)
  }

  lemma {:induction false} AppendFrame(fs: seq<CanFrame>, ms: seq<Message>, f: CanFrame, m: Message,
                    dme: VehicleState, truth: VehicleState, wheels: seq<real>)
    requires AllBear(fs, ms, dme, truth, wheels) && Bears(f, m, dme, truth, wheels)
    ensures AllBear(fs + [f], ms + If(true, m), dme, truth, wheels)
  {
    hide Bears;
  }

  lemma {:induction false} SkipFrame(fs: seq<CanFrame>, ms: seq<Message>, m: Message, dme: VehicleState,
                                     truth: VehicleState, wheels: seq<real>)
    requires AllBear(fs, ms, dme, truth, wheels)
    ensures AllBear(fs, ms + If(false, m), dme, truth, wheels)
  {
    assert ms + [] == ms;
  }

  lemma {:induction false} NoFrames(dme: VehicleState, truth: VehicleState, wheels: seq<real>)
    ensures AllBear([], [], dme, truth, wheels)
  {
  }

  /** What a frame of the DME carries is what the network expects of its message. */
  lemma {:induction false} DmeBears(f: CanFrame, dme: VehicleState, truth: VehicleState, wheels: seq<real>)
    requires truth.timestamp == dme.timestamp
    ensures WellLaid(FAST_ENGINE) && WellLaid(AIR_LOAD) && WellLaid(THERMAL_ELECTRICAL) && WellLaid(COMBUSTION)
    ensures Carries(f, FAST_ENGINE, FastEngineValues(dme), dme.timestamp) ==> Bears(f, FAST_ENGINE, dme, truth, wheels)
    ensures Carries(f, AIR_LOAD, AirLoadValues(dme), dme.timestamp) ==> Bears(f, AIR_LOAD, dme, truth, wheels)
    ensures Carries(f, THERMAL_ELECTRICAL, ThermalElectricalValues(dme), dme.timestamp) ==>
              Bears(f, THERMAL_ELECTRICAL, dme, truth, wheels)
    ensures Carries(f, COMBUSTION, CombustionValues(dme), dme.timestamp) ==> Bears(f, COMBUSTION, dme, truth, wheels)
  {
    hide Carries, WellLaid, FastEngineValues, AirLoadValues, ThermalElectricalValues, CombustionValues,
      VehicleMotionValues;
    DmeMessagesAreWellLaid();
  }

  lemma {:induction false} JoinFrames(fs: seq<CanFrame>, ms: seq<Message>, gs: seq<CanFrame>, ns: seq<Message>,
                   dme: VehicleState, truth: VehicleState, wheels: seq<real>)
    requires AllBear(fs, ms, dme, truth, wheels) && AllBear(gs, ns, dme, truth, wheels)
    ensures AllBear(fs + gs, ms + ns, dme, truth, wheels)
  {
    hide Bears;
  }

  /** A timer that is due publishes and moves on; the next observation sees the moved timer. */
  lemma {:induction false} TimerSteps(period: u64, ts: seq<u64>, t: u64)
    requires period > 0
    ensures Publishes(period, ts + [t]) <==> t >= DueAfter(period, ts)
    ensures DueAfter(period, ts + [t]) ==
            if t >= DueAfter(period, ts) then Advanced(DueAfter(period, ts), period, t) else DueAfter(period, ts)
  {
    assert (ts + [t])[..|ts|] == ts;
  }

  class SimulatedDme {
    const schedule: DmeSchedule
    var nextFast: u64
    var nextAir: u64
    var nextThermal: u64
    var nextCombustion: u64
    /** The moments observed since the last reset. */
    ghost var observed: seq<u64>

    ghost predicate Valid()
      reads this
    {
      && ValidDme(schedule)
      && nextFast == DueAfter(schedule.fast, observed)
      && nextAir == DueAfter(schedule.air, observed)
      && nextThermal == DueAfter(schedule.thermal, observed)
      && nextCombustion == if schedule.combustionEnabled then DueAfter(schedule.combustion, observed) else 0
    }

    constructor (schedule: DmeSchedule)
      requires ValidDme(schedule)
      ensures Valid() && this.schedule == schedule && observed == []
    {
      this.schedule := schedule;
      nextFast, nextAir, nextThermal, nextCombustion := 0, 0, 0, 0;
      observed := [];
    }

    /** The frames due at this observation, in ID order, each carrying the observed state. */
    method CollectDueFrames(dme: VehicleState, ghost truth: VehicleState,
                            ghost wheels: seq<real>) returns (frames: seq<CanFrame>)
      requires Valid() && dme.timestamp <= MAX_U64 && truth.timestamp == dme.timestamp
      modifies this
      ensures Valid() && observed == old(observed) + [dme.timestamp]
      ensures AllBear(frames, DmeDue(schedule, observed), dme, truth, wheels)
    {
      hide DueAfter, Publishes, Advanced, AllBear, If;
      var t: u64 := dme.timestamp;
      TimerSteps(schedule.fast, observed, t);
      TimerSteps(schedule.air, observed, t);
      TimerSteps(schedule.thermal, observed, t);
      TimerSteps(schedule.combustion, observed, t);
      ghost var due: seq<Message>;
      frames, due := CollectFastFrames(dme, truth, wheels);
      frames, due := CollectSlowFrames(frames, due, dme, truth, wheels);
      observed := observed + [t];
    }

    /** The engine and air streams. */
    method CollectFastFrames(dme: VehicleState, ghost truth: VehicleState, ghost wheels: seq<real>)
      returns (frames: seq<CanFrame>, ghost due: seq<Message>)
      requires ValidDme(schedule) && dme.timestamp <= MAX_U64 && truth.timestamp == dme.timestamp
      modifies `nextFast, `nextAir
      ensures var t: u64 := dme.timestamp;
              && nextFast == (if t >= old(nextFast) then Advanced(old(nextFast), schedule.fast, t) else old(nextFast))
              && nextAir == (if t >= old(nextAir) then Advanced(old(nextAir), schedule.air, t) else old(nextAir))
              && due == If(t >= old(nextFast), FAST_ENGINE) + If(t >= old(nextAir), AIR_LOAD)
      ensures AllBear(frames, due, dme, truth, wheels)
    {
      hide DueAfter, Publishes, Advanced, Carries, WellLaid, AllBear, Bears, ValuesOf, If, FastEngineValues,
        AirLoadValues, ThermalElectricalValues, CombustionValues;
      var t: u64 := dme.timestamp;
      frames, due := [], [];
      NoFrames(dme, truth, wheels);
      if t >= nextFast {
        var f := MakeDmeFastEngineFrame(dme);
        DmeBears(f, dme, truth, wheels);
        AppendFrame(frames, due, f, FAST_ENGINE, dme, truth, wheels);
        frames := frames + [f];
        nextFast := AdvanceDueTimestamp(nextFast, schedule.fast, t);
      } else {
        SkipFrame(frames, due, FAST_ENGINE, dme, truth, wheels);
      }
      due := due + If(t >= old(nextFast), FAST_ENGINE);
      if t >= nextAir {
        var f := MakeDmeAirLoadFrame(dme);
        DmeBears(f, dme, truth, wheels);
        AppendFrame(frames, due, f, AIR_LOAD, dme, truth, wheels);
        frames := frames + [f];
        nextAir := AdvanceDueTimestamp(nextAir, schedule.air, t);
      } else {
        SkipFrame(frames, due, AIR_LOAD, dme, truth, wheels);
      }
      due := due + If(t >= old(nextAir), AIR_LOAD);
    }

    /** The thermal and combustion streams. */
    method CollectSlowFrames(fast: seq<CanFrame>, ghost fastDue: seq<Message>, dme: VehicleState,
                             ghost truth: VehicleState, ghost wheels: seq<real>)
      returns (frames: seq<CanFrame>, ghost due: seq<Message>)
      requires ValidDme(schedule) && dme.timestamp <= MAX_U64 && truth.timestamp == dme.timestamp
      requires AllBear(fast, fastDue, dme, truth, wheels)
      modifies `nextThermal, `nextCombustion
      ensures var t: u64 := dme.timestamp;
              && nextThermal ==
                 (if t >= old(nextThermal) then Advanced(old(nextThermal), schedule.thermal, t) else old(nextThermal))
              && nextCombustion == (if schedule.combustionEnabled && t >= old(nextCombustion)
                                    then Advanced(old(nextCombustion), schedule.combustion, t) else old(nextCombustion))
              && due == fastDue + If(t >= old(nextThermal), THERMAL_ELECTRICAL)
                        + If(schedule.combustionEnabled && t >= old(nextCombustion), COMBUSTION)
      ensures AllBear(frames, due, dme, truth, wheels)
    {
      hide DueAfter, Publishes, Advanced, Carries, WellLaid, AllBear, Bears, ValuesOf, If, FastEngineValues,
        AirLoadValues, ThermalElectricalValues, CombustionValues;
      var t: u64 := dme.timestamp;
      frames, due := fast, fastDue;
      if t >= nextThermal {
        var f := MakeDmeThermalElectricalFrame(dme);
        DmeBears(f, dme, truth, wheels);
        AppendFrame(frames, due, f, THERMAL_ELECTRICAL, dme, truth, wheels);
        frames := frames + [f];
        nextThermal := AdvanceDueTimestamp(nextThermal, schedule.thermal, t);
      } else {
        SkipFrame(frames, due, THERMAL_ELECTRICAL, dme, truth, wheels);
      }
      due := due + If(t >= old(nextThermal), THERMAL_ELECTRICAL);
      if schedule.combustionEnabled && t >= nextCombustion {
        var f := MakeDmeCombustionObservationFrame(dme);
        DmeBears(f, dme, truth, wheels);
        AppendFrame(frames, due, f, COMBUSTION, dme, truth, wheels);
        frames := frames + [f];
        nextCombustion := AdvanceDueTimestamp(nextCombustion, schedule.combustion, t);
      } else {
        SkipFrame(frames, due, COMBUSTION, dme, truth, wheels);
      }
      due := due + If(schedule.combustionEnabled && t >= old(nextCombustion), COMBUSTION);
    }

    method Reset()
      requires ValidDme(schedule)
      modifies this
      ensures Valid() && observed == []
    {
      nextFast, nextAir, nextThermal, nextCombustion := 0, 0, 0, 0;
      observed := [];
    }
  }

  class SimulatedDsc {
    const schedule: DscSchedule
    var nextMotion: u64
    var nextWheels: u64
    ghost var observed: seq<u64>

    ghost predicate Valid()
      reads this
    {
      && ValidDsc(schedule)
      && nextMotion == DueAfter(schedule.motion, observed)
      && nextWheels == DueAfter(schedule.wheels, observed)
    }

    constructor (schedule: DscSchedule)
      requires ValidDsc(schedule)
      ensures Valid() && this.schedule == schedule && observed == []
    {
      this.schedule := schedule;
      nextMotion, nextWheels := 0, 0;
      observed := [];
    }

    method CollectDueFrames(truth: VehicleState, wheels: seq<real>,
                            ghost dme: VehicleState) returns (frames: seq<CanFrame>)
      requires Valid() && truth.timestamp <= MAX_U64 && |wheels| == 4
      modifies this
      ensures Valid() && observed == old(observed) + [truth.timestamp]
      ensures AllBear(frames, DscDue(schedule, observed), dme, truth, wheels)
    {
      hide DueAfter, Publishes, Advanced, Carries, WellLaid;
      var t: u64 := truth.timestamp;
      TimerSteps(schedule.motion, observed, t);
      TimerSteps(schedule.wheels, observed, t);
      frames := [];
      ghost var due: seq<Message> := [];
      if t >= nextMotion {
        var f := MakeDscVehicleMotionFrame(truth);
        AppendFrame(frames, due, f, VEHICLE_MOTION, dme, truth, wheels);
        frames, due := frames + [f], due + [VEHICLE_MOTION];
        nextMotion := AdvanceDueTimestamp(nextMotion, schedule.motion, t);
      }
      if t >= nextWheels {
        var f := MakeDscWheelSpeedsFrame(truth, wheels);
        AppendFrame(frames, due, f, WHEEL_SPEEDS, dme, truth, wheels);
        frames, due := frames + [f], due + [WHEEL_SPEEDS];
        nextWheels := AdvanceDueTimestamp(nextWheels, schedule.wheels, t);
      }
      observed := observed + [t];
    }

    method Reset()
      requires ValidDsc(schedule)
      modifies this
      ensures Valid() && observed == []
    {
      nextMotion, nextWheels := 0, 0;
      observed := [];
    }
  }
}
