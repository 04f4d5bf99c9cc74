/** The objects of a run (simulator/src/simulation_clock.cpp, simulation.cpp). */
module SimulationRun {
  import opened Prelude
  import opened VehicleModel
  import opened Drivetrain
  import opened VehicleDynamics
  import opened VehicleSimulation
  import opened Arithmetic
  import Cal = Calibration

  datatype ClockError = Overflow

  class SimulationClock {
    const step: nat
    var timestamp: nat
    var tickCount: nat
    var paused: bool

    ghost predicate Valid()
      reads this
    {
      0 < step <= MAX_U64 && timestamp == tickCount * step && timestamp <= MAX_U64
    }

    constructor (step: nat)
      requires 0 < step <= MAX_U64
      ensures Valid() && this.step == step && timestamp == 0 && tickCount == 0 && !paused
    {
      this.step := step;
      timestamp, tickCount, paused := 0, 0, false;
    }

    /** Advance by `count` steps, or refuse and stay put when the time would not fit 64 bits. A
        paused clock ignores the request. */
    method AdvanceTicks(count: nat) returns (r: Result<(), ClockError>)
      requires Valid()
      modifies this
      ensures Valid() && paused == old(paused)
      ensures r.Err? <==> !paused && old(timestamp) + count * step > MAX_U64
      ensures r.Err? || paused ==> timestamp == old(timestamp) && tickCount == old(tickCount)
      ensures r.Ok? && !paused ==> timestamp == old(timestamp) + count * step && tickCount == old(tickCount) + count
    {
      if paused || count == 0 {
        return Ok(());
      }
      CountFits(count, step, MAX_U64 - timestamp);
      if count > (MAX_U64 - timestamp) / step {
        return Err(Overflow);
      }
      timestamp := timestamp + count * step;
      tickCount := tickCount + count;
      return Ok(());
    }

    method Advance() returns (r: Result<(), ClockError>)
      requires Valid()
      modifies this
      ensures Valid() && paused == old(paused)
      ensures r.Err? <==> !paused && old(timestamp) + step > MAX_U64
      ensures r.Err? || paused ==> timestamp == old(timestamp) && tickCount == old(tickCount)
      ensures r.Ok? && !paused ==> timestamp == old(timestamp) + step && tickCount == old(tickCount) + 1
    {
      r := AdvanceTicks(1);
    }

    method Pause()
      modifies `paused
      ensures paused
    {
      paused := true;
    }

    method Resume()
      modifies `paused
      ensures !paused
    {
      paused := false;
    }

    method Reset()
      requires Valid()
      modifies this
      ensures Valid() && timestamp == 0 && tickCount == 0 && !paused
    {
      timestamp, tickCount, paused := 0, 0, false;
    }
  }

  /** The overflow check divides instead of multiplying, and means the same. */
  lemma {:induction false} CountFits(count: nat, step: nat, room: nat)
    requires step > 0
    ensures count > room / step <==> count * step > room
  {
    DivAtLeast(room, count, step);
  }

  function Shown(s: VehicleState, paused: bool): VehicleState {
    if paused then s.(runState := RunState.Paused) else s
  }

  class Simulation {
    const exp: real -> real
    const config: Config
    const clock: SimulationClock
    const initialState: VehicleState
    var state: VehicleState

    /** The state is a function of the tick count: pausing, resuming and resetting never change what
        a tick computes. */
    ghost predicate Valid()
      reads this, clock
    {
      && ValidConfig(config) && clock.Valid() && clock.step == config.step
      && clock.timestamp <= config.duration
      && initialState == InitialState(config)
      && (clock.paused ==> clock.timestamp < config.duration)
      && state == Shown(StateAt(exp, config, clock.tickCount), clock.paused)
    }

    predicate Done()
      reads this
    {
      state.runState.Completed?
    }

    constructor (exp: real -> real, config: Config)
      requires ValidConfig(config)
      ensures Valid() && fresh(clock) && this.exp == exp && this.config == config
      ensures clock.tickCount == 0 && !clock.paused && state == InitialState(config)
    {
      this.exp, this.config := exp, config;
      StepFits(config);
      clock := new SimulationClock(config.step);
      initialState := InitialState(config);
      state := InitialState(config);
    }

    /** `evolve_vehicle_state`: the fields change one after another, later ones computed from earlier ones. */
    method EvolveVehicleState(inputs: Inputs, faults: ActiveFaults, dt: real)
      requires ValidCalibration(config.calibration)
      modifies `state
      ensures state == Evolve(exp, old(state), inputs, config.scenario, config.environment, config.profile,
                              config.calibration, faults, dt)
    {
      hide Approach, ValidCalibration, EvolveStopped, EvolveCityPart, EvolveWotPart, EvolveIdlePart, EvolveThermal;
      var e := config.environment;
      state := state.(accelerator := inputs.accelerator);
      state := state.(requestedLoad := inputs.requestedLoad);
      state := state.(ambientPressure := e.pressure);
      if !state.running && inputs.startRequested {
        state := state.(running := true);
      }
      assert state == WithInputs(old(state), inputs, e);
      if !state.running {
        EvolveStoppedEngine(dt);
        return;
      }
      if config.scenario.City? {
        EvolveCityEngine(inputs, dt);
      } else if config.scenario.WideOpenThrottlePull? {
        EvolvePullEngine(inputs, dt);
      } else {
        EvolveIdleEngine(inputs, dt);
      }
      EvolveTemperatures(faults, dt);
    }

    method EvolveStoppedEngine(dt: real)
      modifies `state
      ensures state == EvolveStopped(exp, old(state), config.environment, dt)
    {
      hide Approach;
      var e := config.environment;
      state := state.(rpm := 0.0);
      state := state.(load := 0.0);
      state := state.(throttle := 0.0);
      state := state.(manifoldPressure := e.pressure);
      state := state.(requestedBoost := 0.0);
      state := state.(intakeAir := Approach(exp, state.intakeAir, e.temperature, INTAKE_TAU, dt));
      state := state.(battery := Approach(exp, state.battery, RESTING_VOLTAGE, BATTERY_TAU, dt));
      state := state.(lambda_ := IDLE_LAMBDA);
      state := state.(ignition := IDLE_IGNITION);
      state := state.(timingCorrection := 0.0);
    }

    method EvolveCityEngine(inputs: Inputs, dt: real)
      modifies `state
      ensures state == EvolveCityPart(old(state), inputs, config.environment, config.profile, dt)
    {
      hide EvolveCity, Clamp;
      var d := EvolveCity(state.speed, inputs.accelerator, inputs.stationary, dt, config.profile);
      state := state.(speed := d.speed);
      state := state.(gear := d.gear);
      state := state.(rpm := d.rpm);
      state := state.(load := Clamp(CITY_LOAD_OFFSET + inputs.requestedLoad, 0.0, 1.0));
      state := state.(throttle := Clamp(IDLE_THROTTLE + CITY_THROTTLE_PER_ACCELERATOR * inputs.accelerator, 0.0, 1.0));
      var above := Clamp((inputs.requestedLoad - IDLE_REQUESTED_LOAD) / (1.0 - IDLE_REQUESTED_LOAD), 0.0, 1.0);
      var fraction := IDLE_MANIFOLD_FRACTION + (1.0 - IDLE_MANIFOLD_FRACTION) * above;
      state := state.(manifoldPressure := config.environment.pressure * fraction);
      state := state.(requestedBoost := 0.0);
    }

    method EvolvePullEngine(inputs: Inputs, dt: real)
      requires ValidCalibration(config.calibration)
      modifies `state
      ensures state ==
              EvolveWotPart(exp, old(state), inputs, config.environment, config.profile, config.calibration, dt)
    {
      hide Approach, EvolveWot, Clamp, Cal.Lookup1D, Cal.Lookup2D, ValidCalibration;
      var e, c := config.environment, config.calibration;
      assert Cal.Valid1D(c.throttle) && Cal.Valid2D(c.boost) && Cal.Valid1D(c.lambdaTarget) && Cal.Valid2D(c.ignition)
             && c.boostTau > 0.0 by {
        TablesAreValid(c);
      }
      var demand := Cal.Lookup1D(c.throttle, inputs.accelerator);
      state := state.(load := Clamp(CITY_LOAD_OFFSET + Max(demand, inputs.requestedLoad), 0.0, 1.0));
      state := state.(throttle := Clamp(IDLE_THROTTLE + (1.0 - IDLE_THROTTLE) * demand, 0.0, 1.0));
      var target := 0.0;
      if inputs.accelerator >= 0.20 && state.load > 0.30 {
        target := Cal.Lookup2D(c.boost, state.rpm, state.load);
      }
      assert state.load == WotLoad(c, inputs) && target == BoostTarget(c, state.rpm, inputs);
      state := state.(requestedBoost := target);
      var actual := Approach(exp, state.manifoldPressure - state.ambientPressure, target, c.boostTau, dt);
      state := state.(manifoldPressure := Max(0.0, e.pressure + actual));
      var output := demand * c.outputMultiplier * (1.0 + 0.35 * Max(0.0, actual) / Max(1.0, e.pressure));
      assert output == WotOutput(c, inputs, e, actual);
      var d := EvolveWot(state.speed, output, dt, config.profile);
      state := state.(speed := d.speed);
      state := state.(gear := d.gear);
      state := state.(rpm := d.rpm);
      state := state.(lambda_ := Approach(exp, state.lambda_, Cal.Lookup1D(c.lambdaTarget, state.load),
                                          WOT_LAMBDA_TAU, dt));
      state := state.(ignition := Approach(exp, state.ignition, Cal.Lookup2D(c.ignition, state.rpm, state.load),
                                           WOT_IGNITION_TAU, dt));
    }

    method EvolveIdleEngine(inputs: Inputs, dt: real)
      modifies `state
      ensures state == EvolveIdlePart(exp, old(state), inputs, config.environment, dt)
    {
      hide Approach, ColdStartFraction;
      state := state.(speed := 0.0);
      state := state.(gear := 0);
      var startup := ColdStartFraction(inputs.requestedLoad);
      var target := IDLE_TARGET_RPM + (COLD_ELEVATED_RPM - IDLE_TARGET_RPM) * startup;
      var tau := if startup > 0.0 then COLD_RPM_TAU else IDLE_RPM_TAU;
      state := state.(rpm := Approach(exp, state.rpm, target, tau, dt));
      state := state.(load := IDLE_LOAD + COLD_LOAD_INCREASE * startup);
      state := state.(throttle := IDLE_THROTTLE + COLD_THROTTLE_INCREASE * startup);
      state := state.(manifoldPressure := config.environment.pressure * IDLE_MANIFOLD_FRACTION);
      state := state.(requestedBoost := 0.0);
    }

    method EvolveTemperatures(faults: ActiveFaults, dt: real)
      modifies `state
      ensures state == EvolveThermal(exp, old(state), config.scenario, config.environment, faults, dt)
    {
      hide Approach;
      state := state.(coolant := Approach(exp, state.coolant, CoolantTarget(faults), CoolantTau(faults), dt));
      state := state.(oil := Approach(exp, state.oil, OIL_EQUILIBRIUM, OIL_TAU, dt));
      var heating := 0.0;
      if config.scenario.WideOpenThrottlePull? {
        heating := Max(0.0, state.manifoldPressure - state.ambientPressure) * WOT_BOOST_HEATING;
      }
      var equilibrium := config.environment.temperature + INTAKE_ABOVE_AMBIENT + heating;
      state := state.(intakeAir := Approach(exp, state.intakeAir, equilibrium, INTAKE_TAU, dt));
      if !config.scenario.WideOpenThrottlePull? {
        state := state.(lambda_ := IDLE_LAMBDA);
        state := state.(ignition := IDLE_IGNITION);
      }
      state := state.(timingCorrection := 0.0);
      state := state.(battery := Approach(exp, state.battery, BatteryTarget(faults), BatteryTau(faults), dt));
    }

    /** One step, unless paused or completed. The clock never overflows. */
    method Tick() returns (advanced: bool)
      requires Valid()
      modifies this`state, clock
      ensures Valid() && clock.paused == old(clock.paused)
      ensures advanced == (!old(clock.paused) && old(clock.timestamp) < config.duration)
      ensures clock.tickCount == old(clock.tickCount) + if advanced then 1 else 0
      ensures !advanced ==> state == old(state) && clock.timestamp == old(clock.timestamp)
    {
      hide Evolve, InputsFor, ActiveFaultsAt, ValidCalibration, InitialState, Seconds;
      CompletedAtEnd(exp, config, clock.tickCount);
      if clock.paused || Done() {
        return false;
      }
      NextTickFits(config, clock.tickCount);
      var moved := clock.Advance();
      EvolveVehicleState(InputsFor(config.scenario, clock.timestamp), ActiveFaultsAt(config.faults, clock.timestamp),
                         Seconds(clock.step));
      state := state.(timestamp := clock.timestamp,
                      runState := if clock.timestamp == config.duration then RunState.Completed else RunState.Running);
      EvolveIgnoresRunState(clock.tickCount);
      return true;
    }

    lemma {:induction false} EvolveIgnoresRunState(k: nat)
      ensures k > 0 ==> (k - 1) * config.step + config.step == k * config.step
    {
    }

    /** Up to `count` ticks; the number really made is the smaller of `count` and what is left. */
    method AdvanceTicks(count: nat) returns (advanced: nat)
      requires Valid()
      modifies this`state, clock
      ensures Valid() && clock.paused == old(clock.paused)
      ensures advanced == if clock.paused then 0
                          else if count <= TicksLeft(config, old(clock.tickCount)) then count
                          else TicksLeft(config, old(clock.tickCount))
      ensures clock.tickCount == old(clock.tickCount) + advanced
      ensures clock.paused ==> state == old(state)
    {
      hide Evolve, ValidCalibration, StateAt, InitialState;
      advanced := 0;
      LeftMeansMore(config, clock.tickCount);
      while advanced < count
        invariant Valid() && clock.paused == old(clock.paused)
        invariant advanced <= count && clock.tickCount == old(clock.tickCount) + advanced
        invariant advanced <= TicksLeft(config, old(clock.tickCount))
        invariant clock.paused ==> advanced == 0 && state == old(state)
      {
        LeftMeansMore(config, clock.tickCount);
        var moved := Tick();
        if !moved {
          return;
        }
        advanced := advanced + 1;
        LeftShrinks(config, old(clock.tickCount), advanced);
      }
    }

    /** Run to the end: exactly the remaining ticks, after which the run is completed. */
    method RunToCompletion() returns (ticks: nat)
      requires Valid()
      modifies this`state, clock
      ensures Valid() && clock.paused == old(clock.paused)
      ensures ticks == if clock.paused then 0 else (config.duration - old(clock.timestamp)) / config.step
      ensures !clock.paused ==> clock.timestamp == config.duration && Done()
    {
      hide Evolve, ValidCalibration, InitialState, ActiveFaultsAt, InputsFor;
      RemainingIsExact(config, clock.tickCount);
      StampOf(exp, config, clock.tickCount);
      ticks := AdvanceTicks((config.duration - state.timestamp) / config.step);
      CompletedAtEnd(exp, config, clock.tickCount);
      LeftMeansMore(config, clock.tickCount);
    }

    method Pause()
      requires Valid()
      modifies this`state, clock`paused
      ensures Valid() && clock.tickCount == old(clock.tickCount)
      ensures clock.paused == (old(clock.timestamp) < config.duration)
      ensures state == if clock.paused then StateAt(exp, config, clock.tickCount).(runState := RunState.Paused)
                       else StateAt(exp, config, clock.tickCount)
    {
      hide Evolve, ValidCalibration, InitialState;
      CompletedAtEnd(exp, config, clock.tickCount);
      if Done() {
        return;
      }
      clock.Pause();
      state := state.(runState := RunState.Paused);
    }

    /** Pausing and resuming leaves the state as if nothing had happened. */
    method Resume()
      requires Valid()
      modifies this`state, clock`paused
      ensures Valid() && clock.tickCount == old(clock.tickCount) && !clock.paused
      ensures state == StateAt(exp, config, clock.tickCount)
    {
      hide Evolve, ValidCalibration, InitialState;
      CompletedAtEnd(exp, config, clock.tickCount);
      if !state.runState.Paused? {
        return;
      }
      clock.Resume();
      state := state.(runState := RunState.Running);
    }

    method Reset()
      requires Valid()
      modifies this`state, clock
      ensures Valid() && clock.tickCount == 0 && !clock.paused && state == InitialState(config)
    {
      clock.Reset();
      state := initialState;
    }

    /** Whatever mix of ticks, pauses, resumes and resets led here, the contract holds. */
    lemma {:induction false} StateIsValid()
      requires Valid() && IsExp(exp) && Drivable(config.scenario, config.profile)
      ensures ValidState(state, config.profile)
    {
      hide Evolve, ValidCalibration, InitialState, IsExp, StateAt;
      EveryStateIsValid(exp, config, clock.tickCount);
    }
  }

  lemma {:induction false} TablesAreValid(c: CalibrationProfile)
    requires ValidCalibration(c)
    ensures Cal.Valid1D(c.throttle) && Cal.Valid2D(c.boost) && Cal.Valid1D(c.lambdaTarget) && Cal.Valid2D(c.ignition)
    ensures c.boostTau > 0.0
  {
  }

  function TicksLeft(c: Config, done: nat): nat
    requires c.step > 0 && done * c.step <= c.duration
  {
    (c.duration - done * c.step) / c.step
  }

  lemma {:induction false} StepFits(c: Config)
    requires ValidConfig(c)
    ensures c.step <= c.duration
  {
  }

  /** A run has reached its duration exactly when its state says completed. */
  lemma {:induction false} CompletedAtEnd(exp: real -> real, c: Config, k: nat)
    requires ValidConfig(c)
    ensures StateAt(exp, c, k).runState.Completed? <==> k * c.step == c.duration
    ensures !StateAt(exp, c, k).runState.Paused?
    ensures !StateAt(exp, c, k).runState.Completed? ==>
              StateAt(exp, c, k).(runState := RunState.Running) == StateAt(exp, c, k)
  {
    hide Evolve, InputsFor, ActiveFaultsAt, ValidCalibration;
  }

  lemma {:induction false} StampOf(exp: real -> real, c: Config, k: nat)
    requires ValidConfig(c)
    ensures StateAt(exp, c, k).timestamp == k * c.step
  {
    hide Evolve, InputsFor, ActiveFaultsAt, ValidCalibration;
  }

  /** Duration being a whole number of steps, the next tick never jumps past it. */
  lemma {:induction false} NextTickFits(c: Config, k: nat)
    requires ValidConfig(c) && k * c.step < c.duration
    ensures k * c.step + c.step <= c.duration && (k + 1) * c.step == k * c.step + c.step
  {
    hide ValidCalibration, ConsistentStart;
    var n := c.duration / c.step;
    DivMod(c.duration, c.step);
    MulReflectsOrder(k, n, c.step);
    MulKeepsOrder(k + 1, n, c.step);
    assert (k + 1) * c.step == k * c.step + c.step;
  }

  lemma {:induction false} LeftMeansMore(c: Config, k: nat)
    requires ValidConfig(c) && k * c.step <= c.duration
    ensures TicksLeft(c, k) > 0 <==> k * c.step < c.duration
    ensures (k + TicksLeft(c, k)) * c.step == c.duration
  {
    RemainingIsExact(c, k);
  }

  lemma {:induction false} RemainingIsExact(c: Config, k: nat)
    requires ValidConfig(c) && k * c.step <= c.duration
    ensures k <= c.duration / c.step && TicksLeft(c, k) == c.duration / c.step - k
    ensures (c.duration / c.step) * c.step == c.duration
  {
    hide ValidCalibration, ConsistentStart;
    var n := c.duration / c.step;
    DivMod(c.duration, c.step);
    DivAtLeast(c.duration, k, c.step);
    assert c.duration - k * c.step == (n - k) * c.step;
    DivModUnique(c.duration - k * c.step, n - k, 0, c.step);
  }

  lemma {:induction false} LeftShrinks(c: Config, k: nat, m: nat)
    requires ValidConfig(c) && k * c.step <= c.duration && (k + m) * c.step <= c.duration
    ensures m <= TicksLeft(c, k)
  {
    RemainingIsExact(c, k);
    RemainingIsExact(c, k + m);
  }
}
