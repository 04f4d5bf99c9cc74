/** Scripted driver inputs and the synthetic drivetrain (simulator/src/scenario.cpp, drivetrain.cpp). */
module Drivetrain {
  import opened Prelude
  import opened VehicleModel

  const IDLE_TARGET_RPM := 750.0
  const IDLE_REQUESTED_LOAD := 0.10
  const COLD_START_REQUEST: nat := 1_000_000
  const COLD_START_STABILIZATION: nat := 20_000_000
  const COLD_START_ELEVATED_LOAD := 0.40
  const MAXIMUM_DRIVE_ACCELERATION := 2.0
  const ROLLING_DECELERATION := 0.45
  const DRAG_PER_SPEED := 0.025
  const STOP_DECELERATION := 1.5
  const STOP_SPEED := 0.05
  const WOT_GEAR: int8 := 3
  const WOT_MAXIMUM_ACCELERATION := 3.0

  datatype Inputs = Inputs(accelerator: real, requestedLoad: real, stationary: bool, startRequested: bool)

  function ColdStartInputs(t: nat): Inputs {
    if t < COLD_START_REQUEST then Inputs(0.0, 0.0, true, false)
    else
      var elapsed := (t - COLD_START_REQUEST) as real / COLD_START_STABILIZATION as real;
      var fraction := 1.0 - Min(1.0, elapsed);
      Inputs(0.0, IDLE_REQUESTED_LOAD + (COLD_START_ELEVATED_LOAD - IDLE_REQUESTED_LOAD) * fraction, true, true)
  }

  function CityInputs(t: nat): Inputs {
    if t < 5_000_000 then Inputs(0.0, IDLE_REQUESTED_LOAD, true, false)
    else if t < 20_000_000 then Inputs(0.45, 0.50, false, false)
    else if t < 32_000_000 then Inputs(0.30, 0.35, false, false)
    else if t < 45_000_000 then Inputs(0.0, IDLE_REQUESTED_LOAD, false, false)
    else if t < 55_000_000 then Inputs(0.0, IDLE_REQUESTED_LOAD, true, false)
    else if t < 75_000_000 then Inputs(0.55, 0.60, false, false)
    else if t < 88_000_000 then Inputs(0.36, 0.40, false, false)
    else if t < 100_000_000 then Inputs(0.0, IDLE_REQUESTED_LOAD, false, false)
    else Inputs(0.0, IDLE_REQUESTED_LOAD, true, false)
  }

  /** `scenario_inputs_for` for the five supported scenarios. */
  function InputsFor(s: Scenario, t: nat): Inputs {
    match s
    case Idle => Inputs(0.0, IDLE_REQUESTED_LOAD, true, false)
    case Warmup => Inputs(0.0, IDLE_REQUESTED_LOAD, true, false)
    case ColdStart => ColdStartInputs(t)
    case City => CityInputs(t)
    case WideOpenThrottlePull =>
      if t < 2_000_000 then Inputs(0.12, 0.18, false, false) else Inputs(1.0, 1.0, false, false)
  }

  lemma {:induction false} InputsAreNormalized(s: Scenario, t: nat)
    ensures var i := InputsFor(s, t); Normalized(i.accelerator) && Normalized(i.requestedLoad)
    ensures s.City? ==> InputsFor(s, t).accelerator <= 0.55
    ensures s.ColdStart? && t >= COLD_START_REQUEST ==>
              IDLE_REQUESTED_LOAD <= InputsFor(s, t).requestedLoad <= COLD_START_ELEVATED_LOAD
  {
    if s.ColdStart? && t >= COLD_START_REQUEST {
      var elapsed := (t - COLD_START_REQUEST) as real / COLD_START_STABILIZATION as real;
      assert elapsed >= 0.0;
    }
  }

  function RpmFactor(gear: int): real {
    match gear
    case 1 => 310.0
    case 2 => 200.0
    case 3 => 145.0
    case 4 => 110.0
    case 5 => 90.0
    case 6 => 75.0
    case _ => 0.0
  }

  function EngineSpeedForGear(speed: real, gear: int, p: Profile): (rpm: real)
    ensures IDLE_TARGET_RPM <= p.redline ==> IDLE_TARGET_RPM <= rpm <= p.redline
  {
    if gear <= 0 || speed <= 0.0 then IDLE_TARGET_RPM
    else Clamp(speed * RpmFactor(gear), IDLE_TARGET_RPM, p.redline)
  }

  function CityGear(speed: real, stationary: bool): (gear: int8)
    ensures 0 <= gear <= 4
    ensures gear == 0 <==> stationary && speed <= STOP_SPEED
    ensures gear >= 1 ==> (gear >= 2 <==> speed >= 4.5) && (gear >= 3 <==> speed >= 8.0)
    ensures gear == 4 <==> speed >= 12.0
  {
    if stationary && speed <= STOP_SPEED then 0
    else if speed < 4.5 then 1
    else if speed < 8.0 then 2
    else if speed < 12.0 then 3
    else 4
  }

  datatype DrivetrainState = DrivetrainState(speed: real, gear: int8, rpm: real)

  function CityAcceleration(speed: real, accelerator: real, stationary: bool): real {
    if stationary then (if speed > 0.0 then -STOP_DECELERATION else 0.0)
    else accelerator * MAXIMUM_DRIVE_ACCELERATION
         - (if speed > 0.0 then ROLLING_DECELERATION + DRAG_PER_SPEED * speed else 0.0)
  }

  function CitySpeed(speed: real, accelerator: real, stationary: bool, dt: real): (v: real)
    ensures v >= 0.0
  {
    var v := Max(0.0, speed + CityAcceleration(speed, accelerator, stationary) * dt);
    if stationary && v <= STOP_SPEED then 0.0 else v
  }

  function EvolveCity(speed: real, accelerator: real, stationary: bool, dt: real, p: Profile): (d: DrivetrainState)
    ensures d.speed >= 0.0 && 0 <= d.gear <= 4
    ensures IDLE_TARGET_RPM <= p.redline ==> 0.0 <= d.rpm <= p.redline
    ensures d.speed > 0.0 ==> d.gear > 0
  {
    var v := CitySpeed(speed, accelerator, stationary, dt);
    var gear := CityGear(v, stationary);
    DrivetrainState(v, gear, EngineSpeedForGear(v, gear, p))
  }

  function EvolveWot(speed: real, output: real, dt: real, p: Profile): (d: DrivetrainState)
    ensures d.speed >= 0.0 && d.gear == WOT_GEAR
    ensures IDLE_TARGET_RPM <= p.redline ==> 0.0 <= d.rpm <= p.redline
  {
    var acceleration :=
      Clamp(output, 0.0, 2.0) * WOT_MAXIMUM_ACCELERATION - (ROLLING_DECELERATION + DRAG_PER_SPEED * speed);
    var v := Max(0.0, speed + acceleration * dt);
    DrivetrainState(v, WOT_GEAR, EngineSpeedForGear(v, WOT_GEAR, p))
  }

  // ---- the CITY speed bound ----

  const CITY_SPEED_LIMIT := 26.0
  /** 26 m/s reached in one step from rest at the strongest scripted acceleration of 1.1 m/s2. */
  const LONGEST_SAFE_STEP := 260.0 / 11.0

  lemma {:induction false} MovingStaysBelow(speed: real, accelerator: real, dt: real)
    requires 0.0 < speed <= CITY_SPEED_LIMIT && 0.0 <= accelerator <= 0.55 && 0.0 <= dt <= 40.0
    ensures speed + (accelerator * 2.0 - (ROLLING_DECELERATION + DRAG_PER_SPEED * speed)) * dt <= CITY_SPEED_LIMIT
  {
    var slack := CITY_SPEED_LIMIT - speed;
    assert (1.1 - (0.45 + 0.025 * speed)) * dt == 0.025 * slack * dt;
    assert slack * (1.0 - 0.025 * dt) >= 0.0;
    assert (accelerator * 2.0 - (0.45 + 0.025 * speed)) * dt <= (1.1 - (0.45 + 0.025 * speed)) * dt;
  }

  lemma {:induction false} CitySpeedStaysBounded(speed: real, accelerator: real, stationary: bool, dt: real)
    requires 0.0 <= speed <= CITY_SPEED_LIMIT && 0.0 <= accelerator <= 0.55 && 0.0 <= dt <= LONGEST_SAFE_STEP
    ensures CitySpeed(speed, accelerator, stationary, dt) <= CITY_SPEED_LIMIT
  {
    hide CitySpeed;
    if stationary {
      StoppingSlows(speed, accelerator, dt);
    } else if speed > 0.0 {
      MovingStaysBelow(speed, accelerator, dt);
      MovingSpeed(speed, accelerator, dt);
    } else {
      DepartingSpeed(accelerator, dt);
      NonNegative(0.55 - accelerator, dt);
    }
  }

  /** From rest, the speed after one step is the scripted acceleration times the step. */
  lemma {:induction false} DepartingSpeed(accelerator: real, dt: real)
    requires 0.0 <= accelerator && 0.0 <= dt
    ensures CitySpeed(0.0, accelerator, false, dt) == accelerator * 2.0 * dt
  {
    assert CityAcceleration(0.0, accelerator, false) * dt == accelerator * 2.0 * dt;
    NonNegative(accelerator, dt);
  }

  lemma {:induction false} NonNegative(a: real, b: real)
    requires a >= 0.0 && b >= 0.0
    ensures a * 2.0 * b >= 0.0
  {
    assert a * b >= 0.0;
  }

  lemma {:induction false} MovingSpeed(speed: real, accelerator: real, dt: real)
    requires speed > 0.0
    ensures CitySpeed(speed, accelerator, false, dt) ==
            Max(0.0, speed + (accelerator * 2.0 - (ROLLING_DECELERATION + DRAG_PER_SPEED * speed)) * dt)
  {
  }

  /** Commanded to stop, the vehicle slows by 1.5 m/s2 and does not move off from rest. */
  lemma {:induction false} StoppingSlows(speed: real, accelerator: real, dt: real)
    requires speed >= 0.0 && dt >= 0.0
    ensures CitySpeed(speed, accelerator, true, dt) <= speed
    ensures speed <= STOP_DECELERATION * dt ==> CitySpeed(speed, accelerator, true, dt) == 0.0
  {
    if speed > 0.0 {
      assert CityAcceleration(speed, accelerator, true) * dt == -(STOP_DECELERATION * dt);
    } else {
      assert CityAcceleration(speed, accelerator, true) * dt == 0.0;
    }
  }
}
