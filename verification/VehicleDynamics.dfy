/** One simulation step (simulator/src/simulation.cpp): first-order responses and the evolution of the
    vehicle state. The exponential is a parameter of which only three laws are used. */
module VehicleDynamics {
  import opened Prelude
  import opened VehicleModel
  import opened Drivetrain
  import Cal = Calibration

  // ---- the exponential ----

  ghost predicate IsExp(exp: real -> real) {
    && exp(0.0) == 1.0
    && (forall x: real :: x <= 0.0 ==> 0.0 < exp(x) <= 1.0)
    && forall x: real, y: real :: exp(x + y) == exp(x) * exp(y)
  }

  lemma {:induction false} ExpRange(exp: real -> real, x: real)
    requires IsExp(exp) && x <= 0.0
    ensures 0.0 < exp(x) <= 1.0
  {
  }

  lemma {:induction false} ExpAdds(exp: real -> real, x: real, y: real)
    requires IsExp(exp)
    ensures exp(x + y) == exp(x) * exp(y)
  {
  }

  lemma {:induction false} ExpZero(exp: real -> real)
    requires IsExp(exp)
    ensures exp(0.0) == 1.0
  {
  }

  // ---- first-order response ----

  function Approach(exp: real -> real, current: real, target: real, tau: real, dt: real): real
    requires tau > 0.0
  {
    target + (current - target) * exp(-dt / tau)
  }

  lemma {:induction false} NonNegativeProduct(a: real, b: real)
    requires a >= 0.0 && b >= 0.0
    ensures a * b >= 0.0
  {
  }

  lemma {:induction false} Shrinks(gap: real, f: real)
    requires 0.0 < f <= 1.0
    ensures gap >= 0.0 ==> 0.0 <= gap * f <= gap
    ensures gap <= 0.0 ==> gap <= gap * f <= 0.0
  {
    var g := 1.0 - f;
    assert gap * f == gap - gap * g;
    if gap >= 0.0 {
      NonNegativeProduct(gap, f);
      NonNegativeProduct(gap, g);
    } else {
      NonNegativeProduct(-gap, f);
      NonNegativeProduct(-gap, g);
      assert -gap * f == -(gap * f) && -gap * g == -(gap * g);
    }
  }

  lemma {:induction false} ElapsedExponent(dt: real, tau: real)
    requires dt >= 0.0 && tau > 0.0
    ensures -dt / tau <= 0.0
  {
  }

  /** A response moves toward its target and never past it. */
  lemma {:induction false} ApproachDoesNotOvershoot(exp: real -> real, current: real, target: real, tau: real, dt: real)
    requires IsExp(exp) && tau > 0.0 && dt >= 0.0
    ensures current <= target ==> current <= Approach(exp, current, target, tau, dt) <= target
    ensures current >= target ==> target <= Approach(exp, current, target, tau, dt) <= current
  {
    hide IsExp;
    ElapsedExponent(dt, tau);
    ExpRange(exp, -dt / tau);
    var gap, f := current - target, exp(-dt / tau);
    Shrinks(gap, f);
    assert Approach(exp, current, target, tau, dt) == target + gap * f;
  }

  lemma {:induction false} Scale(gap: real, f: real, g: real)
    ensures gap * f * g == gap * (f * g)
  {
  }

  /** Two responses in a row are one response over the sum of the times. */
  lemma {:induction false} ApproachComposes(exp: real -> real, current: real, target: real, tau: real, dt: real,
                                            du: real)
    requires IsExp(exp) && tau > 0.0
    ensures Approach(exp, Approach(exp, current, target, tau, dt), target, tau, du) ==
            Approach(exp, current, target, tau, dt + du)
  {
    hide IsExp;
    ExpAdds(exp, -dt / tau, -du / tau);
    assert -dt / tau + -du / tau == -(dt + du) / tau;
    Scale(current - target, exp(-dt / tau), exp(-du / tau));
  }

  /** `n` equal responses in a row. */
  function ApproachMany(exp: real -> real, current: real, target: real, tau: real, dt: real, n: nat): real
    requires tau > 0.0
  {
    if n == 0 then current else Approach(exp, ApproachMany(exp, current, target, tau, dt, n - 1), target, tau, dt)
  }

  /** The time `n` steps take. */
  function Elapsed(n: nat, dt: real): real {
    n as real * dt
  }

  lemma {:induction false} OneMoreStep(n: nat, dt: real)
    ensures Elapsed(n + 1, dt) == Elapsed(n, dt) + dt && Elapsed(0, dt) == 0.0
  {
    assert (n + 1) as real == n as real + 1.0;
  }

  /** The step size does not matter: `n` responses at `dt` are one response over `n * dt`. */
  lemma {:induction false} ApproachManyIsOne(exp: real -> real, current: real, target: real, tau: real, dt: real,
                                             n: nat)
    requires IsExp(exp) && tau > 0.0
    ensures ApproachMany(exp, current, target, tau, dt, n) == Approach(exp, current, target, tau, Elapsed(n, dt))
  {
    hide IsExp, Approach, Elapsed;
    if n == 0 {
      OneMoreStep(0, dt);
      ApproachOverNoTime(exp, current, target, tau);
    } else {
      ApproachManyIsOne(exp, current, target, tau, dt, n - 1);
      ApproachComposes(exp, current, target, tau, Elapsed(n - 1, dt), dt);
      OneMoreStep(n - 1, dt);
    }
  }

  lemma {:induction false} ApproachOverNoTime(exp: real -> real, current: real, target: real, tau: real)
    requires IsExp(exp) && tau > 0.0
    ensures Approach(exp, current, target, tau, 0.0) == current
  {
    hide IsExp;
    ExpZero(exp);
    assert -0.0 / tau == 0.0;
  }

  lemma {:induction false} ApproachStaysAtMost(exp: real -> real, current: real, target: real, tau: real,
                                               dt: real, high: real)
    requires IsExp(exp) && tau > 0.0 && dt >= 0.0 && current <= high && target <= high
    ensures Approach(exp, current, target, tau, dt) <= high
  {
    hide IsExp, Approach;
    ApproachDoesNotOvershoot(exp, current, target, tau, dt);
  }

  lemma {:induction false} ApproachStaysAtLeast(exp: real -> real, current: real, target: real, tau: real,
                                                dt: real, low: real)
    requires IsExp(exp) && tau > 0.0 && dt >= 0.0 && current >= low && target >= low
    ensures Approach(exp, current, target, tau, dt) >= low
  {
    hide IsExp, Approach;
    ApproachDoesNotOvershoot(exp, current, target, tau, dt);
  }

  lemma {:induction false} ApproachStaysPositive(exp: real -> real, current: real, target: real, tau: real, dt: real)
    requires IsExp(exp) && tau > 0.0 && dt >= 0.0 && current > 0.0 && target > 0.0
    ensures Approach(exp, current, target, tau, dt) > 0.0
  {
    hide IsExp, Approach;
    ApproachDoesNotOvershoot(exp, current, target, tau, dt);
  }

  // ---- parameters ----

  const COOLANT_TAU := 300.0
  const COOLANT_EQUILIBRIUM := 92.0
  const DEGRADED_COOLANT_TAU := 15.0
  const DEGRADED_COOLANT_EQUILIBRIUM := 140.0
  const OIL_TAU := 600.0
  const OIL_EQUILIBRIUM := 100.0
  const INTAKE_TAU := 60.0
  const INTAKE_ABOVE_AMBIENT := 10.0
  const BATTERY_TAU := 1.0
  const CHARGING_VOLTAGE := 14.2
  const RESTING_VOLTAGE := 12.6
  const FAILED_CHARGING_TAU := 0.5
  const FAILED_CHARGING_VOLTAGE := 11.8
  const IDLE_LOAD := 0.18
  const IDLE_THROTTLE := 0.06
  const IDLE_MANIFOLD_FRACTION := 0.40
  const IDLE_LAMBDA := 1.0
  const IDLE_IGNITION := 8.0
  const IDLE_RPM_TAU := 1.5
  const COLD_RPM_TAU := 0.75
  const COLD_ELEVATED_RPM := 1200.0
  const COLD_LOAD_INCREASE := 0.30
  const COLD_THROTTLE_INCREASE := 0.04
  const CITY_LOAD_OFFSET := 0.08
  const CITY_THROTTLE_PER_ACCELERATOR := 0.60
  const WOT_LAMBDA_TAU := 0.25
  const WOT_IGNITION_TAU := 0.20
  const WOT_BOOST_HEATING := 0.08

  datatype CalibrationProfile = CalibrationProfile(
    throttle: Cal.Table1D,
    boost: Cal.Table2D,
    lambdaTarget: Cal.Table1D,
    ignition: Cal.Table2D,
    boostTau: real,
    outputMultiplier: real)

  predicate ValidCalibration(c: CalibrationProfile) {
    && Cal.Valid1D(c.throttle) && Cal.Valid2D(c.boost) && Cal.Valid1D(c.lambdaTarget) && Cal.Valid2D(c.ignition)
    && c.boostTau > 0.0
    && forall i :: 0 <= i < |c.lambdaTarget.values| ==> c.lambdaTarget.values[i] > 0.0
  }

  function ColdStartFraction(requestedLoad: real): (f: real)
    ensures 0.0 <= f <= 1.0
  {
    Clamp((requestedLoad - IDLE_REQUESTED_LOAD) / (COLD_START_ELEVATED_LOAD - IDLE_REQUESTED_LOAD), 0.0, 1.0)
  }

  // ---- one step, part by part ----

  function WithInputs(s: VehicleState, i: Inputs, e: Environment): VehicleState {
    s.(accelerator := i.accelerator, requestedLoad := i.requestedLoad, ambientPressure := e.pressure,
       running := s.running || i.startRequested)
  }

  function EvolveStopped(exp: real -> real, s: VehicleState, e: Environment, dt: real): VehicleState {
    s.(rpm := 0.0, load := 0.0, throttle := 0.0, manifoldPressure := e.pressure, requestedBoost := 0.0,
       intakeAir := Approach(exp, s.intakeAir, e.temperature, INTAKE_TAU, dt),
       battery := Approach(exp, s.battery, RESTING_VOLTAGE, BATTERY_TAU, dt),
       lambda_ := IDLE_LAMBDA, ignition := IDLE_IGNITION, timingCorrection := 0.0)
  }

  function CityManifoldFraction(requestedLoad: real): (f: real)
    ensures IDLE_MANIFOLD_FRACTION <= f <= 1.0
  {
    var above := Clamp((requestedLoad - IDLE_REQUESTED_LOAD) / (1.0 - IDLE_REQUESTED_LOAD), 0.0, 1.0);
    IDLE_MANIFOLD_FRACTION + (1.0 - IDLE_MANIFOLD_FRACTION) * above
  }

  function EvolveCityPart(s: VehicleState, i: Inputs, e: Environment, p: Profile, dt: real): VehicleState
  {
    var d := EvolveCity(s.speed, i.accelerator, i.stationary, dt, p);
    s.(speed := d.speed, gear := d.gear, rpm := d.rpm,
       load := Clamp(CITY_LOAD_OFFSET + i.requestedLoad, 0.0, 1.0),
       throttle := Clamp(IDLE_THROTTLE + CITY_THROTTLE_PER_ACCELERATOR * i.accelerator, 0.0, 1.0),
       manifoldPressure := e.pressure * CityManifoldFraction(i.requestedLoad),
       requestedBoost := 0.0)
  }

  function WotLoad(c: CalibrationProfile, i: Inputs): (load: real)
    requires ValidCalibration(c)
    ensures 0.0 <= load <= 1.0
  {
    Clamp(CITY_LOAD_OFFSET + Max(Cal.Lookup1D(c.throttle, i.accelerator), i.requestedLoad), 0.0, 1.0)
  }

  function BoostTarget(c: CalibrationProfile, rpm: real, i: Inputs): real
    requires ValidCalibration(c)
  {
    if i.accelerator >= 0.20 && WotLoad(c, i) > 0.30 then Cal.Lookup2D(c.boost, rpm, WotLoad(c, i)) else 0.0
  }

  function WotOutput(c: CalibrationProfile, i: Inputs, e: Environment, actualBoost: real): real
    requires ValidCalibration(c)
  {
    Cal.Lookup1D(c.throttle, i.accelerator) * c.outputMultiplier *
    (1.0 + 0.35 * Max(0.0, actualBoost) / Max(1.0, e.pressure))
  }

  function EvolveWotPart(exp: real -> real, s: VehicleState, i: Inputs, e: Environment, p: Profile,
                         c: CalibrationProfile, dt: real): VehicleState
    requires ValidCalibration(c)
  {
    var demand := Cal.Lookup1D(c.throttle, i.accelerator);
    var load := WotLoad(c, i);
    var target := BoostTarget(c, s.rpm, i);
    var actual := Approach(exp, s.manifoldPressure - s.ambientPressure, target, c.boostTau, dt);
    var d := EvolveWot(s.speed, WotOutput(c, i, e, actual), dt, p);
    s.(load := load, throttle := Clamp(IDLE_THROTTLE + (1.0 - IDLE_THROTTLE) * demand, 0.0, 1.0),
       requestedBoost := target, manifoldPressure := Max(0.0, e.pressure + actual),
       speed := d.speed, gear := d.gear, rpm := d.rpm,
       lambda_ := Approach(exp, s.lambda_, Cal.Lookup1D(c.lambdaTarget, load), WOT_LAMBDA_TAU, dt),
       ignition := Approach(exp, s.ignition, Cal.Lookup2D(c.ignition, d.rpm, load), WOT_IGNITION_TAU, dt))
  }

  function IdleRpmTarget(requestedLoad: real): (rpm: real)
    ensures IDLE_TARGET_RPM <= rpm <= COLD_ELEVATED_RPM
  {
    IDLE_TARGET_RPM + (COLD_ELEVATED_RPM - IDLE_TARGET_RPM) * ColdStartFraction(requestedLoad)
  }

  function IdleRpmTau(requestedLoad: real): (tau: real)
    ensures tau > 0.0
  {
    if ColdStartFraction(requestedLoad) > 0.0 then COLD_RPM_TAU else IDLE_RPM_TAU
  }

  function EvolveIdlePart(exp: real -> real, s: VehicleState, i: Inputs, e: Environment, dt: real): VehicleState {
    var f := ColdStartFraction(i.requestedLoad);
    s.(speed := 0.0, gear := 0,
       rpm := Approach(exp, s.rpm, IdleRpmTarget(i.requestedLoad), IdleRpmTau(i.requestedLoad), dt),
       load := IDLE_LOAD + COLD_LOAD_INCREASE * f,
       throttle := IDLE_THROTTLE + COLD_THROTTLE_INCREASE * f,
       manifoldPressure := e.pressure * IDLE_MANIFOLD_FRACTION,
       requestedBoost := 0.0)
  }

  function CoolantTarget(f: ActiveFaults): real {
    if f.cooling then DEGRADED_COOLANT_EQUILIBRIUM else COOLANT_EQUILIBRIUM
  }

  function CoolantTau(f: ActiveFaults): (tau: real)
    ensures tau > 0.0
  {
    if f.cooling then DEGRADED_COOLANT_TAU else COOLANT_TAU
  }

  function BatteryTarget(f: ActiveFaults): (v: real)
    ensures v > 0.0
  {
    if f.charging then FAILED_CHARGING_VOLTAGE else CHARGING_VOLTAGE
  }

  function BatteryTau(f: ActiveFaults): (tau: real)
    ensures tau > 0.0
  {
    if f.charging then FAILED_CHARGING_TAU else BATTERY_TAU
  }

  /** Temperatures and voltage of a running engine, after the powertrain part of the step. */
  function EvolveThermal(exp: real -> real, s: VehicleState, scenario: Scenario, e: Environment, f: ActiveFaults,
                         dt: real): VehicleState {
    var pull := scenario.WideOpenThrottlePull?;
    var heating := if pull then Max(0.0, s.manifoldPressure - s.ambientPressure) * WOT_BOOST_HEATING else 0.0;
    s.(coolant := Approach(exp, s.coolant, CoolantTarget(f), CoolantTau(f), dt),
       oil := Approach(exp, s.oil, OIL_EQUILIBRIUM, OIL_TAU, dt),
       intakeAir := Approach(exp, s.intakeAir, e.temperature + INTAKE_ABOVE_AMBIENT + heating, INTAKE_TAU, dt),
       lambda_ := if pull then s.lambda_ else IDLE_LAMBDA,
       ignition := if pull then s.ignition else IDLE_IGNITION,
       timingCorrection := 0.0,
       battery := Approach(exp, s.battery, BatteryTarget(f), BatteryTau(f), dt))
  }

  /** `evolve_vehicle_state`. */
  function Evolve(exp: real -> real, s: VehicleState, i: Inputs, scenario: Scenario, e: Environment, p: Profile,
                  c: CalibrationProfile, f: ActiveFaults, dt: real): VehicleState
    requires ValidCalibration(c)
  {
    var s1 := WithInputs(s, i, e);
    if !s1.running then EvolveStopped(exp, s1, e, dt)
    else
      var s2 := if scenario.City? then EvolveCityPart(s1, i, e, p, dt)
                else if scenario.WideOpenThrottlePull? then EvolveWotPart(exp, s1, i, e, p, c, dt)
                else EvolveIdlePart(exp, s1, i, e, dt);
      EvolveThermal(exp, s2, scenario, e, f, dt)
  }

  // ---- the contract over one step ----

  /** The least redline with which a scenario can be driven. */
  function NeededRedline(s: Scenario): real {
    if s.ColdStart? then COLD_ELEVATED_RPM else IDLE_TARGET_RPM
  }

  function NeededGears(s: Scenario): nat {
    if s.City? then 4 else if s.WideOpenThrottlePull? then 3 else 1
  }

  predicate Drivable(scenario: Scenario, p: Profile) {
    ValidProfile(p) && p.redline >= NeededRedline(scenario) && p.forwardGears >= NeededGears(scenario)
  }

  /** Once powered, only the cold start begins with the engine off; a stopped engine stands still. */
  predicate Powered(s: VehicleState, scenario: Scenario) {
    s.running || (scenario.ColdStart? && s.speed == 0.0)
  }

  lemma {:induction false} StoppedStaysValid(exp: real -> real, s: VehicleState, p: Profile, e: Environment, dt: real)
    requires IsExp(exp) && dt >= 0.0 && ValidState(s, p) && !s.running && ValidEnvironment(e)
    ensures ValidState(EvolveStopped(exp, s, e, dt), p)
  {
    hide IsExp, Approach;
    ApproachStaysAtLeast(exp, s.battery, RESTING_VOLTAGE, BATTERY_TAU, dt, 0.0);
  }

  lemma {:induction false} FractionOfPressure(pressure: real, f: real)
    requires pressure >= 0.0 && f >= 0.0
    ensures pressure * f >= 0.0
  {
  }

  lemma {:induction false} CityStaysValid(s: VehicleState, i: Inputs, p: Profile, e: Environment, dt: real)
    requires ValidState(s, p) && s.running && ValidEnvironment(e) && p.redline >= IDLE_TARGET_RPM
    requires EvolveCityPart(s, i, e, p, dt).gear <= p.forwardGears
    ensures ValidState(EvolveCityPart(s, i, e, p, dt), p)
  {
    hide EvolveCity, CityManifoldFraction;
    FractionOfPressure(e.pressure, CityManifoldFraction(i.requestedLoad));
  }

  lemma {:induction false} CityGearWithinFour(s: VehicleState, i: Inputs, p: Profile, e: Environment, dt: real)
    ensures EvolveCityPart(s, i, e, p, dt).gear <= 4
  {
    hide EvolveCity, CityManifoldFraction;
  }

  lemma {:induction false} LambdaTargetIsPositive(c: CalibrationProfile, load: real)
    requires ValidCalibration(c)
    ensures Cal.Lookup1D(c.lambdaTarget, load) > 0.0
  {
    hide Cal.Lookup1D, Cal.IntervalFor;
    Cal.LookupIsBetween(c.lambdaTarget, load);
  }

  lemma {:induction false} WotStaysValid(exp: real -> real, s: VehicleState, i: Inputs, p: Profile,
                                         e: Environment, c: CalibrationProfile, dt: real)
    requires IsExp(exp) && dt >= 0.0 && ValidCalibration(c)
    requires ValidState(s, p) && s.running && ValidEnvironment(e) && Drivable(WideOpenThrottlePull, p)
    ensures ValidState(EvolveWotPart(exp, s, i, e, p, c, dt), p)
  {
    hide IsExp, Approach, EvolveWot, WotLoad, WotOutput, BoostTarget, Cal.Lookup1D, Cal.Lookup2D, Cal.Valid1D,
      Cal.Valid2D;
    var load := WotLoad(c, i);
    LambdaTargetIsPositive(c, load);
    ApproachStaysPositive(exp, s.lambda_, Cal.Lookup1D(c.lambdaTarget, load), WOT_LAMBDA_TAU, dt);
  }

  /** The idling part keeps the contract as long as it does not rev past the redline. */
  lemma {:induction false} IdleStaysValid(exp: real -> real, s: VehicleState, i: Inputs, p: Profile,
                                          e: Environment, dt: real)
    requires IsExp(exp) && dt >= 0.0
    requires ValidState(s, p) && s.running && ValidEnvironment(e)
    requires EvolveIdlePart(exp, s, i, e, dt).rpm <= p.redline
    ensures ValidState(EvolveIdlePart(exp, s, i, e, dt), p)
  {
    hide IsExp, Approach, IdleRpmTarget, IdleRpmTau, ColdStartFraction;
    ApproachStaysAtLeast(exp, s.rpm, IdleRpmTarget(i.requestedLoad), IdleRpmTau(i.requestedLoad), dt, 0.0);
    FractionOfPressure(e.pressure, IDLE_MANIFOLD_FRACTION);
  }

  lemma {:induction false} ThermalStaysValid(exp: real -> real, s: VehicleState, scenario: Scenario, p: Profile,
                                             e: Environment, f: ActiveFaults, dt: real)
    requires IsExp(exp) && dt >= 0.0 && ValidState(s, p)
    ensures ValidState(EvolveThermal(exp, s, scenario, e, f, dt), p)
  {
    hide IsExp, Approach;
    ApproachStaysAtLeast(exp, s.battery, BatteryTarget(f), BatteryTau(f), dt, 0.0);
  }

  lemma {:induction false} IdleStaysBelowRedline(exp: real -> real, s: VehicleState, i: Inputs, p: Profile,
                                                 e: Environment, dt: real)
    requires IsExp(exp) && dt >= 0.0 && s.rpm <= p.redline && IdleRpmTarget(i.requestedLoad) <= p.redline
    ensures EvolveIdlePart(exp, s, i, e, dt).rpm <= p.redline
  {
    hide IsExp, Approach, IdleRpmTarget, IdleRpmTau, ColdStartFraction;
    ApproachStaysAtMost(exp, s.rpm, IdleRpmTarget(i.requestedLoad), IdleRpmTau(i.requestedLoad), dt, p.redline);
  }

  /** The idle target at the load a scenario requests never exceeds the redline that scenario needs. */
  lemma {:induction false} TargetWithinNeed(scenario: Scenario, t: nat, p: Profile)
    requires Drivable(scenario, p)
    ensures !scenario.City? && !scenario.WideOpenThrottlePull? ==>
              IdleRpmTarget(InputsFor(scenario, t).requestedLoad) <= p.redline
  {
  }

  /** Every step of every scenario, under any faults, keeps the contract. */
  lemma {:induction false} StepKeepsContract(exp: real -> real, s: VehicleState, t: nat, scenario: Scenario,
                                             e: Environment, p: Profile,
                          c: CalibrationProfile, f: ActiveFaults, dt: real)
    requires IsExp(exp) && dt >= 0.0 && ValidCalibration(c) && ValidEnvironment(e) && Drivable(scenario, p)
    requires ValidState(s, p) && Powered(s, scenario)
    ensures var r := Evolve(exp, s, InputsFor(scenario, t), scenario, e, p, c, f, dt);
            ValidState(r, p) && Powered(r, scenario)
  {
    hide IsExp, EvolveStopped, EvolveCityPart, EvolveWotPart, EvolveIdlePart, EvolveThermal, InputsFor,
      ValidCalibration;
    var i := InputsFor(scenario, t);
    InputsAreNormalized(scenario, t);
    var s1 := WithInputs(s, i, e);
    assert ValidState(s1, p);
    if !s1.running {
      StoppedStaysValid(exp, s1, p, e, dt);
      StoppedKeepsSpeed(exp, s1, e, dt);
    } else if scenario.City? {
      CityGearWithinFour(s1, i, p, e, dt);
      CityStaysValid(s1, i, p, e, dt);
      KeepsRunning(exp, EvolveCityPart(s1, i, e, p, dt), scenario, e, f, dt);
      ThermalStaysValid(exp, EvolveCityPart(s1, i, e, p, dt), scenario, p, e, f, dt);
      PartsKeepRunning(exp, s1, i, e, p, c, dt);
    } else if scenario.WideOpenThrottlePull? {
      WotStaysValid(exp, s1, i, p, e, c, dt);
      KeepsRunning(exp, EvolveWotPart(exp, s1, i, e, p, c, dt), scenario, e, f, dt);
      ThermalStaysValid(exp, EvolveWotPart(exp, s1, i, e, p, c, dt), scenario, p, e, f, dt);
      PartsKeepRunning(exp, s1, i, e, p, c, dt);
    } else {
      TargetWithinNeed(scenario, t, p);
      IdleStaysBelowRedline(exp, s1, i, p, e, dt);
      IdleStaysValid(exp, s1, i, p, e, dt);
      KeepsRunning(exp, EvolveIdlePart(exp, s1, i, e, dt), scenario, e, f, dt);
      ThermalStaysValid(exp, EvolveIdlePart(exp, s1, i, e, dt), scenario, p, e, f, dt);
      PartsKeepRunning(exp, s1, i, e, p, c, dt);
    }
  }

  lemma {:induction false} StoppedKeepsSpeed(exp: real -> real, s: VehicleState, e: Environment, dt: real)
    ensures EvolveStopped(exp, s, e, dt).speed == s.speed && EvolveStopped(exp, s, e, dt).running == s.running
  {
  }

  lemma {:induction false} KeepsRunning(exp: real -> real, s: VehicleState, scenario: Scenario, e: Environment,
                                        f: ActiveFaults, dt: real)
    ensures EvolveThermal(exp, s, scenario, e, f, dt).running == s.running
  {
  }

  lemma {:induction false} PartsKeepRunning(exp: real -> real, s: VehicleState, i: Inputs, e: Environment,
                                            p: Profile, c: CalibrationProfile, dt: real)
    requires ValidCalibration(c)
    ensures EvolveCityPart(s, i, e, p, dt).running == s.running
    ensures EvolveWotPart(exp, s, i, e, p, c, dt).running == s.running
    ensures EvolveIdlePart(exp, s, i, e, dt).running == s.running
  {
  }
}
