/** Which accepted configurations keep the vehicle contract (simulator/src/simulation.cpp,
    contracts.cpp): exact conditions on single runs and on vehicle profiles, with failing inputs. */
module ProfileLimits {
  import opened Prelude
  import opened Arithmetic
  import opened VehicleModel
  import opened Drivetrain
  import opened VehicleDynamics
  import opened VehicleSimulation
  import opened ShippedCalibrations
  import Cal = Calibration

  /** The contract in every reachable state of a run. */
  ghost predicate KeepsContract(exp: real -> real, c: Config)
    requires ValidConfig(c)
  {
    forall k :: 0 <= k <= c.duration / c.step ==> ValidState(StateAt(exp, c, k), c.profile)
  }

  /** Every accepted configuration of a profile and a scenario keeps the contract. */
  ghost predicate AlwaysKept(exp: real -> real, s: Scenario, p: Profile) {
    forall c: Config :: ValidConfig(c) && c.scenario == s && c.profile == p ==> KeepsContract(exp, c)
  }

  lemma {:induction false} DrivableIsKept(exp: real -> real, s: Scenario, p: Profile)
    requires IsExp(exp) && Drivable(s, p)
    ensures AlwaysKept(exp, s, p)
  {
    hide IsExp, StateAt, ValidCalibration, Drivable;
    forall c: Config | ValidConfig(c) && c.scenario == s && c.profile == p
      ensures KeepsContract(exp, c)
    {
      forall k | 0 <= k <= c.duration / c.step
        ensures ValidState(StateAt(exp, c, k), p)
      {
        EveryStateIsValid(exp, c, k);
      }
    }
  }

  /** A run with an invalid state refutes the profile. */
  lemma {:induction false} RefutedBy(exp: real -> real, c: Config, k: nat)
    requires ValidConfig(c) && k <= c.duration / c.step && !ValidState(StateAt(exp, c, k), c.profile)
    ensures !AlwaysKept(exp, c.scenario, c.profile)
  {
    hide StateAt, ValidConfig, ValidState;
    assert !KeepsContract(exp, c);
  }

  // ---- runs to refute profiles with ----

  /** A run on a standard day, started at `rpm` unless it starts cold. */
  function PlainRun(p: Profile, s: Scenario, ticks: nat, step: nat, rpm: real, speed: real, gear: int8): Config {
    Config(p, s, ticks * step, step, Environment(20.0, 101.0),
           InitialConditions(!s.ColdStart?, rpm, 55.0, 50.0, 25.0, 14.2, speed, gear), Stock(), [])
  }

  /** A CITY run in steps of `step` microseconds, started with the engine at its lowest speed. */
  function CityRun(p: Profile, ticks: nat, step: nat): Config {
    PlainRun(p, City, ticks, step, 0.0, 0.0, 0)
  }

  /** An IDLE or WARMUP run of a minute, started at the redline. */
  function IdleRun(p: Profile, s: Scenario): Config {
    PlainRun(p, s, 60, 1_000_000, p.redline, 0.0, 0)
  }

  /** A pull of one second that starts rolling at 0.1 m/s and is at rest when it ends. */
  function PullRun(p: Profile): Config {
    PlainRun(p, WideOpenThrottlePull, 1, 1_000_000, 0.0, 0.1, WOT_GEAR)
  }

  /** A cold start of so many steps. */
  function ColdRun(p: Profile, ticks: nat, step: nat): Config {
    PlainRun(p, ColdStart, ticks, step, 0.0, 0.0, 0)
  }

  lemma {:induction false} PlainRunsAreValid(p: Profile)
    requires ValidProfile(p)
    ensures ValidConfig(CityRun(p, 5, 20_000_000)) && ValidConfig(CityRun(p, 4, 24_000_000))
    ensures ValidConfig(CityRun(p, 1, 1_000_000))
    ensures ValidConfig(IdleRun(p, Idle)) && ValidConfig(IdleRun(p, Warmup))
    ensures p.forwardGears >= 3 ==> ValidConfig(PullRun(p))
  {
    hide ValidCalibration;
    ShippedAreValid();
  }

  // ---- CITY ----

  /** In steps of 24 s, CITY reaches 26.4 m/s at its third tick. */
  lemma {:induction false} CityNeedsShortSteps(exp: real -> real)
    ensures var c := CityRun(Profile(6, 7000.0), 4, 24_000_000);
            ValidConfig(c) && StateAt(exp, c, 3).speed == 26.4
  {
    hide ValidCalibration, StateAt, CitySpeed, CitySpeedAt;
    var c := CityRun(Profile(6, 7000.0), 4, 24_000_000);
    PlainRunsAreValid(c.profile);
    assert Seconds(24_000_000) == 24.0;
    CitySpeedIsScripted(exp, c, 3);
    FirstSpeed(24_000_000);
    NextSpeed(24_000_000, 2);
    NextSpeed(24_000_000, 3);
  }

  /** With fewer than four forward gears and a 20 s step, the first tick of CITY is in fourth gear. */
  lemma {:induction false} CityNeedsFourGears(exp: real -> real, p: Profile)
    requires ValidProfile(p) && p.forwardGears < 4 && p.redline >= IDLE_TARGET_RPM
    ensures var c := CityRun(p, 5, 20_000_000);
            ValidConfig(c) && StateAt(exp, c, 1).gear == 4 && !ValidState(StateAt(exp, c, 1), p)
  {
    hide ValidCalibration, StateAt, CitySpeed, CitySpeedAt, CityGear, EngineSpeedForGear;
    var c := CityRun(p, 5, 20_000_000);
    PlainRunsAreValid(p);
    CitySpeedIsScripted(exp, c, 0);
    CitySpeedIsScripted(exp, c, 1);
    CityTick(exp, c, 1);
    FirstSpeed(20_000_000);
    assert StateAt(exp, c, 1).speed == 12.0;
  }

  /** With a redline below the idle speed, the first second of CITY idles past the redline. */
  lemma {:induction false} CityNeedsIdleSpeed(exp: real -> real, p: Profile)
    requires ValidProfile(p) && p.redline < IDLE_TARGET_RPM
    ensures var c := CityRun(p, 1, 1_000_000);
            ValidConfig(c) && StateAt(exp, c, 1).rpm == IDLE_TARGET_RPM && !ValidState(StateAt(exp, c, 1), p)
  {
    hide ValidCalibration, StateAt, CitySpeed, CitySpeedAt, CityGear, Clamp;
    var c := CityRun(p, 1, 1_000_000);
    PlainRunsAreValid(p);
    CityIdlesFirst(exp, c);
  }

  /** Every accepted CITY configuration of a profile keeps the contract in every reachable state exactly
      when the profile has four forward gears and a redline of at least 750 rpm. The configuration check
      asks for neither. */
  lemma {:induction false} CityProfileIsExact(exp: real -> real, p: Profile)
    requires IsExp(exp) && ValidProfile(p)
    ensures AlwaysKept(exp, City, p) <==> p.redline >= IDLE_TARGET_RPM && p.forwardGears >= 4
  {
    hide IsExp, StateAt, ValidState, AlwaysKept, ValidConfig;
    if p.redline < IDLE_TARGET_RPM {
      CityNeedsIdleSpeed(exp, p);
      RefutedBy(exp, CityRun(p, 1, 1_000_000), 1);
    } else if p.forwardGears < 4 {
      CityNeedsFourGears(exp, p);
      RefutedBy(exp, CityRun(p, 5, 20_000_000), 1);
    } else {
      DrivableIsKept(exp, City, p);
    }
  }

  lemma {:induction false} CityTickStaysValid(exp: real -> real, c: Config, s: VehicleState, t: nat)
    requires IsExp(exp) && ValidConfig(c) && c.scenario.City? && ValidState(s, c.profile) && s.running
    requires c.profile.redline >= IDLE_TARGET_RPM
    requires Evolve(exp, s, InputsFor(City, t), City, c.environment, c.profile, c.calibration,
                    ActiveFaultsAt(c.faults, t), Seconds(c.step)).gear <= c.profile.forwardGears
    ensures ValidState(Evolve(exp, s, InputsFor(City, t), City, c.environment, c.profile, c.calibration,
                              ActiveFaultsAt(c.faults, t), Seconds(c.step)), c.profile)
  {
    hide IsExp, ValidCalibration, InputsFor, EvolveCityPart, Seconds, Approach;
    InputsAreNormalized(City, t);
    var i := InputsFor(City, t);
    var s1 := WithInputs(s, i, c.environment);
    CityStaysValid(s1, i, c.profile, c.environment, Seconds(c.step));
    ThermalStaysValid(exp, EvolveCityPart(s1, i, c.environment, c.profile, Seconds(c.step)), City, c.profile,
                      c.environment, ActiveFaultsAt(c.faults, t), Seconds(c.step));
  }

  lemma {:induction false} CityRunIsValid(exp: real -> real, c: Config, k: nat)
    requires IsExp(exp) && ValidConfig(c) && c.scenario.City? && c.profile.redline >= IDLE_TARGET_RPM
    requires forall m :: 0 < m <= k ==> ScriptedGear(c.step, m) <= c.profile.forwardGears
    ensures ValidState(StateAt(exp, c, k), c.profile)
  {
    hide IsExp, ValidCalibration, Evolve, InputsFor, ActiveFaultsAt, Seconds, CitySpeedAt, CityInputs, CityGear,
      ValidState;
    if k == 0 {
      InitialStateIsValid(c);
    } else {
      CityRunIsValid(exp, c, k - 1);
      GearIsScripted(exp, c, k);
      CitySpeedIsScripted(exp, c, k - 1);
      CityTickStaysValid(exp, c, StateAt(exp, c, k - 1), k * c.step);
      StampKeepsValid(Evolve(exp, StateAt(exp, c, k - 1), InputsFor(City, k * c.step), City, c.environment, c.profile,
                             c.calibration, ActiveFaultsAt(c.faults, k * c.step), Seconds(c.step)), c.profile);
    }
  }

  lemma {:induction false} StampKeepsValid(s: VehicleState, p: Profile)
    requires ValidState(s, p)
    ensures forall t: nat, r: RunState :: ValidState(s.(timestamp := t, runState := r), p)
  {
  }

  lemma {:induction false} GearIsScripted(exp: real -> real, c: Config, k: nat)
    requires ValidConfig(c) && c.scenario.City? && k > 0
    ensures StateAt(exp, c, k).gear == ScriptedGear(c.step, k)
  {
    hide ValidCalibration, StateAt, CitySpeedAt, CityInputs, CityGear;
    CitySpeedIsScripted(exp, c, k - 1);
    CitySpeedIsScripted(exp, c, k);
    CityTick(exp, c, k);
  }

  /** Steps whose first tick moves off: from 5 s to below 32 s, and from 55 s to below 88 s. */
  predicate DepartsAtOnce(step: nat) {
    5_000_000 <= step < 32_000_000 || 55_000_000 <= step < 88_000_000
  }

  /** A single CITY run, with any number of gears: it keeps the contract exactly when the redline is at
      least the idle speed and no tick selects a gear the profile does not have. Left out are redlines
      below the idle speed with a first tick that moves off: it clamps between reversed bounds. */
  lemma {:induction false} CityContractIsExact(exp: real -> real, c: Config)
    requires IsExp(exp) && ValidConfig(c) && c.scenario.City?
    requires c.profile.redline >= IDLE_TARGET_RPM || !DepartsAtOnce(c.step)
    ensures KeepsContract(exp, c) <==>
            && c.profile.redline >= IDLE_TARGET_RPM
            && forall k :: 0 < k <= c.duration / c.step ==> ScriptedGear(c.step, k) <= c.profile.forwardGears
  {
    hide IsExp, StateAt, ValidCalibration, CitySpeedAt, CityGear, CityInputs;
    if c.profile.redline < IDLE_TARGET_RPM {
      CityIdlesFirst(exp, c);
      assert c.duration / c.step >= 1;
    } else {
      forall k | 0 < k <= c.duration / c.step
        ensures StateAt(exp, c, k).gear == ScriptedGear(c.step, k)
      {
        GearIsScripted(exp, c, k);
      }
      if forall k :: 0 < k <= c.duration / c.step ==> ScriptedGear(c.step, k) <= c.profile.forwardGears {
        forall k | 0 <= k <= c.duration / c.step
          ensures ValidState(StateAt(exp, c, k), c.profile)
        {
          CityRunIsValid(exp, c, k);
        }
      }
    }
  }

  lemma {:induction false} CityIdlesFirst(exp: real -> real, c: Config)
    requires ValidConfig(c) && c.scenario.City? && !DepartsAtOnce(c.step)
    ensures StateAt(exp, c, 1).rpm == IDLE_TARGET_RPM
  {
    hide ValidCalibration, StateAt, CitySpeed, CitySpeedAt, CityGear, Clamp;
    CitySpeedIsScripted(exp, c, 0);
    CitySpeedIsScripted(exp, c, 1);
    CityTick(exp, c, 1);
    FirstSpeed(c.step);
  }

  // ---- the scenarios at rest: IDLE, WARMUP and the cold start ----

  predicate AtRest(s: Scenario) {
    s.Idle? || s.Warmup? || s.ColdStart?
  }

  predicate EngineOn(s: Scenario, t: nat) {
    !s.ColdStart? || t >= COLD_START_REQUEST
  }

  /** The engine speed after `k` ticks at rest: it depends on nothing but the scenario, its start, the step
      and the tick count. */
  function RestingRpmAt(exp: real -> real, s: Scenario, initial: real, step: nat, k: nat): real {
    if k == 0 then initial
    else if !EngineOn(s, k * step) then 0.0
    else
      var load := InputsFor(s, k * step).requestedLoad;
      Approach(exp, RestingRpmAt(exp, s, initial, step, k - 1), IdleRpmTarget(load), IdleRpmTau(load), Seconds(step))
  }

  /** What one tick does to the engine of a vehicle at rest, whatever faults are active. */
  lemma {:induction false} RestingTick(exp: real -> real, c: Config, s: VehicleState, t: nat)
    requires ValidConfig(c) && AtRest(c.scenario) && s.speed == 0.0
    ensures var i := InputsFor(c.scenario, t);
            var r := Evolve(exp, s, i, c.scenario, c.environment, c.profile, c.calibration,
                            ActiveFaultsAt(c.faults, t), Seconds(c.step));
            && r.running == (s.running || i.startRequested) && r.speed == 0.0
            && r.rpm == if r.running
                        then Approach(exp, s.rpm, IdleRpmTarget(i.requestedLoad), IdleRpmTau(i.requestedLoad),
                                      Seconds(c.step))
                        else 0.0
  {
    hide Approach, ValidCalibration, InputsFor, ColdStartFraction, IdleRpmTarget, IdleRpmTau, ActiveFaultsAt, Seconds;
  }

  lemma {:induction false} RestingRpmIsScripted(exp: real -> real, c: Config, k: nat)
    requires ValidConfig(c) && AtRest(c.scenario)
    ensures var s := StateAt(exp, c, k);
            && s.rpm == RestingRpmAt(exp, c.scenario, c.initial.rpm, c.step, k)
            && s.running == EngineOn(c.scenario, k * c.step) && s.speed == 0.0
  {
    hide Approach, ValidCalibration, InputsFor, Evolve, IdleRpmTarget, IdleRpmTau, ActiveFaultsAt, Seconds;
    if k > 0 {
      RestingRpmIsScripted(exp, c, k - 1);
      RestingTick(exp, c, StateAt(exp, c, k - 1), k * c.step);
      StartRequested(c.scenario, k * c.step);
      MulKeepsOrder(k - 1, k, c.step);
    }
  }

  lemma {:induction false} StartRequested(s: Scenario, t: nat)
    requires AtRest(s)
    ensures InputsFor(s, t).startRequested <==> s.ColdStart? && EngineOn(s, t)
  {
  }

  lemma {:induction false} RestingTickStaysValid(exp: real -> real, c: Config, s: VehicleState, t: nat)
    requires IsExp(exp) && ValidConfig(c) && AtRest(c.scenario) && ValidState(s, c.profile)
    requires Evolve(exp, s, InputsFor(c.scenario, t), c.scenario, c.environment, c.profile, c.calibration,
                    ActiveFaultsAt(c.faults, t), Seconds(c.step)).rpm <= c.profile.redline
    ensures ValidState(Evolve(exp, s, InputsFor(c.scenario, t), c.scenario, c.environment, c.profile, c.calibration,
                              ActiveFaultsAt(c.faults, t), Seconds(c.step)), c.profile)
  {
    hide IsExp, Approach, ValidCalibration, InputsFor, EvolveIdlePart, EvolveStopped, ActiveFaultsAt, Seconds;
    InputsAreNormalized(c.scenario, t);
    var i := InputsFor(c.scenario, t);
    var s1 := WithInputs(s, i, c.environment);
    if s1.running {
      IdleStaysValid(exp, s1, i, c.profile, c.environment, Seconds(c.step));
      ThermalStaysValid(exp, EvolveIdlePart(exp, s1, i, c.environment, Seconds(c.step)), c.scenario, c.profile,
                        c.environment, ActiveFaultsAt(c.faults, t), Seconds(c.step));
    } else {
      StoppedStaysValid(exp, s1, c.profile, c.environment, Seconds(c.step));
    }
  }

  lemma {:induction false} RestingRunIsValid(exp: real -> real, c: Config, k: nat)
    requires IsExp(exp) && ValidConfig(c) && AtRest(c.scenario)
    requires forall m :: 0 <= m <= k ==>
                           RestingRpmAt(exp, c.scenario, c.initial.rpm, c.step, m) <= c.profile.redline
    ensures ValidState(StateAt(exp, c, k), c.profile)
  {
    hide IsExp, ValidCalibration, Evolve, InputsFor, ActiveFaultsAt, Seconds, RestingRpmAt, ValidState;
    if k == 0 {
      InitialStateIsValid(c);
    } else {
      RestingRunIsValid(exp, c, k - 1);
      RestingRpmIsScripted(exp, c, k);
      var t := k * c.step;
      RestingTickStaysValid(exp, c, StateAt(exp, c, k - 1), t);
      StampKeepsValid(Evolve(exp, StateAt(exp, c, k - 1), InputsFor(c.scenario, t), c.scenario, c.environment,
                             c.profile, c.calibration, ActiveFaultsAt(c.faults, t), Seconds(c.step)), c.profile);
    }
  }

  /** No scripted engine speed of a run at rest exceeds the redline. */
  ghost predicate RestsWithin(exp: real -> real, c: Config)
    requires ValidConfig(c)
  {
    forall k :: 0 <= k <= c.duration / c.step ==>
                  RestingRpmAt(exp, c.scenario, c.initial.rpm, c.step, k) <= c.profile.redline
  }

  /** A single run at rest, with any faults: it keeps the contract exactly when no scripted engine speed
      exceeds the redline. */
  lemma {:induction false} RestingContractIsExact(exp: real -> real, c: Config)
    requires IsExp(exp) && ValidConfig(c) && AtRest(c.scenario)
    ensures KeepsContract(exp, c) <==> RestsWithin(exp, c)
  {
    hide IsExp, StateAt, ValidCalibration, RestingRpmAt, ValidState;
    if KeepsContract(exp, c) {
      forall k | 0 <= k <= c.duration / c.step
        ensures RestingRpmAt(exp, c.scenario, c.initial.rpm, c.step, k) <= c.profile.redline
      {
        WithinRedline(StateAt(exp, c, k), c.profile);
        RestingRpmIsScripted(exp, c, k);
      }
    }
    if RestsWithin(exp, c) {
      forall k | 0 <= k <= c.duration / c.step
        ensures ValidState(StateAt(exp, c, k), c.profile)
      {
        RestingRunIsValid(exp, c, k);
      }
    }
  }

  lemma {:induction false} WithinRedline(s: VehicleState, p: Profile)
    requires ValidState(s, p)
    ensures s.rpm <= p.redline
  {
  }

  // ---- IDLE and WARMUP ----

  predicate Warm(s: Scenario) {
    s.Idle? || s.Warmup?
  }

  lemma {:induction false} WarmLoad(s: Scenario, t: nat)
    requires Warm(s)
    ensures var load := InputsFor(s, t).requestedLoad;
            IdleRpmTarget(load) == IDLE_TARGET_RPM && IdleRpmTau(load) == IDLE_RPM_TAU
  {
  }

  lemma {:induction false} WarmRpmIsRepeated(exp: real -> real, s: Scenario, initial: real, step: nat, k: nat)
    requires Warm(s)
    ensures RestingRpmAt(exp, s, initial, step, k) ==
            ApproachMany(exp, initial, IDLE_TARGET_RPM, IDLE_RPM_TAU, Seconds(step), k)
  {
    hide Approach, InputsFor, IdleRpmTarget, IdleRpmTau, Seconds;
    if k > 0 {
      WarmRpmIsRepeated(exp, s, initial, step, k - 1);
      WarmLoad(s, k * step);
    }
  }

  /** More ticks come nearer to the target, from either side. */
  lemma {:induction false} ManyMoveToward(exp: real -> real, initial: real, target: real, tau: real, dt: real,
                                          k: nat, n: nat)
    requires IsExp(exp) && tau > 0.0 && dt >= 0.0 && k <= n
    ensures Toward(initial, ApproachMany(exp, initial, target, tau, dt, k), target)
    ensures Toward(ApproachMany(exp, initial, target, tau, dt, k), ApproachMany(exp, initial, target, tau, dt, n),
                   target)
    decreases n
  {
    hide IsExp, Approach;
    if n > 0 {
      ManyMoveToward(exp, initial, target, tau, dt, if k < n then k else n - 1, n - 1);
      ApproachDoesNotOvershoot(exp, ApproachMany(exp, initial, target, tau, dt, n - 1), target, tau, dt);
    }
  }

  /** A single IDLE or WARMUP run, with any faults: it keeps the contract exactly when the engine speed
      after the whole run, one response of the initial speed toward 750 rpm, is within the redline. */
  lemma {:induction false} IdleContractIsExact(exp: real -> real, c: Config)
    requires IsExp(exp) && ValidConfig(c) && Warm(c.scenario)
    ensures KeepsContract(exp, c) <==>
            Approach(exp, c.initial.rpm, IDLE_TARGET_RPM, IDLE_RPM_TAU, Seconds(c.duration)) <= c.profile.redline
  {
    hide IsExp, Approach, ApproachMany, Elapsed, Seconds, ValidCalibration, KeepsContract, RestingRpmAt;
    var n, dt := c.duration / c.step, Seconds(c.step);
    RestingContractIsExact(exp, c);
    forall k | 0 <= k <= n
      ensures RestingRpmAt(exp, c.scenario, c.initial.rpm, c.step, k) ==
              ApproachMany(exp, c.initial.rpm, IDLE_TARGET_RPM, IDLE_RPM_TAU, dt, k)
      ensures var rpm := ApproachMany(exp, c.initial.rpm, IDLE_TARGET_RPM, IDLE_RPM_TAU, dt, k);
              Toward(c.initial.rpm, rpm, IDLE_TARGET_RPM)
              && Toward(rpm, ApproachMany(exp, c.initial.rpm, IDLE_TARGET_RPM, IDLE_RPM_TAU, dt, n), IDLE_TARGET_RPM)
    {
      WarmRpmIsRepeated(exp, c.scenario, c.initial.rpm, c.step, k);
      ManyMoveToward(exp, c.initial.rpm, IDLE_TARGET_RPM, IDLE_RPM_TAU, dt, k, n);
    }
    WholeRun(c.duration, c.step);
    ApproachManyIsOne(exp, c.initial.rpm, IDLE_TARGET_RPM, IDLE_RPM_TAU, dt, n);
    assert RestingRpmAt(exp, c.scenario, c.initial.rpm, c.step, n) ==
           Approach(exp, c.initial.rpm, IDLE_TARGET_RPM, IDLE_RPM_TAU, Seconds(c.duration));
  }

  lemma {:induction false} WholeRun(duration: nat, step: nat)
    requires step > 0 && duration % step == 0
    ensures Elapsed(duration / step, Seconds(step)) == Seconds(duration)
  {
    hide Seconds, Elapsed;
    DivMod(duration, step);
    SameElapsed(duration / step, step, 1, duration);
    ElapsedOnce(Seconds(duration));
  }

  lemma {:induction false} ElapsedOnce(dt: real)
    ensures Elapsed(1, dt) == dt
  {
  }

  // ---- failing inputs of the scenarios with a running engine ----

  /** The one numeric law of the exponential that failing inputs use: the true value is about 0.37. */
  ghost predicate Decays(exp: real -> real) {
    exp(-1.0) <= 0.5
  }

  lemma {:induction false} DecaysBeyondOne(exp: real -> real, x: real)
    requires IsExp(exp) && Decays(exp) && x <= -1.0
    ensures 0.0 < exp(x) <= 0.5
  {
    hide IsExp;
    ExpAdds(exp, -1.0, x + 1.0);
    ExpRange(exp, x + 1.0);
    ExpRange(exp, x);
    ExpRange(exp, -1.0);
    Shrinks(exp(-1.0), exp(x + 1.0));
    assert -1.0 + (x + 1.0) == x;
  }

  lemma {:induction false} PositiveProduct(a: real, b: real)
    requires a > 0.0 && b > 0.0
    ensures a * b > 0.0
  {
  }

  /** A response that lost part of its gap is past where it started. */
  lemma {:induction false} Remains(current: real, target: real, f: real)
    requires current < target && f < 1.0
    ensures target + (current - target) * f > current
  {
    var gap, lost := target - current, 1.0 - f;
    PositiveProduct(gap, lost);
    assert (current - target) * f == gap * lost - gap;
  }

  lemma {:induction false} RpmAfterAMinute(exp: real -> real, p: Profile)
    requires IsExp(exp) && Decays(exp) && p.redline < IDLE_TARGET_RPM
    ensures Approach(exp, p.redline, IDLE_TARGET_RPM, IDLE_RPM_TAU, 60.0) > p.redline
  {
    hide IsExp, Decays;
    assert -60.0 / IDLE_RPM_TAU == -40.0;
    DecaysBeyondOne(exp, -40.0);
    Remains(p.redline, IDLE_TARGET_RPM, exp(-40.0));
  }

  /** With any redline below 750 rpm, a minute of idling from the redline ends above it. */
  lemma {:induction false} IdleNeedsIdleSpeed(exp: real -> real, p: Profile, s: Scenario)
    requires IsExp(exp) && Decays(exp) && ValidProfile(p) && Warm(s) && p.redline < IDLE_TARGET_RPM
    ensures ValidConfig(IdleRun(p, s)) && !KeepsContract(exp, IdleRun(p, s))
  {
    hide IsExp, Decays, Approach, ValidCalibration, StateAt, KeepsContract, Stock;
    PlainRunsAreValid(p);
    IdleContractIsExact(exp, IdleRun(p, s));
    RpmAfterAMinute(exp, p);
    assert Seconds(60_000_000) == 60.0;
  }

  lemma {:induction false} StockThrottleAtRoll()
    ensures ValidCalibration(Stock()) && Cal.Lookup1D(Stock().throttle, 0.12) == 0.1056
  {
    hide Cal.Lookup1D, Cal.IntervalFor;
    ShippedAreValid();
    Cal.LookupIsLine(Stock().throttle, 0, 0.12);
  }

  /** Rolling at 0.1 m/s and without boost, a throttle that small lets the vehicle stop within a second. */
  lemma {:induction false} RollStops(p: Profile)
    ensures EvolveWot(0.1, 0.1056, 1.0, p) == DrivetrainState(0.0, WOT_GEAR, IDLE_TARGET_RPM)
  {
  }

  lemma {:induction false} OutputWithoutBoost(e: Environment, boost: real)
    requires ValidCalibration(Stock()) && boost <= 0.0
    ensures WotOutput(Stock(), Inputs(0.12, 0.18, false, false), e, boost) == 0.1056
  {
    hide Stock, Cal.Lookup1D, ValidCalibration;
    StockThrottleAtRoll();
    assert Stock().outputMultiplier == 1.0 by {
      StockScalars();
    }
    assert Max(0.0, boost) == 0.0;
  }

  lemma {:induction false} StockScalars()
    ensures Stock().outputMultiplier == 1.0 && Stock().boostTau == 0.80
  {
  }

  /** With any redline below 750 rpm, a pull that comes to rest idles past the redline. */
  lemma {:induction false} PullNeedsIdleSpeed(exp: real -> real, p: Profile)
    requires IsExp(exp) && ValidProfile(p) && p.forwardGears >= 3 && p.redline < IDLE_TARGET_RPM
    ensures var c := PullRun(p);
            && ValidConfig(c) && StateAt(exp, c, 1).speed == 0.0 && StateAt(exp, c, 1).rpm == IDLE_TARGET_RPM
            && !ValidState(StateAt(exp, c, 1), p)
  {
    hide IsExp, ValidCalibration, Stock, Approach, WotLoad, WotOutput, EvolveWot, Cal.Lookup1D, Cal.Lookup2D;
    var c := PullRun(p);
    PlainRunsAreValid(p);
    assert StateAt(exp, c, 0) == InitialState(c);
    assert Seconds(1_000_000) == 1.0;
    StockScalars();
    var i := InputsFor(WideOpenThrottlePull, 1_000_000);
    assert i == Inputs(0.12, 0.18, false, false);
    var s1 := WithInputs(InitialState(c), i, c.environment);
    var boost := Approach(exp, s1.manifoldPressure - s1.ambientPressure, 0.0, c.calibration.boostTau, 1.0);
    ApproachStaysAtMost(exp, s1.manifoldPressure - s1.ambientPressure, 0.0, c.calibration.boostTau, 1.0, 0.0);
    OutputWithoutBoost(c.environment, boost);
    RollStops(p);
    assert BoostTarget(c.calibration, s1.rpm, i) == 0.0;
  }

  /** Every accepted IDLE, WARMUP or full-throttle configuration of a profile keeps the contract in every
      reachable state exactly when the redline is at least the idle speed. A pull is accepted only with
      three gears. */
  lemma {:induction false} RunningProfileIsExact(exp: real -> real, s: Scenario, p: Profile)
    requires IsExp(exp) && Decays(exp) && ValidProfile(p)
    requires Warm(s) || (s.WideOpenThrottlePull? && p.forwardGears >= 3)
    ensures AlwaysKept(exp, s, p) <==> p.redline >= IDLE_TARGET_RPM
  {
    hide IsExp, StateAt, ValidState, Decays, ValidConfig, KeepsContract;
    if p.redline >= IDLE_TARGET_RPM {
      DrivableIsKept(exp, s, p);
    } else if s.WideOpenThrottlePull? {
      PullNeedsIdleSpeed(exp, p);
      RefutedBy(exp, PullRun(p), 1);
    } else {
      IdleNeedsIdleSpeed(exp, p, s);
    }
  }

  // ---- the cold start ----

  /** The steps with which a cold start is accepted: there are 49 of them. */
  predicate ColdStep(step: nat) {
    step > 0 && COLD_START_REQUEST % step == 0 && COLD_START_STABILIZATION % step == 0
  }

  const COLD_SETTLED: nat := COLD_START_REQUEST + COLD_START_STABILIZATION

  /** The engine speed of a cold start stays within `limit` until its script has settled. */
  ghost predicate ColdWithin(exp: real -> real, limit: real) {
    forall step: nat, k: nat :: ColdStep(step) && k * step <= COLD_SETTLED ==>
                                  RestingRpmAt(exp, ColdStart, 0.0, step, k) <= limit
  }

  lemma {:induction false} SettledLoad(t: nat)
    requires t >= COLD_SETTLED
    ensures IdleRpmTarget(ColdStartInputs(t).requestedLoad) == IDLE_TARGET_RPM
  {
  }

  /** Once settled, the cold engine idles: it does not pass `limit` either. */
  lemma {:induction false} ColdStaysWithin(exp: real -> real, limit: real, step: nat, k: nat)
    requires IsExp(exp) && ColdWithin(exp, limit) && limit >= IDLE_TARGET_RPM && ColdStep(step)
    ensures RestingRpmAt(exp, ColdStart, 0.0, step, k) <= limit
  {
    hide IsExp, Approach, ColdStartInputs, IdleRpmTarget, IdleRpmTau, Seconds;
    if k * step > COLD_SETTLED {
      ColdStaysWithin(exp, limit, step, k - 1);
      SettledLoad(k * step);
      var load := ColdStartInputs(k * step).requestedLoad;
      ApproachStaysAtMost(exp, RestingRpmAt(exp, ColdStart, 0.0, step, k - 1), IdleRpmTarget(load), IdleRpmTau(load),
                          Seconds(step), limit);
    }
  }

  /** The first two ticks of a cold start in steps of 1 s. */
  lemma {:induction false} ColdLoads()
    ensures var i, j := ColdStartInputs(1_000_000), ColdStartInputs(2_000_000);
            && IdleRpmTarget(i.requestedLoad) == 1200.0 && IdleRpmTau(i.requestedLoad) == COLD_RPM_TAU
            && IdleRpmTarget(j.requestedLoad) == 1177.5 && IdleRpmTau(j.requestedLoad) == COLD_RPM_TAU
  {
  }

  lemma {:induction false} TwoResponses(e: real)
    requires 0.0 < e <= 0.5
    ensures 1177.5 + (1200.0 - 1200.0 * e - 1177.5) * e > 888.0
  {
    assert e * e <= 0.5 * e;
    assert (1200.0 - 1200.0 * e - 1177.5) * e == 22.5 * e - 1200.0 * (e * e);
  }

  /** One second after the start the engine turns at more than 888 rpm. */
  lemma {:induction false} ColdEngineRevs(exp: real -> real)
    requires IsExp(exp) && Decays(exp)
    ensures RestingRpmAt(exp, ColdStart, 0.0, 1_000_000, 2) > 888.0
  {
    hide IsExp, Decays, ColdStartInputs, IdleRpmTarget, IdleRpmTau, RestingRpmAt;
    var e := exp(-1.0 / COLD_RPM_TAU);
    DecaysBeyondOne(exp, -1.0 / COLD_RPM_TAU);
    TwoResponses(e);
    ColdLoads();
    assert -Seconds(1_000_000) / COLD_RPM_TAU == -1.0 / COLD_RPM_TAU;
    var first := RestingRpmAt(exp, ColdStart, 0.0, 1_000_000, 1);
    ColdRpmStep(exp, 1_000_000, 0);
    ColdRpmStep(exp, 1_000_000, 1);
    assert first == 1200.0 - 1200.0 * e;
    assert RestingRpmAt(exp, ColdStart, 0.0, 1_000_000, 2) == 1177.5 + (first - 1177.5) * e;
  }

  lemma {:induction false} ColdRpmStep(exp: real -> real, step: nat, k: nat)
    requires (k + 1) * step >= COLD_START_REQUEST
    ensures var load := ColdStartInputs((k + 1) * step).requestedLoad;
            RestingRpmAt(exp, ColdStart, 0.0, step, k + 1) ==
            Approach(exp, RestingRpmAt(exp, ColdStart, 0.0, step, k), IdleRpmTarget(load), IdleRpmTau(load),
                     Seconds(step))
    ensures RestingRpmAt(exp, ColdStart, 0.0, step, 0) == 0.0
  {
    hide Approach, ColdStartInputs, IdleRpmTarget, IdleRpmTau, Seconds;
  }

  lemma {:induction false} ColdRunIsValid(p: Profile, ticks: nat, step: nat)
    requires ValidProfile(p) && ColdStep(step) && 0 < ticks * step <= MAX_U64
    ensures ValidConfig(ColdRun(p, ticks, step)) && ticks * step / step == ticks
  {
    hide ValidCalibration;
    ShippedAreValid();
    DivModUnique(ticks * step, ticks, 0, step);
  }

  /** With any redline up to 888 rpm, a cold start in steps of 1 s is past it one second after the start. */
  lemma {:induction false} ColdNeedsMore(exp: real -> real, p: Profile)
    requires IsExp(exp) && Decays(exp) && ValidProfile(p) && p.redline <= 888.0
    ensures var c := ColdRun(p, 2, 1_000_000);
            ValidConfig(c) && StateAt(exp, c, 2).rpm > p.redline && !ValidState(StateAt(exp, c, 2), p)
  {
    hide IsExp, Decays, ValidCalibration, StateAt, RestingRpmAt, Stock;
    ColdRunIsValid(p, 2, 1_000_000);
    RestingRpmIsScripted(exp, ColdRun(p, 2, 1_000_000), 2);
    ColdEngineRevs(exp);
  }

  /** Every accepted cold start of a profile keeps the contract in every reachable state exactly when the
      scripted engine speed of its first 21 seconds stays within the redline for each of the 49 steps. */
  lemma {:induction false} ColdProfileIsExact(exp: real -> real, p: Profile)
    requires IsExp(exp) && Decays(exp) && ValidProfile(p)
    ensures AlwaysKept(exp, ColdStart, p) <==> ColdWithin(exp, p.redline)
  {
    hide IsExp, Decays, StateAt, ValidState, KeepsContract, RestingRpmAt;
    if AlwaysKept(exp, ColdStart, p) {
      forall step: nat, k: nat | ColdStep(step) && k * step <= COLD_SETTLED
        ensures RestingRpmAt(exp, ColdStart, 0.0, step, k) <= p.redline
      {
        ColdRunShows(exp, p, step, k);
      }
    }
    if ColdWithin(exp, p.redline) {
      ColdWithinIsKept(exp, p);
    }
  }

  lemma {:induction false} ColdRunShows(exp: real -> real, p: Profile, step: nat, k: nat)
    requires IsExp(exp) && ValidProfile(p) && AlwaysKept(exp, ColdStart, p)
    requires ColdStep(step) && k * step <= COLD_SETTLED
    ensures RestingRpmAt(exp, ColdStart, 0.0, step, k) <= p.redline
  {
    hide IsExp, StateAt, ValidState, KeepsContract, ValidCalibration, Stock;
    if k > 0 {
      hide RestingRpmAt;
      MulKeepsOrder(1, k, step);
      ColdRunIsValid(p, k, step);
      RestingContractIsExact(exp, ColdRun(p, k, step));
    }
  }

  lemma {:induction false} ColdWithinIsKept(exp: real -> real, p: Profile)
    requires IsExp(exp) && Decays(exp) && ValidProfile(p) && ColdWithin(exp, p.redline)
    ensures AlwaysKept(exp, ColdStart, p)
  {
    hide IsExp, Decays, StateAt, ValidState, KeepsContract, ValidCalibration, RestingRpmAt;
    ColdEngineRevs(exp);
    assert ColdStep(1_000_000) && 2 * 1_000_000 <= COLD_SETTLED;
    forall c: Config | ValidConfig(c) && c.scenario == ColdStart && c.profile == p
      ensures KeepsContract(exp, c)
    {
      RestingContractIsExact(exp, c);
      forall k | 0 <= k <= c.duration / c.step
        ensures RestingRpmAt(exp, ColdStart, c.initial.rpm, c.step, k) <= p.redline
      {
        ColdStaysWithin(exp, p.redline, c.step, k);
      }
    }
  }
}
