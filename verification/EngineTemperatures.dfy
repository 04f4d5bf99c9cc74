/** Temperatures and voltage over any run (simulator/src/simulation.cpp, faults.cpp), in closed form and in
    numbers: what each fault does, and that nothing else touches them. */
module EngineTemperatures {
  import opened Prelude
  import opened Arithmetic
  import opened VehicleModel
  import opened Drivetrain
  import opened VehicleDynamics
  import opened VehicleSimulation

  /** The seconds `n` ticks take. */
  function SecondsOf(n: nat, step: nat): real {
    (n * step) as real / 1_000_000.0
  }

  /** After the seconds `t`, a quantity that closes in on `target` with the time constant `tau`. */
  function Closing(exp: real -> real, from: real, target: real, tau: real, t: real): real
    requires tau > 0.0
  {
    target + (from - target) * exp(-(t / tau))
  }

  /** The engine runs in every state after tick `i` up to tick `j`, or in none of them. */
  ghost predicate EngineIs(running: bool, exp: real -> real, c: Config, i: nat, j: nat)
    requires ValidConfig(c)
  {
    forall k :: i < k <= j ==> StateAt(exp, c, k).running == running
  }

  /** A fault is active at every tick after `i` up to `j`, or at none of them. */
  ghost predicate FaultIs(active: bool, c: Config, id: FaultId, i: nat, j: nat) {
    forall k :: i < k <= j ==> (SomeActive(c.faults, id, k * c.step) <==> active)
  }

  lemma {:induction false} ClosingIsApproach(exp: real -> real, from: real, target: real, tau: real, t: real)
    requires tau > 0.0
    ensures Approach(exp, from, target, tau, t) == Closing(exp, from, target, tau, t)
  {
    assert -t / tau == -(t / tau);
  }

  lemma {:induction false} OneMoreTick(n: nat, step: nat)
    ensures SecondsOf(n + 1, step) == SecondsOf(n, step) + Seconds(step) && SecondsOf(0, step) == 0.0
  {
    assert (n + 1) * step == n * step + step;
    assert 0 * step == 0;
    assert ((n + 1) * step) as real == (n * step) as real + step as real;
  }

  /** Closing in for some ticks and then for one more is closing in for all of them. */
  lemma {:induction false} ClosingContinues(exp: real -> real, from: real, target: real, tau: real, n: nat, step: nat)
    requires IsExp(exp) && tau > 0.0
    ensures Approach(exp, Closing(exp, from, target, tau, SecondsOf(n, step)), target, tau, Seconds(step)) ==
            Closing(exp, from, target, tau, SecondsOf(n + 1, step))
    ensures Closing(exp, from, target, tau, SecondsOf(0, step)) == from
  {
    hide IsExp, Approach, Closing, SecondsOf, Seconds;
    OneMoreTick(n, step);
    ClosingIsApproach(exp, from, target, tau, SecondsOf(n, step));
    ClosingIsApproach(exp, from, target, tau, SecondsOf(n + 1, step));
    ClosingIsApproach(exp, from, target, tau, 0.0);
    ApproachComposes(exp, from, target, tau, SecondsOf(n, step), Seconds(step));
    ApproachOverNoTime(exp, from, target, tau);
  }

  /** What one tick does to the temperatures and the voltage, in every scenario and under any faults. */
  lemma {:induction false} ThermalTick(exp: real -> real, c: Config, k: nat)
    requires ValidConfig(c) && k > 0
    ensures var s, r, dt := StateAt(exp, c, k - 1), StateAt(exp, c, k), Seconds(c.step);
            && (r.running ==>
                  && r.coolant == (if SomeActive(c.faults, CoolingDegradation, k * c.step)
                                   then Approach(exp, s.coolant, 140.0, 15.0, dt)
                                   else Approach(exp, s.coolant, 92.0, 300.0, dt))
                  && r.battery == (if SomeActive(c.faults, ChargingFailure, k * c.step)
                                   then Approach(exp, s.battery, 11.8, 0.5, dt)
                                   else Approach(exp, s.battery, 14.2, 1.0, dt))
                  && r.oil == Approach(exp, s.oil, 100.0, 600.0, dt)
                  && (!c.scenario.WideOpenThrottlePull? ==>
                        r.intakeAir == Approach(exp, s.intakeAir, c.environment.temperature + 10.0, 60.0, dt))
                  && (c.scenario.WideOpenThrottlePull? ==>
                        r.intakeAir == Approach(exp, s.intakeAir, c.environment.temperature + 10.0
                                                + 0.08 * Max(0.0, r.manifoldPressure - c.environment.pressure),
                                                60.0, dt)))
            && (!r.running ==>
                  && r.coolant == s.coolant && r.oil == s.oil
                  && r.battery == Approach(exp, s.battery, 12.6, 1.0, dt)
                  && r.intakeAir == Approach(exp, s.intakeAir, c.environment.temperature, 60.0, dt))
  {
    hide Approach, ValidCalibration, InputsFor, EvolveCityPart, EvolveWotPart, EvolveIdlePart, Seconds, ActiveFaultsAt,
      SomeActive;
    FlagsAreExact(c.faults, k * c.step, CoolingDegradation);
    FlagsAreExact(c.faults, k * c.step, ChargingFailure);
    var i := InputsFor(c.scenario, k * c.step);
    PartsLeaveTemperatures(exp, WithInputs(StateAt(exp, c, k - 1), i, c.environment), i, c);
  }

  lemma {:induction false} PartsLeaveTemperatures(exp: real -> real, s: VehicleState, i: Inputs, c: Config)
    requires ValidConfig(c)
    ensures var dt := Seconds(c.step);
            forall r :: r == EvolveCityPart(s, i, c.environment, c.profile, dt)
                        || r == EvolveWotPart(exp, s, i, c.environment, c.profile, c.calibration, dt)
                        || r == EvolveIdlePart(exp, s, i, c.environment, dt) ==>
              && r.coolant == s.coolant && r.battery == s.battery && r.oil == s.oil && r.intakeAir == s.intakeAir
              && r.running == s.running && r.ambientPressure == s.ambientPressure
  {
    hide Approach, ValidCalibration, Seconds, WotLoad, WotOutput, BoostTarget, EvolveWot, EvolveCity;
  }

  /** Over any ticks with the engine running and the cooling fault active throughout, the coolant closes in
      on 140 degrees with a time constant of 15 s; with the fault inactive throughout, on 92 with 300 s. */
  lemma {:induction false} CoolantIsExact(exp: real -> real, c: Config, i: nat, j: nat, active: bool)
    requires IsExp(exp) && ValidConfig(c) && i <= j
    requires EngineIs(true, exp, c, i, j) && FaultIs(active, c, CoolingDegradation, i, j)
    ensures var from, t := StateAt(exp, c, i).coolant, SecondsOf(j - i, c.step);
            StateAt(exp, c, j).coolant ==
            if active then Closing(exp, from, 140.0, 15.0, t) else Closing(exp, from, 92.0, 300.0, t)
  {
    hide IsExp, StateAt, ValidCalibration, Approach, Closing, SecondsOf, Seconds, SomeActive;
    var from := StateAt(exp, c, i).coolant;
    var target, tau := if active then 140.0 else 92.0, if active then 15.0 else 300.0;
    if i == j {
      ClosingContinues(exp, from, target, tau, 0, c.step);
    } else {
      CoolantIsExact(exp, c, i, j - 1, active);
      ThermalTick(exp, c, j);
      ClosingContinues(exp, from, target, tau, j - 1 - i, c.step);
    }
  }

  /** The same for the voltage: 11.8 V with 0.5 s while charging has failed, 14.2 V with 1 s otherwise. */
  lemma {:induction false} VoltageIsExact(exp: real -> real, c: Config, i: nat, j: nat, active: bool)
    requires IsExp(exp) && ValidConfig(c) && i <= j
    requires EngineIs(true, exp, c, i, j) && FaultIs(active, c, ChargingFailure, i, j)
    ensures var from, t := StateAt(exp, c, i).battery, SecondsOf(j - i, c.step);
            StateAt(exp, c, j).battery ==
            if active then Closing(exp, from, 11.8, 0.5, t) else Closing(exp, from, 14.2, 1.0, t)
  {
    hide IsExp, StateAt, ValidCalibration, Approach, Closing, SecondsOf, Seconds, SomeActive;
    var from := StateAt(exp, c, i).battery;
    var target, tau := if active then 11.8 else 14.2, if active then 0.5 else 1.0;
    if i == j {
      ClosingContinues(exp, from, target, tau, 0, c.step);
    } else {
      VoltageIsExact(exp, c, i, j - 1, active);
      ThermalTick(exp, c, j);
      ClosingContinues(exp, from, target, tau, j - 1 - i, c.step);
    }
  }

  /** Oil closes in on 100 degrees with 600 s, and outside a pull the intake air on 10 degrees above the
      environment with 60 s, whatever faults are active. */
  lemma {:induction false} OilAndAirAreExact(exp: real -> real, c: Config, i: nat, j: nat)
    requires IsExp(exp) && ValidConfig(c) && i <= j && EngineIs(true, exp, c, i, j)
    ensures var from, to, t := StateAt(exp, c, i), StateAt(exp, c, j), SecondsOf(j - i, c.step);
            && to.oil == Closing(exp, from.oil, 100.0, 600.0, t)
            && (!c.scenario.WideOpenThrottlePull? ==>
                  to.intakeAir == Closing(exp, from.intakeAir, c.environment.temperature + 10.0, 60.0, t))
  {
    hide IsExp, StateAt, ValidCalibration, Approach, Closing, SecondsOf, Seconds, SomeActive;
    var from, air := StateAt(exp, c, i), c.environment.temperature + 10.0;
    if i == j {
      ClosingContinues(exp, from.oil, 100.0, 600.0, 0, c.step);
      ClosingContinues(exp, from.intakeAir, air, 60.0, 0, c.step);
    } else {
      OilAndAirAreExact(exp, c, i, j - 1);
      ThermalTick(exp, c, j);
      ClosingContinues(exp, from.oil, 100.0, 600.0, j - 1 - i, c.step);
      ClosingContinues(exp, from.intakeAir, air, 60.0, j - 1 - i, c.step);
    }
  }

  /** Until a cold engine is started, coolant and oil stay as they are, the voltage closes in on 12.6 V with
      1 s and the intake air on the environment with 60 s, whatever faults are active. */
  lemma {:induction false} StoppedIsExact(exp: real -> real, c: Config, i: nat, j: nat)
    requires IsExp(exp) && ValidConfig(c) && i <= j && EngineIs(false, exp, c, i, j)
    ensures var from, to, t := StateAt(exp, c, i), StateAt(exp, c, j), SecondsOf(j - i, c.step);
            && to.coolant == from.coolant && to.oil == from.oil
            && to.battery == Closing(exp, from.battery, 12.6, 1.0, t)
            && to.intakeAir == Closing(exp, from.intakeAir, c.environment.temperature, 60.0, t)
  {
    hide IsExp, StateAt, ValidCalibration, Approach, Closing, SecondsOf, Seconds, SomeActive;
    var from, air := StateAt(exp, c, i), c.environment.temperature;
    if i == j {
      ClosingContinues(exp, from.battery, 12.6, 1.0, 0, c.step);
      ClosingContinues(exp, from.intakeAir, air, 60.0, 0, c.step);
    } else {
      StoppedIsExact(exp, c, i, j - 1);
      ThermalTick(exp, c, j);
      ClosingContinues(exp, from.battery, 12.6, 1.0, j - 1 - i, c.step);
      ClosingContinues(exp, from.intakeAir, air, 60.0, j - 1 - i, c.step);
    }
  }
}
