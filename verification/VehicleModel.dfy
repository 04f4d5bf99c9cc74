/** Vehicle data and its contract (simulator/src/contracts.cpp, initial_conditions.cpp, faults.cpp).
    Numbers are exact reals, so every value is finite. */
module VehicleModel {
  import opened Prelude

  type int8 = x: int | -128 <= x <= 127

  datatype RunState = Running | Paused | Completed

  datatype Scenario = Idle | ColdStart | Warmup | City | WideOpenThrottlePull

  /** The identifying texts of a profile are not part of this model. */
  datatype Profile = Profile(forwardGears: nat, redline: real)

  datatype Environment = Environment(temperature: real, pressure: real)

  datatype VehicleState = VehicleState(
    timestamp: nat,
    runState: RunState,
    accelerator: real,
    requestedLoad: real,
    running: bool,
    rpm: real,
    load: real,
    throttle: real,
    speed: real,
    gear: int8,
    ambientPressure: real,
    manifoldPressure: real,
    requestedBoost: real,
    coolant: real,
    oil: real,
    intakeAir: real,
    lambda_: real,
    ignition: real,
    timingCorrection: real,
    battery: real)

  datatype InitialConditions = InitialConditions(
    running: bool,
    rpm: real,
    coolant: real,
    oil: real,
    intakeAir: real,
    battery: real,
    speed: real,
    gear: int8)

  datatype FaultId = CoolingDegradation | ChargingFailure | MapSensorBias | FrontLeftWheelBias

  datatype Fault = Fault(id: FaultId, activation: nat, deactivation: Option<nat>)

  datatype ActiveFaults = ActiveFaults(cooling: bool, charging: bool, mapBias: bool, frontLeftBias: bool)

  predicate Normalized(x: real) {
    0.0 <= x <= 1.0
  }

  predicate ValidProfile(p: Profile) {
    p.forwardGears >= 1 && p.redline > 0.0
  }

  predicate ValidEnvironment(e: Environment) {
    e.pressure >= 0.0
  }

  /** The VehicleState contract. */
  predicate ValidState(s: VehicleState, p: Profile) {
    && ValidProfile(p)
    && Normalized(s.accelerator) && Normalized(s.requestedLoad)
    && 0.0 <= s.rpm <= p.redline
    && (s.running || s.rpm == 0.0)
    && Normalized(s.load) && Normalized(s.throttle)
    && s.speed >= 0.0 && 0 <= s.gear <= p.forwardGears
    && (s.speed == 0.0 || (s.running && s.gear > 0))
    && s.ambientPressure >= 0.0 && s.manifoldPressure >= 0.0
    && s.lambda_ > 0.0 && s.timingCorrection <= 0.0 && s.battery >= 0.0
  }

  predicate ValidInitial(c: InitialConditions, p: Profile) {
    && ValidProfile(p)
    && 0.0 <= c.rpm <= p.redline
    && (c.running || c.rpm == 0.0)
    && c.battery >= 0.0
    && c.speed >= 0.0 && 0 <= c.gear <= p.forwardGears
    && (c.speed == 0.0 || (c.running && c.gear > 0))
  }

  /** What the contract refuses: a fraction outside 0 to 1, an engine past the redline or turning while off, a
      gear the profile does not have, motion without a running engine in gear, a negative pressure or voltage,
      no mixture, or an advance by knock control. */
  lemma {:induction false} ContractIsExact(s: VehicleState, p: Profile)
    requires ValidProfile(p)
    ensures !ValidState(s, p) <==>
            || s.accelerator < 0.0 || s.accelerator > 1.0 || s.requestedLoad < 0.0 || s.requestedLoad > 1.0
            || s.load < 0.0 || s.load > 1.0 || s.throttle < 0.0 || s.throttle > 1.0
            || s.rpm < 0.0 || s.rpm > p.redline || (s.rpm > 0.0 && !s.running)
            || s.gear < 0 || s.gear > p.forwardGears
            || s.speed < 0.0 || (s.speed > 0.0 && !s.running) || (s.speed > 0.0 && s.gear == 0)
            || s.ambientPressure < 0.0 || s.manifoldPressure < 0.0 || s.battery < 0.0
            || s.lambda_ <= 0.0 || s.timingCorrection > 0.0
  {
  }

  /** The same of initial conditions. */
  lemma {:induction false} InitialConditionsExactly(c: InitialConditions, p: Profile)
    ensures !ValidInitial(c, p) <==>
            || p.forwardGears == 0 || p.redline <= 0.0
            || c.rpm < 0.0 || c.rpm > p.redline || (c.rpm > 0.0 && !c.running)
            || c.gear < 0 || c.gear > p.forwardGears
            || c.speed < 0.0 || (c.speed > 0.0 && !c.running) || (c.speed > 0.0 && c.gear == 0)
            || c.battery < 0.0
  {
  }

  // ---- faults ----

  predicate ValidFault(f: Fault) {
    f.deactivation.None? || f.deactivation.value > f.activation
  }

  predicate ValidFaults(fs: seq<Fault>) {
    && (forall i :: 0 <= i < |fs| ==> ValidFault(fs[i]))
    && forall i, j :: 0 <= i < j < |fs| ==> fs[i].id != fs[j].id
  }

  /** Faults are refused when one ends before it starts, or two are of a kind. */
  lemma {:induction false} FaultsExactly(fs: seq<Fault>)
    ensures !ValidFaults(fs) <==>
            || (exists f <- fs :: f.deactivation.Some? && f.deactivation.value <= f.activation)
            || exists i, j :: 0 <= i < j < |fs| && fs[i].id == fs[j].id
  {
    if i :| 0 <= i < |fs| && !ValidFault(fs[i]) {
      assert fs[i] in fs;
    }
    if f :| f in fs && f.deactivation.Some? && f.deactivation.value <= f.activation {
      var i :| 0 <= i < |fs| && fs[i] == f;
      assert !ValidFault(fs[i]);
    }
  }

  predicate FaultActive(f: Fault, t: nat) {
    t >= f.activation && (f.deactivation.None? || t < f.deactivation.value)
  }

  function WithFault(a: ActiveFaults, id: FaultId): ActiveFaults {
    match id
    case CoolingDegradation => a.(cooling := true)
    case ChargingFailure => a.(charging := true)
    case MapSensorBias => a.(mapBias := true)
    case FrontLeftWheelBias => a.(frontLeftBias := true)
  }

  function IsSet(a: ActiveFaults, id: FaultId): bool {
    match id
    case CoolingDegradation => a.cooling
    case ChargingFailure => a.charging
    case MapSensorBias => a.mapBias
    case FrontLeftWheelBias => a.frontLeftBias
  }

  ghost predicate SomeActive(fs: seq<Fault>, id: FaultId, t: nat) {
    exists i :: 0 <= i < |fs| && fs[i].id == id && FaultActive(fs[i], t)
  }

  /** `active_faults_at` as a fold. */
  function ActiveFaultsAt(fs: seq<Fault>, t: nat): ActiveFaults {
    if fs == [] then ActiveFaults(false, false, false, false)
    else
      var before := ActiveFaultsAt(fs[..|fs| - 1], t);
      if FaultActive(fs[|fs| - 1], t) then WithFault(before, fs[|fs| - 1].id) else before
  }

  lemma {:induction false} FlagsAreExact(fs: seq<Fault>, t: nat, id: FaultId)
    ensures IsSet(ActiveFaultsAt(fs, t), id) <==> SomeActive(fs, id, t)
  {
    if fs != [] {
      var n := |fs| - 1;
      FlagsAreExact(fs[..n], t, id);
      if SomeActive(fs[..n], id, t) {
        var i :| 0 <= i < n && fs[..n][i].id == id && FaultActive(fs[..n][i], t);
        assert fs[i].id == id && FaultActive(fs[i], t);
      }
      if SomeActive(fs, id, t) {
        var i :| 0 <= i < |fs| && fs[i].id == id && FaultActive(fs[i], t);
        assert i < n ==> fs[..n][i] == fs[i];
      }
    }
  }

  /** A fault of a kind is active exactly from its activation to before its deactivation, if it has one. */
  lemma {:induction false} ActiveFromTo(fs: seq<Fault>, t: nat, id: FaultId)
    ensures IsSet(ActiveFaultsAt(fs, t), id) <==>
            exists f <- fs :: f.id == id && f.activation <= t
                              && match f.deactivation { case None => true case Some(end) => t < end }
  {
    FlagsAreExact(fs, t, id);
    if SomeActive(fs, id, t) {
      var i :| 0 <= i < |fs| && fs[i].id == id && FaultActive(fs[i], t);
      assert fs[i] in fs;
    }
    if f :| f in fs && f.id == id && FaultActive(f, t) {
      var i :| 0 <= i < |fs| && fs[i] == f;
      assert SomeActive(fs, id, t);
    }
  }

  const MAP_SENSOR_BIAS := 220.0
  const FRONT_LEFT_BIAS := 5.0

  function Max(a: real, b: real): real {
    if a >= b then a else b
  }

  function Min(a: real, b: real): real {
    if a <= b then a else b
  }

  /** `std::clamp`. The language leaves reversed bounds undefined: no result of this project rests on the
      value given for them here. */
  function Clamp(x: real, low: real, high: real): (r: real)
    ensures low <= high ==> low <= r <= high
    ensures low <= x <= high ==> r == x
  {
    if x < low then low else if high < x then high else x
  }

  /** What the control units are shown: `observe_sensors`. */
  datatype Observation = Observation(dme: VehicleState, wheels: seq<real>)

  function ObserveSensors(s: VehicleState, fs: seq<Fault>): (o: Observation)
    ensures |o.wheels| == 4
  {
    var active := ActiveFaultsAt(fs, s.timestamp);
    Observation(
      if active.mapBias then s.(manifoldPressure := Max(0.0, s.manifoldPressure + MAP_SENSOR_BIAS)) else s,
      [if active.frontLeftBias then Max(0.0, s.speed + FRONT_LEFT_BIAS) else s.speed, s.speed, s.speed, s.speed])
  }

  /** Sensor faults bias one observation each and leave a valid state valid, other fields and other
      wheels untouched. */
  lemma {:induction false} ObservationIsValid(s: VehicleState, p: Profile, fs: seq<Fault>)
    requires ValidState(s, p)
    ensures var o := ObserveSensors(s, fs);
            && ValidState(o.dme, p)
            && o.dme.(manifoldPressure := s.manifoldPressure) == s
            && (o.dme.manifoldPressure - s.manifoldPressure ==
                if SomeActive(fs, MapSensorBias, s.timestamp) then 220.0 else 0.0)
            && (o.wheels[0] - s.speed ==
                if SomeActive(fs, FrontLeftWheelBias, s.timestamp) then 5.0 else 0.0)
            && o.wheels[1..] == [s.speed, s.speed, s.speed]
  {
    FlagsAreExact(fs, s.timestamp, MapSensorBias);
    FlagsAreExact(fs, s.timestamp, FrontLeftWheelBias);
  }
}
