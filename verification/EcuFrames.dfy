/** The six published frames (can/src/dme_frames.cpp, dsc_frames.cpp), each written byte by byte and
    proved to carry the signals the CAN database reads back. */
module EcuFrames {
  import opened RawCan
  import opened VehicleModel
  import opened SignalEncoding

  /** The application-level frame: a fixed payload of which the first `length` bytes are sent. */
  datatype CanFrame = CanFrame(arbitrationId: nat, length: nat, payload: seq<byte>, timestamp: nat)

  predicate ValidCanFrame(f: CanFrame) {
    f.arbitrationId <= MAXIMUM_ID && f.length <= MAXIMUM_PAYLOAD && |f.payload| == MAXIMUM_PAYLOAD
  }

  /** One unsigned little-endian signal of the database, aligned to a byte. */
  datatype Width = One | Eight | Sixteen

  datatype Signal = Signal(at: nat, width: Width, scale: real, offset: real)

  function BytesOf(w: Width): nat {
    if w.Sixteen? then 2 else 1
  }

  function TopOf(w: Width): nat {
    match w
    case One => 1
    case Eight => MAX_U8
    case Sixteen => MAX_U16
  }

  datatype Message = Message(id: nat, length: nat, signals: seq<Signal>)

  const NORMALIZED := 1.0 / 255.0
  const SPEED_SCALE := 0.01

  const FAST_ENGINE := Message(0x500, 5, [Signal(0, Sixteen, 0.25, 0.0), Signal(2, Eight, NORMALIZED, 0.0),
                                          Signal(3, Eight, NORMALIZED, 0.0), Signal(4, One, 1.0, 0.0)])
  const AIR_LOAD := Message(0x501, 4, [Signal(0, Sixteen, 0.1, 0.0), Signal(2, Eight, NORMALIZED, 0.0),
                                       Signal(3, Eight, NORMALIZED, 0.0)])
  const THERMAL_ELECTRICAL := Message(0x502, 7, [Signal(0, Sixteen, 0.1, -100.0), Signal(2, Sixteen, 0.1, -100.0),
                                                 Signal(4, Sixteen, 0.1, -100.0), Signal(6, Eight, 0.1, 0.0)])
  const COMBUSTION := Message(0x503, 3, [Signal(0, Eight, 0.01, 0.0), Signal(1, Sixteen, 0.1, -100.0)])
  const VEHICLE_MOTION := Message(0x520, 3, [Signal(0, Sixteen, SPEED_SCALE, 0.0), Signal(2, Eight, 1.0, 0.0)])
  const WHEEL_SPEEDS := Message(0x521, 8, [Signal(0, Sixteen, SPEED_SCALE, 0.0), Signal(2, Sixteen, SPEED_SCALE, 0.0),
                                           Signal(4, Sixteen, SPEED_SCALE, 0.0), Signal(6, Sixteen, SPEED_SCALE, 0.0)])

  function Messages(): seq<Message> {
    [FAST_ENGINE, AIR_LOAD, THERMAL_ELECTRICAL, COMBUSTION, VEHICLE_MOTION, WHEEL_SPEEDS]
  }

  /** Signals lie inside the bytes that are sent and share none of them. */
  predicate WellLaid(m: Message) {
    && m.id <= MAXIMUM_ID && m.length <= MAXIMUM_PAYLOAD
    && (forall i :: 0 <= i < |m.signals| ==>
         m.signals[i].scale > 0.0 && m.signals[i].at + BytesOf(m.signals[i].width) <= m.length)
    && forall i, j :: 0 <= i < j < |m.signals| ==> m.signals[i].at + BytesOf(m.signals[i].width) <= m.signals[j].at
  }

  lemma {:induction false} FastMessagesAreWellLaid()
    ensures WellLaid(FAST_ENGINE) && WellLaid(AIR_LOAD)
  {
  }

  lemma {:induction false} SlowMessagesAreWellLaid()
    ensures WellLaid(THERMAL_ELECTRICAL) && WellLaid(COMBUSTION)
  {
  }

  lemma {:induction false} DmeMessagesAreWellLaid()
    ensures WellLaid(FAST_ENGINE) && WellLaid(AIR_LOAD) && WellLaid(THERMAL_ELECTRICAL) && WellLaid(COMBUSTION)
  {
    hide WellLaid;
    FastMessagesAreWellLaid();
    SlowMessagesAreWellLaid();
  }

  lemma {:induction false} DscMessagesAreWellLaid()
    ensures WellLaid(VEHICLE_MOTION) && WellLaid(WHEEL_SPEEDS)
  {
  }

  lemma {:induction false} MessagesAreWellLaid()
    ensures forall i :: 0 <= i < |Messages()| ==> WellLaid(Messages()[i])
    ensures forall i, j :: 0 <= i < j < |Messages()| ==> Messages()[i].id < Messages()[j].id
  {
    hide WellLaid;
    DmeMessagesAreWellLaid();
    DscMessagesAreWellLaid();
  }

  /** What the database reads from a payload for one signal. */
  function RawSignal(payload: seq<byte>, s: Signal): (raw: nat)
    requires s.at + BytesOf(s.width) <= |payload|
  {
    match s.width
    case One => payload[s.at] % 2
    case Eight => payload[s.at]
    case Sixteen => U16At(payload, s.at)
  }

  /** The frame carries `values` in the signals of `m`, and nothing beyond its length. */
  predicate Carries(f: CanFrame, m: Message, values: seq<real>, t: nat)
    requires WellLaid(m)
  {
    && f.arbitrationId == m.id && f.length == m.length && |f.payload| == 8 && f.timestamp == t
    && |values| == |m.signals|
    && (forall i :: 0 <= i < |values| ==>
          RawSignal(f.payload, m.signals[i]) ==
          Encode(values[i], m.signals[i].scale, m.signals[i].offset, TopOf(m.signals[i].width)))
    && forall k :: m.length <= k < 8 ==> f.payload[k] == 0
  }

  function Flag(b: bool): real {
    if b then 1.0 else 0.0
  }

  function FastEngineValues(s: VehicleState): seq<real> {
    [s.rpm, s.throttle, s.load, Flag(s.running)]
  }

  function AirLoadValues(s: VehicleState): seq<real> {
    [s.manifoldPressure, s.accelerator, s.requestedLoad]
  }

  function ThermalElectricalValues(s: VehicleState): seq<real> {
    [s.coolant, s.oil, s.intakeAir, s.battery]
  }

  function CombustionValues(s: VehicleState): seq<real> {
    [s.lambda_, s.ignition]
  }

  function VehicleMotionValues(s: VehicleState): seq<real> {
    [s.speed, s.gear as real]
  }

  // ---- the database, in numbers ----

  /** The engine frame: ID 0x500, five bytes; engine speed in quarters of a revolution, throttle and load in
      255ths, and whether the engine runs. */
  lemma {:induction false} EngineInBytes(f: CanFrame, s: VehicleState, t: nat)
    requires WellLaid(FAST_ENGINE) && Carries(f, FAST_ENGINE, FastEngineValues(s), t)
    ensures f.arbitrationId == 0x500 && f.length == 5
    ensures U16At(f.payload, 0) == Encode(s.rpm, 0.25, 0.0, 65_535)
    ensures f.payload[2] == Encode(s.throttle, 1.0 / 255.0, 0.0, 255)
    ensures f.payload[3] == Encode(s.load, 1.0 / 255.0, 0.0, 255)
    ensures f.payload[4] % 2 == if s.running then 1 else 0
  {
    hide Encode, U16At;
    FlagIsExact(s.running);
    SignalValue(f, FAST_ENGINE, FastEngineValues(s), t, 0);
    SignalValue(f, FAST_ENGINE, FastEngineValues(s), t, 1);
    SignalValue(f, FAST_ENGINE, FastEngineValues(s), t, 2);
    SignalValue(f, FAST_ENGINE, FastEngineValues(s), t, 3);
  }

  /** The air and load frame: ID 0x501, four bytes; manifold pressure in tenths of a kilopascal, pedal and
      requested load in 255ths. */
  lemma {:induction false} AirLoadInBytes(f: CanFrame, s: VehicleState, t: nat)
    requires WellLaid(AIR_LOAD) && Carries(f, AIR_LOAD, AirLoadValues(s), t)
    ensures f.arbitrationId == 0x501 && f.length == 4
    ensures U16At(f.payload, 0) == Encode(s.manifoldPressure, 0.1, 0.0, 65_535)
    ensures f.payload[2] == Encode(s.accelerator, 1.0 / 255.0, 0.0, 255)
    ensures f.payload[3] == Encode(s.requestedLoad, 1.0 / 255.0, 0.0, 255)
  {
    hide Encode, U16At;
    SignalValue(f, AIR_LOAD, AirLoadValues(s), t, 0);
    SignalValue(f, AIR_LOAD, AirLoadValues(s), t, 1);
    SignalValue(f, AIR_LOAD, AirLoadValues(s), t, 2);
  }

  /** The thermal and electrical frame: ID 0x502, seven bytes; coolant, oil and intake air in tenths of a
      degree above -100, battery in tenths of a volt. */
  lemma {:induction false} ThermalInBytes(f: CanFrame, s: VehicleState, t: nat)
    requires WellLaid(THERMAL_ELECTRICAL) && Carries(f, THERMAL_ELECTRICAL, ThermalElectricalValues(s), t)
    ensures f.arbitrationId == 0x502 && f.length == 7
    ensures U16At(f.payload, 0) == Encode(s.coolant, 0.1, -100.0, 65_535)
    ensures U16At(f.payload, 2) == Encode(s.oil, 0.1, -100.0, 65_535)
    ensures U16At(f.payload, 4) == Encode(s.intakeAir, 0.1, -100.0, 65_535)
    ensures f.payload[6] == Encode(s.battery, 0.1, 0.0, 255)
  {
    hide Encode, U16At;
    SignalValue(f, THERMAL_ELECTRICAL, ThermalElectricalValues(s), t, 0);
    SignalValue(f, THERMAL_ELECTRICAL, ThermalElectricalValues(s), t, 1);
    SignalValue(f, THERMAL_ELECTRICAL, ThermalElectricalValues(s), t, 2);
    SignalValue(f, THERMAL_ELECTRICAL, ThermalElectricalValues(s), t, 3);
  }

  /** The combustion frame: ID 0x503, three bytes; mixture in hundredths, ignition in tenths of a degree above
      -100. The motion frame: ID 0x520, three bytes; speed in centimetres a second, and the gear. */
  lemma {:induction false} CombustionAndMotionInBytes(f: CanFrame, s: VehicleState, t: nat)
    requires WellLaid(COMBUSTION) && WellLaid(VEHICLE_MOTION)
    ensures Carries(f, COMBUSTION, CombustionValues(s), t) ==>
              && f.arbitrationId == 0x503 && f.length == 3 && |f.payload| == 8
              && f.payload[0] == Encode(s.lambda_, 0.01, 0.0, 255)
              && U16At(f.payload, 1) == Encode(s.ignition, 0.1, -100.0, 65_535)
    ensures Carries(f, VEHICLE_MOTION, VehicleMotionValues(s), t) ==>
              && f.arbitrationId == 0x520 && f.length == 3 && |f.payload| == 8
              && U16At(f.payload, 0) == Encode(s.speed, 0.01, 0.0, 65_535)
              && f.payload[2] == if s.gear < 0 then 0 else s.gear
  {
    hide Encode, U16At;
    GearIsExact(s.gear);
    if Carries(f, COMBUSTION, CombustionValues(s), t) {
      SignalValue(f, COMBUSTION, CombustionValues(s), t, 0);
      SignalValue(f, COMBUSTION, CombustionValues(s), t, 1);
    }
    if Carries(f, VEHICLE_MOTION, VehicleMotionValues(s), t) {
      SignalValue(f, VEHICLE_MOTION, VehicleMotionValues(s), t, 0);
      SignalValue(f, VEHICLE_MOTION, VehicleMotionValues(s), t, 1);
    }
  }

  /** The wheel frame: ID 0x521, eight bytes; front left, front right, rear left and rear right in
      centimetres a second. */
  lemma {:induction false} WheelsInBytes(f: CanFrame, wheels: seq<real>, t: nat)
    requires WellLaid(WHEEL_SPEEDS) && |wheels| == 4 && Carries(f, WHEEL_SPEEDS, wheels, t)
    ensures f.arbitrationId == 0x521 && f.length == 8
    ensures forall i :: 0 <= i < 4 ==> U16At(f.payload, 2 * i) == Encode(wheels[i], 0.01, 0.0, 65_535)
  {
    hide Encode, U16At;
    SignalValue(f, WHEEL_SPEEDS, wheels, t, 0);
    SignalValue(f, WHEEL_SPEEDS, wheels, t, 1);
    SignalValue(f, WHEEL_SPEEDS, wheels, t, 2);
    SignalValue(f, WHEEL_SPEEDS, wheels, t, 3);
  }

  lemma {:induction false} SignalValue(f: CanFrame, m: Message, values: seq<real>, t: nat, i: nat)
    requires WellLaid(m) && Carries(f, m, values, t) && i < |m.signals|
    ensures var s := m.signals[i];
            && i < |values| && |f.payload| == 8 && s.at + BytesOf(s.width) <= 8
            && RawSignal(f.payload, s) == Encode(values[i], s.scale, s.offset, TopOf(s.width))
  {
    hide Encode, RawSignal;
  }

  function EncodeU16(value: real, scale: real, offset: real): (raw: nat)
    requires scale > 0.0
    ensures raw <= MAX_U16
  {
    Encode(value, scale, offset, MAX_U16)
  }

  function EncodeU8(value: real, scale: real, offset: real): (raw: byte)
    requires scale > 0.0
  {
    Encode(value, scale, offset, MAX_U8)
  }

  lemma {:induction false} FlagIsExact(b: bool)
    ensures Encode(Flag(b), 1.0, 0.0, 1) == if b then 1 else 0
  {
  }

  lemma {:induction false} GearIsExact(gear: int8)
    ensures Encode(gear as real, 1.0, 0.0, MAX_U8) == if gear < 0 then 0 else gear
  {
    assert (gear as real - 0.0) / 1.0 == gear as real;
    RoundIsNearest(gear as real, gear);
  }

  /** A payload of zeros, as the frame initialiser leaves it. */
  method EmptyPayload() returns (payload: array<byte>)
    ensures fresh(payload) && payload.Length == 8 && forall k :: 0 <= k < 8 ==> payload[k] == 0
  {
    payload := new byte[8](_ => 0);
  }

  method MakeDmeFastEngineFrame(s: VehicleState) returns (f: CanFrame)
    ensures WellLaid(FAST_ENGINE) && Carries(f, FAST_ENGINE, FastEngineValues(s), s.timestamp)
  {
    hide Encode;
    FlagIsExact(s.running);
    var payload := EmptyPayload();
    PackU16LittleEndian(payload, 0, EncodeU16(s.rpm, 0.25, 0.0));
    payload[2] := EncodeU8(s.throttle, NORMALIZED, 0.0);
    payload[3] := EncodeU8(s.load, NORMALIZED, 0.0);
    payload[4] := if s.running then 1 else 0;
    return CanFrame(FAST_ENGINE.id, FAST_ENGINE.length, payload[..], s.timestamp);
  }

  method MakeDmeAirLoadFrame(s: VehicleState) returns (f: CanFrame)
    ensures WellLaid(AIR_LOAD) && Carries(f, AIR_LOAD, AirLoadValues(s), s.timestamp)
  {
    hide Encode;
    var payload := EmptyPayload();
    PackU16LittleEndian(payload, 0, EncodeU16(s.manifoldPressure, 0.1, 0.0));
    payload[2] := EncodeU8(s.accelerator, NORMALIZED, 0.0);
    payload[3] := EncodeU8(s.requestedLoad, NORMALIZED, 0.0);
    return CanFrame(AIR_LOAD.id, AIR_LOAD.length, payload[..], s.timestamp);
  }

  method MakeDmeThermalElectricalFrame(s: VehicleState) returns (f: CanFrame)
    ensures WellLaid(THERMAL_ELECTRICAL) && Carries(f, THERMAL_ELECTRICAL, ThermalElectricalValues(s), s.timestamp)
  {
    hide Encode;
    var payload := EmptyPayload();
    PackU16LittleEndian(payload, 0, EncodeU16(s.coolant, 0.1, -100.0));
    PackU16LittleEndian(payload, 2, EncodeU16(s.oil, 0.1, -100.0));
    PackU16LittleEndian(payload, 4, EncodeU16(s.intakeAir, 0.1, -100.0));
    payload[6] := EncodeU8(s.battery, 0.1, 0.0);
    return CanFrame(THERMAL_ELECTRICAL.id, THERMAL_ELECTRICAL.length, payload[..], s.timestamp);
  }

  method MakeDmeCombustionObservationFrame(s: VehicleState) returns (f: CanFrame)
    ensures WellLaid(COMBUSTION) && Carries(f, COMBUSTION, CombustionValues(s), s.timestamp)
  {
    hide Encode;
    var payload := EmptyPayload();
    payload[0] := EncodeU8(s.lambda_, 0.01, 0.0);
    PackU16LittleEndian(payload, 1, EncodeU16(s.ignition, 0.1, -100.0));
    return CanFrame(COMBUSTION.id, COMBUSTION.length, payload[..], s.timestamp);
  }

  method MakeDscVehicleMotionFrame(s: VehicleState) returns (f: CanFrame)
    ensures WellLaid(VEHICLE_MOTION) && Carries(f, VEHICLE_MOTION, VehicleMotionValues(s), s.timestamp)
  {
    hide Encode;
    GearIsExact(s.gear);
    var payload := EmptyPayload();
    PackU16LittleEndian(payload, 0, EncodeU16(s.speed, SPEED_SCALE, 0.0));
    payload[2] := if s.gear > 0 then s.gear else 0;
    return CanFrame(VEHICLE_MOTION.id, VEHICLE_MOTION.length, payload[..], s.timestamp);
  }

  method MakeDscWheelSpeedsFrame(s: VehicleState, wheels: seq<real>) returns (f: CanFrame)
    requires |wheels| == 4
    ensures WellLaid(WHEEL_SPEEDS) && Carries(f, WHEEL_SPEEDS, wheels, s.timestamp)
  {
    hide Encode;
    var payload := EmptyPayload();
    for index := 0 to 4
      invariant forall i :: 0 <= i < index ==> U16At(payload[..], 2 * i) == EncodeU16(wheels[i], SPEED_SCALE, 0.0)
    {
      PackU16LittleEndian(payload, index * 2, EncodeU16(wheels[index], SPEED_SCALE, 0.0));
    }
    assert U16At(payload[..], 2 * 0) == EncodeU16(wheels[0], SPEED_SCALE, 0.0);
    assert U16At(payload[..], 2 * 1) == EncodeU16(wheels[1], SPEED_SCALE, 0.0);
    assert U16At(payload[..], 2 * 2) == EncodeU16(wheels[2], SPEED_SCALE, 0.0);
    assert U16At(payload[..], 2 * 3) == EncodeU16(wheels[3], SPEED_SCALE, 0.0);
    return CanFrame(WHEEL_SPEEDS.id, WHEEL_SPEEDS.length, payload[..], s.timestamp);
  }
}
