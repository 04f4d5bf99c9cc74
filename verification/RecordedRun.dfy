/** From the vehicle to the recording: the bus of a run, sent by the simulator's server
    (can/src/tcp_gateway.cpp, gateway_sim_main.cpp), read by the gateway client, recorded and read back. */
module RecordedRun {
  import opened Prelude
  import opened Arithmetic
  import opened RawCan
  import opened VehicleModel
  import opened VehicleDynamics
  import opened VehicleSimulation
  import opened SimulationRun
  import opened SignalEncoding
  import opened EcuFrames
  import opened PeriodicPublication
  import opened SimulatedEcus
  import opened VehicleNetwork
  import opened RecordCodec
  import opened Gateway
  import S = SessionArtifacts

  predicate AllValid(bus: seq<CanFrame>) {
    forall i :: 0 <= i < |bus| ==> ValidCanFrame(bus[i])
  }

  /** A bus as its readers see it. */
  function WireOf(bus: seq<CanFrame>): (r: seq<RawFrame>)
    requires AllValid(bus)
    ensures |r| == |bus| && forall i :: 0 <= i < |r| ==> r[i] == OnTheWire(bus[i])
  {
    seq(|bus|, i requires 0 <= i < |bus| => OnTheWire(bus[i]))
  }

  lemma {:induction false} BornValid(f: CanFrame, m: Message, dme: VehicleState, truth: VehicleState,
                                     wheels: seq<real>)
    requires Bears(f, m, dme, truth, wheels)
    ensures ValidCanFrame(f)
  {
    hide ValuesOf;
  }

  lemma {:induction false} TickFits(c: Config, k: nat, tick: nat)
    requires ValidConfig(c) && k <= c.duration / c.step && tick <= k
    ensures tick * c.step <= k * c.step <= c.duration
  {
    hide ValidCalibration;
    DivMod(c.duration, c.step);
    MulKeepsOrder(tick, k, c.step);
    MulKeepsOrder(k, c.duration / c.step, c.step);
  }

  /** The bus of any run, under any schedule and faults, is a valid input to everything downstream: every
      frame is valid and fits its record, and the timestamps never fall. */
  lemma {:induction false} BusIsRecordable(bus: seq<CanFrame>, s: Schedule, exp: real -> real, c: Config, k: nat)
    requires ValidConfig(c) && ValidSchedule(s) && k <= c.duration / c.step && k * c.step <= MAX_U64
    requires IsBus(bus, Expected(s, c.step, k), exp, c)
    ensures AllValid(bus) && Encodable(WireOf(bus)) && Sorted(WireOf(bus))
  {
    hide Expected, ValidCalibration, StateAt, ObserveSensors, Bears, ValidSchedule;
    var slots := Expected(s, c.step, k);
    ExpectedAscends(s, c.step, k);
    forall i | 0 <= i < |bus|
      ensures ValidCanFrame(bus[i]) && bus[i].timestamp <= MAX_U64
    {
      var state := StateAt(exp, c, slots[i].tick);
      var o := ObserveSensors(state, c.faults);
      BornValid(bus[i], slots[i].message, o.dme, state, o.wheels);
      SlotStamp(bus[i], slots[i], exp, c);
      TickFits(c, k, slots[i].tick);
    }
    forall i, j | 0 <= i < j < |bus|
      ensures bus[i].timestamp <= bus[j].timestamp
    {
      BusIsOrdered(bus, s, exp, c, k, i, j);
    }
  }

  /** Every signal of every frame of any run reaches the reader: frame `i` carries the time of its tick and
      the ID of its message, and each of its signals reads as a representable value nearest to the one
      observed at that tick, within half a quantum when that is in range. */
  lemma {:induction false} EverySignalIsRead(bus: seq<CanFrame>, s: Schedule, exp: real -> real, c: Config, k: nat,
                                             i: nat, n: nat, other: nat)
    requires ValidConfig(c) && ValidSchedule(s) && k <= c.duration / c.step && k * c.step <= MAX_U64
    requires IsBus(bus, Expected(s, c.step, k), exp, c) && i < |bus| && AllValid(bus)
    requires n < |Expected(s, c.step, k)[i].message.signals|
    requires other <= TopOf(Expected(s, c.step, k)[i].message.signals[n].width)
    ensures var slot := Expected(s, c.step, k)[i];
            var state := StateAt(exp, c, slot.tick);
            var o := ObserveSensors(state, c.faults);
            var values := ValuesOf(slot.message, o.dme, state, o.wheels);
            var signal := slot.message.signals[n];
            var received := WireOf(bus)[i];
            && received.timestamp == slot.tick * c.step && received.arbitrationId == slot.message.id
            && n < |values| && signal.at + BytesOf(signal.width) <= |received.payload|
            && var read := Scaled(RawSignal(received.payload, signal), signal.scale, signal.offset);
            && Distance(read, values[n]) <= Distance(Scaled(other, signal.scale, signal.offset), values[n])
            && (InRange(values[n], signal.scale, signal.offset, TopOf(signal.width)) ==>
                  Distance(read, values[n]) <= signal.scale / 2.0)
  {
    hide Expected, ValidCalibration, StateAt, ObserveSensors, ValuesOf, ValidSchedule, Scaled, Distance, InRange,
      WellLaid, RawSignal, EncodeRecord, DecodeRecord, Encode, TopOf;
    var slot := Expected(s, c.step, k)[i];
    var state := StateAt(exp, c, slot.tick);
    var o := ObserveSensors(state, c.faults);
    BusIsRecordable(bus, s, exp, c, k);
    SlotStamp(bus[i], slot, exp, c);
    SignalSurvivesTheWire(bus[i], slot.message, ValuesOf(slot.message, o.dme, state, o.wheels), state.timestamp, n,
                          other);
    DecodeInvertsEncode(WireOf(bus)[i]);
  }

  /** What the server writes to its client: the header, and then one record for every frame sent. */
  method SendAll(bus: seq<CanFrame>) returns (bytes: seq<byte>)
    requires AllValid(bus) && Encodable(WireOf(bus))
    ensures bytes == HEADER + RecordsOf(WireOf(bus))
  {
    hide EncodeRecord, RecordsOf;
    bytes := HEADER;
    NoRecordsYet();
    assert WireOf(bus)[..0] == [];
    for i := 0 to |bus|
      invariant bytes == HEADER + RecordsOf(WireOf(bus)[..i])
    {
      var record := SerializeGatewayRecord(bus[i]);
      RecordsToLast(WireOf(bus)[..i + 1]);
      assert WireOf(bus)[..i + 1][..i] == WireOf(bus)[..i];
      bytes := bytes + record.value;
    }
    assert WireOf(bus)[..|bus|] == WireOf(bus);
  }

  lemma {:induction false} NoRecordsYet()
    ensures RecordsOf([]) == [] && HEADER + [] == HEADER
  {
  }

  /** Run a whole simulation: the bus is that of its last tick. */
  method Drive(exp: real -> real, c: Config, s: Schedule) returns (bus: seq<CanFrame>)
    requires ValidConfig(c) && ValidSchedule(s)
    ensures ValidSchedule(ScheduleFor(c, s)) && c.duration / c.step * c.step <= MAX_U64
    ensures IsBus(bus, Expected(ScheduleFor(c, s), c.step, c.duration / c.step), exp, c)
  {
    hide StateAt, Expected, IsBus, ValidCalibration, ValidFaults, Ticks, ValidConfig, ObserveSensors, InitialState;
    var network := new VehicleNetworkSimulation(exp, c, s);
    var ticks := network.RunToCompletion();
    bus := network.transport.sent;
    WholeRun(c, network.vehicle.clock.tickCount);
  }

  lemma {:induction false} WholeRun(c: Config, ticks: nat)
    requires ValidConfig(c) && ticks * c.step == c.duration
    ensures ticks == c.duration / c.step
  {
    hide ValidCalibration;
    DivModUnique(c.duration, ticks, 0, c.step);
  }

  /** Read at the gateway whatever a server sends, and record it. */
  method ReceiveAndRecord(bus: seq<CanFrame>, a: S.Arguments, sha: S.Hash)
    returns (received: seq<RawFrame>, end: End, read: seq<RawFrame>, done: Result<(), S.ReadError>)
    requires AllValid(bus) && Encodable(WireOf(bus)) && Sorted(WireOf(bus))
    requires S.Issued(a) && S.Accepted(a) && S.HexDigest(sha)
    ensures received == WireOf(bus) && end == Clean
    ensures done.Ok? <==> S.Presentable(a)
    ensures done.Ok? ==> read == WireOf(bus)
  {
    hide S.HexDigest, S.Issued, S.Accepted, S.Presentable, RecordsOf, FramesOf, S.InOrderOf;
    var bytes := SendAll(bus);
    assert bytes[..HEADER_SIZE] == HEADER && bytes[HEADER_SIZE..] == RecordsOf(WireOf(bus));
    var header;
    header, received, end := ReadStream(bytes);
    StreamRoundTrip(WireOf(bus));
    read, done := S.RecordAndRead(a, sha, received);
  }

  /** Drive a run to its end, send its bus, read it at the gateway and record it: whatever the scenario,
      schedule and faults, the client receives the whole bus and ends cleanly, and the recording gives
      back the whole bus exactly when its arguments were presentable. */
  method DriveAndRecord(exp: real -> real, c: Config, s: Schedule, a: S.Arguments, sha: S.Hash)
    returns (bus: seq<CanFrame>, received: seq<RawFrame>, end: End, read: seq<RawFrame>,
             done: Result<(), S.ReadError>)
    requires ValidConfig(c) && ValidSchedule(s) && S.Issued(a) && S.Accepted(a) && S.HexDigest(sha)
    ensures ValidSchedule(ScheduleFor(c, s)) && c.duration / c.step * c.step <= MAX_U64
    ensures IsBus(bus, Expected(ScheduleFor(c, s), c.step, c.duration / c.step), exp, c)
    ensures AllValid(bus) && received == WireOf(bus) && end == Clean
    ensures done.Ok? <==> S.Presentable(a)
    ensures done.Ok? ==> read == WireOf(bus)
  {
    hide StateAt, Expected, IsBus, ValidCalibration, ValidFaults, S.HexDigest, S.Issued, S.Accepted, S.Presentable,
      Encodable, Sorted, AllValid;
    bus := Drive(exp, c, s);
    BusIsRecordable(bus, ScheduleFor(c, s), exp, c, c.duration / c.step);
    received, end, read, done := ReceiveAndRecord(bus, a, sha);
  }
}
