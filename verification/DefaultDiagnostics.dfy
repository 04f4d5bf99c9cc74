/** The shipped rule catalog (diagnostics/catalog.py) and what the lifecycle means for an engine
    that runs any valid catalog. */
module DefaultDiagnostics {
  import opened Prelude
  import opened TelemetryModels
  import opened DiagnosticRules
  import opened DiagnosticLifecycle
  import opened DiagnosticEngine

  const COOLANT := SignalKey("DmeThermalElectrical", "CoolantTemperature")
  const OIL := SignalKey("DmeThermalElectrical", "OilTemperature")
  const BATTERY := SignalKey("DmeThermalElectrical", "BatteryVoltage")
  const ENGINE_RUNNING := SignalKey("DmeFastEngine", "EngineRunning")
  const MANIFOLD_PRESSURE := SignalKey("DmeAirLoad", "ManifoldPressureAbsolute")
  const VEHICLE_SPEED := SignalKey("DscVehicleMotion", "VehicleSpeed")
  const FRONT_LEFT := SignalKey("DscWheelSpeeds", "FrontLeftWheelSpeed")
  const FRONT_RIGHT := SignalKey("DscWheelSpeeds", "FrontRightWheelSpeed")
  const REAR_LEFT := SignalKey("DscWheelSpeeds", "RearLeftWheelSpeed")
  const REAR_RIGHT := SignalKey("DscWheelSpeeds", "RearRightWheelSpeed")
  const WHEELS := [FRONT_LEFT, FRONT_RIGHT, REAR_LEFT, REAR_RIGHT]

  const SECOND: nat := 1_000_000

  function DefaultRules(): seq<Rule> {
    [ Rule("TUN-DME-001", [COOLANT], 5 * SECOND, 3 * SECOND, HighThreshold(COOLANT, 115.0, 110.0)),
      Rule("TUN-DME-002", [OIL], 5 * SECOND, 3 * SECOND, HighThreshold(OIL, 135.0, 130.0)),
      Rule("TUN-DME-003", [BATTERY, ENGINE_RUNNING], 3 * SECOND, 2 * SECOND,
           LowWhileTrue(BATTERY, ENGINE_RUNNING, 12.5, 13.0)),
      Rule("TUN-DME-004", [MANIFOLD_PRESSURE, ENGINE_RUNNING], 2 * SECOND, 2 * SECOND,
           OutsideRangeWhileTrue(MANIFOLD_PRESSURE, ENGINE_RUNNING, 10.0, 250.0, 15.0, 240.0)),
      Rule("TUN-DSC-001", WHEELS + [VEHICLE_SPEED], 1 * SECOND, 1 * SECOND,
           SignalDisagreement(WHEELS, VEHICLE_SPEED, 3.0, 1.5)) ]
  }

  /** The decoder yields a boolean for the engine-running signal and a number for every other. */
  ghost predicate DecodedTypes(s: Snapshot) {
    forall k <- s.samples :: s.samples[k].value.Flag? <==> k == ENGINE_RUNNING
  }

  lemma {:induction false} FreshSignalIsPresent(r: Rule, s: Snapshot, k: SignalKey)
    requires InputsAreFresh(r, s) && k in r.requiredSignals
    ensures k in s.samples
  {
  }

  lemma {:induction false} SignalsAreDistinct()
    ensures BATTERY != ENGINE_RUNNING && MANIFOLD_PRESSURE != ENGINE_RUNNING && FRONT_LEFT != VEHICLE_SPEED
  {
    assert BATTERY.messageName[3] != ENGINE_RUNNING.messageName[3];
    assert MANIFOLD_PRESSURE.messageName[3] != ENGINE_RUNNING.messageName[3];
    assert FRONT_LEFT.messageName[3] != VEHICLE_SPEED.messageName[3];
  }

  lemma {:induction false} WheelsCompare()
    ensures !Degenerate(SignalDisagreement(WHEELS, VEHICLE_SPEED, 3.0, 1.5))
  {
    SignalsAreDistinct();
    assert WHEELS[0] == FRONT_LEFT && FRONT_LEFT in WHEELS;
  }

  lemma {:induction false} LimitsAreNested()
    ensures forall r <- DefaultRules() :: Nested(r.condition) && !Degenerate(r.condition)
  {
    SignalsAreDistinct();
    WheelsCompare();
    var rules := DefaultRules();
    assert rules[4].condition == SignalDisagreement(WHEELS, VEHICLE_SPEED, 3.0, 1.5);
    forall r | r in rules
      ensures Nested(r.condition) && !Degenerate(r.condition)
    {
      var i :| 0 <= i < |rules| && rules[i] == r;
    }
  }

  lemma {:induction false} WheelSignalsAreDistinct()
    ensures var ks := WHEELS + [VEHICLE_SPEED];
            |ks| == 5 && forall i, j :: 0 <= i < j < 5 ==> ks[i] != ks[j]
  {
    SignalsAreDistinct();
    assert FRONT_LEFT.signalName[0] != REAR_LEFT.signalName[0] && FRONT_LEFT.signalName[5] != FRONT_RIGHT.signalName[5];
    assert FRONT_LEFT.signalName[0] != REAR_RIGHT.signalName[0] && FRONT_RIGHT.signalName[0] != REAR_LEFT.signalName[0];
    assert FRONT_RIGHT.signalName[0] != REAR_RIGHT.signalName[0] && REAR_LEFT.signalName[4] != REAR_RIGHT.signalName[4];
    assert FRONT_RIGHT.messageName[3] != VEHICLE_SPEED.messageName[3];
  }

  /** No shipped rule names a signal twice. */
  lemma {:induction false} RequiredSignalsAreDistinct(rule: Rule)
    requires rule in DefaultRules()
    ensures var ks := rule.requiredSignals;
            0 < |ks| <= 5 && forall i, j :: 0 <= i < j < |ks| ==> ks[i] != ks[j]
  {
    SignalsAreDistinct();
    WheelSignalsAreDistinct();
    var rules := DefaultRules();
    var i :| 0 <= i < |rules| && rules[i] == rule;
  }

  lemma {:induction false} CodesAreDistinct()
    ensures ValidCatalog(DefaultRules())
  {
    var rules := DefaultRules();
    assert rules[0].code[10] == '1' && rules[0].code[5] == 'M';
    assert rules[1].code[10] == '2' && rules[2].code[10] == '3' && rules[3].code[10] == '4';
    assert rules[4].code[10] == '1' && rules[4].code[5] == 'S';
  }

  /** The shipped rules have distinct codes and nested limits. */
  lemma {:induction false} DefaultRulesAreSound()
    ensures ValidCatalog(DefaultRules())
    ensures forall r <- DefaultRules() :: Nested(r.condition) && !Degenerate(r.condition)
  {
    hide Nested, Degenerate;
    LimitsAreNested();
    CodesAreDistinct();
  }

  /** Each shipped rule requires every signal its condition reads, so every decoded snapshot of an
      observed frame is acceptable to all of them. */
  lemma {:induction false} DefaultRulesAcceptDecodedSnapshots(s: Snapshot)
    requires DecodedTypes(s) && s.lastFrameSequence.Some?
    ensures Acceptable(DefaultRules(), s)
  {
    forall r | r in DefaultRules() && InputsAreFresh(r, s)
      ensures Evaluable(r.condition, s)
    {
      forall k | k in r.requiredSignals
        ensures k in s.samples
      {
        FreshSignalIsPresent(r, s, k);
      }
    }
  }

  // ---- what any run of the engine means ----

  /** Over every accepted run, with clears and other rules interleaved anywhere: the events an
      operation adds for a code include a confirmation exactly when it ends an unbroken streak of
      fresh violations long enough, and a recovery exactly when it ends an unbroken streak of
      fresh normals long enough; the code is ACTIVE exactly when history says so. */
  lemma {:induction false} EngineTimersAreExact(rules: seq<Rule>, ops: seq<Operation>,
                                                k: nat) returns (added: seq<Change>)
    requires ValidCatalog(rules) && k < |rules| && AcceptedHistory(rules, ops) && ops != []
    ensures AcceptedHistory([rules[k]], ops)
    ensures var r := rules[k];
            var d := DurationsOf(r);
            var h := Project(r, ops);
            var before := ActiveAfter(d, h[..|h| - 1]);
            && ChangesOf(r.code, Replay(rules, ops).log) ==
               ChangesOf(r.code, Replay(rules, ops[..|ops| - 1]).log) + added
            && ((exists c <- added :: c.kind == DtcConfirmed) <==> !before && Due(d, h, false))
            && ((exists c <- added :: c.kind == DtcRecovered) <==> before && Due(d, h, true))
            && (IsActive(Replay(rules, ops).states[r.code]) <==> ActiveAfter(d, h))
  {
    hide Step, InputOf, InitialModel, ApplyRules, Due, ActiveAfter;
    var n := |ops| - 1;
    var r := rules[k];
    RulesAreIndependent(rules, ops, k);
    RulesAreIndependent(rules, ops[..n], k);
    var h := Project(r, ops);
    assert h[..n] == Project(r, ops[..n]);
    added := LastChanges(DurationsOf(r), h);
    TimerExactness(DurationsOf(r), h);
  }

  /** The shared log, read for one code, is that code's faithful history: it chains, playing it
      forward gives the current status, the record's counters and times are the log's, it was last
      seen at the latest violation, and the freeze frame is the snapshot of the operation that first
      confirmed the code. */
  lemma {:induction false} EngineLogIsFaithful(rules: seq<Rule>, ops: seq<Operation>, k: nat)
    requires ValidCatalog(rules) && k < |rules| && AcceptedHistory(rules, ops)
    ensures AcceptedHistory([rules[k]], ops)
    ensures var r := rules[k];
            var m := Replay(rules, ops);
            && Faithful(ChangesOf(r.code, m.log))
            && RecordMatchesLog(m.states[r.code], ChangesOf(r.code, m.log))
            && (m.states[r.code].dtc.Some? ==>
                  Some(m.states[r.code].dtc.value.lastSeen) == LastViolation(DurationsOf(r), Project(r, ops)))
    ensures var r := rules[k];
            var first := FirstConfirmation(DurationsOf(r), Project(r, ops));
            && (first.Some? ==> ops[first.value].Observed?)
            && Replay(rules, ops).states[r.code].freezeFrame ==
               if first.None? then None
               else Some(CaptureOf(r.code, ops[first.value].at, ops[first.value].snapshot))
    ensures var r := rules[k];
            var frozen, first := Replay(rules, ops).states[r.code].freezeFrame,
                                 FirstConfirmation(DurationsOf(r), Project(r, ops));
            first.Some? ==>
              && frozen.Some? && frozen.value.code == r.code && frozen.value.capture == ops[first.value].at
              && Some(frozen.value.frameSequence) == ops[first.value].snapshot.lastFrameSequence
              && frozen.value.signals == ops[first.value].snapshot.samples
  {
    hide Step, InitialModel, ApplyRules, Violates, Evaluable, InputsAreFresh;
    var r := rules[k];
    var d := DurationsOf(r);
    RulesAreIndependent(rules, ops, k);
    LogIsFaithful(d, Project(r, ops));
    if Run(d, Project(r, ops)).dtc.Some? {
      LastSeenIsExact(d, Project(r, ops));
    }
    FreezeFrameIsFirstConfirmation(d, Project(r, ops));
  }

  /** A fresh evaluation that lies between the recovery limit and the activation limit. */
  predicate InDeadBand(r: Rule, op: Operation)
    requires op.Observed? ==> Acceptable([r], op.snapshot)
  {
    op.Observed? && InputsAreFresh(r, op.snapshot) ==>
      assert r in [r];
      !Violates(r.condition, op.snapshot, false) && Violates(r.condition, op.snapshot, true)
  }

  /** If every evaluation after operation `n` lies in the dead band or is not fresh, whether the
      code is ACTIVE never changes again. */
  lemma {:induction false} EngineHysteresisIsStable(rules: seq<Rule>, ops: seq<Operation>, k: nat, n: nat)
    requires ValidCatalog(rules) && k < |rules| && AcceptedHistory(rules, ops) && n <= |ops|
    requires AcceptedHistory([rules[k]], ops)
    requires forall i :: n <= i < |ops| ==> InDeadBand(rules[k], ops[i])
    ensures IsActive(Replay(rules, ops).states[rules[k].code]) <==>
            IsActive(Replay(rules, ops[..n]).states[rules[k].code])
  {
    hide Step, InitialModel, ApplyRules, Violates, Evaluable, InputsAreFresh, Replay, Run, Changes, ChangesOf,
      Acceptable, DurationsOf;
    var r := rules[k];
    RulesAreIndependent(rules, ops, k);
    RulesAreIndependent(rules, ops[..n], k);
    var h := Project(r, ops);
    assert h[..n] == Project(r, ops[..n]);
    forall i | n <= i < |h| && h[i].Reading?
      ensures !h[i].breach && h[i].holds
    {
      assert InDeadBand(r, ops[i]);
    }
    DeadBandIsStable(DurationsOf(r), h, n);
  }
}
