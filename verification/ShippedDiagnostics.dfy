/** What the shipped trouble codes mean (diagnostics/catalog.py): limits and times in numbers, read on
    the snapshots themselves, over any run of the engine. */
module ShippedDiagnostics {
  import opened Prelude
  import opened TelemetryModels
  import opened DiagnosticRules
  import opened DiagnosticLifecycle
  import opened DiagnosticEngine
  import opened DefaultDiagnostics

  const CODES := 5

  /** Rule `k` of the catalog. */
  function Shipped(k: nat): (r: Rule)
    requires k < CODES
    ensures k < |DefaultRules()| && r == DefaultRules()[k]
  {
    DefaultRules()[k]
  }

  function Seconds(n: nat): nat {
    n * 1_000_000
  }

  function ConfirmationOf(k: nat): nat
    requires k < CODES
  {
    if k <= 1 then Seconds(5) else if k == 2 then Seconds(3) else if k == 3 then Seconds(2) else Seconds(1)
  }

  function RecoveryOf(k: nat): nat
    requires k < CODES
  {
    if k <= 1 then Seconds(3) else if k <= 3 then Seconds(2) else Seconds(1)
  }

  /** The signals of rule `k` were received. */
  predicate Received(k: nat, s: Snapshot)
    requires k < CODES
  {
    match k
    case 0 => HasNumber(s, COOLANT)
    case 1 => HasNumber(s, OIL)
    case 2 => HasNumber(s, BATTERY) && HasFlag(s, ENGINE_RUNNING)
    case 3 => HasNumber(s, MANIFOLD_PRESSURE) && HasFlag(s, ENGINE_RUNNING)
    case 4 => HasNumber(s, VEHICLE_SPEED) && forall w <- WHEELS :: HasNumber(s, w)
  }

  predicate EngineRuns(s: Snapshot)
    requires HasFlag(s, ENGINE_RUNNING)
  {
    s.samples[ENGINE_RUNNING].value == Flag(true)
  }

  /** The fault of code `k` shows: hot coolant or oil, low voltage or odd pressure of a running engine, or a
      wheel that disagrees with the vehicle. An ACTIVE code keeps to the second limit. */
  predicate Shows(k: nat, s: Snapshot, active: bool)
    requires k < CODES && Received(k, s)
  {
    match k
    case 0 => NumberOf(s, COOLANT) > (if active then 110.0 else 115.0)
    case 1 => NumberOf(s, OIL) > (if active then 130.0 else 135.0)
    case 2 => EngineRuns(s) && NumberOf(s, BATTERY) < (if active then 13.0 else 12.5)
    case 3 =>
      EngineRuns(s) && !(if active then 15.0 <= NumberOf(s, MANIFOLD_PRESSURE) <= 240.0
                         else 10.0 <= NumberOf(s, MANIFOLD_PRESSURE) <= 250.0)
    case 4 =>
      exists w <- WHEELS :: Apart(NumberOf(s, w), NumberOf(s, VEHICLE_SPEED), if active then 1.5 else 3.0)
  }

  /** Every signal of rule `k` was received and is fresh. */
  predicate FreshFor(k: nat, s: Snapshot)
    requires k < CODES
  {
    var keys := match k
      case 0 => [COOLANT]
      case 1 => [OIL]
      case 2 => [BATTERY, ENGINE_RUNNING]
      case 3 => [MANIFOLD_PRESSURE, ENGINE_RUNNING]
      case 4 => [FRONT_LEFT, FRONT_RIGHT, REAR_LEFT, REAR_RIGHT, VEHICLE_SPEED];
    forall x <- keys :: x in s.samples && x in s.freshness && s.freshness[x] == Fresh
  }

  lemma {:induction false} ShippedFreshness(k: nat, s: Snapshot)
    requires k < CODES
    ensures InputsAreFresh(Shipped(k), s) <==> FreshFor(k, s)
  {
  }

  lemma {:induction false} ShippedNumbers(k: nat)
    requires k < CODES
    ensures DurationsOf(Shipped(k)) == Durations(ConfirmationOf(k), RecoveryOf(k))
    ensures Shipped(k).code == ["TUN-DME-001", "TUN-DME-002", "TUN-DME-003", "TUN-DME-004", "TUN-DSC-001"][k]
  {
  }

  lemma {:induction false} ShippedVerdict(k: nat, s: Snapshot, active: bool)
    requires k < CODES && Evaluable(Shipped(k).condition, s)
    ensures Received(k, s) && (Violates(Shipped(k).condition, s, active) <==> Shows(k, s, active))
  {
    hide Violates, Apart;
    VerdictIsExact(Shipped(k).condition, s, active);
  }

  /** What an operation is to shipped rule `k`: fresh signals make it a reading, of a fault or not. */
  lemma {:induction false} ShippedReading(k: nat, op: Operation)
    requires k < CODES && (op.Observed? ==> Acceptable([Shipped(k)], op.snapshot))
    ensures InputOf(Shipped(k), op).Reading? <==> op.Observed? && FreshFor(k, op.snapshot)
    ensures InputOf(Shipped(k), op).Unfresh? <==> op.Observed? && !FreshFor(k, op.snapshot)
    ensures op.Observed? && FreshFor(k, op.snapshot) ==>
              var i := InputOf(Shipped(k), op);
              && Received(k, op.snapshot)
              && (i.breach <==> Shows(k, op.snapshot, false)) && (i.holds <==> Shows(k, op.snapshot, true))
    ensures InputOf(Shipped(k), op).time == op.at
  {
    hide Shipped, Violates, InputsAreFresh, FreshFor, Evaluable, Shows, Received;
    if op.Observed? {
      ShippedFreshness(k, op.snapshot);
      if FreshFor(k, op.snapshot) {
        assert Shipped(k) in [Shipped(k)];
        ShippedVerdict(k, op.snapshot, false);
        ShippedVerdict(k, op.snapshot, true);
      }
    }
  }

  /** Code `k` is ACTIVE after the first `n` operations. */
  ghost predicate IsActiveAfter(k: nat, ops: seq<Operation>, n: nat)
    requires k < CODES && n <= |ops| && AcceptedHistory(DefaultRules(), ops)
  {
    IsActive(Replay(DefaultRules(), ops[..n]).states[Shipped(k).code])
  }

  /** Operation `i` does not interrupt a streak: a reading that shows the fault of a code that is not ACTIVE,
      or shows none for one that is; or a clear. */
  ghost predicate Counts(k: nat, ops: seq<Operation>, i: nat, active: bool)
    requires k < CODES && i < |ops| && AcceptedHistory(DefaultRules(), ops)
  {
    ops[i].Observed? ==>
      && FreshFor(k, ops[i].snapshot) && Received(k, ops[i].snapshot)
      && IsActiveAfter(k, ops, i) == active
      && Shows(k, ops[i].snapshot, active) == !active
  }

  /** The last operation ends an unbroken streak of readings of at least the given duration. */
  ghost predicate StreakEnds(k: nat, ops: seq<Operation>, active: bool, duration: nat)
    requires k < CODES && ops != [] && AcceptedHistory(DefaultRules(), ops)
  {
    var n := |ops| - 1;
    && ops[n].Observed?
    && exists j :: 0 <= j <= n && ops[j].Observed? && ops[n].at - ops[j].at >= duration
                   && forall i :: j <= i <= n ==> Counts(k, ops, i, active)
  }

  lemma {:induction false} PrefixIsAccepted(rules: seq<Rule>, ops: seq<Operation>, n: nat)
    requires AcceptedHistory(rules, ops) && n <= |ops|
    ensures AcceptedHistory(rules, ops[..n])
  {
    hide Acceptable;
  }

  lemma {:induction false} ActiveByHistory(k: nat, ops: seq<Operation>, n: nat)
    requires k < CODES && n <= |ops| && AcceptedHistory(DefaultRules(), ops)
    ensures AcceptedHistory([Shipped(k)], ops)
    ensures IsActiveAfter(k, ops, n) <==> ActiveAfter(DurationsOf(Shipped(k)), Project(Shipped(k), ops)[..n])
  {
    hide DefaultRules, Replay, Run, ActiveAfter, Since, InputOf, DurationsOf, Acceptable, AcceptedHistory, Shipped;
    var r := Shipped(k);
    CodesAreDistinct();
    PrefixIsAccepted(DefaultRules(), ops, n);
    AcceptedForOne(DefaultRules(), ops, k);
    RulesAreIndependent(DefaultRules(), ops[..n], k);
    assert Project(r, ops)[..n] == Project(r, ops[..n]);
    ClocksAreExact(DurationsOf(r), Project(r, ops[..n]));
  }

  lemma {:induction false} CountsByHistory(k: nat, ops: seq<Operation>, i: nat, active: bool)
    requires k < CODES && i < |ops| && AcceptedHistory(DefaultRules(), ops)
    ensures AcceptedHistory([Shipped(k)], ops)
    ensures Continues(DurationsOf(Shipped(k)), Project(Shipped(k), ops), active, i) <==> Counts(k, ops, i, active)
  {
    hide DefaultRules, Replay, ActiveAfter, InputOf, DurationsOf, Acceptable, Shipped, FreshFor, Received,
      Shows, IsActiveAfter;
    ActiveByHistory(k, ops, i);
    OneAccepts(k, ops, i);
    ShippedReading(k, ops[i]);
  }

  lemma {:induction false} OneAccepts(k: nat, ops: seq<Operation>, i: nat)
    requires k < CODES && i < |ops| && AcceptedHistory([Shipped(k)], ops)
    ensures ops[i].Observed? ==> Acceptable([Shipped(k)], ops[i].snapshot)
    ensures Project(Shipped(k), ops)[i] == InputOf(Shipped(k), ops[i])
  {
    hide Shipped, Acceptable, InputOf;
  }

  /** Input `i` of the rule's own history, and operation `i`. */
  ghost predicate Agrees(k: nat, ops: seq<Operation>, h: seq<Input>, active: bool, i: nat)
    requires k < CODES && i < |ops| == |h| && AcceptedHistory(DefaultRules(), ops)
  {
    && h[i].time == ops[i].at && (h[i].Reading? ==> ops[i].Observed?)
    && (Continues(DurationsOf(Shipped(k)), h, active, i) <==> Counts(k, ops, i, active))
    && (ops[i].Observed? && Counts(k, ops, i, active) ==> h[i].Reading?)
  }

  lemma {:induction false} HistoryAgrees(k: nat, ops: seq<Operation>, active: bool, i: nat)
    requires k < CODES && i < |ops| && AcceptedHistory(DefaultRules(), ops)
    ensures AcceptedHistory([Shipped(k)], ops)
    ensures Agrees(k, ops, Project(Shipped(k), ops), active, i)
  {
    hide DefaultRules, Replay, InputOf, DurationsOf, Acceptable, Shipped, FreshFor, Received, Shows, Continues, Counts;
    CountsByHistory(k, ops, i, active);
    OneAccepts(k, ops, i);
    ShippedReading(k, ops[i]);
    if ops[i].Observed? && Counts(k, ops, i, active) {
      CountingIsFresh(k, ops, i, active);
    }
  }

  lemma {:induction false} DueByHistory(k: nat, ops: seq<Operation>, active: bool)
    requires k < CODES && ops != [] && AcceptedHistory(DefaultRules(), ops)
    ensures AcceptedHistory([Shipped(k)], ops)
    ensures Due(DurationsOf(Shipped(k)), Project(Shipped(k), ops), active) <==>
            StreakEnds(k, ops, active, if active then RecoveryOf(k) else ConfirmationOf(k))
  {
    hide DefaultRules, Replay, InputOf, DurationsOf, Acceptable, AcceptedHistory, Shipped, Continues, Counts, Due,
      ConfirmationOf, RecoveryOf;
    var d, n := DurationsOf(Shipped(k)), |ops| - 1;
    var duration := if active then RecoveryOf(k) else ConfirmationOf(k);
    AcceptedForOne(DefaultRules(), ops, k);
    var h := Project(Shipped(k), ops);
    forall i | 0 <= i <= n
      ensures Agrees(k, ops, h, active, i)
    {
      HistoryAgrees(k, ops, active, i);
    }
    ShippedNumbers(k);
    DueUnfolds(d, h, active);
    if StreakEnds(k, ops, active, duration) {
      StreakIsDue(k, ops, h, active, duration);
    }
    if Due(d, h, active) {
      DueIsStreak(k, ops, h, active, duration);
    }
  }

  lemma {:induction false} StreakIsDue(k: nat, ops: seq<Operation>, h: seq<Input>, active: bool, duration: nat)
    requires k < CODES && ops != [] && |h| == |ops| && AcceptedHistory(DefaultRules(), ops)
    requires forall i :: 0 <= i < |ops| ==> Agrees(k, ops, h, active, i)
    requires StreakEnds(k, ops, active, duration)
    ensures var n := |ops| - 1;
            && h[n].Reading?
            && exists j :: 0 <= j <= n && h[j].Reading? && h[n].time - h[j].time >= duration
                           && Streak(DurationsOf(Shipped(k)), h, active, j)
  {
    hide DefaultRules, DurationsOf, AcceptedHistory, Shipped, Continues, Counts;
    var n := |ops| - 1;
    var j :| 0 <= j <= n && ops[j].Observed? && ops[n].at - ops[j].at >= duration
             && forall i :: j <= i <= n ==> Counts(k, ops, i, active);
    assert Agrees(k, ops, h, active, j) && Agrees(k, ops, h, active, n);
    forall i | j <= i <= n
      ensures Continues(DurationsOf(Shipped(k)), h, active, i)
    {
      assert Agrees(k, ops, h, active, i);
      assert Counts(k, ops, i, active);
    }
    assert Streak(DurationsOf(Shipped(k)), h, active, j);
  }

  lemma {:induction false} DueIsStreak(k: nat, ops: seq<Operation>, h: seq<Input>, active: bool, duration: nat)
    requires k < CODES && ops != [] && |h| == |ops| && AcceptedHistory(DefaultRules(), ops)
    requires forall i :: 0 <= i < |ops| ==> Agrees(k, ops, h, active, i)
    requires var n := |ops| - 1;
             && h[n].Reading?
             && exists j :: 0 <= j <= n && h[j].Reading? && h[n].time - h[j].time >= duration
                            && Streak(DurationsOf(Shipped(k)), h, active, j)
    ensures StreakEnds(k, ops, active, duration)
  {
    hide DefaultRules, DurationsOf, AcceptedHistory, Shipped, Continues, Counts;
    var n := |ops| - 1;
    var j :| 0 <= j <= n && h[j].Reading? && h[n].time - h[j].time >= duration
             && Streak(DurationsOf(Shipped(k)), h, active, j);
    assert Agrees(k, ops, h, active, j) && Agrees(k, ops, h, active, n);
    forall i | j <= i <= n
      ensures Counts(k, ops, i, active)
    {
      assert Agrees(k, ops, h, active, i);
      assert Continues(DurationsOf(Shipped(k)), h, active, i);
    }
  }

  lemma {:induction false} CountingIsFresh(k: nat, ops: seq<Operation>, i: nat, active: bool)
    requires k < CODES && i < |ops| && AcceptedHistory(DefaultRules(), ops)
    requires ops[i].Observed? && Counts(k, ops, i, active)
    ensures FreshFor(k, ops[i].snapshot)
  {
  }

  lemma {:induction false} DueUnfolds(d: Durations, h: seq<Input>, active: bool)
    requires |h| > 0
    ensures Due(d, h, active) <==>
            && h[|h| - 1].Reading?
            && exists j :: 0 <= j < |h| && h[j].Reading? && h[|h| - 1].time - h[j].time >= Required(d, active)
                           && Streak(d, h, active, j)
  {
    hide Streak;
  }

  /** Every shipped code, over every run of the engine: the last operation confirms it exactly when it was
      not ACTIVE and its fault has shown in every fresh reading for 5, 5, 3, 2 or 1 seconds; it recovers
      exactly when it was ACTIVE and no fresh reading has shown the fault, against the second limit, for 3,
      3, 2, 2 or 1 seconds. A reading that is not fresh starts either streak again; a clear does not. */
  lemma {:induction false} ShippedTimersAreExact(k: nat, ops: seq<Operation>) returns (added: seq<Change>)
    requires k < CODES && ops != [] && AcceptedHistory(DefaultRules(), ops)
    ensures AcceptedHistory(DefaultRules(), ops[..|ops| - 1])
    ensures var code := Shipped(k).code;
            ChangesOf(code, Replay(DefaultRules(), ops).log) ==
            ChangesOf(code, Replay(DefaultRules(), ops[..|ops| - 1]).log) + added
    ensures var before := IsActiveAfter(k, ops, |ops| - 1);
            && ((exists c <- added :: c.kind == DtcConfirmed) <==>
                !before && StreakEnds(k, ops, false, ConfirmationOf(k)))
            && ((exists c <- added :: c.kind == DtcRecovered) <==>
                before && StreakEnds(k, ops, true, RecoveryOf(k)))
            && (IsActiveAfter(k, ops, |ops|) <==>
                if before then !StreakEnds(k, ops, true, RecoveryOf(k))
                else StreakEnds(k, ops, false, ConfirmationOf(k)))
  {
    hide DefaultRules, Replay, InputOf, DurationsOf, Acceptable, AcceptedHistory, Shipped, Due, ActiveAfter, ChangesOf,
      IsActiveAfter, StreakEnds;
    var n := |ops| - 1;
    CodesAreDistinct();
    PrefixIsAccepted(DefaultRules(), ops, n);
    var r := Shipped(k);
    added := EngineTimersAreExact(DefaultRules(), ops, k);
    ActiveByHistory(k, ops, n);
    ActiveByHistory(k, ops, |ops|);
    DueByHistory(k, ops, false);
    DueByHistory(k, ops, true);
    var d, h := DurationsOf(Shipped(k)), Project(Shipped(k), ops);
    assert h[..|ops|] == h;
    LastActive(d, h);
  }

  lemma {:induction false} LastActive(d: Durations, h: seq<Input>)
    requires h != []
    ensures var before := ActiveAfter(d, h[..|h| - 1]);
            ActiveAfter(d, h) <==> if before then !Due(d, h, true) else Due(d, h, false)
  {
    hide Due;
  }

  // ---- with the engine off ----

  /** Every fresh reading from operation `n` on says that the engine is not running. */
  ghost predicate EngineOffFrom(k: nat, ops: seq<Operation>, n: nat)
    requires k < CODES
  {
    forall i :: n <= i < |ops| && ops[i].Observed? && FreshFor(k, ops[i].snapshot) ==>
                  HasFlag(ops[i].snapshot, ENGINE_RUNNING) && !EngineRuns(ops[i].snapshot)
  }

  lemma {:induction false} OffEndsNoStreak(k: nat, ops: seq<Operation>, duration: nat)
    requires 2 <= k <= 3 && ops != [] && AcceptedHistory(DefaultRules(), ops) && EngineOffFrom(k, ops, |ops| - 1)
    ensures !StreakEnds(k, ops, false, duration)
  {
    hide DefaultRules, AcceptedHistory, IsActiveAfter, FreshFor, HasFlag;
    var m := |ops| - 1;
    assert ops[m].Observed? ==> !Counts(k, ops, m, false);
  }

  /** Low voltage and odd manifold pressure (TUN-DME-003 and -004) are never confirmed while every fresh
      reading says the engine is off. */
  lemma {:induction false} EngineOffNeverConfirms(k: nat, ops: seq<Operation>, n: nat)
    requires 2 <= k <= 3 && n <= |ops| && AcceptedHistory(DefaultRules(), ops)
    requires EngineOffFrom(k, ops, n) && !IsActiveAfter(k, ops, n)
    ensures !IsActiveAfter(k, ops, |ops|)
  {
    hide DefaultRules, Replay, Acceptable, AcceptedHistory, Shipped, FreshFor, IsActiveAfter;
    if n < |ops| {
      var m := |ops| - 1;
      PrefixIsAccepted(DefaultRules(), ops, m);
      ActiveInPrefix(k, ops, m, n);
      ActiveInPrefix(k, ops, m, m);
      EngineOffNeverConfirms(k, ops[..m], n);
      var _ := ShippedTimersAreExact(k, ops);
      OffEndsNoStreak(k, ops, ConfirmationOf(k));
    }
  }

  lemma {:induction false} ActiveInPrefix(k: nat, ops: seq<Operation>, m: nat, n: nat)
    requires k < CODES && n <= m <= |ops| && AcceptedHistory(DefaultRules(), ops)
    ensures AcceptedHistory(DefaultRules(), ops[..m])
    ensures IsActiveAfter(k, ops[..m], n) == IsActiveAfter(k, ops, n)
  {
    hide DefaultRules, Replay, Acceptable, AcceptedHistory, Shipped;
    PrefixIsAccepted(DefaultRules(), ops, m);
    assert ops[..m][..n] == ops[..n];
  }

  /** No event of the code is ever logged in a run with the engine off throughout. */
  lemma {:induction false} EngineOffLogsNoConfirmation(k: nat, ops: seq<Operation>)
    requires 2 <= k <= 3 && AcceptedHistory(DefaultRules(), ops) && EngineOffFrom(k, ops, 0)
    ensures forall c <- ChangesOf(Shipped(k).code, Replay(DefaultRules(), ops).log) :: c.kind != DtcConfirmed
  {
    hide DefaultRules, Acceptable, AcceptedHistory, Shipped, FreshFor, IsActiveAfter, Replay, ChangesOf;
    if ops == [] {
      NothingLogged(k);
    } else {
      var m := |ops| - 1;
      PrefixIsAccepted(DefaultRules(), ops, m);
      EngineOffLogsNoConfirmation(k, ops[..m]);
      var added := ShippedTimersAreExact(k, ops);
      OffEndsNoStreak(k, ops, ConfirmationOf(k));
    }
  }

  lemma {:induction false} NothingLogged(k: nat)
    requires k < CODES
    ensures AcceptedHistory(DefaultRules(), [])
    ensures ChangesOf(Shipped(k).code, Replay(DefaultRules(), []).log) == []
  {
    hide DefaultRules, Shipped;
  }

  /** An ACTIVE code of these two recovers with the engine off: once its fresh readings have said so for two
      seconds it is no longer ACTIVE. */
  lemma {:induction false} EngineOffRecovers(k: nat, ops: seq<Operation>, n: nat)
    requires 2 <= k <= 3 && n < |ops| && AcceptedHistory(DefaultRules(), ops)
    requires EngineOffFrom(k, ops, n) && forall i :: n <= i < |ops| && ops[i].Observed? ==> FreshFor(k, ops[i].snapshot)
    requires ops[n].Observed? && ops[|ops| - 1].Observed? && ops[|ops| - 1].at - ops[n].at >= Seconds(2)
    ensures !IsActiveAfter(k, ops, |ops|)
  {
    hide DefaultRules, Replay, Acceptable, Shipped, FreshFor, IsActiveAfter, Received, HasFlag, EngineRuns;
    var m := |ops| - 1;
    if IsActiveAfter(k, ops, |ops|) {
      forall i | n <= i <= |ops|
        ensures IsActiveAfter(k, ops, i)
      {
        if !IsActiveAfter(k, ops, i) {
          OffStaysInactive(k, ops, i);
        }
      }
      forall i | n <= i <= m
        ensures Counts(k, ops, i, true)
      {
        OffCounts(k, ops, i);
      }
      assert StreakEnds(k, ops, true, RecoveryOf(k));
      var _ := ShippedTimersAreExact(k, ops);
      assert false;
    }
  }

  lemma {:induction false} OffStaysInactive(k: nat, ops: seq<Operation>, n: nat)
    requires 2 <= k <= 3 && n <= |ops| && AcceptedHistory(DefaultRules(), ops)
    requires EngineOffFrom(k, ops, n) && !IsActiveAfter(k, ops, n)
    ensures !IsActiveAfter(k, ops, |ops|)
  {
    hide DefaultRules, AcceptedHistory, IsActiveAfter, EngineOffFrom;
    EngineOffNeverConfirms(k, ops, n);
  }

  lemma {:induction false} OffCounts(k: nat, ops: seq<Operation>, i: nat)
    requires 2 <= k <= 3 && i < |ops| && AcceptedHistory(DefaultRules(), ops) && IsActiveAfter(k, ops, i)
    requires EngineOffFrom(k, ops, i) && (ops[i].Observed? ==> FreshFor(k, ops[i].snapshot))
    ensures Counts(k, ops, i, true)
  {
    hide DefaultRules, Replay, Shipped, FreshFor, IsActiveAfter, InputOf, Acceptable;
    var r := Shipped(k);
    AcceptedForOne(DefaultRules(), ops, k);
    OneAccepts(k, ops, i);
    ShippedReading(k, ops[i]);
  }
}
