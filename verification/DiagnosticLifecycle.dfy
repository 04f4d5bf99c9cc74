/** The life of one trouble code (diagnostics/engine.py, `_evaluate_rule` and below) as a state
    machine over what its rule observes, and what that machine means over a whole history. */
module DiagnosticLifecycle {
  import opened Prelude
  import opened TelemetryModels

  datatype Status = Pending | Active | Historical | Cleared

  datatype EventType = ConditionDetected | ConditionCleared | DtcConfirmed | DtcRecovered | DtcCleared

  datatype TroubleCode = TroubleCode(
    status: Status,
    firstDetected: nat,
    confirmed: Option<nat>,
    lastSeen: nat,
    resolved: Option<nat>,
    cleared: Option<nat>,
    occurrences: nat,
    freezeFrameAvailable: bool)

  /** The signals are keyed; the source lists them sorted by key. */
  datatype FreezeFrame = FreezeFrame(
    code: string,
    capture: nat,
    frameSequence: nat,
    signals: map<SignalKey, SignalSample>)

  datatype RuleState = RuleState(
    dtc: Option<TroubleCode>,
    conditionStarted: Option<nat>,
    recoveryStarted: Option<nat>,
    pendingOrigin: Option<Status>,
    freezeFrame: Option<FreezeFrame>)

  const FRESH := RuleState(None, None, None, None, None)

  datatype Durations = Durations(confirmation: nat, recovery: nat)

  datatype Change = Change(time: nat, kind: EventType, prior: Option<Status>, next: Option<Status>)

  /** What one engine operation is to one rule. A reading carries the verdict of the condition
      under the activation limits and under the recovery limits. */
  datatype Input =
    | Unfresh(time: nat)
    | Reading(time: nat, breach: bool, holds: bool, frame: FreezeFrame)
    | ClearRequest(time: nat)
    | Unrelated(time: nat)

  function StatusOf(s: RuleState): Option<Status> {
    if s.dtc.Some? then Some(s.dtc.value.status) else None
  }

  predicate IsActive(s: RuleState) {
    StatusOf(s) == Some(Active)
  }

  // ---- one step ----

  function PendingRecord(existing: Option<TroubleCode>, t: nat): TroubleCode {
    match existing
    case None => TroubleCode(Pending, t, None, t, None, None, 0, false)
    case Some(r) => r.(status := Pending, lastSeen := t)
  }

  /** The confirmation check at the end of `_handle_violation`. */
  function Confirm(d: Durations, s: RuleState, t: nat, frame: FreezeFrame): (r: (RuleState, seq<Change>))
    requires s.dtc.Some? && s.conditionStarted.Some?
  {
    if t - s.conditionStarted.value >= d.confirmation then
      (RuleState(
         Some(s.dtc.value.(status := Active, confirmed := Some(t), lastSeen := t, resolved := None,
                           cleared := None, occurrences := s.dtc.value.occurrences + 1,
                           freezeFrameAvailable := true)),
         None,
         s.recoveryStarted,
         None,
         if s.freezeFrame.None? then Some(frame) else s.freezeFrame),
       [Change(t, DtcConfirmed, Some(Pending), Some(Active))])
    else
      (s, [])
  }

  function OnViolation(d: Durations, s: RuleState, t: nat, frame: FreezeFrame): (RuleState, seq<Change>) {
    if IsActive(s) then
      (s.(dtc := Some(s.dtc.value.(lastSeen := t))), [])
    else if StatusOf(s) != Some(Pending) then
      var origin := StatusOf(s);
      var pending := s.(dtc := Some(PendingRecord(s.dtc, t)), conditionStarted := Some(t), pendingOrigin := origin);
      var (r, changes) := Confirm(d, pending, t, frame);
      (r, [Change(t, ConditionDetected, origin, Some(Pending))] + changes)
    else
      var started := if s.conditionStarted.None? then Some(t) else s.conditionStarted;
      Confirm(d, s.(dtc := Some(s.dtc.value.(lastSeen := t)), conditionStarted := started), t, frame)
  }

  function OnNormal(d: Durations, s0: RuleState, t: nat): (RuleState, seq<Change>) {
    var s := s0.(conditionStarted := None);
    match StatusOf(s)
    case None => (s, [])
    case Some(Pending) =>
      var origin := s.pendingOrigin;
      (s.(dtc := if origin.None? then None else Some(s.dtc.value.(status := origin.value)),
          pendingOrigin := None),
       [Change(t, ConditionCleared, Some(Pending), origin)])
    case Some(Active) =>
      var started := if s.recoveryStarted.None? then t else s.recoveryStarted.value;
      if t - started >= d.recovery then
        (s.(dtc := Some(s.dtc.value.(status := Historical, resolved := Some(t))), recoveryStarted := None),
         [Change(t, DtcRecovered, Some(Active), Some(Historical))])
      else
        (s.(recoveryStarted := Some(started)), [])
    case Some(_) => (s.(recoveryStarted := None), [])
  }

  function OnClear(s: RuleState, t: nat): (RuleState, seq<Change>) {
    if StatusOf(s) == Some(Historical) then
      (s.(dtc := Some(s.dtc.value.(status := Cleared, cleared := Some(t)))),
       [Change(t, DtcCleared, Some(Historical), Some(Cleared))])
    else
      (s, [])
  }

  function Step(d: Durations, s: RuleState, i: Input): (RuleState, seq<Change>) {
    match i
    case Unfresh(_) => (s.(conditionStarted := None, recoveryStarted := None), [])
    case Reading(t, breach, holds, frame) =>
      if (if IsActive(s) then holds else breach)
      then OnViolation(d, s.(recoveryStarted := None), t, frame)
      else OnNormal(d, s, t)
    case ClearRequest(t) => OnClear(s, t)
    case Unrelated(_) => (s, [])
  }

  // ---- whole histories ----

  ghost function Run(d: Durations, h: seq<Input>): RuleState {
    if h == [] then FRESH else Step(d, Run(d, h[..|h| - 1]), h[|h| - 1]).0
  }

  /** The changes made by the last input of `h`. */
  ghost function LastChanges(d: Durations, h: seq<Input>): seq<Change>
    requires |h| > 0
  {
    Step(d, Run(d, h[..|h| - 1]), h[|h| - 1]).1
  }

  ghost function Changes(d: Durations, h: seq<Input>): seq<Change> {
    if h == [] then [] else Changes(d, h[..|h| - 1]) + LastChanges(d, h)
  }

  ghost predicate Emits(d: Durations, h: seq<Input>, kind: EventType)
    requires |h| > 0
  {
    exists c <- LastChanges(d, h) :: c.kind == kind
  }

  ghost predicate Chronological(h: seq<Input>) {
    forall i, j :: 0 <= i <= j < |h| ==> h[i].time <= h[j].time
  }

  // ---- the timers, said without timers ----

  /** Input `k` keeps a streak alive: it says nothing about the inputs, or it is a fresh reading
      made in mode `active` with the verdict the streak counts (normal for an active code,
      violation for any other). */
  ghost predicate Continues(d: Durations, h: seq<Input>, active: bool, k: nat)
    requires k < |h|
    decreases k, 1
  {
    match h[k]
    case Unfresh(_) => false
    case Reading(_, breach, holds, _) => ActiveAfter(d, h[..k]) == active && (if active then !holds else breach)
    case _ => true
  }

  ghost predicate Streak(d: Durations, h: seq<Input>, active: bool, j: nat)
    requires j < |h|
    decreases |h| - 1, 2
  {
    forall k :: j <= k < |h| ==> Continues(d, h, active, k)
  }

  function Required(d: Durations, active: bool): nat {
    if active then d.recovery else d.confirmation
  }

  /** The last input is a reading that ends an unbroken streak of fresh readings spanning the
      required duration. */
  ghost predicate Due(d: Durations, h: seq<Input>, active: bool)
    requires |h| > 0
    decreases |h| - 1, 3
  {
    h[|h| - 1].Reading?
    && exists j :: 0 <= j < |h| && h[j].Reading? && h[|h| - 1].time - h[j].time >= Required(d, active)
                   && Streak(d, h, active, j)
  }

  /** Whether the code is ACTIVE after `h`, by recursion on history alone: an active code stays
      active until a recovery streak is due, any other code until a violation streak is due. */
  ghost predicate ActiveAfter(d: Durations, h: seq<Input>)
    decreases |h|, 0
  {
    if h == [] then false
    else
      var before := ActiveAfter(d, h[..|h| - 1]);
      if Due(d, h, before) then !before else before
  }

  // ---- the incremental clocks ----

  /** The start of the streak that is still running after `h`. */
  ghost function Since(d: Durations, h: seq<Input>, active: bool): Option<nat> {
    if h == [] then None
    else
      var earlier := Since(d, h[..|h| - 1], active);
      match h[|h| - 1]
      case Unfresh(_) => None
      case Reading(t, _, _, _) =>
        if !Continues(d, h, active, |h| - 1) then None
        else if earlier.Some? then earlier else Some(t)
      case _ => earlier
  }

  lemma {:induction false} ContinuesInPrefix(d: Durations, h: seq<Input>, active: bool, n: nat, k: nat)
    requires k < n <= |h|
    ensures Continues(d, h[..n], active, k) == Continues(d, h, active, k)
  {
    assert h[..n][..k] == h[..k];
  }

  lemma {:induction false} StreakExtends(d: Durations, h: seq<Input>, active: bool, j: nat)
    requires j < |h| - 1
    ensures Streak(d, h, active, j) <==>
            Streak(d, h[..|h| - 1], active, j) && Continues(d, h, active, |h| - 1)
  {
    var p := h[..|h| - 1];
    forall k | j <= k < |p|
      ensures Continues(d, p, active, k) <==> Continues(d, h, active, k)
    {
      ContinuesInPrefix(d, h, active, |p|, k);
    }
    if Streak(d, p, active, j) && Continues(d, h, active, |p|) {
      forall k | j <= k < |h|
        ensures Continues(d, h, active, k)
      {
        assert k < |p| ==> Continues(d, p, active, k);
      }
    }
    if Streak(d, h, active, j) {
      assert Continues(d, h, active, |p|);
      assert forall k :: j <= k < |p| ==> Continues(d, h, active, k) ==> Continues(d, p, active, k);
    }
  }

  /** The running start is the time of the earliest reading from which the streak is unbroken. */
  lemma {:induction false} SinceIsEarliest(d: Durations, h: seq<Input>, active: bool)
    requires Chronological(h)
    ensures Since(d, h, active).Some? ==>
              exists j :: 0 <= j < |h| && h[j].Reading? && h[j].time == Since(d, h, active).value
                          && Streak(d, h, active, j)
    ensures forall j :: 0 <= j < |h| && h[j].Reading? && Streak(d, h, active, j) ==>
              Since(d, h, active).Some? && Since(d, h, active).value <= h[j].time
  {
    if h != [] {
      var p := h[..|h| - 1];
      var last := |h| - 1;
      SinceIsEarliest(d, p, active);
      forall j | 0 <= j < last
        ensures Streak(d, h, active, j) <==> Streak(d, p, active, j) && Continues(d, h, active, last)
      {
        StreakExtends(d, h, active, j);
      }
      if Since(d, h, active).Some? {
        if Since(d, p, active).Some? {
          var j :| 0 <= j < |p| && p[j].Reading? && p[j].time == Since(d, p, active).value && Streak(d, p, active, j);
          assert h[j] == p[j] && Streak(d, h, active, j);
        } else {
          assert Streak(d, h, active, last);
        }
      }
      forall j | 0 <= j < |h| && h[j].Reading? && Streak(d, h, active, j)
        ensures Since(d, h, active).Some? && Since(d, h, active).value <= h[j].time
      {
        assert Continues(d, h, active, last);
        if j < last {
          assert h[j] == p[j];
        }
      }
    }
  }

  lemma {:induction false} DueBySince(d: Durations, h: seq<Input>, active: bool)
    requires |h| > 0 && Chronological(h)
    ensures Due(d, h, active) <==>
            h[|h| - 1].Reading? && Since(d, h, active).Some?
            && h[|h| - 1].time - Since(d, h, active).value >= Required(d, active)
  {
    SinceIsEarliest(d, h, active);
  }

  /** The clock of the streak a state is counting; the other clock is off. */
  function Counting(s: RuleState): Option<nat> {
    if IsActive(s) then s.recoveryStarted else s.conditionStarted
  }

  ghost predicate Clocked(s: RuleState) {
    && (if IsActive(s) then s.conditionStarted.None? else s.recoveryStarted.None?)
    && (s.conditionStarted.Some? ==> StatusOf(s) == Some(Pending))
    && s.pendingOrigin !in {Some(Pending), Some(Active)}
  }

  /** What one input does to the clock: a fresh reading of the streak's verdict starts it or, once the
      required time is reached, ends the mode; any other reading and stale inputs stop it; clears and the
      rest leave it. */
  lemma {:induction false} StepClocks(d: Durations, s: RuleState, i: Input)
    requires Clocked(s)
    ensures var r := Step(d, s, i).0;
            && Clocked(r)
            && match i
               case Unfresh(_) => IsActive(r) == IsActive(s) && Counting(r).None?
               case Reading(t, breach, holds, _) =>
                 if (if IsActive(s) then holds else !breach) then IsActive(r) == IsActive(s) && Counting(r).None?
                 else
                   var started := if Counting(s).Some? then Counting(s).value else t;
                   if t - started >= Required(d, IsActive(s)) then IsActive(r) != IsActive(s) && Counting(r).None?
                   else IsActive(r) == IsActive(s) && Counting(r) == Some(started)
               case _ => IsActive(r) == IsActive(s) && Counting(r) == Counting(s)
  {
  }

  lemma {:induction false} RunLast(d: Durations, h: seq<Input>)
    ensures h == [] ==> Run(d, h) == FRESH
    ensures h != [] ==> Run(d, h) == Step(d, Run(d, h[..|h| - 1]), h[|h| - 1]).0
  {
    hide Step;
  }

  /** Whether the code is active, and the streak it counts, after any history. */
  lemma {:induction false} CountingIsExact(d: Durations, h: seq<Input>)
    requires Chronological(h)
    ensures Clocked(Run(d, h)) && (IsActive(Run(d, h)) <==> ActiveAfter(d, h))
    ensures Counting(Run(d, h)) == Since(d, h, ActiveAfter(d, h))
  {
    hide Step, Run, Clocked, Counting, IsActive;
    RunLast(d, h);
    if h == [] {
      FreshIsClocked();
    } else {
      var p, last := h[..|h| - 1], h[|h| - 1];
      var active := ActiveAfter(d, p);
      CountingIsExact(d, p);
      StepClocks(d, Run(d, p), last);
      DueBySince(d, h, active);
      assert ActiveAfter(d, h) == if Due(d, h, active) then !active else active;
      if last.Reading? {
        assert Continues(d, h, active, |h| - 1) <==> (if active then !last.holds else last.breach);
        assert !Continues(d, h, !active, |h| - 1);
      }
    }
  }

  lemma {:induction false} FreshIsClocked()
    ensures Clocked(FRESH) && !IsActive(FRESH) && Counting(FRESH).None?
  {
  }

  /** The machine's status and both of its clocks after any history. */
  lemma {:induction false} ClocksAreExact(d: Durations, h: seq<Input>)
    requires Chronological(h)
    ensures IsActive(Run(d, h)) <==> ActiveAfter(d, h)
    ensures Run(d, h).conditionStarted == if ActiveAfter(d, h) then None else Since(d, h, false)
    ensures Run(d, h).recoveryStarted == if ActiveAfter(d, h) then Since(d, h, true) else None
    ensures Run(d, h).conditionStarted.Some? ==> StatusOf(Run(d, h)) == Some(Pending)
    ensures Run(d, h).pendingOrigin !in {Some(Pending), Some(Active)}
  {
    hide Run, Since, ActiveAfter;
    CountingIsExact(d, h);
  }

  /** Timer exactness over every history, with clears anywhere in it. A code that is not ACTIVE
      is confirmed by the last input exactly when that input ends an unbroken streak of fresh
      violations spanning the confirmation duration; an ACTIVE code recovers exactly when it ends
      an unbroken streak of fresh normals spanning the recovery duration. */
  lemma {:induction false} TimerExactness(d: Durations, h: seq<Input>)
    requires |h| > 0 && Chronological(h)
    ensures IsActive(Run(d, h)) <==> ActiveAfter(d, h)
    ensures Emits(d, h, DtcConfirmed) <==>
            !ActiveAfter(d, h[..|h| - 1]) && Due(d, h, false)
    ensures Emits(d, h, DtcRecovered) <==>
            ActiveAfter(d, h[..|h| - 1]) && Due(d, h, true)
  {
    var p := h[..|h| - 1];
    ClocksAreExact(d, p);
    ClocksAreExact(d, h);
    DueBySince(d, h, false);
    DueBySince(d, h, true);
  }

  // ---- the log of one code ----

  function CountOf(cs: seq<Change>, kind: EventType): nat {
    if cs == [] then 0
    else CountOf(cs[..|cs| - 1], kind) + (if cs[|cs| - 1].kind == kind then 1 else 0)
  }

  function LastTimeOf(cs: seq<Change>, kind: EventType): Option<nat> {
    if cs == [] then None
    else if cs[|cs| - 1].kind == kind then Some(cs[|cs| - 1].time)
    else LastTimeOf(cs[..|cs| - 1], kind)
  }

  /** The time of the latest detection of a code that had no record: the one its record begins with. */
  function CreationOf(cs: seq<Change>): Option<nat> {
    if cs == [] then None
    else if cs[|cs| - 1].kind == ConditionDetected && cs[|cs| - 1].prior.None? then Some(cs[|cs| - 1].time)
    else CreationOf(cs[..|cs| - 1])
  }

  /** The status reached by playing a log forward from nothing. */
  function FoldLog(cs: seq<Change>): Option<Status> {
    if cs == [] then None else cs[|cs| - 1].next
  }

  /** Each kind of event links the two statuses it may link, and a detection that is withdrawn
      returns the code to the status it had before that detection. */
  predicate Legal(cs: seq<Change>, i: nat)
    requires i < |cs|
  {
    match cs[i].kind
    case ConditionDetected => cs[i].prior !in {Some(Pending), Some(Active)} && cs[i].next == Some(Pending)
    case ConditionCleared =>
      cs[i].prior == Some(Pending) && i > 0 && cs[i - 1].kind == ConditionDetected && cs[i].next == cs[i - 1].prior
    case DtcConfirmed => cs[i].prior == Some(Pending) && cs[i].next == Some(Active)
    case DtcRecovered => cs[i].prior == Some(Active) && cs[i].next == Some(Historical)
    case DtcCleared => cs[i].prior == Some(Historical) && cs[i].next == Some(Cleared)
  }

  /** Every event starts from the status the previous one ended in. */
  predicate Faithful(cs: seq<Change>) {
    forall i :: 0 <= i < |cs| ==> cs[i].prior == FoldLog(cs[..i]) && Legal(cs, i)
  }

  /** What the record of a code must be, given the log of that code. */
  predicate RecordMatchesLog(s: RuleState, cs: seq<Change>) {
    && StatusOf(s) == FoldLog(cs)
    && (s.freezeFrame.Some? <==> CountOf(cs, DtcConfirmed) > 0)
    && (s.dtc.None? ==> CountOf(cs, DtcConfirmed) == 0 && LastTimeOf(cs, DtcConfirmed) == None)
    && (s.dtc.Some? ==>
          var r := s.dtc.value;
          && Some(r.firstDetected) == CreationOf(cs)
          && r.occurrences == CountOf(cs, DtcConfirmed)
          && (r.freezeFrameAvailable <==> s.freezeFrame.Some?)
          && r.confirmed == LastTimeOf(cs, DtcConfirmed)
          && (r.status == Historical || r.status == Cleared ==>
                r.resolved == LastTimeOf(cs, DtcRecovered) && r.resolved.Some? && r.occurrences > 0)
          && (r.status == Active ==> r.resolved.None? && r.cleared.None? && r.occurrences > 0)
          && (r.status == Cleared ==> r.cleared == LastTimeOf(cs, DtcCleared) && r.cleared.Some?))
  }

  /** While a code is pending the state remembers where a withdrawal must return it. */
  predicate OriginMatchesLog(s: RuleState, cs: seq<Change>) {
    StatusOf(s) == Some(Pending) ==>
      && |cs| > 0 && cs[|cs| - 1].kind == ConditionDetected
      && s.pendingOrigin == cs[|cs| - 1].prior
      && (s.pendingOrigin.Some? ==>
            && s.dtc.value.occurrences > 0
            && s.dtc.value.resolved == LastTimeOf(cs, DtcRecovered) && s.dtc.value.resolved.Some?
            && (s.pendingOrigin == Some(Cleared) ==>
                  s.dtc.value.cleared == LastTimeOf(cs, DtcCleared) && s.dtc.value.cleared.Some?))
      && (s.pendingOrigin.None? ==> s.dtc.value.occurrences == 0 && s.dtc.value.confirmed.None?)
  }

  ghost predicate LogInvariant(s: RuleState, cs: seq<Change>) {
    Faithful(cs) && RecordMatchesLog(s, cs) && OriginMatchesLog(s, cs)
  }

  lemma {:induction false} FaithfulAppend(cs: seq<Change>, c: Change)
    requires Faithful(cs) && c.prior == FoldLog(cs) && Legal(cs + [c], |cs|)
    ensures Faithful(cs + [c])
    ensures FoldLog(cs + [c]) == c.next
    ensures forall kind :: CountOf(cs + [c], kind) == CountOf(cs, kind) + if c.kind == kind then 1 else 0
    ensures forall kind :: LastTimeOf(cs + [c], kind) == if c.kind == kind then Some(c.time) else LastTimeOf(cs, kind)
    ensures CreationOf(cs + [c]) ==
            if c.kind == ConditionDetected && c.prior.None? then Some(c.time) else CreationOf(cs)
  {
    var all := cs + [c];
    assert all[..|cs|] == cs;
    forall i | 0 <= i < |all|
      ensures all[i].prior == FoldLog(all[..i]) && Legal(all, i)
    {
      if i < |cs| {
        assert all[..i] == cs[..i];
        assert Legal(cs, i);
      }
    }
  }

  lemma {:induction false} ConfirmKeepsLog(d: Durations, s: RuleState, t: nat, frame: FreezeFrame, cs: seq<Change>)
    requires LogInvariant(s, cs) && StatusOf(s) == Some(Pending) && s.conditionStarted.Some?
    ensures var (r, made) := Confirm(d, s, t, frame); LogInvariant(r, cs + made)
  {
    var (r, made) := Confirm(d, s, t, frame);
    if made == [] {
      assert cs + made == cs;
    } else {
      FaithfulAppend(cs, made[0]);
      assert cs + made == cs + [made[0]];
    }
  }

  lemma {:induction false} ViolationKeepsLog(d: Durations, s: RuleState, t: nat, frame: FreezeFrame, cs: seq<Change>)
    requires LogInvariant(s, cs)
    ensures var (r, made) := OnViolation(d, s, t, frame); LogInvariant(r, cs + made)
  {
    if IsActive(s) {
      assert cs + [] == cs;
    } else if StatusOf(s) != Some(Pending) {
      var detected := Change(t, ConditionDetected, StatusOf(s), Some(Pending));
      var pending :=
        s.(dtc := Some(PendingRecord(s.dtc, t)), conditionStarted := Some(t), pendingOrigin := StatusOf(s));
      FaithfulAppend(cs, detected);
      assert LogInvariant(pending, cs + [detected]);
      ConfirmKeepsLog(d, pending, t, frame, cs + [detected]);
      var (r, made) := Confirm(d, pending, t, frame);
      assert cs + ([detected] + made) == cs + [detected] + made;
    } else {
      var started := if s.conditionStarted.None? then Some(t) else s.conditionStarted;
      ConfirmKeepsLog(d, s.(dtc := Some(s.dtc.value.(lastSeen := t)), conditionStarted := started), t, frame, cs);
    }
  }

  lemma {:induction false} NormalKeepsLog(d: Durations, s: RuleState, t: nat, cs: seq<Change>)
    requires LogInvariant(s, cs)
    ensures var (r, made) := OnNormal(d, s, t); LogInvariant(r, cs + made)
  {
    var (r, made) := OnNormal(d, s, t);
    if made == [] {
      assert cs + made == cs;
    } else {
      FaithfulAppend(cs, made[0]);
      assert cs + made == cs + [made[0]];
    }
  }

  lemma {:induction false} StepKeepsLogInvariant(d: Durations, s: RuleState, i: Input, cs: seq<Change>)
    requires LogInvariant(s, cs)
    ensures LogInvariant(Step(d, s, i).0, cs + Step(d, s, i).1)
  {
    match i
    case Unfresh(_) => assert cs + [] == cs;
    case Reading(t, breach, holds, frame) =>
      ViolationKeepsLog(d, s.(recoveryStarted := None), t, frame, cs);
      NormalKeepsLog(d, s, t, cs);
    case ClearRequest(t) =>
      if StatusOf(s) == Some(Historical) {
        FaithfulAppend(cs, Change(t, DtcCleared, Some(Historical), Some(Cleared)));
      } else {
        assert cs + [] == cs;
      }
    case Unrelated(_) => assert cs + [] == cs;
  }

  /** The log of a code is a faithful history: it chains from nothing, playing it forward gives
      the current status, and the record's counters and times are those of the log. */
  lemma {:induction false} LogIsFaithful(d: Durations, h: seq<Input>)
    ensures Faithful(Changes(d, h))
    ensures RecordMatchesLog(Run(d, h), Changes(d, h))
    ensures OriginMatchesLog(Run(d, h), Changes(d, h))
  {
    if h != [] {
      var p := h[..|h| - 1];
      LogIsFaithful(d, p);
      StepKeepsLogInvariant(d, Run(d, p), h[|h| - 1], Changes(d, p));
    }
  }

  /** The time of the latest violation: a fresh reading on the wrong side of the limits in force. */
  ghost function LastViolation(d: Durations, h: seq<Input>): Option<nat> {
    if h == [] then None
    else
      var p, last := h[..|h| - 1], h[|h| - 1];
      if last.Reading? && (if ActiveAfter(d, p) then last.holds else last.breach) then Some(last.time)
      else LastViolation(d, p)
  }

  /** A record was last seen at the latest violation, whatever was withdrawn, recovered or cleared since. */
  lemma {:induction false} LastSeenIsExact(d: Durations, h: seq<Input>)
    requires Chronological(h) && Run(d, h).dtc.Some?
    ensures Some(Run(d, h).dtc.value.lastSeen) == LastViolation(d, h)
  {
    hide Run, ActiveAfter, Step;
    RunLast(d, h);
    if h == [] {
    } else {
      var p := h[..|h| - 1];
      ClocksAreExact(d, p);
      StepSees(d, Run(d, p), h[|h| - 1]);
      if Run(d, p).dtc.Some? {
        LastSeenIsExact(d, p);
      }
    }
  }

  lemma {:induction false} StepSees(d: Durations, s: RuleState, i: Input)
    ensures var r := Step(d, s, i).0;
            if i.Reading? && (if IsActive(s) then i.holds else i.breach)
            then r.dtc.Some? && r.dtc.value.lastSeen == i.time
            else r.dtc.Some? ==> s.dtc.Some? && r.dtc.value.lastSeen == s.dtc.value.lastSeen
  {
  }

  /** The input that first confirmed the code, if any did. */
  ghost function FirstConfirmation(d: Durations, h: seq<Input>): (i: Option<nat>)
    ensures i.Some? ==> i.value < |h| && h[i.value].Reading?
  {
    if h == [] then None
    else
      var p := h[..|h| - 1];
      var earlier := FirstConfirmation(d, p);
      if earlier.Some? then earlier
      else if Emits(d, h, DtcConfirmed) then Some(|h| - 1)
      else None
  }

  ghost predicate ConfirmsAt(d: Durations, h: seq<Input>, i: nat)
    requires i < |h|
  {
    Emits(d, h[..i + 1], DtcConfirmed)
  }

  lemma {:induction false} FirstConfirmationIsLeast(d: Durations, h: seq<Input>)
    ensures var first := FirstConfirmation(d, h);
            && (first.Some? ==> ConfirmsAt(d, h, first.value))
            && forall i :: 0 <= i < (if first.Some? then first.value else |h|) ==> !ConfirmsAt(d, h, i)
  {
    if h != [] {
      var p := h[..|h| - 1];
      FirstConfirmationIsLeast(d, p);
      assert h[..|h|] == h;
      forall i | 0 <= i < |p|
        ensures ConfirmsAt(d, p, i) == ConfirmsAt(d, h, i)
      {
        assert p[..i + 1] == h[..i + 1];
      }
    }
  }

  /** The freeze frame is the snapshot of the first confirmation, from then on and forever;
      clears, recoveries and later confirmations never touch it. */
  lemma {:induction false} FreezeFrameIsFirstConfirmation(d: Durations, h: seq<Input>)
    ensures var first := FirstConfirmation(d, h);
            Run(d, h).freezeFrame == if first.None? then None else Some(h[first.value].frame)
  {
    hide Step, Run;
    RunLast(d, h);
    if h != [] {
      FreezeFrameIsFirstConfirmation(d, h[..|h| - 1]);
      StepFreezes(d, Run(d, h[..|h| - 1]), h[|h| - 1]);
    }
  }

  /** A step captures exactly when it confirms and nothing was captured before. */
  lemma {:induction false} StepFreezes(d: Durations, s: RuleState, i: Input)
    ensures var (r, changes) := Step(d, s, i);
            && ((exists c <- changes :: c.kind == DtcConfirmed) ==> i.Reading?)
            && r.freezeFrame == if s.freezeFrame.None? && (exists c <- changes :: c.kind == DtcConfirmed)
                                then Some(i.frame) else s.freezeFrame
  {
  }

  // ---- hysteresis ----

  /** In the dead band (normal for an inactive code, still a violation for an active one) the
      status can neither become nor stop being ACTIVE, however long it lasts. */
  lemma {:induction false} DeadBandIsStable(d: Durations, h: seq<Input>, n: nat)
    requires n <= |h|
    requires forall k :: n <= k < |h| && h[k].Reading? ==> !h[k].breach && h[k].holds
    ensures IsActive(Run(d, h)) <==> IsActive(Run(d, h[..n]))
  {
    if n < |h| {
      var p := h[..|h| - 1];
      assert p[..n] == h[..n];
      DeadBandIsStable(d, p, n);
      LogIsFaithful(d, p);
    } else {
      assert h[..n] == h;
    }
  }
}
