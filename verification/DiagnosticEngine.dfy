/** The rule engine (diagnostics/engine.py): ordered rules over coherent snapshots, one bounded
    event log, and the lifecycle of every code. */
module DiagnosticEngine {
  import opened Prelude
  import opened TelemetryModels
  import opened DiagnosticRules
  import opened DiagnosticLifecycle

  datatype Event = Event(
    sequence: nat,
    time: nat,
    code: string,
    kind: EventType,
    prior: Option<Status>,
    next: Option<Status>)

  datatype Error =
    | BackwardSnapshot
    | UnknownCode
    | NoRecord
    | NotClearable(status: Status)

  /** An operation the engine accepted, with the simulation time it took effect at. */
  datatype Operation =
    | Observed(at: nat, snapshot: Snapshot)
    | ClearAsked(at: nat, code: string)

  predicate ValidCatalog(rules: seq<Rule>) {
    forall i, j :: 0 <= i < j < |rules| ==> rules[i].code != rules[j].code
  }

  /** What a telemetry snapshot owes the engine: samples imply an observed frame, and a rule with
      fresh inputs finds the signals its condition reads, with the type it expects. */
  predicate Acceptable(rules: seq<Rule>, s: Snapshot) {
    && s.lastFrameSequence.Some?
    && forall r <- rules :: InputsAreFresh(r, s) ==> Evaluable(r.condition, s)
  }

  function DurationsOf(r: Rule): Durations {
    Durations(r.confirmation, r.recovery)
  }

  function CaptureOf(code: string, at: nat, s: Snapshot): FreezeFrame
    requires s.lastFrameSequence.Some?
  {
    FreezeFrame(code, at, s.lastFrameSequence.value, s.samples)
  }

  /** A freeze frame names its code and the moment of its capture, and keeps the number of the newest frame
      and every signal of the snapshot. */
  lemma {:induction false} CaptureIsExact(code: string, at: nat, s: Snapshot)
    requires s.lastFrameSequence.Some?
    ensures var f := CaptureOf(code, at, s);
            f.code == code && f.capture == at && Some(f.frameSequence) == s.lastFrameSequence && f.signals == s.samples
  {
  }

  /** What one operation is to one rule. */
  function InputOf(r: Rule, op: Operation): Input
    requires op.Observed? ==> Acceptable([r], op.snapshot)
  {
    match op
    case Observed(at, s) =>
      if InputsAreFresh(r, s)
      then
        assert r in [r];
        Reading(at, Violates(r.condition, s, false), Violates(r.condition, s, true), CaptureOf(r.code, at, s))
      else Unfresh(at)
    case ClearAsked(at, code) => if code == r.code then ClearRequest(at) else Unrelated(at)
  }

  // ---- the engine as a value ----

  datatype Model = Model(states: map<string, RuleState>, log: seq<Event>)

  function EventOf(sequence: nat, code: string, c: Change): Event {
    Event(sequence, c.time, code, c.kind, c.prior, c.next)
  }

  /** Append the changes of one code to the log, numbering them from its length. */
  function Logged(log: seq<Event>, code: string, changes: seq<Change>): (r: seq<Event>)
    ensures |r| == |log| + |changes|
  {
    if changes == [] then log
    else
      var n := |changes| - 1;
      Logged(log, code, changes[..n]) + [EventOf(|log| + n, code, changes[n])]
  }

  /** Install the outcome of one step of `code`. */
  function Advanced(m: Model, code: string, outcome: (RuleState, seq<Change>)): Model {
    Model(m.states[code := outcome.0], Logged(m.log, code, outcome.1))
  }

  function ApplyRule(m: Model, r: Rule, i: Input): Model
    requires r.code in m.states
  {
    Advanced(m, r.code, Step(DurationsOf(r), m.states[r.code], i))
  }

  predicate Covers(m: Model, rules: seq<Rule>) {
    forall r <- rules :: r.code in m.states
  }

  /** The rules of the catalog in order, each over its own view of the operation. */
  function ApplyRules(m: Model, rules: seq<Rule>, op: Operation): (n: Model)
    requires Covers(m, rules)
    requires op.Observed? ==> Acceptable(rules, op.snapshot)
    ensures n.states.Keys == m.states.Keys
    ensures |m.log| <= |n.log|
  {
    if rules == [] then m
    else
      var before := ApplyRules(m, rules[..|rules| - 1], op);
      var r := rules[|rules| - 1];
      ApplyRule(before, r, InputOf(r, op))
  }

  ghost predicate AcceptedHistory(rules: seq<Rule>, ops: seq<Operation>) {
    && (forall i :: 0 <= i < |ops| && ops[i].Observed? ==> Acceptable(rules, ops[i].snapshot))
    && (forall i, j :: 0 <= i <= j < |ops| ==> ops[i].at <= ops[j].at)
  }

  function InitialModel(rules: seq<Rule>): Model {
    Model(map r | r in rules :: r.code := FRESH, [])
  }

  ghost function Replay(rules: seq<Rule>, ops: seq<Operation>): (m: Model)
    requires AcceptedHistory(rules, ops)
    ensures Covers(m, rules)
  {
    if ops == [] then InitialModel(rules)
    else ApplyRules(Replay(rules, ops[..|ops| - 1]), rules, ops[|ops| - 1])
  }

  /** The history of one rule inside the history of the engine. */
  ghost function Project(r: Rule, ops: seq<Operation>): (h: seq<Input>)
    requires AcceptedHistory([r], ops)
    ensures |h| == |ops|
    ensures forall i :: 0 <= i < |h| ==> h[i] == InputOf(r, ops[i])
    ensures Chronological(h)
  {
    seq(|ops|, i requires 0 <= i < |ops| => InputOf(r, ops[i]))
  }

  lemma {:induction false} ReplayCodes(rules: seq<Rule>, ops: seq<Operation>)
    requires AcceptedHistory(rules, ops)
    ensures Replay(rules, ops).states.Keys == InitialModel(rules).states.Keys
  {
    if ops != [] {
      hide Step, InputOf, InitialModel;
      ReplayCodes(rules, ops[..|ops| - 1]);
    }
  }

  lemma {:induction false} ReplayExtends(rules: seq<Rule>, ops: seq<Operation>, op: Operation)
    requires AcceptedHistory(rules, ops)
    requires op.Observed? ==> Acceptable(rules, op.snapshot)
    requires ops == [] || ops[|ops| - 1].at <= op.at
    ensures AcceptedHistory(rules, ops + [op])
    ensures Replay(rules, ops + [op]) == ApplyRules(Replay(rules, ops), rules, op)
  {
    hide Step, InputOf, InitialModel, ApplyRules, Acceptable;
    assert (ops + [op])[..|ops|] == ops;
  }

  // ---- every rule lives its own life ----

  /** The part of the log that concerns one code. */
  function ChangesOf(code: string, log: seq<Event>): seq<Change> {
    if log == [] then []
    else
      var e := log[|log| - 1];
      ChangesOf(code, log[..|log| - 1]) + if e.code == code then [Change(e.time, e.kind, e.prior, e.next)] else []
  }

  lemma {:induction false} LoggedLast(log: seq<Event>, code: string, changes: seq<Change>)
    ensures Logged(log, code, []) == log
    ensures changes != [] ==>
              var n := |changes| - 1;
              Logged(log, code, changes) == Logged(log, code, changes[..n]) + [EventOf(|log| + n, code, changes[n])]
  {
  }

  lemma {:induction false} ChangesAppend(code: string, log: seq<Event>, e: Event)
    ensures ChangesOf(code, log + [e]) ==
            ChangesOf(code, log) + if e.code == code then [Change(e.time, e.kind, e.prior, e.next)] else []
  {
    assert (log + [e])[..|log|] == log;
  }

  lemma {:induction false} LoggedKeepsCodesApart(log: seq<Event>, c: string, changes: seq<Change>, code: string)
    ensures ChangesOf(code, Logged(log, c, changes)) == ChangesOf(code, log) + if c == code then changes else []
  {
    hide ChangesOf, Logged;
    LoggedLast(log, c, changes);
    if changes == [] {
      assert ChangesOf(code, log) + (if c == code then changes else []) == ChangesOf(code, log);
    } else {
      var n := |changes| - 1;
      var before := Logged(log, c, changes[..n]);
      LoggedKeepsCodesApart(log, c, changes[..n], code);
      ChangesAppend(code, before, EventOf(|log| + n, c, changes[n]));
      if c == code {
        assert changes == changes[..n] + [changes[n]];
        assert ChangesOf(code, log) + (changes[..n] + [changes[n]]) ==
               ChangesOf(code, log) + changes[..n] + [changes[n]];
      } else {
        assert ChangesOf(code, log) + [] + [] == ChangesOf(code, log) + [];
      }
    }
  }

  lemma {:induction false} AdvanceKeepsCodesApart(m: Model, c: string, outcome: (RuleState, seq<Change>), code: string)
    requires code in m.states
    ensures var n := Advanced(m, c, outcome);
            && n.states[code] == (if c == code then outcome.0 else m.states[code])
            && ChangesOf(code, n.log) ==
               if c == code then ChangesOf(code, m.log) + outcome.1 else ChangesOf(code, m.log)
  {
    hide ChangesOf, Logged;
    LoggedKeepsCodesApart(m.log, c, outcome.1, code);
    assert ChangesOf(code, m.log) + [] == ChangesOf(code, m.log);
  }

  lemma {:induction false} OtherCodesUntouched(m: Model, rules: seq<Rule>, op: Operation, code: string)
    requires Covers(m, rules) && (op.Observed? ==> Acceptable(rules, op.snapshot))
    requires code in m.states && forall r <- rules :: r.code != code
    ensures ApplyRules(m, rules, op).states[code] == m.states[code]
    ensures ChangesOf(code, ApplyRules(m, rules, op).log) == ChangesOf(code, m.log)
  {
    hide ApplyRules, ChangesOf, Advanced, Acceptable, Step, InputOf, DurationsOf;
    RulesOneByOne(m, rules, op);
    if rules != [] {
      var n := |rules| - 1;
      var before := ApplyRules(m, rules[..n], op);
      var r := rules[n];
      OtherCodesUntouched(m, rules[..n], op, code);
      AdvanceKeepsCodesApart(before, r.code, Step(DurationsOf(r), before.states[r.code], InputOf(r, op)), code);
    }
  }

  /** One operation advances each code by one step of its own machine. */
  lemma {:induction false} OneRuleSteps(m: Model, rules: seq<Rule>, op: Operation, k: nat)
    requires ValidCatalog(rules) && k < |rules|
    requires Covers(m, rules) && (op.Observed? ==> Acceptable(rules, op.snapshot))
    ensures var r := rules[k];
            var step := Step(DurationsOf(r), m.states[r.code], InputOf(r, op));
            && ApplyRules(m, rules, op).states[r.code] == step.0
            && ChangesOf(r.code, ApplyRules(m, rules, op).log) == ChangesOf(r.code, m.log) + step.1
  {
    hide ApplyRules, ChangesOf, Advanced, Acceptable, Step, InputOf, DurationsOf;
    RulesOneByOne(m, rules, op);
    var n := |rules| - 1;
    var before := ApplyRules(m, rules[..n], op);
    var last := rules[n];
    AdvanceKeepsCodesApart(before, last.code, Step(DurationsOf(last), before.states[last.code], InputOf(last, op)),
                           rules[k].code);
    if k < n {
      OneRuleSteps(m, rules[..n], op, k);
    } else {
      OtherCodesUntouched(m, rules[..n], op, last.code);
    }
  }

  lemma {:induction false} ReplayLast(rules: seq<Rule>, ops: seq<Operation>)
    requires AcceptedHistory(rules, ops) && ops != []
    ensures var n := |ops| - 1;
            && AcceptedHistory(rules, ops[..n]) && (ops[n].Observed? ==> Acceptable(rules, ops[n].snapshot))
            && Replay(rules, ops) == ApplyRules(Replay(rules, ops[..n]), rules, ops[n])
  {
    hide InitialModel, ApplyRules, Acceptable;
  }

  /** The history of one rule grows with that of the engine. */
  lemma {:induction false} ProjectLast(r: Rule, ops: seq<Operation>)
    requires AcceptedHistory([r], ops) && ops != []
    ensures var n := |ops| - 1;
            var h := Project(r, ops);
            && AcceptedHistory([r], ops[..n]) && h[..n] == Project(r, ops[..n])
            && Run(DurationsOf(r), h) == Step(DurationsOf(r), Run(DurationsOf(r), h[..n]), InputOf(r, ops[n])).0
            && Changes(DurationsOf(r), h) == Changes(DurationsOf(r), h[..n])
                                             + Step(DurationsOf(r), Run(DurationsOf(r), h[..n]), InputOf(r, ops[n])).1
  {
    hide Step, InputOf, DurationsOf, Acceptable;
    assert Project(r, ops)[..|ops| - 1] == Project(r, ops[..|ops| - 1]);
  }

  lemma {:induction false} NothingReplayed(rules: seq<Rule>, k: nat)
    requires k < |rules|
    ensures var r := rules[k];
            && AcceptedHistory(rules, []) && AcceptedHistory([r], [])
            && Replay(rules, []).states[r.code] == Run(DurationsOf(r), Project(r, []))
            && ChangesOf(r.code, Replay(rules, []).log) == Changes(DurationsOf(r), Project(r, []))
  {
  }

  /** An engine that accepts a history accepts it for each rule alone. */
  lemma {:induction false} AcceptedForOne(rules: seq<Rule>, ops: seq<Operation>, k: nat)
    requires k < |rules| && AcceptedHistory(rules, ops)
    ensures AcceptedHistory([rules[k]], ops)
  {
  }

  /** Rules do not disturb each other: the state of a code and its part of the shared log are what
      its own rule makes of its own view of the history. */
  lemma {:induction false} RulesAreIndependent(rules: seq<Rule>, ops: seq<Operation>, k: nat)
    requires ValidCatalog(rules) && k < |rules| && AcceptedHistory(rules, ops)
    ensures AcceptedHistory([rules[k]], ops)
    ensures var r := rules[k];
            var m := Replay(rules, ops);
            && m.states[r.code] == Run(DurationsOf(r), Project(r, ops))
            && ChangesOf(r.code, m.log) == Changes(DurationsOf(r), Project(r, ops))
  {
    hide Step, InputOf, DurationsOf, InitialModel, ApplyRules, ChangesOf, Acceptable, Replay, Run, Changes, Project,
      AcceptedHistory;
    AcceptedForOne(rules, ops, k);
    if ops == [] {
      NothingReplayed(rules, k);
    } else {
      var n := |ops| - 1;
      ReplayLast(rules, ops);
      RulesAreIndependent(rules, ops[..n], k);
      OneRuleSteps(Replay(rules, ops[..n]), rules, ops[n], k);
      ProjectLast(rules[k], ops);
    }
  }

  predicate Numbered(log: seq<Event>) {
    forall i :: 0 <= i < |log| ==> log[i].sequence == i
  }

  lemma {:induction false} LoggedNumbers(log: seq<Event>, code: string, changes: seq<Change>)
    requires Numbered(log)
    ensures Numbered(Logged(log, code, changes)) && log <= Logged(log, code, changes)
  {
    if changes != [] {
      LoggedNumbers(log, code, changes[..|changes| - 1]);
    }
  }

  lemma {:induction false} ApplyRulesNumbers(m: Model, rules: seq<Rule>, op: Operation)
    requires Covers(m, rules) && (op.Observed? ==> Acceptable(rules, op.snapshot))
    requires Numbered(m.log)
    ensures Numbered(ApplyRules(m, rules, op).log) && m.log <= ApplyRules(m, rules, op).log
  {
    if rules != [] {
      var k := |rules| - 1;
      ApplyRulesNumbers(m, rules[..k], op);
      var before := ApplyRules(m, rules[..k], op);
      var r := rules[k];
      LoggedNumbers(before.log, r.code, Step(DurationsOf(r), before.states[r.code], InputOf(r, op)).1);
    }
  }

  /** Sequence numbers are the positions in the full log, and the log only ever grows. */
  lemma {:induction false} LogIsNumbered(rules: seq<Rule>, ops: seq<Operation>)
    requires AcceptedHistory(rules, ops)
    ensures Numbered(Replay(rules, ops).log)
    ensures ops != [] ==> Replay(rules, ops[..|ops| - 1]).log <= Replay(rules, ops).log
  {
    if ops != [] {
      LogIsNumbered(rules, ops[..|ops| - 1]);
      ApplyRulesNumbers(Replay(rules, ops[..|ops| - 1]), rules, ops[|ops| - 1]);
    }
  }

  ghost predicate StampedFrom(log: seq<Event>, n: nat, t: nat) {
    forall i :: n <= i < |log| ==> log[i].time == t
  }

  lemma {:induction false} LoggedStamps(log: seq<Event>, code: string, changes: seq<Change>, n: nat, t: nat)
    requires n <= |log| && StampedFrom(log, n, t) && forall c <- changes :: c.time == t
    ensures StampedFrom(Logged(log, code, changes), n, t)
  {
    if changes != [] {
      LoggedStamps(log, code, changes[..|changes| - 1], n, t);
    }
  }

  lemma {:induction false} StepStamps(d: Durations, s: RuleState, i: Input)
    ensures forall c <- Step(d, s, i).1 :: c.time == i.time
  {
  }

  /** Every event an operation adds carries the time of the operation. */
  lemma {:induction false} ApplyRulesStamps(m: Model, rules: seq<Rule>, op: Operation)
    requires Covers(m, rules) && (op.Observed? ==> Acceptable(rules, op.snapshot))
    ensures StampedFrom(ApplyRules(m, rules, op).log, |m.log|, op.at)
  {
    hide Step, Violates, Evaluable, InputsAreFresh, StampedFrom, Logged, DurationsOf;
    if rules == [] {
      NothingToStamp(m.log, op.at);
    } else {
      var k := |rules| - 1;
      ApplyRulesStamps(m, rules[..k], op);
      var before := ApplyRules(m, rules[..k], op);
      var r := rules[k];
      StepStamps(DurationsOf(r), before.states[r.code], InputOf(r, op));
      LoggedStamps(before.log, r.code, Step(DurationsOf(r), before.states[r.code], InputOf(r, op)).1, |m.log|, op.at);
    }
  }

  lemma {:induction false} NothingToStamp(log: seq<Event>, t: nat)
    ensures StampedFrom(log, |log|, t)
  {
  }

  lemma {:induction false} LoggedOne(log: seq<Event>, code: string, c: Change)
    ensures Logged(log, code, [c]) == log + [EventOf(|log|, code, c)]
  {
    assert [c][..0] == [];
    assert Logged(log, code, [c][..0]) == log;
  }

  lemma {:induction false} LoggedNone(log: seq<Event>, code: string)
    ensures Logged(log, code, []) == log
  {
  }

  lemma {:induction false} LoggedTwo(log: seq<Event>, code: string, c: Change, e: Change)
    ensures Logged(log, code, [c, e]) == log + [EventOf(|log|, code, c), EventOf(|log| + 1, code, e)]
  {
    LoggedOne(log, code, c);
    assert [c, e][..1] == [c];
  }

  lemma {:induction false} CodesAreOfRules(rules: seq<Rule>, code: string)
    requires code in InitialModel(rules).states
    ensures exists r <- rules :: r.code == code
    ensures InitialModel(rules).states[code] == FRESH
  {
  }

  /** A clear is one step of the machine of the cleared code and nothing else. */
  lemma {:induction false} ClearTouchesOneCode(m: Model, rules: seq<Rule>, t: nat, code: string)
    requires ValidCatalog(rules) && Covers(m, rules) && code in m.states
    ensures ApplyRules(m, rules, ClearAsked(t, code)) ==
            if exists r <- rules :: r.code == code then Advanced(m, code, OnClear(m.states[code], t)) else m
  {
    hide ApplyRules, ApplyRule, Advanced, OnClear, Acceptable;
    RulesOneByOne(m, rules, ClearAsked(t, code));
    if rules != [] {
      var n := |rules| - 1;
      ClearTouchesOneCode(m, rules[..n], t, code);
      assert rules == rules[..n] + [rules[n]];
      ClearIsOneStep(ApplyRules(m, rules[..n], ClearAsked(t, code)), rules[n], t, code);
    }
  }

  lemma {:induction false} RulesOneByOne(m: Model, rules: seq<Rule>, op: Operation)
    requires Covers(m, rules) && (op.Observed? ==> Acceptable(rules, op.snapshot))
    ensures rules == [] ==> ApplyRules(m, rules, op) == m
    ensures rules != [] ==>
              var n := |rules| - 1;
              && Covers(m, rules[..n]) && (op.Observed? ==> Acceptable(rules[..n], op.snapshot))
              && rules[n].code in ApplyRules(m, rules[..n], op).states
              && (op.Observed? ==> Acceptable([rules[n]], op.snapshot))
              && ApplyRules(m, rules, op) == ApplyRule(ApplyRules(m, rules[..n], op), rules[n], InputOf(rules[n], op))
  {
    hide Advanced, Step;
  }

  /** A clear does nothing to a rule of another code. */
  lemma {:induction false} ClearIsOneStep(m: Model, r: Rule, t: nat, code: string)
    requires r.code in m.states && code in m.states
    ensures ApplyRule(m, r, InputOf(r, ClearAsked(t, code))) ==
            if r.code == code then Advanced(m, code, OnClear(m.states[code], t)) else m
  {
    if r.code != code {
      assert Logged(m.log, r.code, []) == m.log;
      assert m.states[r.code := m.states[r.code]] == m.states;
    }
  }

  // ---- the engine as an object ----

  class Engine {
    const rules: seq<Rule>
    const capacity: nat
    var states: map<string, RuleState>
    var events: seq<Event>
    var nextEventSequence: nat
    var observation: Option<nat>
    var latestFrameSequence: Option<nat>
    /** Every event ever appended, and every operation accepted since the last reset. */
    ghost var log: seq<Event>
    ghost var history: seq<Operation>

    ghost predicate LogIsBounded()
      reads this
    {
      capacity > 0 && events == Last(log, capacity) && nextEventSequence == |log|
    }

    ghost function View(): Model
      reads this
    {
      Model(states, log)
    }

    ghost predicate Valid()
      reads this
    {
      && ValidCatalog(rules)
      && LogIsBounded()
      && AcceptedHistory(rules, history)
      && View() == Replay(rules, history)
      && observation == (if history == [] then None else Some(history[|history| - 1].at))
    }

    constructor (rules: seq<Rule>, capacity: nat)
      requires ValidCatalog(rules) && capacity > 0
      ensures Valid() && this.rules == rules && this.capacity == capacity
      ensures history == [] && log == []
    {
      this.rules := rules;
      this.capacity := capacity;
      states := InitialModel(rules).states;
      events, nextEventSequence, observation, latestFrameSequence := [], 0, None, None;
      log, history := [], [];
    }

    method Reset()
      requires Valid()
      modifies this
      ensures Valid() && history == [] && log == []
    {
      states := InitialModel(rules).states;
      events, nextEventSequence, observation, latestFrameSequence := [], 0, None, None;
      log, history := [], [];
    }

    method AppendEvent(t: nat, code: string, kind: EventType, prior: Option<Status>, next: Option<Status>)
      returns (event: Event)
      requires LogIsBounded()
      modifies `events, `nextEventSequence, `log
      ensures LogIsBounded()
      ensures event == EventOf(old(|log|), code, Change(t, kind, prior, next))
      ensures log == old(log) + [event]
    {
      event := Event(nextEventSequence, t, code, kind, prior, next);
      nextEventSequence := nextEventSequence + 1;
      PushBoundedIsLast(log, event, capacity);
      events := PushBounded(events, event, capacity);
      log := log + [event];
    }

    method HandleViolation(rule: Rule, snapshot: Snapshot, t: nat) returns (generated: seq<Event>)
      requires LogIsBounded() && rule.code in states && snapshot.lastFrameSequence.Some?
      modifies `states, `events, `nextEventSequence, `log
      ensures LogIsBounded()
      ensures View() == Advanced(old(View()), rule.code,
                                 OnViolation(DurationsOf(rule), old(states[rule.code]), t,
                                             CaptureOf(rule.code, t, snapshot)))
      ensures log == old(log) + generated
    {
      hide Last, Logged, PendingRecord, CaptureOf;
      generated := [];
      LoggedNone(log, rule.code);
      var state := states[rule.code];
      ghost var was := log;
      if state.dtc.Some? && state.dtc.value.status == Active {
        states := states[rule.code := state.(dtc := Some(state.dtc.value.(lastSeen := t)))];
        return;
      }
      ghost var detected: seq<Change> := [];
      if state.dtc.None? || state.dtc.value.status != Pending {
        var origin := StatusOf(state);
        state := state.(pendingOrigin := origin, conditionStarted := Some(t), dtc := Some(PendingRecord(state.dtc, t)));
        var event := AppendEvent(t, rule.code, ConditionDetected, origin, Some(Pending));
        generated := generated + [event];
        detected := [Change(t, ConditionDetected, origin, Some(Pending))];
        LoggedOne(was, rule.code, detected[0]);
      } else {
        if state.conditionStarted.None? {
          state := state.(conditionStarted := Some(t));
        }
        state := state.(dtc := Some(state.dtc.value.(lastSeen := t)));
      }
      assert log == Logged(was, rule.code, detected);
      ghost var pendingState := state;
      if t - state.conditionStarted.value >= rule.confirmation {
        if state.freezeFrame.None? {
          state := state.(freezeFrame := Some(CaptureOf(rule.code, t, snapshot)));
        }
        var pending := state.dtc.value;
        state := state.(
          dtc := Some(pending.(status := Active, confirmed := Some(t), lastSeen := t, resolved := None,
                               cleared := None, occurrences := pending.occurrences + 1, freezeFrameAvailable := true)),
          conditionStarted := None,
          pendingOrigin := None);
        var event := AppendEvent(t, rule.code, DtcConfirmed, Some(Pending), Some(Active));
        generated := generated + [event];
        ghost var confirmed := Change(t, DtcConfirmed, Some(Pending), Some(Active));
        if |detected| == 1 {
          LoggedTwo(was, rule.code, detected[0], confirmed);
          assert detected + [confirmed] == [detected[0], confirmed];
        } else {
          LoggedOne(was, rule.code, confirmed);
          assert detected + [confirmed] == [confirmed];
        }
        assert log == Logged(was, rule.code, detected + [confirmed]);
      }
      assert (state, log) == (Confirm(DurationsOf(rule), pendingState, t, CaptureOf(rule.code, t, snapshot)).0,
                              Logged(was, rule.code,
                                     detected + Confirm(DurationsOf(rule), pendingState, t,
                                                        CaptureOf(rule.code, t, snapshot)).1)) by {
        assert detected + [] == detected;
      }
      states := states[rule.code := state];
    }

    method HandleNormal(rule: Rule, t: nat) returns (generated: seq<Event>)
      requires LogIsBounded() && rule.code in states
      modifies `states, `events, `nextEventSequence, `log
      ensures LogIsBounded()
      ensures View() == Advanced(old(View()), rule.code, OnNormal(DurationsOf(rule), old(states[rule.code]), t))
      ensures log == old(log) + generated
    {
      generated := [];
      assert Logged(log, rule.code, []) == log;
      ghost var was := log;
      var state := states[rule.code].(conditionStarted := None);
      states := states[rule.code := state];
      if state.dtc.None? {
        return;
      }
      var dtc := state.dtc.value;
      if dtc.status == Pending {
        var origin := state.pendingOrigin;
        state := state.(dtc := if origin.None? then None else Some(dtc.(status := origin.value)),
                        pendingOrigin := None);
        states := states[rule.code := state];
        var event := AppendEvent(t, rule.code, ConditionCleared, Some(Pending), origin);
        LoggedOne(was, rule.code, Change(t, ConditionCleared, Some(Pending), origin));
        generated := generated + [event];
        return;
      }
      if dtc.status != Active {
        states := states[rule.code := state.(recoveryStarted := None)];
        return;
      }
      if state.recoveryStarted.None? {
        state := state.(recoveryStarted := Some(t));
      }
      if t - state.recoveryStarted.value >= rule.recovery {
        state := state.(dtc := Some(dtc.(status := Historical, resolved := Some(t))), recoveryStarted := None);
        var event := AppendEvent(t, rule.code, DtcRecovered, Some(Active), Some(Historical));
        LoggedOne(was, rule.code, Change(t, DtcRecovered, Some(Active), Some(Historical)));
        generated := generated + [event];
      }
      states := states[rule.code := state];
    }

    method EvaluateRule(rule: Rule, snapshot: Snapshot, t: nat) returns (generated: seq<Event>)
      requires LogIsBounded() && rule.code in states && Acceptable([rule], snapshot)
      modifies `states, `events, `nextEventSequence, `log
      ensures LogIsBounded()
      ensures View() == ApplyRule(old(View()), rule, InputOf(rule, Observed(t, snapshot)))
      ensures log == old(log) + generated
    {
      var state := states[rule.code];
      if !InputsAreFresh(rule, snapshot) {
        states := states[rule.code := state.(conditionStarted := None, recoveryStarted := None)];
        assert Logged(log, rule.code, []) == log;
        return [];
      }
      assert rule in [rule];
      var active := state.dtc.Some? && state.dtc.value.status == Active;
      if Violates(rule.condition, snapshot, active) {
        states := states[rule.code := state.(recoveryStarted := None)];
        generated := HandleViolation(rule, snapshot, t);
      } else {
        generated := HandleNormal(rule, t);
      }
    }

    /** The loop of `ingest` over the ordered rules. */
    method EvaluateRules(snapshot: Snapshot, t: nat) returns (generated: seq<Event>)
      requires LogIsBounded() && Covers(View(), rules) && Acceptable(rules, snapshot)
      modifies `states, `events, `nextEventSequence, `log
      ensures LogIsBounded()
      ensures View() == ApplyRules(old(View()), rules, Observed(t, snapshot))
      ensures log == old(log) + generated
    {
      hide Step, InputOf, ApplyRule, Violates, Evaluable, InputsAreFresh, Last;
      generated := [];
      ghost var op := Observed(t, snapshot);
      var k := 0;
      while k < |rules|
        invariant 0 <= k <= |rules|
        invariant LogIsBounded() && Covers(View(), rules)
        invariant View() == ApplyRules(old(View()), rules[..k], op)
        invariant log == old(log) + generated
      {
        var some := EvaluateRule(rules[k], snapshot, t);
        assert View().states.Keys == old(View()).states.Keys by {
          assert View() == ApplyRules(old(View()), rules[..k + 1], op) by {
            assert rules[..k + 1][..k] == rules[..k];
          }
        }
        assert rules[..k + 1][..k] == rules[..k];
        generated := generated + some;
        k := k + 1;
      }
      assert rules[..k] == rules;
    }

    /** Ingest one coherent snapshot. A snapshot without an observation time is ignored and one
        that moves backward is refused; neither changes anything. */
    method Ingest(snapshot: Snapshot) returns (r: Result<seq<Event>, Error>)
      requires Valid() && (snapshot.observation.Some? ==> Acceptable(rules, snapshot))
      modifies this
      ensures Valid()
      ensures r.Err? <==> snapshot.observation.Some? && old(observation).Some?
                          && snapshot.observation.value < old(observation).value
      ensures r.Ok? && snapshot.observation.Some? ==>
                && history == old(history) + [Observed(snapshot.observation.value, snapshot)]
                && log == old(log) + r.value
                && latestFrameSequence == snapshot.lastFrameSequence
      ensures r.Err? || snapshot.observation.None? ==> unchanged(this) && (r == Ok([]) || r == Err(BackwardSnapshot))
    {
      hide Step, InputOf, ApplyRule, ApplyRules, InitialModel, Violates, Evaluable, InputsAreFresh, Last,
        AcceptedHistory, Replay, Acceptable, ValidCatalog;
      if snapshot.observation.None? {
        return Ok([]);
      }
      var t := snapshot.observation.value;
      if observation.Some? && t < observation.value {
        return Err(BackwardSnapshot);
      }
      ghost var op := Observed(t, snapshot);
      observation := Some(t);
      latestFrameSequence := snapshot.lastFrameSequence;
      ReplayExtends(rules, history, op);
      var generated := EvaluateRules(snapshot, t);
      history := history + [op];
      return Ok(generated);
    }

    /** Clear a code. Only a HISTORICAL code changes; a CLEARED one is returned as it is. */
    method Clear(code: string) returns (r: Result<TroubleCode, Error>)
      requires Valid()
      modifies this
      ensures Valid()
      ensures r.Ok? <==> code in old(states) && old(states)[code].dtc.Some?
                         && old(states)[code].dtc.value.status in {Historical, Cleared}
      ensures r == Err(UnknownCode) <==> code !in old(states)
      ensures r == Err(NoRecord) <==> code in old(states) && old(states)[code].dtc.None?
      ensures r.Err? && r.error.NotClearable? ==> Some(r.error.status) == StatusOf(old(states)[code])
      ensures r.Ok? ==> code in states && states[code].dtc == Some(r.value) && r.value.status == Cleared
      ensures r.Ok? && old(states)[code].dtc.value.status == Historical ==>
                && history == old(history) + [ClearAsked(old(observation).value, code)]
                && |log| == |old(log)| + 1
      ensures r.Err? || old(states)[code].dtc.value.status == Cleared ==> unchanged(this)
      ensures observation == old(observation)
    {
      hide Step, InputOf, ApplyRule, InitialModel, ApplyRules, Acceptable, Last;
      if code !in states {
        return Err(UnknownCode);
      }
      var state := states[code];
      if state.dtc.None? {
        return Err(NoRecord);
      }
      var dtc := state.dtc.value;
      if dtc.status == Cleared {
        return Ok(dtc);
      }
      if dtc.status != Historical {
        return Err(NotClearable(dtc.status));
      }
      ReplayCodes(rules, history);
      CodesAreOfRules(rules, code);
      var t := observation.value;
      var cleared := dtc.(status := Cleared, cleared := Some(t));
      states := states[code := state.(dtc := Some(cleared))];
      var _ := AppendEvent(t, code, DtcCleared, Some(Historical), Some(Cleared));
      LoggedOne(old(log), code, Change(t, DtcCleared, Some(Historical), Some(Cleared)));
      ClearTouchesOneCode(old(View()), rules, t, code);
      ReplayExtends(rules, history, ClearAsked(t, code));
      history := history + [ClearAsked(t, code)];
      return Ok(cleared);
    }

    /** The most recent `limit` retained events. */
    method Events(limit: Option<nat>) returns (r: seq<Event>)
      requires Valid() && (limit.Some? ==> limit.value > 0)
      ensures r == Last(log, if limit.Some? && limit.value < capacity then limit.value else capacity)
    {
      if limit.None? {
        return events;
      }
      LastOfLast(log, [], capacity, if limit.value < capacity then limit.value else capacity);
      assert Last(log, capacity) + [] == Last(log, capacity) && log + [] == log;
      r := Last(events, limit.value);
    }
  }
}
