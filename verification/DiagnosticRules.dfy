/** The four hysteresis conditions of diagnostics/rules.py and the rule that carries one. */
module DiagnosticRules {
  import opened Prelude
  import opened TelemetryModels

  /** Each condition compares against one set of limits while the code is inactive and against
      another while it is active. */
  datatype Condition =
    | HighThreshold(signal: SignalKey, activationAbove: real, recoveryBelow: real)
    | LowWhileTrue(signal: SignalKey, context: SignalKey, activationBelow: real, recoveryAbove: real)
    | OutsideRangeWhileTrue(signal: SignalKey, context: SignalKey,
                            activationMinimum: real, activationMaximum: real,
                            recoveryMinimum: real, recoveryMaximum: real)
    | SignalDisagreement(compared: seq<SignalKey>, reference: SignalKey,
                         activationDelta: real, recoveryDelta: real)

  datatype Rule = Rule(
    code: string,
    requiredSignals: seq<SignalKey>,
    confirmation: nat,
    recovery: nat,
    condition: Condition)

  predicate HasNumber(s: Snapshot, k: SignalKey) {
    k in s.samples && s.samples[k].value.Number?
  }

  predicate HasFlag(s: Snapshot, k: SignalKey) {
    k in s.samples && s.samples[k].value.Flag?
  }

  /** The signals the condition reads are present with the type it expects. */
  predicate Evaluable(c: Condition, s: Snapshot) {
    match c
    case HighThreshold(k, _, _) => HasNumber(s, k)
    case LowWhileTrue(k, x, _, _) => HasNumber(s, k) && HasFlag(s, x)
    case OutsideRangeWhileTrue(k, x, _, _, _, _) => HasNumber(s, k) && HasFlag(s, x)
    case SignalDisagreement(ks, r, _, _) =>
      |ks| > 0 && HasNumber(s, r) && forall k <- ks :: HasNumber(s, k)
  }

  function NumberOf(s: Snapshot, k: SignalKey): real
    requires HasNumber(s, k)
  {
    s.samples[k].value.number
  }

  function Abs(x: real): real {
    if x < 0.0 then -x else x
  }

  /** The largest distance of a compared signal from the reference value. */
  function MaximumDelta(s: Snapshot, ks: seq<SignalKey>, reference: real): (m: real)
    requires |ks| > 0 && forall k <- ks :: HasNumber(s, k)
    ensures forall k <- ks :: Abs(NumberOf(s, k) - reference) <= m
    ensures exists k <- ks :: Abs(NumberOf(s, k) - reference) == m
  {
    var first := Abs(NumberOf(s, ks[0]) - reference);
    if |ks| == 1 then first
    else
      var rest := MaximumDelta(s, ks[1..], reference);
      if first >= rest then first else rest
  }

  /** True when `evaluate` returns VIOLATION. */
  predicate Violates(c: Condition, s: Snapshot, active: bool)
    requires Evaluable(c, s)
  {
    match c
    case HighThreshold(k, above, below) =>
      NumberOf(s, k) > (if active then below else above)
    case LowWhileTrue(k, x, below, above) =>
      s.samples[x].value.flag && NumberOf(s, k) < (if active then above else below)
    case OutsideRangeWhileTrue(k, x, amin, amax, rmin, rmax) =>
      s.samples[x].value.flag
      && (NumberOf(s, k) < (if active then rmin else amin) || NumberOf(s, k) > (if active then rmax else amax))
    case SignalDisagreement(ks, r, ad, rd) =>
      MaximumDelta(s, ks, NumberOf(s, r)) > (if active then rd else ad)
  }

  /** What each condition means. A false context makes everything normal, in either mode; otherwise the
      number is a violation strictly beyond the limit in force, or strictly outside the closed range, and
      signals disagree as soon as one of them is further from the reference than the limit. */
  lemma {:induction false} VerdictIsExact(c: Condition, s: Snapshot, active: bool)
    requires Evaluable(c, s)
    ensures c.HighThreshold? && !active ==> (Violates(c, s, active) <==> NumberOf(s, c.signal) > c.activationAbove)
    ensures c.HighThreshold? && active ==> (Violates(c, s, active) <==> NumberOf(s, c.signal) > c.recoveryBelow)
    ensures (c.LowWhileTrue? || c.OutsideRangeWhileTrue?) && s.samples[c.context].value == Flag(false) ==>
              !Violates(c, s, active)
    ensures c.LowWhileTrue? && s.samples[c.context].value == Flag(true) ==>
              (Violates(c, s, active) <==>
               NumberOf(s, c.signal) < if active then c.recoveryAbove else c.activationBelow)
    ensures c.OutsideRangeWhileTrue? && s.samples[c.context].value == Flag(true) && !active ==>
              (!Violates(c, s, active) <==> c.activationMinimum <= NumberOf(s, c.signal) <= c.activationMaximum)
    ensures c.OutsideRangeWhileTrue? && s.samples[c.context].value == Flag(true) && active ==>
              (!Violates(c, s, active) <==> c.recoveryMinimum <= NumberOf(s, c.signal) <= c.recoveryMaximum)
    ensures c.SignalDisagreement? ==>
              (Violates(c, s, active) <==>
               exists k <- c.compared ::
                 Apart(NumberOf(s, k), NumberOf(s, c.reference), if active then c.recoveryDelta else c.activationDelta))
  {
  }

  /** Two values further apart than `limit`. */
  predicate Apart(a: real, b: real, limit: real) {
    a - b > limit || b - a > limit
  }

  /** All required signals were received and none of them is stale. */
  predicate InputsAreFresh(rule: Rule, s: Snapshot) {
    forall k <- rule.requiredSignals :: k in s.samples && k in s.freshness && s.freshness[k] == Fresh
  }

  /** The recovery limits are at least as strict as the activation limits. */
  predicate Nested(c: Condition) {
    match c
    case HighThreshold(_, above, below) => below <= above
    case LowWhileTrue(_, _, below, above) => below <= above
    case OutsideRangeWhileTrue(_, _, amin, amax, rmin, rmax) =>
      rmax < rmin || (amin <= rmin && rmax <= amax)
    case SignalDisagreement(_, _, ad, rd) => rd < 0.0 || rd <= ad
  }

  /** A condition with nothing to compare: one signal read as number and flag, no compared signal at all,
      or the reference compared with nothing but itself. */
  predicate Degenerate(c: Condition) {
    match c
    case HighThreshold(_, _, _) => false
    case LowWhileTrue(k, x, _, _) => k == x
    case OutsideRangeWhileTrue(k, x, _, _, _, _) => k == x
    case SignalDisagreement(ks, r, ad, _) => ks == [] || (ad >= 0.0 && forall k <- ks :: k == r)
  }

  function Reading(k: SignalKey, v: SignalValue): SignalSample {
    SignalSample(k, v, 0, 0, 0, "", "")
  }

  function SnapshotOf(samples: map<SignalKey, SignalSample>): Snapshot {
    Snapshot(Some(0), Some(0), samples, map[], Statistics(0, 0, None, None, map[]))
  }

  /** A reading that violates for an inactive code yet is normal for an active one. */
  predicate Chatters(c: Condition, s: Snapshot) {
    Evaluable(c, s) && Violates(c, s, false) && !Violates(c, s, true)
  }

  /** A snapshot that chatters, for limits that are not nested. */
  ghost function ChatterWitness(c: Condition): Snapshot {
    match c
    case HighThreshold(k, above, below) => SnapshotOf(map[k := Reading(k, Number(below))])
    case LowWhileTrue(k, x, below, above) =>
      SnapshotOf(map[k := Reading(k, Number(above)), x := Reading(x, Flag(true))])
    case OutsideRangeWhileTrue(k, x, amin, amax, rmin, rmax) =>
      SnapshotOf(map[k := Reading(k, Number(if rmin < amin then rmin else rmax)), x := Reading(x, Flag(true))])
    case SignalDisagreement(ks, r, ad, rd) =>
      SnapshotOf((map k | k in ks :: Reading(k, Number(rd)))[r := Reading(r, Number(0.0))])
  }

  /** Compared signals at the recovery limit and the reference at zero: the largest difference is the
      recovery limit, or zero when only the reference itself is compared. */
  lemma {:induction false} WitnessDelta(ks: seq<SignalKey>, r: SignalKey, ad: real, rd: real)
    requires ks != [] && rd >= 0.0
    ensures var s := ChatterWitness(SignalDisagreement(ks, r, ad, rd));
            && Evaluable(SignalDisagreement(ks, r, ad, rd), s)
            && MaximumDelta(s, ks, NumberOf(s, r)) == if forall k <- ks :: k == r then 0.0 else rd
  {
    var s := ChatterWitness(SignalDisagreement(ks, r, ad, rd));
    var m := MaximumDelta(s, ks, NumberOf(s, r));
    assert forall k <- ks :: Abs(NumberOf(s, k) - NumberOf(s, r)) == if k == r then 0.0 else rd;
    if k :| k in ks && k != r {
      assert Abs(NumberOf(s, k) - NumberOf(s, r)) <= m;
    }
  }

  /** Comparing the reference with itself gives no difference. */
  lemma {:induction false} SelfDelta(s: Snapshot, ks: seq<SignalKey>, r: SignalKey)
    requires ks != [] && HasNumber(s, r) && forall k <- ks :: k == r
    ensures MaximumDelta(s, ks, NumberOf(s, r)) == 0.0
  {
    var m := MaximumDelta(s, ks, NumberOf(s, r));
    var k :| k in ks && Abs(NumberOf(s, k) - NumberOf(s, r)) == m;
  }

  /** Hysteresis is sound exactly when the limits are nested or there is nothing to compare: no snapshot
      whatever can be a violation for the inactive code and normal for the active one. */
  lemma {:induction false} NestedIffNeverChatters(c: Condition)
    ensures Nested(c) || Degenerate(c) <==> forall s: Snapshot :: !Chatters(c, s)
  {
    if Nested(c) || Degenerate(c) {
      forall s: Snapshot
        ensures !Chatters(c, s)
      {
        NeverChatters(c, s);
      }
    } else {
      if c.SignalDisagreement? {
        WitnessDelta(c.compared, c.reference, c.activationDelta, c.recoveryDelta);
      }
      assert Chatters(c, ChatterWitness(c));
    }
  }

  lemma {:induction false} NeverChatters(c: Condition, s: Snapshot)
    requires Nested(c) || Degenerate(c)
    ensures !Chatters(c, s)
  {
    if c.SignalDisagreement? && Evaluable(c, s) && !Nested(c) {
      SelfDelta(s, c.compared, c.reference);
    }
  }
}
