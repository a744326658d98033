/** One tenant's usage summary for one service and billing period: metering, overage and the
    grace period. */
module UsageMetering {
  import opened Common

  /** A row of `service_usage_summaries`; times are in seconds. */
  datatype Summary = Summary(total: int, overage: int, alerted: bool, graceExpires: Option<int>)

  const NEW_SUMMARY := Summary(0, 0, false, None)

  /** What the subscription's plan says of the service. */
  datatype Terms = Terms(included: bool, quota: int, graceHours: int)

  datatype Message = NotIncluded | WithinQuota | GraceActive | GraceExpired

  datatype Operation = Record(quantity: real) | Check(now: int)

  /** Python's `int(quantity)`: towards zero. */
  function Truncated(quantity: real): int {
    if quantity >= 0.0 then quantity.Floor else -((-quantity).Floor)
  }

  function AfterRecord(t: Terms, s: Summary, quantity: real): Summary {
    var total := s.total + Truncated(quantity);
    s.(total := total, overage := if 0 < t.quota < total then total - t.quota else s.overage)
  }

  predicate OverQuota(t: Terms, s: Summary) {
    0 < t.quota <= s.total
  }

  function AfterCheck(t: Terms, s: Summary, now: int): Summary {
    if t.included && OverQuota(t, s) && !s.alerted
    then s.(alerted := true, graceExpires := Some(now + t.graceHours * 3600)) else s
  }

  /** The answer, given the summary the check leaves behind. */
  function MessageFor(t: Terms, s: Summary, now: int): Message {
    if !t.included then NotIncluded
    else if !OverQuota(t, s) then WithinQuota
    else if s.graceExpires.Some? && now < s.graceExpires.value then GraceActive
    else GraceExpired
  }

  function After(t: Terms, s: Summary, op: Operation): Summary {
    match op
    case Record(quantity) => AfterRecord(t, s, quantity)
    case Check(now) => AfterCheck(t, s, now)
  }

  function Run(t: Terms, ops: seq<Operation>): Summary {
    if ops == [] then NEW_SUMMARY else After(t, Run(t, ops[..|ops| - 1]), ops[|ops| - 1])
  }

  class Meter {
    const terms: Terms
    var total: int
    var overage: int
    var alerted: bool
    var graceExpires: Option<int>

    function View(): Summary
      reads this
    {
      Summary(total, overage, alerted, graceExpires)
    }

    constructor (terms: Terms)
      ensures this.terms == terms && View() == NEW_SUMMARY
    {
      this.terms := terms;
      total, overage, alerted, graceExpires := 0, 0, false, None;
    }

    method RecordUsage(quantity: real)
      modifies this`total, this`overage
      ensures View() == AfterRecord(terms, old(View()), quantity)
    {
      total := total + Truncated(quantity);
      if terms.quota > 0 && total > terms.quota {
        overage := total - terms.quota;
      }
    }

    method CheckQuota(now: int) returns (m: Message)
      modifies this`alerted, this`graceExpires
      ensures View() == AfterCheck(terms, old(View()), now)
      ensures m == MessageFor(terms, View(), now)
    {
      if !terms.included {
        return NotIncluded;
      }
      var isOver, isInGrace := terms.quota > 0 && total >= terms.quota, false;
      if isOver {
        if !alerted {
          alerted := true;
          graceExpires := Some(now + terms.graceHours * 3600);
        }
        isInGrace := graceExpires.Some? && now < graceExpires.value;
      }
      m := if isInGrace then GraceActive else if isOver then GraceExpired else WithinQuota;
    }
  }

  // ---- Totals and overage ----

  function Sum(ops: seq<Operation>): int {
    if ops == [] then 0
    else Sum(ops[..|ops| - 1]) + if ops[|ops| - 1].Record? then Truncated(ops[|ops| - 1].quantity) else 0
  }

  predicate NonNegative(ops: seq<Operation>) {
    forall i | 0 <= i < |ops| && ops[i].Record? :: 0.0 <= ops[i].quantity
  }

  /** Above the quota the overage is exact after any run, whatever the quantities. */
  lemma {:induction false} OverageIsExactAboveQuota(t: Terms, ops: seq<Operation>)
    ensures Run(t, ops).total == Sum(ops)
    ensures 0 < t.quota < Run(t, ops).total ==> Run(t, ops).overage == Run(t, ops).total - t.quota
    ensures t.quota <= 0 ==> Run(t, ops).overage == 0
  {
    if ops == [] {
    } else {
      OverageIsExactAboveQuota(t, ops[..|ops| - 1]);
    }
  }

  lemma {:induction false} TotalsRise(t: Terms, ops: seq<Operation>)
    requires NonNegative(ops)
    ensures 0 <= Run(t, ops).total
    ensures Run(t, ops).overage == if 0 < t.quota < Sum(ops) then Sum(ops) - t.quota else 0
  {
    if ops == [] {
    } else {
      TotalsRise(t, ops[..|ops| - 1]);
      OverageIsExactAboveQuota(t, ops);
      OverageIsExactAboveQuota(t, ops[..|ops| - 1]);
    }
  }

  /** Runs of non-negative quantities with the same truncated sum, however split and however
      interleaved with quota checks, leave the same usage and overage. */
  lemma {:induction false} UsageDependsOnSum(t: Terms, ops: seq<Operation>, ops': seq<Operation>)
    requires NonNegative(ops) && NonNegative(ops') && Sum(ops) == Sum(ops')
    ensures Run(t, ops).total == Run(t, ops').total && Run(t, ops).overage == Run(t, ops').overage
  {
    TotalsRise(t, ops);
    TotalsRise(t, ops');
    OverageIsExactAboveQuota(t, ops);
    OverageIsExactAboveQuota(t, ops');
  }

  predicate WithinAt(t: Terms, ops: seq<Operation>, i: nat)
    requires i <= |ops|
  {
    Run(t, ops[..i]).total <= t.quota
  }

  /** Usage has been within the quota throughout. */
  predicate NeverAbove(t: Terms, ops: seq<Operation>) {
    forall i: nat | i <= |ops| :: WithinAt(t, ops, i)
  }

  lemma {:induction false} NeverAboveStep(t: Terms, ops: seq<Operation>)
    requires ops != []
    ensures NeverAbove(t, ops) <==> NeverAbove(t, ops[..|ops| - 1]) && Run(t, ops).total <= t.quota
  {
    var before := ops[..|ops| - 1];
    assert WithinAt(t, ops, |ops|) <==> Run(t, ops).total <= t.quota by {
      assert ops[..|ops|] == ops;
    }
    forall i: nat | i <= |before|
      ensures WithinAt(t, before, i) <==> WithinAt(t, ops, i)
    {
      assert before[..i] == ops[..i];
    }
  }

  /** The overage is the excess over the quota exactly when usage is above the quota or never was;
      having come back below it leaves the overage of the last time it was above. */
  lemma {:induction false} OverageIsExactIff(t: Terms, ops: seq<Operation>)
    requires 0 < t.quota
    ensures
      Run(t, ops).overage == (if t.quota < Run(t, ops).total then Run(t, ops).total - t.quota else 0) <==>
      t.quota < Run(t, ops).total || NeverAbove(t, ops)
    ensures 0 <= Run(t, ops).overage
    ensures Run(t, ops).overage == 0 <==> NeverAbove(t, ops)
  {
    if ops == [] {
    } else {
      OverageIsExactIff(t, ops[..|ops| - 1]);
      NeverAboveStep(t, ops);
    }
  }

  /** A negative quantity can bring usage back under the quota and leave the old overage. */
  lemma {:induction false} NegativeQuantityLeavesOverage(t: Terms)
    requires 0 < t.quota
    ensures
      var ops := [Record(t.quota as real + 2.0), Record(-2.0)];
      Run(t, ops).total == t.quota && Run(t, ops).overage == 2
  {
    var ops := [Record(t.quota as real + 2.0), Record(-2.0)];
    assert ops[..1] == [ops[0]] && ops[..1][..0] == [];
    assert Run(t, []) == NEW_SUMMARY;
    assert Run(t, ops[..1]) == After(t, NEW_SUMMARY, ops[0]);
    assert Truncated(t.quota as real + 2.0) == t.quota + 2;
  }

  // ---- The grace period ----

  predicate ClockRises(ops: seq<Operation>) {
    forall i, j | 0 <= i < j < |ops| && ops[i].Check? && ops[j].Check? :: ops[i].now <= ops[j].now
  }

  /** The message the i-th operation, a check, returns. */
  function MessageAt(t: Terms, ops: seq<Operation>, i: nat): Message
    requires i < |ops| && ops[i].Check?
  {
    MessageFor(t, Run(t, ops[..i + 1]), ops[i].now)
  }

  function Level(m: Message): nat {
    match m
    case NotIncluded => 0
    case WithinQuota => 0
    case GraceActive => 1
    case GraceExpired => 2
  }

  lemma {:induction false} RunOneMore(t: Terms, ops: seq<Operation>, i: nat)
    requires i < |ops|
    ensures Run(t, ops[..i + 1]) == After(t, Run(t, ops[..i]), ops[i])
  {
    assert ops[..i + 1][..i] == ops[..i];
  }

  /** Once set, the expiry stays; usage never falls. */
  lemma {:induction false} ExpiryNeverMoves(t: Terms, ops: seq<Operation>, i: nat, j: nat)
    requires NonNegative(ops) && i <= j <= |ops|
    ensures Run(t, ops[..i]).total <= Run(t, ops[..j]).total
    ensures Run(t, ops[..i]).alerted ==>
              Run(t, ops[..j]).alerted && Run(t, ops[..j]).graceExpires == Run(t, ops[..i]).graceExpires
    decreases j
  {
    if i == j {
    } else {
      ExpiryNeverMoves(t, ops, i, j - 1);
      RunOneMore(t, ops, j - 1);
    }
  }

  /** The i-th operation is a check that finds an included service over its quota. */
  predicate FindsOver(t: Terms, ops: seq<Operation>, i: nat)
    requires i < |ops|
  {
    ops[i].Check? && t.included && OverQuota(t, Run(t, ops[..i]))
  }

  /** It is the first one. */
  predicate FirstFindsOver(t: Terms, ops: seq<Operation>, i: nat)
    requires i < |ops|
  {
    FindsOver(t, ops, i) && forall j: nat | j < i :: !FindsOver(t, ops, j)
  }

  predicate SomeFoundOver(t: Terms, ops: seq<Operation>, n: nat)
    requires n <= |ops|
  {
    exists i: nat :: i < n && FindsOver(t, ops, i)
  }

  lemma {:induction false} FoundOverStep(t: Terms, ops: seq<Operation>, n: nat)
    requires n < |ops|
    ensures SomeFoundOver(t, ops, n + 1) <==> SomeFoundOver(t, ops, n) || FindsOver(t, ops, n)
  {}

  /** What one more operation makes of alert and expiry. */
  lemma {:induction false} AlertStep(t: Terms, ops: seq<Operation>, n: nat)
    requires n < |ops|
    ensures
      var before, after := Run(t, ops[..n]), Run(t, ops[..n + 1]);
      && (after.alerted <==> before.alerted || FindsOver(t, ops, n))
      && after.graceExpires ==
         if FindsOver(t, ops, n) && !before.alerted then Some(ops[n].now + t.graceHours * 3600) else before.graceExpires
  {
    RunOneMore(t, ops, n);
  }

  /** There is an expiry exactly when some check was over quota, and it is the first such check's
      time plus the grace. */
  lemma {:induction false} ExpiryIsFirstCheckPlusGrace(t: Terms, ops: seq<Operation>, n: nat)
    requires n <= |ops|
    ensures Run(t, ops[..n]).alerted <==> SomeFoundOver(t, ops, n)
    ensures Run(t, ops[..n]).graceExpires.Some? <==> Run(t, ops[..n]).alerted
    ensures forall i: nat | i < n && FirstFindsOver(t, ops, i) ::
              Run(t, ops[..n]).graceExpires == Some(ops[i].now + t.graceHours * 3600)
  {
    if n == 0 {
    } else {
      ExpiryIsFirstCheckPlusGrace(t, ops, n - 1);
      AlertStep(t, ops, n - 1);
      FoundOverStep(t, ops, n - 1);
    }
  }

  /** Under a rising clock the answers go from within quota to grace active to grace expired,
      and never back. */
  lemma {:induction false} MessagesOnlyEscalate(t: Terms, ops: seq<Operation>, i: nat, j: nat)
    requires NonNegative(ops) && ClockRises(ops)
    requires i < j < |ops| && ops[i].Check? && ops[j].Check?
    ensures Level(MessageAt(t, ops, i)) <= Level(MessageAt(t, ops, j))
  {
    RunOneMore(t, ops, i);
    RunOneMore(t, ops, j);
    ExpiryNeverMoves(t, ops, i + 1, j + 1);
  }

  // ---- What a quantity counts and what a check answers ----

  /** A quantity counts its whole part, towards zero. */
  lemma {:induction false} TruncatedIff(quantity: real, n: int)
    ensures n == Truncated(quantity) <==>
            if 0.0 <= quantity then n as real <= quantity < (n + 1) as real else (n - 1) as real < quantity <= n as real
  {}

  /** The answers of a check, each exactly when: by the plan, by the usage recorded so far, and by the time
      since the first check that found the quota used up. */
  lemma {:induction false} MessageIff(t: Terms, ops: seq<Operation>, i: nat)
    requires i < |ops| && ops[i].Check?
    ensures MessageAt(t, ops, i) == NotIncluded <==> !t.included
    ensures MessageAt(t, ops, i) == WithinQuota <==> t.included && !(0 < t.quota <= Sum(ops[..i]))
    ensures forall f: nat | f <= i && FirstFindsOver(t, ops, f) ::
              && (MessageAt(t, ops, i) == GraceActive <==>
                    t.included && 0 < t.quota <= Sum(ops[..i]) && ops[i].now < ops[f].now + t.graceHours * 3600)
              && (MessageAt(t, ops, i) == GraceExpired <==>
                    t.included && 0 < t.quota <= Sum(ops[..i]) && ops[f].now + t.graceHours * 3600 <= ops[i].now)
  {
    RunOneMore(t, ops, i);
    OverageIsExactAboveQuota(t, ops[..i]);
    ExpiryIsFirstCheckPlusGrace(t, ops, i + 1);
  }

  /** A check finds the quota used up by what is recorded before it, on a plan that includes the service. */
  lemma {:induction false} FindsOverIff(t: Terms, ops: seq<Operation>, i: nat)
    requires i < |ops|
    ensures FindsOver(t, ops, i) <==> ops[i].Check? && t.included && 0 < t.quota <= Sum(ops[..i])
  {
    OverageIsExactAboveQuota(t, ops[..i]);
  }
}
