/** Invoice and dashboard arithmetic, over exact reals; stored sums are in cents. */
module Invoicing {
  import opened Rounding

  datatype Rule = Rule(price: real, quota: int, overagePrice: real)

  /** A plan's base price and its pricing rule per service. */
  datatype Plan = Plan(basePrice: real, rules: map<string, Rule>)

  datatype Usage = Usage(service: string, total: int)

  datatype Line = BaseLine(amount: real) | UsageLine(service: string, quantity: int, unitPrice: real, amount: real)
                | DiscountLine(amount: real)

  datatype Invoice = Invoice(lines: seq<Line>, subtotal: int, discount: int, total: int)

  /** `round(x, 2)` as an amount. */
  function Rounded(x: real): real {
    Cents(x) as real / 100.0
  }

  function Within(rule: Rule, total: int): int {
    if 0 < rule.quota < total then rule.quota else total
  }

  function Over(rule: Rule, total: int): int {
    if 0 < rule.quota < total then total - rule.quota else 0
  }

  function Charge(quantity: int, price: real): real {
    quantity as real * price
  }

  function Cost(rule: Rule, total: int): real {
    Charge(Within(rule, total), rule.price) + Charge(Over(rule, total), rule.overagePrice)
  }

  function CostOf(plan: Plan, u: Usage): real {
    if u.service in plan.rules then Cost(plan.rules[u.service], u.total) else 0.0
  }

  function CostOfAll(plan: Plan, us: seq<Usage>): real {
    if us == [] then 0.0 else CostOfAll(plan, us[..|us| - 1]) + CostOf(plan, us[|us| - 1])
  }

  predicate Billed(plan: Plan, u: Usage) {
    u.service in plan.rules && 0 < u.total
  }

  /** The cost the invoice bills: of services with a rule and usage above zero. */
  function BilledCost(plan: Plan, us: seq<Usage>): real {
    if us == [] then 0.0
    else BilledCost(plan, us[..|us| - 1]) + if Billed(plan, us[|us| - 1]) then CostOf(plan, us[|us| - 1]) else 0.0
  }

  // ---- What is owed, line by line ----

  predicate IsBilled(plan: Plan, u: Usage) {
    u.service in plan.rules && 0 < u.total
  }

  /** Up to a positive quota at the unit price, above it at the overage price. */
  function Owed(rule: Rule, total: int): real {
    if 0 < rule.quota < total
    then rule.quota as real * rule.price + (total - rule.quota) as real * rule.overagePrice
    else total as real * rule.price
  }

  function Sum(amounts: seq<real>): real {
    if amounts == [] then 0.0 else Sum(amounts[..|amounts| - 1]) + amounts[|amounts| - 1]
  }

  /** What each service with a rule owes. */
  function OwedByAll(plan: Plan, us: seq<Usage>): seq<real> {
    seq(|us|, i requires 0 <= i < |us| => if us[i].service in plan.rules then Owed(plan.rules[us[i].service], us[i].total) else 0.0)
  }

  /** What each service owes that has positive usage besides. */
  function OwedByBilled(plan: Plan, us: seq<Usage>): seq<real> {
    seq(|us|, i requires 0 <= i < |us| => if IsBilled(plan, us[i]) then Owed(plan.rules[us[i].service], us[i].total) else 0.0)
  }

  predicate IsLine(line: Line, service: string, quantity: int, price: real) {
    && line.UsageLine? && line.service == service && line.quantity == quantity && line.unitPrice == price
    && line.amount == Rounded(quantity as real * price)
  }

  /** A billed service's lines: two when a positive quota is exceeded, one otherwise. */
  predicate AreLinesOf(plan: Plan, u: Usage, lines: seq<Line>) {
    if !IsBilled(plan, u) then lines == [] else
      var rule := plan.rules[u.service];
      if 0 < rule.quota < u.total then
        && |lines| == 2 && IsLine(lines[0], u.service, rule.quota, rule.price)
        && IsLine(lines[1], u.service, u.total - rule.quota, rule.overagePrice)
      else |lines| == 1 && IsLine(lines[0], u.service, u.total, rule.price)
  }

  /** The lines of all services, service by service. */
  ghost predicate AreLinesOfAll(plan: Plan, us: seq<Usage>, lines: seq<Line>) {
    if us == [] then lines == [] else
      exists n: nat :: n <= |lines| && AreLinesOfAll(plan, us[..|us| - 1], lines[..n]) && AreLinesOf(plan, us[|us| - 1], lines[n..])
  }

  lemma {:induction false} CostIsOwed(rule: Rule, total: int)
    ensures Cost(rule, total) == Owed(rule, total)
  {}

  lemma {:induction false} CostsAreOwed(plan: Plan, us: seq<Usage>)
    ensures CostOfAll(plan, us) == Sum(OwedByAll(plan, us)) && BilledCost(plan, us) == Sum(OwedByBilled(plan, us))
  {
    if us == [] {
    } else {
      var n := |us| - 1;
      CostsAreOwed(plan, us[..n]);
      assert OwedByAll(plan, us)[..n] == OwedByAll(plan, us[..n]);
      assert OwedByBilled(plan, us)[..n] == OwedByBilled(plan, us[..n]);
      if us[n].service in plan.rules {
        CostIsOwed(plan.rules[us[n].service], us[n].total);
      }
    }
  }

  lemma {:induction false} ChargedLine(service: string, quantity: int, price: real)
    ensures IsLine(UsageLine(service, quantity, price, Rounded(Charge(quantity, price))), service, quantity, price)
  {}

  /** A service's lines. */
  lemma {:induction false} LinesOfUsage(plan: Plan, u: Usage)
    ensures AreLinesOf(plan, u, UsageLines(plan, u))
  {
    if IsBilled(plan, u) {
      var rule := plan.rules[u.service];
      if 0 < rule.quota < u.total {
        ChargedLine(u.service, rule.quota, rule.price);
        ChargedLine(u.service, u.total - rule.quota, rule.overagePrice);
      } else {
        ChargedLine(u.service, u.total, rule.price);
      }
    }
  }

  lemma {:induction false} LinesOfAllUsage(plan: Plan, us: seq<Usage>)
    ensures AreLinesOfAll(plan, us, AllUsageLines(plan, us))
  {
    if us == [] {
    } else {
      var before, last := AllUsageLines(plan, us[..|us| - 1]), UsageLines(plan, us[|us| - 1]);
      LinesOfAllUsage(plan, us[..|us| - 1]);
      LinesOfUsage(plan, us[|us| - 1]);
      assert (before + last)[..|before|] == before && (before + last)[|before|..] == last;
    }
  }

  /** The estimate on the dashboard, in cents. */
  method Dashboard(plan: Plan, us: seq<Usage>) returns (estimate: int)
    ensures estimate == Cents(plan.basePrice + CostOfAll(plan, us))
    ensures estimate == Cents(plan.basePrice + Sum(OwedByAll(plan, us)))
  {
    var cost := plan.basePrice;
    for i := 0 to |us|
      invariant cost == plan.basePrice + CostOfAll(plan, us[..i])
    {
      assert us[..i + 1][..i] == us[..i];
      if us[i].service in plan.rules {
        var pr, total := plan.rules[us[i].service], us[i].total;
        var within := if pr.quota > 0 then (if total < pr.quota then total else pr.quota) else total;
        var overage := if pr.quota > 0 && total - pr.quota > 0 then total - pr.quota else 0;
        cost := cost + Charge(within, pr.price);
        cost := cost + Charge(overage, pr.overagePrice);
      }
    }
    assert us[..|us|] == us;
    CostsAreOwed(plan, us);
    estimate := Cents(cost);
  }

  function UsageLines(plan: Plan, u: Usage): seq<Line> {
    if !Billed(plan, u) then [] else
      var pr := plan.rules[u.service];
      var within, over := Within(pr, u.total), Over(pr, u.total);
      [UsageLine(u.service, within, pr.price, Rounded(Charge(within, pr.price)))] +
      if 0 < over then [UsageLine(u.service, over, pr.overagePrice, Rounded(Charge(over, pr.overagePrice)))] else []
  }

  function AllUsageLines(plan: Plan, us: seq<Usage>): seq<Line> {
    if us == [] then [] else AllUsageLines(plan, us[..|us| - 1]) + UsageLines(plan, us[|us| - 1])
  }

  function BaseLines(plan: Plan): seq<Line> {
    if 0.0 < plan.basePrice then [BaseLine(plan.basePrice)] else []
  }

  function DiscountLines(discount: real): seq<Line> {
    if 0.0 < discount then [DiscountLine(-discount)] else []
  }

  function Subtotal(plan: Plan, us: seq<Usage>): real {
    plan.basePrice + BilledCost(plan, us)
  }

  /** The invoice loop's turn for one service: its lines and its exact cost. */
  method Bill(plan: Plan, u: Usage) returns (lines: seq<Line>, cost: real)
    ensures lines == UsageLines(plan, u)
    ensures cost == if Billed(plan, u) then CostOf(plan, u) else 0.0
  {
    lines, cost := [], 0.0;
    if u.service in plan.rules && u.total > 0 {
      var pr := plan.rules[u.service];
      var within := if pr.quota > 0 then (if u.total < pr.quota then u.total else pr.quota) else u.total;
      var overage := if pr.quota > 0 && u.total - pr.quota > 0 then u.total - pr.quota else 0;
      var usageCost, overageCost := Charge(within, pr.price), Charge(overage, pr.overagePrice);
      lines := [UsageLine(u.service, within, pr.price, Rounded(usageCost))];
      if overage > 0 {
        lines := lines + [UsageLine(u.service, overage, pr.overagePrice, Rounded(overageCost))];
      }
      cost := usageCost + overageCost;
    }
  }

  method BillAll(plan: Plan, us: seq<Usage>) returns (lines: seq<Line>, cost: real)
    ensures lines == AllUsageLines(plan, us) && cost == BilledCost(plan, us)
  {
    lines, cost := [], 0.0;
    for i := 0 to |us|
      invariant lines == AllUsageLines(plan, us[..i]) && cost == BilledCost(plan, us[..i])
    {
      assert us[..i + 1][..i] == us[..i];
      var added, more := Bill(plan, us[i]);
      lines, cost := lines + added, cost + more;
    }
    assert us[..|us|] == us;
  }

  /** The base price, the usage and the discount, each on its lines; sums are rounded once. */
  method GenerateInvoice(plan: Plan, us: seq<Usage>, discount: real) returns (invoice: Invoice, ghost usage: seq<Line>)
    ensures invoice.lines == (if 0.0 < plan.basePrice then [BaseLine(plan.basePrice)] else []) + usage
                             + (if 0.0 < discount then [DiscountLine(-discount)] else [])
    ensures AreLinesOfAll(plan, us, usage)
    ensures invoice.subtotal == Cents(plan.basePrice + Sum(OwedByBilled(plan, us)))
    ensures 0 <= invoice.total
    ensures invoice.lines == BaseLines(plan) + AllUsageLines(plan, us) + DiscountLines(discount)
    ensures invoice.subtotal == Cents(Subtotal(plan, us)) && invoice.discount == Cents(discount)
    ensures invoice.total == Cents(if Subtotal(plan, us) < discount then 0.0 else Subtotal(plan, us) - discount)
  {
    var subtotal, lines: seq<Line> := plan.basePrice, [];
    if subtotal > 0.0 {
      lines := [BaseLine(subtotal)];
    }
    var added, cost := BillAll(plan, us);
    lines, subtotal := lines + added, subtotal + cost;
    var total := if subtotal - discount > 0.0 then subtotal - discount else 0.0;
    if discount > 0.0 {
      lines := lines + [DiscountLine(-discount)];
    }
    usage := added;
    RoundingIsMonotone(0.0, 100.0 * total);
    CostsAreOwed(plan, us);
    LinesOfAllUsage(plan, us);
    invoice := Invoice(lines, Cents(subtotal), Cents(discount), Cents(total));
  }

  // ---- The dashboard against the invoice ----

  /** The cost of services whose usage is not positive; the invoice leaves them out. */
  function UnbilledCost(plan: Plan, us: seq<Usage>): real {
    if us == [] then 0.0
    else UnbilledCost(plan, us[..|us| - 1]) + if Billed(plan, us[|us| - 1]) then 0.0 else CostOf(plan, us[|us| - 1])
  }

  lemma {:induction false} DashboardIsInvoicePlusUnbilled(plan: Plan, us: seq<Usage>)
    ensures CostOfAll(plan, us) == BilledCost(plan, us) + UnbilledCost(plan, us)
    ensures (forall i | 0 <= i < |us| :: 0 <= us[i].total) ==> UnbilledCost(plan, us) == 0.0
  {
    if us == [] {
    } else {
      var n := |us| - 1;
      DashboardIsInvoicePlusUnbilled(plan, us[..n]);
      assert us[n].total == 0 ==> CostOf(plan, us[n]) == 0.0;
    }
  }

  /** With usage that is not negative, the dashboard estimates the invoice's subtotal. */
  lemma {:induction false} DashboardEstimatesSubtotal(plan: Plan, us: seq<Usage>)
    requires forall i | 0 <= i < |us| :: 0 <= us[i].total
    ensures Cents(plan.basePrice + CostOfAll(plan, us)) == Cents(Subtotal(plan, us))
  {
    DashboardIsInvoicePlusUnbilled(plan, us);
  }

  // ---- Line items ----

  function QuantityOf(lines: seq<Line>, service: string): int {
    if lines == [] then 0 else
      var l := lines[|lines| - 1];
      QuantityOf(lines[..|lines| - 1], service) + if l.UsageLine? && l.service == service then l.quantity else 0
  }

  lemma {:induction false} QuantityOfAppend(a: seq<Line>, b: seq<Line>, service: string)
    ensures QuantityOf(a + b, service) == QuantityOf(a, service) + QuantityOf(b, service)
  {
    if b == [] {
      assert a + b == a;
    } else {
      assert (a + b)[..|a + b| - 1] == a + b[..|b| - 1];
      QuantityOfAppend(a, b[..|b| - 1], service);
    }
  }

  function BilledUsage(plan: Plan, us: seq<Usage>, service: string): int {
    if us == [] then 0 else
      var u := us[|us| - 1];
      BilledUsage(plan, us[..|us| - 1], service) + if u.service == service && Billed(plan, u) then u.total else 0
  }

  /** The quantities on a service's lines add up to its billed usage. */
  lemma {:induction false} LineQuantitiesAddUp(plan: Plan, us: seq<Usage>, service: string)
    ensures QuantityOf(AllUsageLines(plan, us), service) == BilledUsage(plan, us, service)
  {
    if us == [] {
    } else {
      var n := |us| - 1;
      LineQuantitiesAddUp(plan, us[..n], service);
      QuantityOfAppend(AllUsageLines(plan, us[..n]), UsageLines(plan, us[n]), service);
      UsageLineQuantities(plan, us[n], service);
    }
  }

  lemma {:induction false} UsageLineQuantities(plan: Plan, u: Usage, service: string)
    ensures QuantityOf(UsageLines(plan, u), service) == if u.service == service && Billed(plan, u) then u.total else 0
  {
    var lines := UsageLines(plan, u);
    if |lines| == 2 {
      assert lines == [lines[0]] + [lines[1]];
      QuantityOfAppend([lines[0]], [lines[1]], service);
    }
  }

  function Amount(lines: seq<Line>): real {
    if lines == [] then 0.0 else Amount(lines[..|lines| - 1]) + lines[|lines| - 1].amount
  }

  lemma {:induction false} AmountAppend(a: seq<Line>, b: seq<Line>)
    ensures Amount(a + b) == Amount(a) + Amount(b)
  {
    if b == [] {
      assert a + b == a;
    } else {
      assert (a + b)[..|a + b| - 1] == a + b[..|b| - 1];
      AmountAppend(a, b[..|b| - 1]);
    }
  }

  predicate WholeCents(x: real) {
    (100.0 * x).Floor as real == 100.0 * x
  }

  lemma {:induction false} RoundedError(x: real)
    ensures -0.005 <= Rounded(x) - x <= 0.005
    ensures WholeCents(x) ==> Rounded(x) == x
  {
    RoundingErrorIsHalfAtMost(100.0 * x);
    if WholeCents(x) {
      RoundingKeepsWhole((100.0 * x).Floor);
    }
  }

  lemma {:induction false} UsageLinesError(plan: Plan, u: Usage)
    ensures
      var lines := UsageLines(plan, u);
      var cost := if Billed(plan, u) then CostOf(plan, u) else 0.0;
      && -0.005 * |lines| as real <= Amount(lines) - cost <= 0.005 * |lines| as real
      && (WholeCentPrices(plan) ==> Amount(lines) == cost)
  {
    if Billed(plan, u) {
      var pr, lines := plan.rules[u.service], UsageLines(plan, u);
      var x, y := Charge(Within(pr, u.total), pr.price), Charge(Over(pr, u.total), pr.overagePrice);
      RoundedError(x);
      RoundedError(y);
      if WholeCentPrices(plan) {
        MultipleOfWholeCents(Within(pr, u.total), pr.price);
        MultipleOfWholeCents(Over(pr, u.total), pr.overagePrice);
      }
      if |lines| == 2 {
        assert lines == [lines[0]] + [lines[1]];
        AmountAppend([lines[0]], [lines[1]]);
        assert Amount(lines) == Rounded(x) + Rounded(y);
      } else {
        assert y == 0.0;
        assert Amount(lines) == Rounded(x);
      }
    }
  }

  lemma {:induction false} MultipleOfWholeCents(n: int, x: real)
    requires WholeCents(x)
    ensures WholeCents(Charge(n, x))
  {
    var c := (100.0 * x).Floor;
    assert 100.0 * Charge(n, x) == n as real * c as real == (n * c) as real;
    FloorOfWhole(100.0 * Charge(n, x), n * c);
  }

  lemma {:induction false} SumOfWholeCents(x: real, y: real)
    requires WholeCents(x) && WholeCents(y)
    ensures WholeCents(x + y) && WholeCents(x - y)
  {
    var a, b := (100.0 * x).Floor, (100.0 * y).Floor;
    FloorOfWhole(100.0 * (x + y), a + b);
    FloorOfWhole(100.0 * (x - y), a - b);
  }

  predicate WholeCentPrices(plan: Plan) {
    forall s | s in plan.rules :: WholeCents(plan.rules[s].price) && WholeCents(plan.rules[s].overagePrice)
  }

  lemma {:induction false} UsageAmountsError(plan: Plan, us: seq<Usage>)
    ensures
      var lines, cost := AllUsageLines(plan, us), BilledCost(plan, us);
      && -0.005 * |lines| as real <= Amount(lines) - cost <= 0.005 * |lines| as real
      && (WholeCentPrices(plan) ==> Amount(lines) == cost)
  {
    if us == [] {
    } else {
      var n := |us| - 1;
      UsageAmountsError(plan, us[..n]);
      UsageLinesError(plan, us[n]);
      AmountAppend(AllUsageLines(plan, us[..n]), UsageLines(plan, us[n]));
    }
  }

  // ---- The discount and the clamp ----

  datatype Coupon = Percent(value: real) | Fixed(value: real)

  /** What coupon creation accepts. */
  predicate IsCoupon(c: Coupon) {
    0.0 < c.value && (c.Percent? ==> c.value <= 100.0)
  }

  function Share(whole: real, part: real): real {
    whole * part
  }

  function RawDiscount(c: Coupon, basePrice: real): real {
    match c
    case Percent(value) => Share(basePrice, value / 100.0)
    case Fixed(value) => if value < basePrice then value else basePrice
  }

  function Discount(c: Coupon, basePrice: real): real {
    Rounded(RawDiscount(c, basePrice))
  }

  lemma {:induction false} ShareIsPart(whole: real, part: real)
    requires 0.0 <= whole && 0.0 <= part <= 1.0
    ensures 0.0 <= Share(whole, part) <= whole
    ensures Share(whole, 1.0) == whole
  {
    assert Share(whole, part) + whole * (1.0 - part) == whole;
    assert 0.0 <= whole * (1.0 - part);
  }

  /** A percentage takes that share of the base price, a fixed amount itself up to the base price, each
      rounded to the cent. */
  lemma {:induction false} DiscountIs(c: Coupon, basePrice: real)
    ensures c.Percent? ==> -0.005 <= Discount(c, basePrice) - basePrice * (c.value / 100.0) <= 0.005
    ensures c.Fixed? && c.value <= basePrice ==> Discount(c, basePrice) == Rounded(c.value)
    ensures c.Fixed? && basePrice <= c.value ==> Discount(c, basePrice) == Rounded(basePrice)
  {
    RoundedError(RawDiscount(c, basePrice));
  }

  lemma {:induction false} DiscountIsPartOfBase(c: Coupon, basePrice: real)
    requires 0.0 <= basePrice && IsCoupon(c)
    ensures 0.0 <= RawDiscount(c, basePrice) <= basePrice
    ensures 0.0 <= Discount(c, basePrice) <= Rounded(basePrice)
  {
    if c.Percent? {
      ShareIsPart(basePrice, c.value / 100.0);
    }
    var raw := RawDiscount(c, basePrice);
    RoundingIsMonotone(100.0 * raw, 100.0 * basePrice);
    RoundingIsMonotone(0.0, 100.0 * raw);
  }

  /** No coupon takes off more than the base price exactly when the base price does not round up. */
  lemma {:induction false} DiscountsFitIff(basePrice: real)
    requires 0.0 <= basePrice
    ensures (forall c | IsCoupon(c) :: 0.0 <= Discount(c, basePrice) <= basePrice) <==> Rounded(basePrice) <= basePrice
  {
    ShareIsPart(basePrice, 1.0);
    assert 100.0 / 100.0 == 1.0;
    assert IsCoupon(Percent(100.0)) && Discount(Percent(100.0), basePrice) == Rounded(basePrice);
    forall c | IsCoupon(c)
      ensures 0.0 <= Discount(c, basePrice) <= Rounded(basePrice)
    {
      DiscountIsPartOfBase(c, basePrice);
    }
  }

  /** A base price of 1.5 cents: the full discount takes off 2. */
  lemma {:induction false} DiscountCanExceedBase()
    ensures IsCoupon(Percent(100.0)) && Discount(Percent(100.0), 0.015) == 0.02
  {
    ShareIsPart(0.015, 1.0);
    assert RawDiscount(Percent(100.0), 0.015) == 0.015;
  }

  predicate NonNegativePrices(plan: Plan) {
    0.0 <= plan.basePrice && forall s | s in plan.rules :: 0.0 <= plan.rules[s].price && 0.0 <= plan.rules[s].overagePrice
  }

  lemma {:induction false} BilledCostIsNonNegative(plan: Plan, us: seq<Usage>)
    requires NonNegativePrices(plan)
    ensures 0.0 <= BilledCost(plan, us)
  {
    if us == [] {
    } else {
      var n := |us| - 1;
      BilledCostIsNonNegative(plan, us[..n]);
      if Billed(plan, us[n]) {
        var pr := plan.rules[us[n].service];
        assert 0.0 <= Charge(Within(pr, us[n].total), pr.price);
        assert 0.0 <= Charge(Over(pr, us[n].total), pr.overagePrice);
      }
    }
  }

  /** The discount the coupon gave at subscription, 0 without one, on an unchanged base price. */
  ghost predicate IsDiscountOn(discount: real, basePrice: real) {
    discount == 0.0 || exists c :: IsCoupon(c) && discount == Discount(c, basePrice)
  }

  lemma {:induction false} DiscountLeavesSubtotal(plan: Plan, us: seq<Usage>, discount: real)
    requires NonNegativePrices(plan) && WholeCents(plan.basePrice) && IsDiscountOn(discount, plan.basePrice)
    ensures 0.0 <= discount <= plan.basePrice <= Subtotal(plan, us)
  {
    BilledCostIsNonNegative(plan, us);
    RoundedError(plan.basePrice);
    DiscountsFitIff(plan.basePrice);
  }

  /** The invoice's clamp at zero never acts, and its lines add up to its total within half a
      cent for each usage line plus half a cent; exactly, when unit prices are whole cents. */
  lemma {:induction false} LinesAddUpToTotal(plan: Plan, us: seq<Usage>, discount: real, invoice: Invoice)
    requires NonNegativePrices(plan) && WholeCents(plan.basePrice) && IsDiscountOn(discount, plan.basePrice)
    requires invoice.lines == BaseLines(plan) + AllUsageLines(plan, us) + DiscountLines(discount)
    requires invoice.total == Cents(if Subtotal(plan, us) < discount then 0.0 else Subtotal(plan, us) - discount)
    ensures invoice.total == Cents(Subtotal(plan, us) - discount)
    ensures
      var slack := 0.005 * (|AllUsageLines(plan, us)| + 1) as real;
      -slack <= Amount(invoice.lines) - invoice.total as real / 100.0 <= slack
    ensures WholeCentPrices(plan) ==> Amount(invoice.lines) == invoice.total as real / 100.0
  {
    DiscountLeavesSubtotal(plan, us, discount);
    var exact := Subtotal(plan, us) - discount;
    LineAmounts(plan, us, discount);
    UsageAmountsError(plan, us);
    RoundedError(exact);
    assert invoice.total as real / 100.0 == Rounded(exact);
    if WholeCentPrices(plan) {
      ExactTotalIsWholeCents(plan, us, discount);
    }
  }

  lemma {:induction false} ExactTotalIsWholeCents(plan: Plan, us: seq<Usage>, discount: real)
    requires WholeCentPrices(plan) && WholeCents(plan.basePrice) && IsDiscountOn(discount, plan.basePrice)
    ensures WholeCents(Subtotal(plan, us) - discount)
  {
    DiscountIsWholeCents(discount, plan.basePrice);
    CostIsWholeCents(plan, us);
    SumOfWholeCents(plan.basePrice, BilledCost(plan, us));
    SumOfWholeCents(Subtotal(plan, us), discount);
  }

  lemma {:induction false} LineAmounts(plan: Plan, us: seq<Usage>, discount: real)
    requires 0.0 <= plan.basePrice && 0.0 <= discount
    ensures Amount(BaseLines(plan) + AllUsageLines(plan, us) + DiscountLines(discount)) ==
            plan.basePrice + Amount(AllUsageLines(plan, us)) - discount
  {
    AmountAppend(BaseLines(plan) + AllUsageLines(plan, us), DiscountLines(discount));
    AmountAppend(BaseLines(plan), AllUsageLines(plan, us));
  }

  lemma {:induction false} DiscountIsWholeCents(discount: real, basePrice: real)
    requires IsDiscountOn(discount, basePrice)
    ensures WholeCents(discount)
  {}

  lemma {:induction false} CostIsWholeCents(plan: Plan, us: seq<Usage>)
    requires WholeCentPrices(plan)
    ensures WholeCents(BilledCost(plan, us))
  {
    if us == [] {
    } else {
      var n := |us| - 1;
      CostIsWholeCents(plan, us[..n]);
      if Billed(plan, us[n]) {
        var pr := plan.rules[us[n].service];
        MultipleOfWholeCents(Within(pr, us[n].total), pr.price);
        MultipleOfWholeCents(Over(pr, us[n].total), pr.overagePrice);
        SumOfWholeCents(Charge(Within(pr, us[n].total), pr.price), Charge(Over(pr, us[n].total), pr.overagePrice));
        SumOfWholeCents(BilledCost(plan, us[..n]), CostOf(plan, us[n]));
      }
    }
  }
}
