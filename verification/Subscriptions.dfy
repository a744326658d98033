/** Subscriptions and coupons: what sequential requests, each committed or rolled back, keep. */
module Subscriptions {
  import opened Common
  import Invoicing
  import Rounding

  datatype CouponRow = CouponRow(
    id: nat,
    code: string,
    rule: Invoicing.Coupon,
    validFrom: Option<int>,
    validUntil: Option<int>,
    maxUses: Option<int>,
    usedCount: int,
    planIds: seq<nat>,
    active: bool)

  /** What coupon creation is given; the primary key is generated. */
  datatype CouponDraft = CouponDraft(
    id: nat,
    code: string,
    rule: Invoicing.Coupon,
    validFrom: Option<int>,
    validUntil: Option<int>,
    maxUses: Option<int>,
    planIds: seq<nat>)

  datatype Redemption = Redemption(coupon: nat, tenant: nat, subscription: nat, cents: int)

  /** Its primary key is its place in the table; the discount is in cents. */
  datatype Subscription = Subscription(tenant: nat, plan: nat, active: bool, coupon: Option<nat>, discount: int)

  datatype Store = Store(
    basePrices: map<nat, real>,
    coupons: seq<CouponRow>,
    redemptions: seq<Redemption>,
    subscriptions: seq<Subscription>)

  const EMPTY := Store(map[], [], [], [])

  /** Coupon codes are in their normal form, stripped and upper case; "" means none given. */
  datatype Request =
    | SetPlan(plan: nat, basePrice: real)
    | Subscribe(tenant: nat, plan: nat, code: string, now: int)
    | CreateCoupon(draft: CouponDraft)
    | UpdateCoupon(id: nat, validFrom: Option<int>, validUntil: Option<int>, maxUses: Option<int>,
                   planIds: Option<seq<nat>>, active: Option<bool>)
    | DeleteCoupon(id: nat)

  /** Place of the tenant's active subscription, the table's length when there is none. */
  function ActiveOf(subs: seq<Subscription>, tenant: nat): (i: nat)
    ensures i <= |subs| && (i < |subs| ==> subs[i].tenant == tenant && subs[i].active)
    ensures forall j | i < j < |subs| :: !(subs[j].tenant == tenant && subs[j].active)
    ensures i == |subs| ==> forall j | 0 <= j < |subs| :: !(subs[j].tenant == tenant && subs[j].active)
  {
    if subs == [] then 0 else
      var n := |subs| - 1;
      if subs[n].tenant == tenant && subs[n].active then n else
        var i := ActiveOf(subs[..n], tenant);
        if i == n then n + 1 else i
  }

  function PlaceOfCoupon(coupons: seq<CouponRow>, id: nat): (i: nat)
    ensures i <= |coupons| && (i < |coupons| ==> coupons[i].id == id)
    ensures forall j | 0 <= j < i :: coupons[j].id != id
  {
    if coupons == [] || coupons[0].id == id then 0 else 1 + PlaceOfCoupon(coupons[1..], id)
  }

  /** `get_by_code`: an active coupon with the code. */
  function PlaceOfCode(coupons: seq<CouponRow>, code: string): (i: nat)
    ensures i <= |coupons| && (i < |coupons| ==> coupons[i].code == code && coupons[i].active)
  {
    if coupons == [] || (coupons[0].code == code && coupons[0].active) then 0 else 1 + PlaceOfCode(coupons[1..], code)
  }

  predicate Usable(c: CouponRow, plan: nat, now: int) {
    && (c.validFrom.Some? ==> c.validFrom.value <= now)
    && (c.validUntil.Some? ==> now <= c.validUntil.value)
    && (c.maxUses.Some? ==> c.usedCount < c.maxUses.value)
    && (c.planIds != [] ==> plan in c.planIds)
  }

  function DiscountOf(c: CouponRow, basePrice: real): int {
    Rounding.Cents(Invoicing.RawDiscount(c.rule, basePrice))
  }

  function Deactivated(subs: seq<Subscription>, tenant: nat): seq<Subscription> {
    var i := ActiveOf(subs, tenant);
    if i == |subs| then subs else subs[i := subs[i].(active := false)]
  }

  function Redeemed(st: Store, place: nat, tenant: nat, cents: int): Store
    requires place < |st.coupons| && st.subscriptions != []
  {
    var c := st.coupons[place];
    st.(coupons := st.coupons[place := c.(usedCount := c.usedCount + 1)],
        redemptions := st.redemptions + [Redemption(c.id, tenant, |st.subscriptions| - 1, cents)])
  }

  function WithSubscription(st: Store, tenant: nat, plan: nat, coupon: Option<nat>, cents: int): Store {
    st.(subscriptions := Deactivated(st.subscriptions, tenant) + [Subscription(tenant, plan, true, coupon, cents)])
  }

  function WithoutRedemptions(rs: seq<Redemption>, coupon: nat): seq<Redemption> {
    if rs == [] then []
    else WithoutRedemptions(rs[..|rs| - 1], coupon) + if rs[|rs| - 1].coupon == coupon then [] else [rs[|rs| - 1]]
  }

  function WithoutCoupon(subs: seq<Subscription>, coupon: nat): seq<Subscription> {
    seq(|subs|, i requires 0 <= i < |subs| =>
      if subs[i].coupon == Some(coupon) then subs[i].(coupon := None) else subs[i])
  }

  function RowOf(d: CouponDraft): CouponRow {
    CouponRow(d.id, d.code, d.rule, d.validFrom, d.validUntil, d.maxUses, 0, d.planIds, true)
  }

  predicate CodeTaken(coupons: seq<CouponRow>, code: string) {
    exists i | 0 <= i < |coupons| :: coupons[i].code == code
  }

  predicate IdTaken(coupons: seq<CouponRow>, id: nat) {
    exists i | 0 <= i < |coupons| :: coupons[i].id == id
  }

  /** The code is given and new, the value in range, and the primary key not in use. */
  predicate IsNewCoupon(coupons: seq<CouponRow>, d: CouponDraft) {
    d.code != "" && !CodeTaken(coupons, d.code) && Invoicing.IsCoupon(d.rule) && !IdTaken(coupons, d.id)
  }

  /** The store a request would commit, or nothing when it raises. */
  function Handle(st: Store, r: Request): Option<Store> {
    match r
    case SetPlan(plan, basePrice) => Some(st.(basePrices := st.basePrices[plan := basePrice]))
    case Subscribe(tenant, plan, code, now) =>
      if plan !in st.basePrices then None
      else if code == "" then Some(WithSubscription(st, tenant, plan, None, 0))
      else
        var place := PlaceOfCode(st.coupons, code);
        if place == |st.coupons| || !Usable(st.coupons[place], plan, now) then None
        else
          var cents := DiscountOf(st.coupons[place], st.basePrices[plan]);
          var subscribed := WithSubscription(st, tenant, plan, Some(st.coupons[place].id), cents);
          Some(if 0 < cents then Redeemed(subscribed, place, tenant, cents) else subscribed)
    case CreateCoupon(d) =>
      if IsNewCoupon(st.coupons, d) then Some(st.(coupons := st.coupons + [RowOf(d)])) else None
    case UpdateCoupon(id, validFrom, validUntil, maxUses, planIds, active) =>
      var place := PlaceOfCoupon(st.coupons, id);
      if place == |st.coupons| then None
      else
        var c := st.coupons[place];
        Some(st.(coupons := st.coupons[place := c.(
          validFrom := if validFrom.Some? then validFrom else c.validFrom,
          validUntil := if validUntil.Some? then validUntil else c.validUntil,
          maxUses := if maxUses.Some? then maxUses else c.maxUses,
          planIds := planIds.GetOr(c.planIds),
          active := active.GetOr(c.active))]))
    case DeleteCoupon(id) =>
      var place := PlaceOfCoupon(st.coupons, id);
      if place == |st.coupons| then None
      else Some(st.(coupons := st.coupons[..place] + st.coupons[place + 1..],
                    redemptions := WithoutRedemptions(st.redemptions, id),
                    subscriptions := WithoutCoupon(st.subscriptions, id)))
  }

  function After(st: Store, r: Request): Store {
    Handle(st, r).GetOr(st)
  }

  function Run(rs: seq<Request>): Store {
    if rs == [] then EMPTY else After(Run(rs[..|rs| - 1]), rs[|rs| - 1])
  }

  // ---- Counting ----

  function Uses(rs: seq<Redemption>, coupon: nat): nat {
    if rs == [] then 0 else Uses(rs[..|rs| - 1], coupon) + if rs[|rs| - 1].coupon == coupon then 1 else 0
  }

  function Given(rs: seq<Redemption>, coupon: nat): int {
    if rs == [] then 0
    else Given(rs[..|rs| - 1], coupon) + if rs[|rs| - 1].coupon == coupon then rs[|rs| - 1].cents else 0
  }

  /** The positive discounts on the subscriptions that carry the coupon. */
  function Carried(subs: seq<Subscription>, coupon: nat): int {
    if subs == [] then 0 else
      var s := subs[|subs| - 1];
      Carried(subs[..|subs| - 1], coupon) + if s.coupon == Some(coupon) && 0 < s.discount then s.discount else 0
  }

  lemma {:induction false} CarriedIgnoresActivity(subs: seq<Subscription>, i: nat, coupon: nat)
    requires i < |subs|
    ensures Carried(subs[i := subs[i].(active := false)], coupon) == Carried(subs, coupon)
  {
    var n, changed := |subs| - 1, subs[i := subs[i].(active := false)];
    if i < n {
      CarriedIgnoresActivity(subs[..n], i, coupon);
      assert changed[..n] == subs[..n][i := subs[i].(active := false)];
    } else {
      assert changed[..n] == subs[..n];
    }
  }

  lemma {:induction false} RemovalCountsOthers(rs: seq<Redemption>, removed: nat, coupon: nat)
    requires coupon != removed
    ensures Uses(WithoutRedemptions(rs, removed), coupon) == Uses(rs, coupon)
    ensures Given(WithoutRedemptions(rs, removed), coupon) == Given(rs, coupon)
  {
    if rs == [] {
    } else {
      RemovalCountsOthers(rs[..|rs| - 1], removed, coupon);
      var before, last := WithoutRedemptions(rs[..|rs| - 1], removed), rs[|rs| - 1];
      assert (before + [last])[..|before|] == before && before + [] == before;
      assert WithoutRedemptions(rs, removed) == if last.coupon == removed then before else before + [last];
    }
  }

  lemma {:induction false} RemovalCarriesOthers(subs: seq<Subscription>, removed: nat, coupon: nat)
    requires coupon != removed
    ensures Carried(WithoutCoupon(subs, removed), coupon) == Carried(subs, coupon)
  {
    if subs == [] {
    } else {
      var n := |subs| - 1;
      RemovalCarriesOthers(subs[..n], removed, coupon);
      assert WithoutCoupon(subs, removed)[..n] == WithoutCoupon(subs[..n], removed);
    }
  }

  lemma {:induction false} UnusedCouponCountsZero(st: Store, coupon: nat)
    requires forall i | 0 <= i < |st.redemptions| :: st.redemptions[i].coupon != coupon
    requires forall i | 0 <= i < |st.subscriptions| :: st.subscriptions[i].coupon != Some(coupon)
    ensures Uses(st.redemptions, coupon) == 0 && Given(st.redemptions, coupon) == 0 && Carried(st.subscriptions, coupon) == 0
    decreases |st.redemptions| + |st.subscriptions|
  {
    if st.redemptions != [] {
      UnusedCouponCountsZero(st.(redemptions := st.redemptions[..|st.redemptions| - 1]), coupon);
    } else if st.subscriptions != [] {
      UnusedCouponCountsZero(st.(subscriptions := st.subscriptions[..|st.subscriptions| - 1]), coupon);
    }
  }

  // ---- What every run keeps ----

  predicate OneActiveEach(subs: seq<Subscription>) {
    forall i, j | 0 <= i < j < |subs| && subs[i].active && subs[j].active :: subs[i].tenant != subs[j].tenant
  }

  predicate DistinctCoupons(coupons: seq<CouponRow>) {
    forall i, j | 0 <= i < j < |coupons| :: coupons[i].id != coupons[j].id && coupons[i].code != coupons[j].code
  }

  predicate Booked(c: CouponRow, redemptions: seq<Redemption>, subs: seq<Subscription>) {
    c.usedCount == Uses(redemptions, c.id) && Given(redemptions, c.id) == Carried(subs, c.id)
  }

  /** The foreign keys: redemptions and subscriptions refer to coupons that exist. */
  predicate Refers(st: Store) {
    && (forall i | 0 <= i < |st.redemptions| :: IdTaken(st.coupons, st.redemptions[i].coupon))
    && (forall i | 0 <= i < |st.subscriptions| && st.subscriptions[i].coupon.Some? ::
          IdTaken(st.coupons, st.subscriptions[i].coupon.value))
  }

  predicate Inv(st: Store) {
    && OneActiveEach(st.subscriptions) && DistinctCoupons(st.coupons)
    && forall i | 0 <= i < |st.coupons| :: Booked(st.coupons[i], st.redemptions, st.subscriptions)
  }

  lemma {:induction false} DeactivatedHasNone(subs: seq<Subscription>, tenant: nat)
    requires OneActiveEach(subs)
    ensures OneActiveEach(Deactivated(subs, tenant))
    ensures forall j | 0 <= j < |subs| ::
              !(Deactivated(subs, tenant)[j].tenant == tenant && Deactivated(subs, tenant)[j].active)
  {}

  lemma {:induction false} OthersStayActive(subs: seq<Subscription>, tenant: nat, other: nat)
    requires ActiveOf(subs, other) < |subs| && other != tenant
    ensures ActiveOf(Deactivated(subs, tenant), other) == ActiveOf(subs, other)
  {
    var a, rest := ActiveOf(subs, other), Deactivated(subs, tenant);
    assert rest[a] == subs[a];
    assert forall j | a < j < |rest| :: !(rest[j].tenant == other && rest[j].active);
  }

  lemma {:induction false} SubscribingKeepsOneActive(subs: seq<Subscription>, s: Subscription)
    requires OneActiveEach(subs)
    ensures OneActiveEach(Deactivated(subs, s.tenant) + [s])
    ensures forall t :: ActiveOf(subs, t) < |subs| ==> t == s.tenant || ActiveOf(Deactivated(subs, s.tenant), t) == ActiveOf(subs, t)
  {
    DeactivatedHasNone(subs, s.tenant);
    forall t | ActiveOf(subs, t) < |subs| && t != s.tenant
      ensures ActiveOf(Deactivated(subs, s.tenant), t) == ActiveOf(subs, t)
    {
      OthersStayActive(subs, s.tenant, t);
    }
  }

  lemma {:induction false} SubscribingBooks(st: Store, tenant: nat, plan: nat, coupon: Option<nat>, cents: int, id: nat)
    ensures
      Carried(WithSubscription(st, tenant, plan, coupon, cents).subscriptions, id) ==
      Carried(st.subscriptions, id) + if coupon == Some(id) && 0 < cents then cents else 0
  {
    var rest := Deactivated(st.subscriptions, tenant);
    var s := Subscription(tenant, plan, true, coupon, cents);
    assert (rest + [s])[..|rest|] == rest;
    var i := ActiveOf(st.subscriptions, tenant);
    if i < |st.subscriptions| {
      CarriedIgnoresActivity(st.subscriptions, i, id);
    }
  }

  /** A subscription that gives nothing away leaves the books as they were. */
  lemma {:induction false} FreeSubscriptionKeepsInv(st: Store, tenant: nat, plan: nat, coupon: Option<nat>, cents: int)
    requires Inv(st) && (coupon.None? || cents <= 0)
    ensures Inv(WithSubscription(st, tenant, plan, coupon, cents))
  {
    var st' := WithSubscription(st, tenant, plan, coupon, cents);
    SubscribingKeepsOneActive(st.subscriptions, Subscription(tenant, plan, true, coupon, cents));
    forall i | 0 <= i < |st'.coupons|
      ensures Booked(st'.coupons[i], st'.redemptions, st'.subscriptions)
    {
      SubscribingBooks(st, tenant, plan, coupon, cents, st.coupons[i].id);
      assert Booked(st.coupons[i], st.redemptions, st.subscriptions);
    }
  }

  /** One that does is booked on its coupon and on no other. */
  lemma {:induction false} RedeemingSubscriptionKeepsInv(st: Store, place: nat, tenant: nat, plan: nat, cents: int)
    requires Inv(st) && place < |st.coupons| && 0 < cents
    ensures Inv(Redeemed(WithSubscription(st, tenant, plan, Some(st.coupons[place].id), cents), place, tenant, cents))
  {
    var id := st.coupons[place].id;
    var subscribed := WithSubscription(st, tenant, plan, Some(id), cents);
    var st' := Redeemed(subscribed, place, tenant, cents);
    SubscribingKeepsOneActive(st.subscriptions, Subscription(tenant, plan, true, Some(id), cents));
    assert st'.redemptions[..|st.redemptions|] == st.redemptions;
    forall i | 0 <= i < |st'.coupons|
      ensures Booked(st'.coupons[i], st'.redemptions, st'.subscriptions)
    {
      SubscribingBooks(st, tenant, plan, Some(id), cents, st.coupons[i].id);
      assert Booked(st.coupons[i], st.redemptions, st.subscriptions);
      assert st.coupons[i].id == id <==> i == place;
    }
  }

  lemma {:induction false} SubscribeKeepsInv(st: Store, r: Request)
    requires Inv(st) && r.Subscribe?
    ensures Inv(After(st, r))
  {
    if Handle(st, r).Some? {
      if r.code == "" {
        FreeSubscriptionKeepsInv(st, r.tenant, r.plan, None, 0);
      } else {
        var place := PlaceOfCode(st.coupons, r.code);
        var cents := DiscountOf(st.coupons[place], st.basePrices[r.plan]);
        if 0 < cents {
          RedeemingSubscriptionKeepsInv(st, place, r.tenant, r.plan, cents);
        } else {
          FreeSubscriptionKeepsInv(st, r.tenant, r.plan, Some(st.coupons[place].id), cents);
        }
      }
    }
  }

  lemma {:induction false} DeleteKeepsInv(st: Store, r: Request)
    requires Inv(st) && r.DeleteCoupon?
    ensures Inv(After(st, r))
  {
    var place, st' := PlaceOfCoupon(st.coupons, r.id), After(st, r);
    if place < |st.coupons| {
      forall i | 0 <= i < |st'.coupons|
        ensures Booked(st'.coupons[i], st'.redemptions, st'.subscriptions)
      {
        var c := st'.coupons[i];
        assert c == if i < place then st.coupons[i] else st.coupons[i + 1];
        assert c.id != r.id;
        assert Booked(c, st.redemptions, st.subscriptions);
        RemovalCountsOthers(st.redemptions, r.id, c.id);
        RemovalCarriesOthers(st.subscriptions, r.id, c.id);
      }
    }
  }

  lemma {:induction false} CreateKeepsInv(st: Store, r: Request)
    requires Inv(st) && Refers(st) && r.CreateCoupon?
    ensures Inv(After(st, r))
  {
    if IsNewCoupon(st.coupons, r.draft) {
      assert forall i | 0 <= i < |st.redemptions| :: IdTaken(st.coupons, st.redemptions[i].coupon);
      UnusedCouponCountsZero(st, r.draft.id);
    }
  }

  lemma {:induction false} UpdateKeepsInv(st: Store, r: Request)
    requires Inv(st) && r.UpdateCoupon?
    ensures Inv(After(st, r))
  {
    var place, st' := PlaceOfCoupon(st.coupons, r.id), After(st, r);
    forall i | 0 <= i < |st'.coupons|
      ensures Booked(st'.coupons[i], st'.redemptions, st'.subscriptions)
    {
      assert Booked(st.coupons[i], st.redemptions, st.subscriptions);
    }
  }

  lemma {:induction false} IdsStay(coupons: seq<CouponRow>, coupons': seq<CouponRow>, id: nat)
    requires IdTaken(coupons, id) && |coupons| <= |coupons'|
    requires forall i | 0 <= i < |coupons| :: coupons'[i].id == coupons[i].id
    ensures IdTaken(coupons', id)
  {
    var i :| 0 <= i < |coupons| && coupons[i].id == id;
    assert coupons'[i].id == id;
  }

  lemma {:induction false} OtherIdsStay(coupons: seq<CouponRow>, place: nat, id: nat)
    requires place < |coupons| && IdTaken(coupons, id) && id != coupons[place].id
    ensures IdTaken(coupons[..place] + coupons[place + 1..], id)
  {
    var rest := coupons[..place] + coupons[place + 1..];
    var i :| 0 <= i < |coupons| && coupons[i].id == id;
    assert i != place;
    assert rest[if i < place then i else i - 1].id == id;
  }

  lemma {:induction false} RemovedAreGone(rs: seq<Redemption>, coupon: nat)
    ensures forall r | r in WithoutRedemptions(rs, coupon) :: r in rs && r.coupon != coupon
  {
    if rs == [] {
    } else {
      RemovedAreGone(rs[..|rs| - 1], coupon);
    }
  }

  lemma {:induction false} DeleteKeepsRefers(st: Store, id: nat)
    requires Refers(st)
    ensures Refers(After(st, DeleteCoupon(id)))
  {
    var place, st' := PlaceOfCoupon(st.coupons, id), After(st, DeleteCoupon(id));
    if place < |st.coupons| {
      RemovedAreGone(st.redemptions, id);
      forall i | 0 <= i < |st'.redemptions|
        ensures IdTaken(st'.coupons, st'.redemptions[i].coupon)
      {
        assert st'.redemptions[i] in st'.redemptions;
        OtherIdsStay(st.coupons, place, st'.redemptions[i].coupon);
      }
      forall i | 0 <= i < |st'.subscriptions| && st'.subscriptions[i].coupon.Some?
        ensures IdTaken(st'.coupons, st'.subscriptions[i].coupon.value)
      {
        assert st.subscriptions[i].coupon == st'.subscriptions[i].coupon;
        OtherIdsStay(st.coupons, place, st'.subscriptions[i].coupon.value);
      }
    }
  }

  lemma {:induction false} SubscribeKeepsRefers(st: Store, r: Request)
    requires Refers(st) && r.Subscribe?
    ensures Refers(After(st, r))
  {
    var st' := After(st, r);
    if Handle(st, r).Some? {
      var n, place := |st.subscriptions|, PlaceOfCode(st.coupons, r.code);
      forall id | IdTaken(st.coupons, id)
        ensures IdTaken(st'.coupons, id)
      {
        IdsStay(st.coupons, st'.coupons, id);
      }
      assert r.code != "" ==> IdTaken(st.coupons, st.coupons[place].id);
      assert forall i | 0 <= i < n :: st'.subscriptions[i].coupon == st.subscriptions[i].coupon;
    }
  }

  lemma {:induction false} StepKeepsRefers(st: Store, r: Request)
    requires Refers(st)
    ensures Refers(After(st, r))
  {
    match r
    case Subscribe(_, _, _, _) => SubscribeKeepsRefers(st, r);
    case DeleteCoupon(id) => DeleteKeepsRefers(st, id);
    case _ =>
      forall id | IdTaken(st.coupons, id)
        ensures IdTaken(After(st, r).coupons, id)
      {
        IdsStay(st.coupons, After(st, r).coupons, id);
      }
  }

  /** In every committed state each tenant has at most one active subscription, each coupon's
      count is its number of redemption rows, what it gave is what subscriptions carry, and no
      row refers to a coupon that is gone. */
  lemma {:induction false} EveryRunKeepsInv(rs: seq<Request>)
    ensures Inv(Run(rs)) && Refers(Run(rs))
  {
    if rs == [] {
    } else {
      var n := |rs| - 1;
      EveryRunKeepsInv(rs[..n]);
      StepKeepsRefers(Run(rs[..n]), rs[n]);
      match rs[n]
      case SetPlan(_, _) =>
      case Subscribe(_, _, _, _) => SubscribeKeepsInv(Run(rs[..n]), rs[n]);
      case CreateCoupon(_) => CreateKeepsInv(Run(rs[..n]), rs[n]);
      case UpdateCoupon(_, _, _, _, _, _) => UpdateKeepsInv(Run(rs[..n]), rs[n]);
      case DeleteCoupon(_) => DeleteKeepsInv(Run(rs[..n]), rs[n]);
    }
  }

  lemma {:induction false} OtherRequestsKeepActive(st: Store, r: Request, i: nat)
    requires i < |st.subscriptions| && (r.Subscribe? ==> Handle(st, r).None?)
    ensures
      var subs := After(st, r).subscriptions;
      |subs| == |st.subscriptions| && subs[i].tenant == st.subscriptions[i].tenant && subs[i].active == st.subscriptions[i].active
  {}

  /** No request, refused or not, leaves a subscribed tenant without an active subscription. */
  lemma {:induction false} ActiveIsNeverLost(st: Store, r: Request, tenant: nat)
    requires OneActiveEach(st.subscriptions) && ActiveOf(st.subscriptions, tenant) < |st.subscriptions|
    ensures ActiveOf(After(st, r).subscriptions, tenant) < |After(st, r).subscriptions|
  {
    var subs := After(st, r).subscriptions;
    var i := ActiveOf(st.subscriptions, tenant);
    if r.Subscribe? && Handle(st, r).Some? {
      var last := subs[|subs| - 1];
      assert subs == Deactivated(st.subscriptions, r.tenant) + [last] && last.tenant == r.tenant && last.active;
      if tenant != r.tenant {
        OthersStayActive(st.subscriptions, r.tenant, tenant);
      }
    } else {
      OtherRequestsKeepActive(st, r, i);
    }
  }

  /** A redemption never takes a coupon past the maximum in force when it was made, and only a
      later update can put the count above the maximum. */
  lemma {:induction false} RedemptionRespectsMaximum(st: Store, r: Request, i: nat)
    requires Inv(st) && i < |st.coupons| && i < |After(st, r).coupons| && !r.DeleteCoupon?
    ensures
      var before, after := st.coupons[i], After(st, r).coupons[i];
      && after.usedCount <= before.usedCount + 1
      && (after.usedCount > before.usedCount && before.maxUses.Some? ==> after.usedCount <= after.maxUses.value == before.maxUses.value)
      && (after.maxUses.Some? && after.usedCount > after.maxUses.value ==>
            r.UpdateCoupon? || (before.maxUses.Some? && before.usedCount > before.maxUses.value))
  {}

  predicate WithinMaximum(c: CouponRow) {
    c.maxUses.Some? ==> c.usedCount <= c.maxUses.value
  }

  predicate WithinMaxima(st: Store) {
    forall i | 0 <= i < |st.coupons| :: WithinMaximum(st.coupons[i])
  }

  /** A new coupon's maximum is not negative, an updated one's not below the uses so far. */
  predicate SetsFairMaximum(st: Store, r: Request) {
    match r
    case CreateCoupon(d) => d.maxUses.Some? && IsNewCoupon(st.coupons, d) ==> 0 <= d.maxUses.value
    case UpdateCoupon(id, _, _, maxUses, _, _) =>
      var place := PlaceOfCoupon(st.coupons, id);
      maxUses.Some? && place < |st.coupons| ==> st.coupons[place].usedCount <= maxUses.value
    case _ => true
  }

  lemma {:induction false} CreationKeepsMaximaIff(st: Store, d: CouponDraft)
    requires WithinMaxima(st) && IsNewCoupon(st.coupons, d)
    ensures WithinMaxima(After(st, CreateCoupon(d))) <==> (d.maxUses.Some? ==> 0 <= d.maxUses.value)
  {
    var coupons := st.coupons + [RowOf(d)];
    assert coupons[|st.coupons|] == RowOf(d) && forall i | 0 <= i < |st.coupons| :: coupons[i] == st.coupons[i];
  }

  lemma {:induction false} UpdateKeepsMaximaIff(st: Store, r: Request)
    requires WithinMaxima(st) && r.UpdateCoupon?
    ensures WithinMaxima(After(st, r)) <==> SetsFairMaximum(st, r)
  {
    var place, coupons := PlaceOfCoupon(st.coupons, r.id), After(st, r).coupons;
    if place < |st.coupons| {
      assert WithinMaximum(st.coupons[place]) && coupons[place].usedCount == st.coupons[place].usedCount;
    }
  }

  lemma {:induction false} SubscribeKeepsMaxima(st: Store, r: Request)
    requires WithinMaxima(st) && r.Subscribe?
    ensures WithinMaxima(After(st, r))
  {
    var place := PlaceOfCode(st.coupons, r.code);
    if r.code != "" && place < |st.coupons| {
      assert WithinMaximum(st.coupons[place]);
    }
  }

  lemma {:induction false} DeleteKeepsMaxima(st: Store, id: nat)
    requires WithinMaxima(st)
    ensures WithinMaxima(After(st, DeleteCoupon(id)))
  {
    var place, coupons := PlaceOfCoupon(st.coupons, id), After(st, DeleteCoupon(id)).coupons;
    if place < |st.coupons| {
      assert forall i | 0 <= i < |coupons| :: coupons[i] == if i < place then st.coupons[i] else st.coupons[i + 1];
    }
  }

  lemma {:induction false} MaximaStepIff(st: Store, r: Request)
    requires WithinMaxima(st)
    ensures WithinMaxima(After(st, r)) <==> SetsFairMaximum(st, r)
  {
    match r
    case CreateCoupon(d) =>
      if IsNewCoupon(st.coupons, d) {
        CreationKeepsMaximaIff(st, d);
      }
    case UpdateCoupon(_, _, _, _, _, _) => UpdateKeepsMaximaIff(st, r);
    case Subscribe(_, _, _, _) => SubscribeKeepsMaxima(st, r);
    case DeleteCoupon(id) => DeleteKeepsMaxima(st, id);
    case SetPlan(_, _) =>
  }

  /** Every committed state of the run is within all maxima. */
  predicate AlwaysWithinMaxima(rs: seq<Request>) {
    WithinMaxima(Run(rs)) && (rs != [] ==> AlwaysWithinMaxima(rs[..|rs| - 1]))
  }

  predicate AlwaysSetsFairMaximum(rs: seq<Request>) {
    rs != [] ==> SetsFairMaximum(Run(rs[..|rs| - 1]), rs[|rs| - 1]) && AlwaysSetsFairMaximum(rs[..|rs| - 1])
  }

  /** Redemptions never take a coupon past its maximum: every state of a run is within all maxima
      exactly when no creation or update sets one below the uses the coupon then has. */
  lemma {:induction false} MaximaHoldIff(rs: seq<Request>)
    ensures AlwaysWithinMaxima(rs) <==> AlwaysSetsFairMaximum(rs)
  {
    if rs == [] {
    } else {
      var n := |rs| - 1;
      MaximaHoldIff(rs[..n]);
      if AlwaysWithinMaxima(rs[..n]) {
        MaximaStepIff(Run(rs[..n]), rs[n]);
      }
    }
  }

  /** All discounts on the subscriptions that carry the coupon. */
  function AllCarried(subs: seq<Subscription>, coupon: nat): int {
    if subs == [] then 0 else
      var s := subs[|subs| - 1];
      AllCarried(subs[..|subs| - 1], coupon) + if s.coupon == Some(coupon) then s.discount else 0
  }

  lemma {:induction false} CarriedIsAllIff(subs: seq<Subscription>, coupon: nat)
    ensures AllCarried(subs, coupon) <= Carried(subs, coupon)
    ensures AllCarried(subs, coupon) == Carried(subs, coupon) <==>
            forall i | 0 <= i < |subs| && subs[i].coupon == Some(coupon) :: 0 <= subs[i].discount
  {
    if subs == [] {
    } else {
      CarriedIsAllIff(subs[..|subs| - 1], coupon);
    }
  }

  /** In a consistent store what a coupon gave equals the discounts on its subscriptions exactly
      when none of those is negative. */
  lemma {:induction false} RedeemedEqualsDiscountsIff(st: Store, i: nat)
    requires Inv(st) && i < |st.coupons|
    ensures CouponBalances(st, st.coupons[i].id) <==>
            forall j | 0 <= j < |st.subscriptions| && st.subscriptions[j].coupon == Some(st.coupons[i].id) ::
              0 <= st.subscriptions[j].discount
  {
    assert Booked(st.coupons[i], st.redemptions, st.subscriptions);
    CarriedIsAllIff(st.subscriptions, st.coupons[i].id);
  }

  // ---- Redeemed discounts against the discounts carried ----

  predicate CouponBalances(st: Store, coupon: nat) {
    Given(st.redemptions, coupon) == AllCarried(st.subscriptions, coupon)
  }

  predicate Balanced(st: Store) {
    forall i | 0 <= i < |st.coupons| :: CouponBalances(st, st.coupons[i].id)
  }

  predicate NoneNegative(subs: seq<Subscription>) {
    forall j | 0 <= j < |subs| :: 0 <= subs[j].discount
  }

  /** An accepted subscription whose coupon computes a discount below zero. */
  predicate MeetsNegativeDiscount(st: Store, r: Request) {
    && r.Subscribe? && r.code != "" && Handle(st, r).Some?
    && DiscountOf(st.coupons[PlaceOfCode(st.coupons, r.code)], st.basePrices[r.plan]) < 0
  }

  lemma {:induction false} NegativeDiscountUnbalances(st: Store, r: Request)
    requires Inv(st) && MeetsNegativeDiscount(st, r)
    ensures !Balanced(After(st, r))
  {
    var place, st' := PlaceOfCode(st.coupons, r.code), After(st, r);
    SubscribeKeepsInv(st, r);
    RedeemedEqualsDiscountsIff(st', place);
    var last := st'.subscriptions[|st'.subscriptions| - 1];
    assert last.coupon == Some(st'.coupons[place].id) && last.discount < 0;
  }

  lemma {:induction false} OthersKeepNoneNegative(st: Store, r: Request)
    requires NoneNegative(st.subscriptions) && !MeetsNegativeDiscount(st, r)
    ensures NoneNegative(After(st, r).subscriptions)
  {}

  lemma {:induction false} NoneNegativeBalances(st: Store)
    requires Inv(st) && NoneNegative(st.subscriptions)
    ensures Balanced(st)
  {
    forall i: nat | i < |st.coupons|
      ensures CouponBalances(st, st.coupons[i].id)
    {
      RedeemedEqualsDiscountsIff(st, i);
    }
  }

  predicate AlwaysBalanced(rs: seq<Request>) {
    Balanced(Run(rs)) && (rs != [] ==> AlwaysBalanced(rs[..|rs| - 1]))
  }

  predicate NeverMeetsNegative(rs: seq<Request>) {
    rs != [] ==> !MeetsNegativeDiscount(Run(rs[..|rs| - 1]), rs[|rs| - 1]) && NeverMeetsNegative(rs[..|rs| - 1])
  }

  /** For every coupon in every committed state of a run the redeemed discounts sum to those on the
      subscriptions carrying it, exactly when no accepted subscription met a negative discount. */
  lemma {:induction false} RedeemedBalancesIff(rs: seq<Request>)
    ensures AlwaysBalanced(rs) <==> NeverMeetsNegative(rs)
    ensures NeverMeetsNegative(rs) ==> NoneNegative(Run(rs).subscriptions)
  {
    EveryRunKeepsInv(rs);
    if rs == [] {
    } else {
      var n := |rs| - 1;
      RedeemedBalancesIff(rs[..n]);
      EveryRunKeepsInv(rs[..n]);
      if MeetsNegativeDiscount(Run(rs[..n]), rs[n]) {
        NegativeDiscountUnbalances(Run(rs[..n]), rs[n]);
      } else if NeverMeetsNegative(rs[..n]) {
        OthersKeepNoneNegative(Run(rs[..n]), rs[n]);
        NoneNegativeBalances(Run(rs));
      }
    }
  }

  predicate SetsNonNegativePrice(r: Request) {
    r.SetPlan? ==> 0.0 <= r.basePrice
  }

  predicate FairlyPriced(st: Store) {
    && (forall plan | plan in st.basePrices :: 0.0 <= st.basePrices[plan])
    && (forall i | 0 <= i < |st.coupons| :: Invoicing.IsCoupon(st.coupons[i].rule))
  }

  lemma {:induction false} DiscountIsNonNegative(c: CouponRow, basePrice: real)
    requires Invoicing.IsCoupon(c.rule) && 0.0 <= basePrice
    ensures 0 <= DiscountOf(c, basePrice)
  {
    Invoicing.DiscountIsPartOfBase(c.rule, basePrice);
    Rounding.RoundingIsMonotone(0.0, 100.0 * Invoicing.RawDiscount(c.rule, basePrice));
  }

  /** So they do in every run that sets no base price below zero. */
  lemma {:induction false} NonNegativePricesBalance(rs: seq<Request>)
    requires forall r | r in rs :: SetsNonNegativePrice(r)
    ensures AlwaysBalanced(rs) && FairlyPriced(Run(rs))
  {
    RedeemedBalancesIff(rs);
    if rs == [] {
    } else {
      var n := |rs| - 1;
      NonNegativePricesBalance(rs[..n]);
      RedeemedBalancesIff(rs[..n]);
      var st, r := Run(rs[..n]), rs[n];
      assert SetsNonNegativePrice(r);
      if r.Subscribe? && r.code != "" && Handle(st, r).Some? {
        DiscountIsNonNegative(st.coupons[PlaceOfCode(st.coupons, r.code)], st.basePrices[r.plan]);
      }
      StepKeepsFairPrices(st, r);
    }
  }

  lemma {:induction false} StepKeepsFairPrices(st: Store, r: Request)
    requires FairlyPriced(st) && SetsNonNegativePrice(r)
    ensures FairlyPriced(After(st, r))
  {}

  lemma {:induction false} RunOneMore(rs: seq<Request>, r: Request)
    ensures Run(rs + [r]) == After(Run(rs), r)
  {
    assert (rs + [r])[..|rs|] == rs;
  }

  /** Half off a base price of -10: nothing is redeemed, and the subscription carries -5. */
  lemma {:induction false} NegativePriceUnbalances(d: CouponDraft) returns (rs: seq<Request>)
    requires d.code != "" && d.rule == Invoicing.Percent(50.0) && d.maxUses.None? && d.planIds == []
    requires d.validFrom.None? && d.validUntil.None?
    ensures rs == [SetPlan(0, -10.0), CreateCoupon(d), Subscribe(0, 0, d.code, 0)]
    ensures |Run(rs).coupons| == 1 && Run(rs).coupons[0].id == d.id
    ensures Given(Run(rs).redemptions, d.id) == 0 && AllCarried(Run(rs).subscriptions, d.id) == -500
  {
    rs := [SetPlan(0, -10.0)];
    RunOneMore([], SetPlan(0, -10.0));
    RunOneMore(rs, CreateCoupon(d));
    rs := rs + [CreateCoupon(d)];
    var st := Run(rs);
    assert st == EMPTY.(basePrices := map[0 := -10.0], coupons := [RowOf(d)]);
    RunOneMore(rs, Subscribe(0, 0, d.code, 0));
    rs := rs + [Subscribe(0, 0, d.code, 0)];
    assert PlaceOfCode(st.coupons, d.code) == 0;
    assert DiscountOf(RowOf(d), -10.0) == -500 by {
      assert Invoicing.RawDiscount(d.rule, -10.0) == -5.0;
    }
    assert Run(rs).subscriptions == [Subscription(0, 0, true, Some(d.id), -500)];
    assert Run(rs).subscriptions[..0] == [];
  }

  // ---- A created coupon ----

  lemma {:induction false} CodesFoundAfterAdding(coupons: seq<CouponRow>, c: CouponRow, code: string)
    ensures
      PlaceOfCode(coupons + [c], code) ==
      if PlaceOfCode(coupons, code) < |coupons| then PlaceOfCode(coupons, code)
      else if c.code == code && c.active then |coupons| else |coupons| + 1
  {
    if coupons == [] {
      assert [c][1..] == [];
    } else {
      assert (coupons + [c])[1..] == coupons[1..] + [c];
      CodesFoundAfterAdding(coupons[1..], c, code);
    }
  }

  /** The code of a created coupon finds that coupon, unused; every other code what it found before;
      and no second coupon gets the code. */
  lemma {:induction false} CreatedCouponIsFound(st: Store, d: CouponDraft)
    requires Handle(st, CreateCoupon(d)).Some?
    ensures
      var coupons := After(st, CreateCoupon(d)).coupons;
      var place := PlaceOfCode(coupons, d.code);
      && place == |st.coupons| < |coupons| && coupons[place].id == d.id && coupons[place].usedCount == 0
      && coupons[place].rule == d.rule
    ensures
      var coupons := After(st, CreateCoupon(d)).coupons;
      forall code | code != d.code ::
        if PlaceOfCode(st.coupons, code) == |st.coupons| then PlaceOfCode(coupons, code) == |coupons|
        else PlaceOfCode(coupons, code) == PlaceOfCode(st.coupons, code)
    ensures forall d': CouponDraft | d'.code == d.code :: Handle(After(st, CreateCoupon(d)), CreateCoupon(d')).None?
  {
    var coupons := After(st, CreateCoupon(d)).coupons;
    assert coupons[|st.coupons|].code == d.code;
    assert PlaceOfCode(st.coupons, d.code) == |st.coupons|;
    CodesFoundAfterAdding(st.coupons, RowOf(d), d.code);
    forall code | code != d.code
      ensures PlaceOfCode(coupons, code) ==
              if PlaceOfCode(st.coupons, code) < |st.coupons| then PlaceOfCode(st.coupons, code) else |coupons|
    {
      CodesFoundAfterAdding(st.coupons, RowOf(d), code);
    }
  }

  /** A created coupon serves a subscription exactly on a priced plan it lists, within its dates and
      with a use left, and gives the discount of its rule. */
  lemma {:induction false} CreatedCouponServes(st: Store, d: CouponDraft, tenant: nat, plan: nat, now: int)
    requires Handle(st, CreateCoupon(d)).Some?
    ensures
      var created, subscribe := After(st, CreateCoupon(d)), Subscribe(tenant, plan, d.code, now);
      && (Handle(created, subscribe).Some? <==>
            && plan in st.basePrices && (d.planIds == [] || plan in d.planIds) && (d.maxUses.Some? ==> 0 < d.maxUses.value)
            && (d.validFrom.Some? ==> d.validFrom.value <= now) && (d.validUntil.Some? ==> now <= d.validUntil.value))
      && (Handle(created, subscribe).Some? ==>
            var subs := After(created, subscribe).subscriptions;
            subs[|subs| - 1] == Subscription(tenant, plan, true, Some(d.id),
                                             Rounding.Cents(Invoicing.RawDiscount(d.rule, st.basePrices[plan]))))
  {
    CreatedCouponIsFound(st, d);
  }

  // ---- What each request does ----

  /** Prices change by being set, one plan at a time. */
  lemma {:induction false} PricesAreSet(st: Store, r: Request)
    ensures r.SetPlan? ==> After(st, r).basePrices == st.basePrices[r.plan := r.basePrice]
    ensures !r.SetPlan? ==> After(st, r).basePrices == st.basePrices
  {}

  /** A subscription without a code is accepted on any priced plan and gets no discount. */
  lemma {:induction false} PlainSubscriptionIs(st: Store, tenant: nat, plan: nat, now: int)
    ensures
      var r := Subscribe(tenant, plan, "", now);
      && (Handle(st, r).Some? <==> plan in st.basePrices)
      && (plan in st.basePrices ==>
            var st' := After(st, r);
            && |st'.subscriptions| == |st.subscriptions| + 1
            && st'.subscriptions[|st.subscriptions|] == Subscription(tenant, plan, true, None, 0)
            && st'.coupons == st.coupons && st'.redemptions == st.redemptions)
  {}

  lemma {:induction false} CodeHasPlace(coupons: seq<CouponRow>, place: nat)
    requires DistinctCoupons(coupons) && place < |coupons| && coupons[place].active
    ensures PlaceOfCode(coupons, coupons[place].code) == place
    decreases place
  {
    if place == 0 {
    } else {
      assert coupons[0].code != coupons[place].code;
      assert forall i, j | 0 <= i < j < |coupons[1..]| :: coupons[1..][i] == coupons[i + 1] && coupons[1..][j] == coupons[j + 1];
      CodeHasPlace(coupons[1..], place - 1);
    }
  }

  /** The coupon serves the plan at the time. */
  predicate Serves(c: CouponRow, plan: nat, now: int) {
    && c.active && (c.planIds == [] || plan in c.planIds)
    && (c.validFrom.Some? ==> c.validFrom.value <= now) && (c.validUntil.Some? ==> now <= c.validUntil.value)
    && (c.maxUses.Some? ==> c.usedCount < c.maxUses.value)
  }

  /** A subscription with a code is accepted exactly on a priced plan with a coupon of that code that
      serves it; it then carries the coupon with its discount and, if that is positive, a redemption of it is
      counted and recorded. */
  lemma {:induction false} CouponServesIff(st: Store, tenant: nat, place: nat, plan: nat, now: int)
    requires DistinctCoupons(st.coupons) && place < |st.coupons| && st.coupons[place].active && st.coupons[place].code != ""
    ensures
      var c, r := st.coupons[place], Subscribe(tenant, plan, st.coupons[place].code, now);
      && (Handle(st, r).Some? <==> plan in st.basePrices && Serves(c, plan, now))
      && (Handle(st, r).Some? ==>
            var st', n := After(st, r), |st.subscriptions|;
            && |st'.subscriptions| == n + 1
            && var s := st'.subscriptions[n];
               && s.tenant == tenant && s.plan == plan && s.active && s.coupon == Some(c.id)
               && s.discount as real / 100.0 == Invoicing.Discount(c.rule, st.basePrices[plan])
               && st'.redemptions == st.redemptions + (if 0 < s.discount then [Redemption(c.id, tenant, n, s.discount)] else [])
               && st'.coupons[place].usedCount == c.usedCount + if 0 < s.discount then 1 else 0)
  {
    CodeHasPlace(st.coupons, place);
  }

  /** Without such a coupon the subscription is refused. */
  lemma {:induction false} UnknownCodeIsRefused(st: Store, tenant: nat, plan: nat, code: string, now: int)
    requires code != "" && forall c | c in st.coupons :: c.code != code || !c.active
    ensures Handle(st, Subscribe(tenant, plan, code, now)).None?
  {}

  /** An update of a coupon that exists sets what it gives and keeps the rest of it, and all others. */
  lemma {:induction false} UpdateSetsGiven(st: Store, r: Request, i: nat)
    requires r.UpdateCoupon? && i < |st.coupons|
    ensures Handle(st, r).None? <==> !IdTaken(st.coupons, r.id)
    ensures
      var before, after := st.coupons[i], After(st, r).coupons[i];
      && (before.id != r.id ==> after == before)
      && (DistinctCoupons(st.coupons) && before.id == r.id ==>
            && after.id == before.id && after.code == before.code && after.rule == before.rule && after.usedCount == before.usedCount
            && after.validFrom == (if r.validFrom.Some? then r.validFrom else before.validFrom)
            && after.validUntil == (if r.validUntil.Some? then r.validUntil else before.validUntil)
            && after.maxUses == (if r.maxUses.Some? then r.maxUses else before.maxUses)
            && after.planIds == (if r.planIds.Some? then r.planIds.value else before.planIds)
            && after.active == (if r.active.Some? then r.active.value else before.active))
  {
    var place := PlaceOfCoupon(st.coupons, r.id);
    assert st.coupons[i].id == r.id ==> place <= i;
  }

  /** Each redemption row belongs to a subscription of its own: that of its tenant that carries its coupon
      with its discount. */
  predicate RowsMatch(st: Store) {
    && (forall i | 0 <= i < |st.redemptions| :: RowMatches(st.redemptions[i], st.subscriptions))
    && (forall i, j | 0 <= i < j < |st.redemptions| :: st.redemptions[i].subscription < st.redemptions[j].subscription)
  }

  predicate RowMatches(r: Redemption, subs: seq<Subscription>) {
    && r.subscription < |subs| && 0 < r.cents
    && subs[r.subscription].tenant == r.tenant && subs[r.subscription].coupon == Some(r.coupon)
    && subs[r.subscription].discount == r.cents
  }

  lemma {:induction false} SubscribeKeepsRows(st: Store, r: Request)
    requires RowsMatch(st) && r.Subscribe?
    ensures RowsMatch(After(st, r))
  {
    var st' := After(st, r);
    if Handle(st, r).Some? {
      forall i | 0 <= i < |st.redemptions|
        ensures RowMatches(st.redemptions[i], st'.subscriptions)
      {
        assert RowMatches(st.redemptions[i], st.subscriptions);
      }
    }
  }

  lemma {:induction false} RemovalKeepsRising(rs: seq<Redemption>, coupon: nat)
    requires forall i, j | 0 <= i < j < |rs| :: rs[i].subscription < rs[j].subscription
    ensures
      var rest := WithoutRedemptions(rs, coupon);
      && (forall i, j | 0 <= i < j < |rest| :: rest[i].subscription < rest[j].subscription)
      && (forall r | r in rest :: r in rs && r.coupon != coupon)
  {
    if rs == [] {
    } else {
      RemovalKeepsRising(rs[..|rs| - 1], coupon);
    }
  }

  lemma {:induction false} RowSurvivesDelete(r: Redemption, subs: seq<Subscription>, coupon: nat)
    requires RowMatches(r, subs) && r.coupon != coupon
    ensures RowMatches(r, WithoutCoupon(subs, coupon))
  {}

  lemma {:induction false} DeleteKeepsRows(st: Store, id: nat)
    requires RowsMatch(st)
    ensures RowsMatch(After(st, DeleteCoupon(id)))
  {
    var st' := After(st, DeleteCoupon(id));
    RemovalKeepsRising(st.redemptions, id);
    if PlaceOfCoupon(st.coupons, id) < |st.coupons| {
      forall i | 0 <= i < |st'.redemptions|
        ensures RowMatches(st'.redemptions[i], st'.subscriptions)
      {
        var r := st'.redemptions[i];
        assert r in st'.redemptions && r in st.redemptions && r.coupon != id;
        RowSurvivesDelete(r, st.subscriptions, id);
      }
    }
  }

  /** In every committed state each redemption row belongs to one subscription, no two to the same. */
  lemma {:induction false} EveryRedemptionHasItsSubscription(rs: seq<Request>)
    ensures RowsMatch(Run(rs))
  {
    if rs == [] {
    } else {
      var st, r := Run(rs[..|rs| - 1]), rs[|rs| - 1];
      EveryRedemptionHasItsSubscription(rs[..|rs| - 1]);
      match r
      case Subscribe(_, _, _, _) => SubscribeKeepsRows(st, r);
      case DeleteCoupon(id) => DeleteKeepsRows(st, id);
      case _ =>
    }
  }
}
