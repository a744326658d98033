/** The subscription and coupon services, step by step on one database session. */
module BillingServices {
  import opened Common
  import opened Subscriptions

  class Session {
    var basePrices: map<nat, real>
    var coupons: seq<CouponRow>
    var redemptions: seq<Redemption>
    var subscriptions: seq<Subscription>
    var committed: Store

    function View(): Store
      reads this
    {
      Store(basePrices, coupons, redemptions, subscriptions)
    }

    constructor ()
      ensures View() == committed == EMPTY
    {
      basePrices, coupons, redemptions, subscriptions, committed := map[], [], [], [], EMPTY;
    }

    /** The coupon and its discount, or nothing when it does not apply. */
    method Validate(code: string, plan: nat, now: int) returns (found: Option<(nat, int)>)
      ensures found == var place := PlaceOfCode(coupons, code);
                       if place == |coupons| || !Usable(coupons[place], plan, now) || plan !in basePrices then None
                       else Some((place, DiscountOf(coupons[place], basePrices[plan])))
    {
      var place := PlaceOfCode(coupons, code);
      if place == |coupons| {
        return None;
      }
      var c := coupons[place];
      if c.validFrom.Some? && now < c.validFrom.value {
        return None;
      }
      if c.validUntil.Some? && now > c.validUntil.value {
        return None;
      }
      if c.maxUses.Some? && c.usedCount >= c.maxUses.value {
        return None;
      }
      if c.planIds != [] && plan !in c.planIds {
        return None;
      }
      if plan !in basePrices {
        return None;
      }
      found := Some((place, DiscountOf(c, basePrices[plan])));
    }

    method RecordRedemption(coupon: nat, tenant: nat, cents: int)
      requires PlaceOfCoupon(coupons, coupon) < |coupons| && subscriptions != []
      modifies this`coupons, this`redemptions
      ensures View() == Redeemed(old(View()), PlaceOfCoupon(old(coupons), coupon), tenant, cents)
    {
      var place := PlaceOfCoupon(coupons, coupon);
      coupons := coupons[place := coupons[place].(usedCount := coupons[place].usedCount + 1)];
      redemptions := redemptions + [Redemption(coupon, tenant, |subscriptions| - 1, cents)];
    }

    method CreateSubscription(tenant: nat, plan: nat, code: string, now: int) returns (ok: bool)
      requires DistinctCoupons(coupons)
      modifies this`subscriptions, this`coupons, this`redemptions
      ensures var h := Handle(old(View()), Subscribe(tenant, plan, code, now));
              ok == h.Some? && (ok ==> View() == h.value)
    {
      subscriptions := Deactivated(subscriptions, tenant);
      if plan !in basePrices {
        return false;
      }
      var coupon, cents := None, 0;
      if code != "" {
        var found := Validate(code, plan, now);
        if found.None? {
          return false;
        }
        coupon, cents := Some(coupons[found.value.0].id), found.value.1;
      }
      subscriptions := subscriptions + [Subscription(tenant, plan, true, coupon, cents)];
      if coupon.Some? && cents > 0 {
        PlaceIsUnique(coupons, PlaceOfCode(coupons, code));
        RecordRedemption(coupon.value, tenant, cents);
      }
      ok := true;
    }

    /** The row is refused by the flush when its primary key is in use. */
    method AddCoupon(d: CouponDraft) returns (ok: bool)
      modifies this`coupons
      ensures var h := Handle(old(View()), CreateCoupon(d)); ok == h.Some? && (ok ==> View() == h.value)
    {
      if d.code == "" {
        return false;
      }
      if CodeTaken(coupons, d.code) {
        return false;
      }
      if d.rule.value <= 0.0 {
        return false;
      }
      if d.rule.Percent? && d.rule.value > 100.0 {
        return false;
      }
      if IdTaken(coupons, d.id) {
        return false;
      }
      coupons := coupons +
        [CouponRow(d.id, d.code, d.rule, d.validFrom, d.validUntil, d.maxUses, 0, d.planIds, true)];
      ok := true;
    }

    method EditCoupon(id: nat, validFrom: Option<int>, validUntil: Option<int>, maxUses: Option<int>,
                      planIds: Option<seq<nat>>, active: Option<bool>) returns (ok: bool)
      modifies this`coupons
      ensures var h := Handle(old(View()), UpdateCoupon(id, validFrom, validUntil, maxUses, planIds, active));
              ok == h.Some? && (ok ==> View() == h.value)
    {
      var place := PlaceOfCoupon(coupons, id);
      if place == |coupons| {
        return false;
      }
      var c := coupons[place];
      if validFrom.Some? {
        c := c.(validFrom := validFrom);
      }
      if validUntil.Some? {
        c := c.(validUntil := validUntil);
      }
      if maxUses.Some? {
        c := c.(maxUses := maxUses);
      }
      if planIds.Some? {
        c := c.(planIds := planIds.value);
      }
      if active.Some? {
        c := c.(active := active.value);
      }
      coupons := coupons[place := c];
      ok := true;
    }

    /** Deleting a coupon takes its redemptions along and clears it on its subscriptions. */
    method RemoveCoupon(id: nat) returns (ok: bool)
      modifies this`coupons, this`redemptions, this`subscriptions
      ensures var h := Handle(old(View()), DeleteCoupon(id)); ok == h.Some? && (ok ==> View() == h.value)
    {
      var place := PlaceOfCoupon(coupons, id);
      if place == |coupons| {
        return false;
      }
      coupons := coupons[..place] + coupons[place + 1..];
      redemptions := WithoutRedemptions(redemptions, id);
      subscriptions := WithoutCoupon(subscriptions, id);
      ok := true;
    }

    /** One request: its service, then commit, or rollback when the service raises. */
    method Serve(r: Request) returns (ok: bool)
      requires View() == committed && DistinctCoupons(coupons)
      modifies this
      ensures ok == Handle(old(committed), r).Some?
      ensures committed == After(old(committed), r) && View() == committed
    {
      ok := true;
      match r {
        case SetPlan(plan, basePrice) => basePrices := basePrices[plan := basePrice];
        case Subscribe(tenant, plan, code, now) => ok := CreateSubscription(tenant, plan, code, now);
        case CreateCoupon(d) => ok := AddCoupon(d);
        case UpdateCoupon(id, validFrom, validUntil, maxUses, planIds, active) =>
          ok := EditCoupon(id, validFrom, validUntil, maxUses, planIds, active);
        case DeleteCoupon(id) => ok := RemoveCoupon(id);
      }
      if ok {
        committed := View();
      } else {
        basePrices, coupons := committed.basePrices, committed.coupons;
        redemptions, subscriptions := committed.redemptions, committed.subscriptions;
      }
    }
  }

  lemma {:induction false} PlaceIsUnique(coupons: seq<CouponRow>, place: nat)
    requires DistinctCoupons(coupons) && place < |coupons|
    ensures PlaceOfCoupon(coupons, coupons[place].id) == place
  {
    var found := PlaceOfCoupon(coupons, coupons[place].id);
    assert found <= place && coupons[found].id == coupons[place].id;
  }

  /** Serving any list of requests commits the state the run describes, with all it keeps. */
  method ServeAll(rs: seq<Request>) returns (session: Session)
    ensures session.committed == Run(rs) && Inv(session.committed)
  {
    session := new Session();
    EveryRunKeepsInv([]);
    for i := 0 to |rs|
      invariant fresh(session) && session.View() == session.committed == Run(rs[..i])
      invariant DistinctCoupons(session.coupons)
    {
      assert rs[..i + 1][..i] == rs[..i];
      EveryRunKeepsInv(rs[..i + 1]);
      var _ := session.Serve(rs[i]);
      assert session.View().coupons == Run(rs[..i + 1]).coupons;
    }
    assert rs[..|rs|] == rs;
    EveryRunKeepsInv(rs);
  }
}
