/** The monitoring task: tenants are re-screened one by one, and only whole ones become durable. */
module OngoingMonitoring {
  import opened Common
  import opened Faults
  import opened KycWorkflow
  import opened FindMatches
  import opened Scoring
  import opened Screenings
  import Text

  datatype Customer = Customer(status: Status, fullName: Option<string>, dob: Option<string>, cnic: Option<string>)

  datatype Tenant = Tenant(id: nat, terminated: bool, monitoringEnabled: bool, customers: seq<Customer>)

  datatype Usage = Usage(tenant: nat, quantity: nat)

  datatype Store = Store(results: seq<Result>, alerts: seq<Alert>, usage: seq<Usage>)

  predicate IsActive(c: Customer) {
    c.status == Approved || c.status == EddRequired || c.status == EddInProgress
  }

  function ActiveCustomers(cs: seq<Customer>): seq<Customer> {
    if cs == [] then []
    else ActiveCustomers(cs[..|cs| - 1]) + if IsActive(cs[|cs| - 1]) then [cs[|cs| - 1]] else []
  }

  function Monitored(ts: seq<Tenant>): seq<Tenant> {
    if ts == [] then []
    else
      var t := ts[|ts| - 1];
      Monitored(ts[..|ts| - 1]) + if !t.terminated && t.monitoringEnabled then [t] else []
  }

  function NameOf(c: Customer): string {
    Text.Strip(c.fullName.GetOr(""))
  }

  function SubjectOf(c: Customer): Subject {
    Subject(NameOf(c), c.dob, c.cnic)
  }

  function AfterSubject(s: Screener, st: Store, tenant: nat, subject: Subject): Store {
    var r := ResultFor(s, |st.results|, tenant, subject);
    st.(results := st.results + [r], alerts := st.alerts + AlertsOf(s, r))
  }

  /** The rows after the first n of a tenant's active customers; nameless ones are skipped. */
  function AfterCustomers(s: Screener, st: Store, tenant: nat, cs: seq<Customer>, n: nat): Store
    requires n <= |cs|
  {
    if n == 0 then st else
      var before := AfterCustomers(s, st, tenant, cs, n - 1);
      if NameOf(cs[n - 1]) == "" then before else AfterSubject(s, before, tenant, SubjectOf(cs[n - 1]))
  }

  /** A whole tenant: results and alerts of its active customers, and one usage event. */
  function AfterTenant(s: Screener, st: Store, t: Tenant): Store {
    var cs := ActiveCustomers(t.customers);
    var screened := AfterCustomers(s, st, t.id, cs, |cs|);
    if cs == [] then screened else screened.(usage := screened.usage + [Usage(t.id, |cs|)])
  }

  function AfterTenants(s: Screener, st: Store, ts: seq<Tenant>, n: nat): Store
    requires n <= |ts|
  {
    if n == 0 then st else AfterTenant(s, AfterTenants(s, st, ts, n - 1), ts[n - 1])
  }

  /** Result ids are places in the table and alerts refer to results that exist. */
  ghost predicate Sound(st: Store) {
    && IdsArePlaces(st.results)
    && forall a | 0 <= a < |st.alerts| :: st.alerts[a].sourceId < |st.results|
  }

  lemma {:induction false} SubjectKeepsSound(s: Screener, st: Store, tenant: nat, subject: Subject)
    requires Sound(st)
    ensures Sound(AfterSubject(s, st, tenant, subject))
    ensures !HasAlert(st.alerts, tenant, |st.results|)
  {}

  lemma {:induction false} CustomersKeepSound(s: Screener, st: Store, tenant: nat, cs: seq<Customer>, n: nat)
    requires Sound(st) && n <= |cs|
    ensures Sound(AfterCustomers(s, st, tenant, cs, n))
  {
    if n == 0 {
    } else {
      CustomersKeepSound(s, st, tenant, cs, n - 1);
      SubjectKeepsSound(s, AfterCustomers(s, st, tenant, cs, n - 1), tenant, SubjectOf(cs[n - 1]));
    }
  }

  lemma {:induction false} TenantKeepsSound(s: Screener, st: Store, t: Tenant)
    requires Sound(st)
    ensures Sound(AfterTenant(s, st, t))
  {
    var cs := ActiveCustomers(t.customers);
    CustomersKeepSound(s, st, t.id, cs, |cs|);
  }

  lemma {:induction false} TenantsKeepSound(s: Screener, st: Store, ts: seq<Tenant>, n: nat)
    requires Sound(st) && n <= |ts|
    ensures Sound(AfterTenants(s, st, ts, n))
  {
    if n == 0 {
    } else {
      TenantsKeepSound(s, st, ts, n - 1);
      TenantKeepsSound(s, AfterTenants(s, st, ts, n - 1), ts[n - 1]);
    }
  }

  class Monitor {
    var durable: Store
    var session: Store
    var step: nat

    constructor (st: Store)
      ensures durable == session == st
    {
      durable, session, step := st, st, 0;
    }

    method Tick(faults: nat -> Signal) returns (signal: Signal)
      modifies this`step
      ensures signal == faults(old(step))
    {
      signal := faults(step);
      step := step + 1;
    }

    method ScreenCustomer(s: Screener, tenant: nat, c: Customer, faults: nat -> Signal) returns (signal: Signal)
      requires Sound(session)
      modifies this`session, this`step
      ensures signal.Ok? ==> session == AfterSubject(s, old(session), tenant, SubjectOf(c))
      ensures (forall n :: faults(n).Ok?) ==> signal.Ok?
    {
      SubjectKeepsSound(s, session, tenant, SubjectOf(c));
      var matches := s.find(NameOf(c));
      var r := Result(|session.results|, tenant, SubjectOf(c), matches, matches != []);
      session := session.(results := session.results + [r]);
      :- Tick(faults);
      if matches != [] && !HasAlert(session.alerts, tenant, r.id) {
        session := session.(alerts := session.alerts + [Alert(tenant, r.id, s.severity(matches))]);
        :- Tick(faults);
      }
      signal := Ok;
    }

    method ScreenTenant(s: Screener, t: Tenant, faults: nat -> Signal) returns (signal: Signal)
      requires Sound(session) && session == durable
      modifies this`session, this`durable, this`step
      ensures durable == old(durable) || durable == AfterTenant(s, old(durable), t)
      ensures signal.Ok? ==> durable == session == AfterTenant(s, old(durable), t)
      ensures (forall n :: faults(n).Ok?) ==> signal.Ok?
    {
      ghost var before := session;
      :- Tick(faults);
      var cs := ActiveCustomers(t.customers);
      for i := 0 to |cs|
        invariant session == AfterCustomers(s, before, t.id, cs, i)
        invariant durable == old(durable)
      {
        CustomersKeepSound(s, before, t.id, cs, i);
        if NameOf(cs[i]) != "" {
          :- ScreenCustomer(s, t.id, cs[i], faults);
        }
      }
      if cs != [] {
        session := session.(usage := session.usage + [Usage(t.id, |cs|)]);
        :- Tick(faults);
        durable := session;
      }
      signal := Ok;
    }

    /** Whatever happens, the durable rows are those of some number of whole tenants; of all of them
        when nothing does. */
    method Run(s: Screener, tenants: seq<Tenant>, faults: nat -> Signal) returns (signal: Signal, ghost whole: nat)
      requires Sound(durable)
      modifies this
      ensures whole <= |Monitored(tenants)|
      ensures durable == AfterTenants(s, old(durable), Monitored(tenants), whole)
      ensures signal.Ok? ==> whole == |Monitored(tenants)|
      ensures (forall n :: faults(n).Ok?) ==> signal.Ok?
    {
      step, session, whole := 0, durable, 0;
      ghost var before := durable;
      signal := Tick(faults);
      if !signal.Ok? {
        return;
      }
      var ts := Monitored(tenants);
      for i := 0 to |ts|
        invariant session == durable == AfterTenants(s, before, ts, i) && whole == i && signal.Ok?
      {
        TenantsKeepSound(s, before, ts, i);
        ghost var atStart := durable;
        signal := ScreenTenant(s, ts[i], faults);
        if !signal.Ok? {
          whole := if durable == atStart then i else i + 1;
          if signal.Raised? {
            session := durable;  // rollback
          }
          return;
        }
        whole := i + 1;
      }
    }
  }

  function Quantity(us: seq<Usage>): nat {
    if us == [] then 0 else Quantity(us[..|us| - 1]) + us[|us| - 1].quantity
  }

  predicate Named(cs: seq<Customer>) {
    forall i | 0 <= i < |cs| :: NameOf(cs[i]) != ""
  }

  lemma {:induction false} NamedStep(cs: seq<Customer>, n: nat)
    requires 0 < n <= |cs|
    ensures Named(cs[..n]) <==> Named(cs[..n - 1]) && NameOf(cs[n - 1]) != ""
  {
    assert forall i | 0 <= i < n - 1 :: cs[..n][i] == cs[..n - 1][i];
    assert cs[..n][n - 1] == cs[n - 1];
  }

  lemma {:induction false} SubjectAddsOne(s: Screener, st: Store, tenant: nat, subject: Subject)
    ensures AfterSubject(s, st, tenant, subject).usage == st.usage
    ensures |AfterSubject(s, st, tenant, subject).results| == |st.results| + 1
  {}

  lemma {:induction false} CustomerAddsOne(s: Screener, st: Store, tenant: nat, cs: seq<Customer>, n: nat)
    requires 0 < n <= |cs|
    ensures
      var before, after := AfterCustomers(s, st, tenant, cs, n - 1), AfterCustomers(s, st, tenant, cs, n);
      after.usage == before.usage && |after.results| == |before.results| + if NameOf(cs[n - 1]) == "" then 0 else 1
  {
    SubjectAddsOne(s, AfterCustomers(s, st, tenant, cs, n - 1), tenant, SubjectOf(cs[n - 1]));
  }

  /** Each named customer gets one result, and none is billed before the tenant is done. */
  lemma {:induction false} CustomersScreened(s: Screener, st: Store, tenant: nat, cs: seq<Customer>, n: nat)
    requires n <= |cs|
    ensures
      var st' := AfterCustomers(s, st, tenant, cs, n);
      && st'.usage == st.usage && |st'.results| <= |st.results| + n
      && (|st'.results| == |st.results| + n <==> Named(cs[..n]))
  {
    if n == 0 {
    } else {
      CustomersScreened(s, st, tenant, cs, n - 1);
      NamedStep(cs, n);
      CustomerAddsOne(s, st, tenant, cs, n);
    }
  }

  lemma {:induction false} TenantScreened(s: Screener, st: Store, t: Tenant)
    ensures
      var st', cs := AfterTenant(s, st, t), ActiveCustomers(t.customers);
      && Quantity(st'.usage) == Quantity(st.usage) + |cs| && |st'.results| <= |st.results| + |cs|
      && (|st'.results| == |st.results| + |cs| <==> Named(cs))
  {
    var st', cs := AfterTenant(s, st, t), ActiveCustomers(t.customers);
    CustomersScreened(s, st, t.id, cs, |cs|);
    assert cs[..|cs|] == cs;
    if cs != [] {
      assert st'.usage == st.usage + [Usage(t.id, |cs|)];
      assert st'.usage[..|st'.usage| - 1] == st.usage;
    }
  }

  /** No active customer of the tenants is without a name. */
  predicate AllNamed(ts: seq<Tenant>) {
    forall i | 0 <= i < |ts| :: Named(ActiveCustomers(ts[i].customers))
  }

  lemma {:induction false} AllNamedStep(ts: seq<Tenant>, n: nat)
    requires 0 < n <= |ts|
    ensures AllNamed(ts[..n]) <==> AllNamed(ts[..n - 1]) && Named(ActiveCustomers(ts[n - 1].customers))
  {
    assert forall i | 0 <= i < n - 1 :: ts[..n][i] == ts[..n - 1][i];
    assert ts[..n][n - 1] == ts[n - 1];
  }

  /** The tenants are billed at least for what was screened, and for just that exactly when no
      active customer of a whole tenant is without a name. */
  lemma {:induction false} BilledIsScreenedIff(s: Screener, st: Store, ts: seq<Tenant>, n: nat)
    requires n <= |ts|
    ensures
      var st' := AfterTenants(s, st, ts, n);
      var billed, screened := Quantity(st'.usage) - Quantity(st.usage), |st'.results| - |st.results|;
      screened <= billed && (screened == billed <==> AllNamed(ts[..n]))
  {
    if n == 0 {
    } else {
      BilledIsScreenedIff(s, st, ts, n - 1);
      TenantScreened(s, AfterTenants(s, st, ts, n - 1), ts[n - 1]);
      AllNamedStep(ts, n);
    }
  }

  /** A monitored customer without a name is billed and not screened. */
  lemma {:induction false} NamelessCustomerIsBilled(s: Screener, id: nat)
    ensures
      var t := Tenant(id, false, true, [Customer(Approved, None, None, None)]);
      var st := AfterTenant(s, Store([], [], []), t);
      Quantity(st.usage) == 1 && st.results == []
  {
    var c := Customer(Approved, None, None, None);
    assert [c][..0] == [] && ActiveCustomers([]) == [];
    assert ActiveCustomers([c]) == [c];
    assert NameOf(c) == "";
    var st := AfterTenant(s, Store([], [], []), Tenant(id, false, true, [c]));
    assert AfterCustomers(s, Store([], [], []), id, [c], 0) == Store([], [], []);
    assert st.usage == [Usage(id, 1)] && st.usage[..0] == [];
  }

  // ---- Screening against the loaded watchlist ----

  /** The results from place `from` on are those the screener gives. */
  predicate FoundBy(s: Screener, results: seq<Result>, from: nat) {
    forall i | from <= i < |results| ::
      results[i].matches == s.find(results[i].subject.name) && (results[i].potentialMatch <==> results[i].matches != [])
  }

  lemma {:induction false} SubjectIsFound(s: Screener, st: Store, tenant: nat, subject: Subject, from: nat)
    requires FoundBy(s, st.results, from)
    ensures FoundBy(s, AfterSubject(s, st, tenant, subject).results, from)
  {}

  lemma {:induction false} CustomersAreFound(s: Screener, st: Store, tenant: nat, cs: seq<Customer>, n: nat, from: nat)
    requires n <= |cs| && FoundBy(s, st.results, from)
    ensures FoundBy(s, AfterCustomers(s, st, tenant, cs, n).results, from)
  {
    if n == 0 {
    } else {
      CustomersAreFound(s, st, tenant, cs, n - 1, from);
      SubjectIsFound(s, AfterCustomers(s, st, tenant, cs, n - 1), tenant, SubjectOf(cs[n - 1]), from);
    }
  }

  lemma {:induction false} TenantsAreFound(s: Screener, st: Store, ts: seq<Tenant>, n: nat)
    requires n <= |ts|
    ensures FoundBy(s, AfterTenants(s, st, ts, n).results, |st.results|)
  {
    if n == 0 {
    } else {
      TenantsAreFound(s, st, ts, n - 1);
      var cs := ActiveCustomers(ts[n - 1].customers);
      CustomersAreFound(s, AfterTenants(s, st, ts, n - 1), ts[n - 1].id, cs, |cs|, |st.results|);
    }
  }

  /** Every result a run adds is the screening of its customer's name against the watchlist loaded
      for the run. */
  lemma {:induction false} DurableResultsAreScreenings(s: Screener, st: Store, ts: seq<Tenant>, n: nat, i: nat,
                                                       engine: Engine, threshold: real, rows: seq<Row>)
    requires n <= |ts| && FindsMatches(s, engine, threshold, rows)
    requires |st.results| <= i < |AfterTenants(s, st, ts, n).results|
    ensures IsScreeningOf(AfterTenants(s, st, ts, n).results[i], engine, threshold, rows)
  {
    TenantsAreFound(s, st, ts, n);
  }
}
