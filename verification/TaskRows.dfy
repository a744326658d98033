/** What the tasks screen and store, read off the rows and customers they were given. */
module TaskRows {
  import opened Common
  import opened KycWorkflow
  import opened Places
  import opened Screenings
  import B = BatchScreening
  import M = OngoingMonitoring
  import Text

  // ---- The batch task ----

  /** The row has a name that is not blank. */
  predicate IsNamed(row: B.InputRow) {
    row.name.Some? && Text.Strip(row.name.value) != ""
  }

  /** The subject holds the row's own columns: the name stripped, the others unless they are empty. */
  predicate IsSubjectOf(subject: Subject, row: B.InputRow) {
    && row.name.Some? && subject.name == Text.Strip(row.name.value)
    && subject.dob == (if row.dob.Some? && row.dob.value != "" then row.dob else None)
    && subject.idNumber == (if row.idNumber.Some? && row.idNumber.value != "" then row.idNumber else None)
  }

  /** The places of the rows that have a name. */
  function NamedRows(rows: seq<B.InputRow>): seq<nat> {
    PlacesOf(rows, IsNamed)
  }

  lemma {:induction false} SubjectsAreOfRows(rows: seq<B.InputRow>)
    ensures |B.Subjects(rows)| == |NamedRows(rows)|
    ensures forall k | 0 <= k < |NamedRows(rows)| ::
              NamedRows(rows)[k] < |rows| && IsSubjectOf(B.Subjects(rows)[k], rows[NamedRows(rows)[k]])
  {
    if rows == [] {
    } else {
      var n := |rows| - 1;
      SubjectsAreOfRows(rows[..n]);
      SubjectIsOfRow(rows[n]);
    }
  }

  lemma {:induction false} SubjectIsOfRow(row: B.InputRow)
    ensures B.SubjectOf(row).name == "" <==> !IsNamed(row)
    ensures IsNamed(row) ==> IsSubjectOf(B.SubjectOf(row), row)
  {
    assert Text.Strip("") == "";
  }

  /** The durable results are, in order, those of the first rows that have a name, each with its own
      row's columns and the matches of its own name; all of them once the results file is recorded. */
  lemma {:induction false} DurableResultsAreOfRows(st: B.Store, s: Screener, tenant: nat, rows: seq<B.InputRow>) returns (at: seq<nat>)
    requires B.Consistent(st, s, tenant, B.Subjects(rows))
    ensures forall i: nat :: i in at <==> i < |rows| && IsNamed(rows[i])
    ensures forall k, l | 0 <= k < l < |at| :: at[k] < at[l]
    ensures |st.results| <= |at| && if st.fileKey then |st.results| == |at| else |st.results| % 100 == 0
    ensures forall k | 0 <= k < |st.results| ::
              && at[k] < |rows| && IsSubjectOf(st.results[k].subject, rows[at[k]])
              && st.results[k].matches == s.find(st.results[k].subject.name)
              && st.results[k].id == k && st.results[k].tenant == tenant
  {
    at := NamedRows(rows);
    PlacesAre(rows, IsNamed);
    SubjectsAreOfRows(rows);
    FirstResultsAt(s, tenant, B.Subjects(rows), |st.results|);
  }

  /** The line of the results file holds its own result and that result's first match. */
  predicate IsOutputOf(output: B.OutputRow, r: Result) {
    && output.subject == r.subject && output.resultId == r.id
    && (output.potentialMatch <==> r.matches != [])
    && (r.matches == [] ==> output.top == None) && (r.matches != [] ==> output.top == Some(r.matches[0]))
  }

  /** A finished job has uploaded one line for each row with a name, in order, with the row's own
      columns and the first of its own matches. */
  lemma {:induction false} UploadedLinesAreOfRows(job: B.Job) returns (at: seq<nat>)
    requires job.Valid() && job.subjects == B.Subjects(job.rows) && job.durable.fileKey
    ensures forall i: nat :: i in at <==> i < |job.rows| && IsNamed(job.rows[i])
    ensures forall k, l | 0 <= k < l < |at| :: at[k] < at[l]
    ensures job.uploaded.Some? && |job.uploaded.value| == |at| == |job.durable.results|
    ensures forall k | 0 <= k < |at| ::
              && at[k] < |job.rows| && IsSubjectOf(job.uploaded.value[k].subject, job.rows[at[k]])
              && IsOutputOf(job.uploaded.value[k], job.durable.results[k])
  {
    at := DurableResultsAreOfRows(job.durable, job.screener, job.tenant, job.rows);
    FirstResultsAt(job.screener, job.tenant, job.subjects, |job.durable.results|);
  }

  // ---- The monitoring task ----

  predicate IsServed(c: M.Customer) {
    c.status == Approved || c.status == EddRequired || c.status == EddInProgress
  }

  predicate HasName(c: M.Customer) {
    c.fullName.Some? && Text.Strip(c.fullName.value) != ""
  }

  predicate IsWatched(t: M.Tenant) {
    !t.terminated && t.monitoringEnabled
  }

  predicate IsResultOf(r: Result, s: Screener, tenant: nat, c: M.Customer) {
    && c.fullName.Some? && r.subject == Subject(Text.Strip(c.fullName.value), c.dob, c.cnic)
    && r.matches == s.find(r.subject.name) && (r.potentialMatch <==> r.matches != []) && r.tenant == tenant
  }

  lemma {:induction false} ActiveCustomersAre(cs: seq<M.Customer>)
    ensures |M.ActiveCustomers(cs)| == |PlacesOf(cs, IsServed)|
    ensures forall k | 0 <= k < |PlacesOf(cs, IsServed)| ::
              PlacesOf(cs, IsServed)[k] < |cs| && M.ActiveCustomers(cs)[k] == cs[PlacesOf(cs, IsServed)[k]]
  {
    if cs == [] {
    } else {
      ActiveCustomersAre(cs[..|cs| - 1]);
    }
  }

  /** A run goes through the tenants, in order, that are not terminated and have monitoring enabled. */
  lemma {:induction false} MonitoredTenantsAre(ts: seq<M.Tenant>)
    ensures |M.Monitored(ts)| == |PlacesOf(ts, IsWatched)|
    ensures forall k | 0 <= k < |PlacesOf(ts, IsWatched)| ::
              PlacesOf(ts, IsWatched)[k] < |ts| && M.Monitored(ts)[k] == ts[PlacesOf(ts, IsWatched)[k]]
  {
    if ts == [] {
    } else {
      MonitoredTenantsAre(ts[..|ts| - 1]);
    }
  }

  lemma {:induction false} CustomerResult(s: Screener, st: M.Store, tenant: nat, c: M.Customer)
    ensures M.NameOf(c) == "" <==> !HasName(c)
    ensures HasName(c) ==>
              var after := M.AfterSubject(s, st, tenant, M.SubjectOf(c)).results;
              |after| == |st.results| + 1 && st.results <= after && IsResultOf(after[|st.results|], s, tenant, c)
  {
    assert Text.Strip("") == "";
  }

  /** The results after the first n of the given customers: those that were there, and one for each
      of these with a name, in order. */
  lemma {:induction false} CustomerResultsAre(s: Screener, st: M.Store, tenant: nat, cs: seq<M.Customer>, n: nat)
    requires n <= |cs|
    ensures
      var after, at := M.AfterCustomers(s, st, tenant, cs, n).results, PlacesOf(cs[..n], HasName);
      && st.results <= after && |after| == |st.results| + |at|
      && forall k | 0 <= k < |at| :: at[k] < n && IsResultOf(after[|st.results| + k], s, tenant, cs[at[k]])
  {
    if n == 0 {
    } else {
      CustomerResultsAre(s, st, tenant, cs, n - 1);
      PlacesStep(cs, n - 1, HasName);
      CustomerResult(s, M.AfterCustomers(s, st, tenant, cs, n - 1), tenant, cs[n - 1]);
    }
  }

  /** The places of the customers who are approved or in EDD. */
  function Served(t: M.Tenant): seq<nat> {
    PlacesOf(t.customers, IsServed)
  }

  /** Which of those have a name. */
  function NamedServed(t: M.Tenant): seq<nat> {
    PlacesOf(M.ActiveCustomers(t.customers), HasName)
  }

  lemma {:induction false} ServedAre(t: M.Tenant)
    ensures forall i: nat :: i in Served(t) <==> i < |t.customers| && IsServed(t.customers[i])
    ensures forall k, l | 0 <= k < l < |Served(t)| :: Served(t)[k] < Served(t)[l]
    ensures |M.ActiveCustomers(t.customers)| == |Served(t)|
    ensures forall k | 0 <= k < |Served(t)| ::
              Served(t)[k] < |t.customers| && M.ActiveCustomers(t.customers)[k] == t.customers[Served(t)[k]]
  {
    PlacesAre(t.customers, IsServed);
    ActiveCustomersAre(t.customers);
  }

  lemma {:induction false} NamedServedAre(t: M.Tenant)
    ensures forall k | 0 <= k < |Served(t)| :: Served(t)[k] < |t.customers|
    ensures forall j: nat :: j in NamedServed(t) <==> j < |Served(t)| && HasName(t.customers[Served(t)[j]])
    ensures forall k, l | 0 <= k < l < |NamedServed(t)| :: NamedServed(t)[k] < NamedServed(t)[l]
    ensures forall k | 0 <= k < |NamedServed(t)| :: NamedServed(t)[k] < |Served(t)|
  {
    ServedAre(t);
    PlacesAre(M.ActiveCustomers(t.customers), HasName);
  }

  /** A whole tenant: each served customer with a name gets one result, in order, of the customer's
      own name, birth date and CNIC, and one usage event bills all the served, if there is any. */
  lemma {:induction false} TenantResultsAre(s: Screener, st: M.Store, t: M.Tenant, k: nat)
    requires k < |NamedServed(t)|
    ensures
      var after := M.AfterTenant(s, st, t);
      && |after.results| == |st.results| + |NamedServed(t)| && st.results <= after.results
      && NamedServed(t)[k] < |Served(t)| && Served(t)[NamedServed(t)[k]] < |t.customers|
      && IsResultOf(after.results[|st.results| + k], s, t.id, t.customers[Served(t)[NamedServed(t)[k]]])
  {
    var cs := M.ActiveCustomers(t.customers);
    ServedAre(t);
    NamedServedAre(t);
    assert cs[..|cs|] == cs;
    CustomerResultsAre(s, st, t.id, cs, |cs|);
  }

  lemma {:induction false} TenantUsageIs(s: Screener, st: M.Store, t: M.Tenant)
    ensures M.AfterTenant(s, st, t).usage == st.usage + if Served(t) == [] then [] else [M.Usage(t.id, |Served(t)|)]
    ensures |M.AfterTenant(s, st, t).results| == |st.results| + |NamedServed(t)|
  {
    var cs := M.ActiveCustomers(t.customers);
    ServedAre(t);
    assert cs[..|cs|] == cs;
    M.CustomersScreened(s, st, t.id, cs, |cs|);
    CustomerResultsAre(s, st, t.id, cs, |cs|);
  }

  /** The alert is that of one of the results from place `from` on. */
  ghost predicate IsAlertFrom(a: Alert, s: Screener, tenant: nat, results: seq<Result>, from: nat) {
    && from <= a.sourceId < |results| && results[a.sourceId].matches != []
    && a.tenant == tenant && a.severity == s.severity(results[a.sourceId].matches)
  }

  /** A tenant's new alerts are exactly those of its new results with matches. */
  lemma {:induction false} CustomerAlertsAre(s: Screener, st: M.Store, tenant: nat, cs: seq<M.Customer>, n: nat, a: Alert)
    requires n <= |cs|
    ensures
      var after := M.AfterCustomers(s, st, tenant, cs, n);
      && st.results <= after.results
      && (a in after.alerts <==> a in st.alerts || IsAlertFrom(a, s, tenant, after.results, |st.results|))
  {
    if n == 0 {
    } else {
      var before := M.AfterCustomers(s, st, tenant, cs, n - 1);
      CustomerAlertsAre(s, st, tenant, cs, n - 1, a);
      SubjectAlertIs(s, before, tenant, M.SubjectOf(cs[n - 1]), |st.results|, a);
    }
  }

  lemma {:induction false} SubjectAlertIs(s: Screener, st: M.Store, tenant: nat, subject: Subject, from: nat, a: Alert)
    requires from <= |st.results|
    ensures
      var after := M.AfterSubject(s, st, tenant, subject);
      && st.results <= after.results
      && (a in after.alerts && a !in st.alerts ==> IsAlertFrom(a, s, tenant, after.results, from))
      && (a in st.alerts ==> a in after.alerts)
      && (IsAlertFrom(a, s, tenant, after.results, from) ==> IsAlertFrom(a, s, tenant, st.results, from) || a in after.alerts)
      && (IsAlertFrom(a, s, tenant, st.results, from) ==> IsAlertFrom(a, s, tenant, after.results, from))
  {}
}
