/** The batch screening task: what is durable when it completes, fails or dies at any step. */
module BatchScreening {
  import opened Common
  import opened Faults
  import opened FindMatches
  import opened Scoring
  import opened Screenings
  import Text

  datatype JobStatus = Absent | Queued | Processing | Complete | Failed

  datatype InputRow = InputRow(name: Option<string>, dob: Option<string>, idNumber: Option<string>)

  datatype OutputRow = OutputRow(subject: Subject, resultId: nat, potentialMatch: bool, top: Option<Match>)

  /** The rows of one job and what belongs to it, as one database transaction sees them. */
  datatype Store = Store(
    status: JobStatus,
    processedCount: nat,
    fileKey: bool,
    results: seq<Result>,
    alerts: seq<Alert>,
    usage: seq<nat>)

  function NonEmpty(s: Option<string>): Option<string> {
    if s == Some("") then None else s
  }

  function SubjectOf(row: InputRow): Subject {
    Subject(Text.Strip(row.name.GetOr("")), NonEmpty(row.dob), NonEmpty(row.idNumber))
  }

  /** The subjects to screen: rows without a name are skipped. */
  function Subjects(rows: seq<InputRow>): seq<Subject> {
    if rows == [] then [] else
      var s := SubjectOf(rows[|rows| - 1]);
      Subjects(rows[..|rows| - 1]) + if s.name == "" then [] else [s]
  }

  function OutputOf(r: Result): OutputRow {
    OutputRow(r.subject, r.id, r.potentialMatch, if r.matches == [] then None else Some(r.matches[0]))
  }

  function OutputsOf(results: seq<Result>): seq<OutputRow> {
    seq(|results|, i requires 0 <= i < |results| => OutputOf(results[i]))
  }

  lemma {:induction false} OutputsAppend(results: seq<Result>)
    ensures forall r :: OutputsOf(results + [r]) == OutputsOf(results) + [OutputOf(r)]
  {}

  /** Results are the screenings of the first subjects, and alerts those of the results. */
  ghost predicate Screened(results: seq<Result>, alerts: seq<Alert>, s: Screener, tenant: nat, subjects: seq<Subject>) {
    && |results| <= |subjects|
    && results == FirstResults(s, tenant, subjects, |results|)
    && alerts == AlertsFor(s, results)
  }

  /** What holds of the committed rows at every moment. The results file is recorded, and the
      job billed for what it processed, in the commit that finishes it. */
  ghost predicate Consistent(st: Store, s: Screener, tenant: nat, subjects: seq<Subject>) {
    && Screened(st.results, st.alerts, s, tenant, subjects)
    && st.processedCount == |st.results|
    && st.usage == (if st.fileKey then [st.processedCount] else [])
    && (if st.fileKey then (st.status == Complete || st.status == Failed) && st.processedCount == |subjects|
        else st.status != Complete && st.processedCount % 100 == 0)
    && (st.status == Absent || st.status == Queued ==> st.processedCount == 0)
  }

  /** The row loop's transaction, after it has screened `done` subjects. */
  ghost predicate InLoop(session: Store, s: Screener, tenant: nat, subjects: seq<Subject>, done: nat) {
    && session.status == Processing && session.usage == [] && !session.fileKey
    && Screened(session.results, session.alerts, s, tenant, subjects) && |session.results| == done
  }

  lemma {:induction false} LoopStep(session: Store, s: Screener, tenant: nat, subjects: seq<Subject>, done: nat)
    requires done < |subjects| && InLoop(session, s, tenant, subjects, done)
    ensures
      var r := ResultFor(s, done, tenant, subjects[done]);
      && InLoop(session.(results := session.results + [r], alerts := session.alerts + AlertsOf(s, r)), s, tenant, subjects, done + 1)
      && !HasAlert(session.alerts, tenant, done)
  {
    FirstResultsAt(s, tenant, subjects, done);
    AlertsForAppend(s, session.results, ResultFor(s, done, tenant, subjects[done]));
    NoAlertForNextId(s, session.results, tenant);
  }

  /** The job row after a progress update, and the rows of the last commit. */
  function Saved(st: Store, processed: nat): Store {
    st.(processedCount := processed)
  }

  function Finished(st: Store, processed: nat): Store {
    st.(status := Complete, processedCount := processed, fileKey := true, usage := st.usage + [processed])
  }

  /** The loop's transaction may be committed at a multiple of a hundred, and at the end. */
  lemma {:induction false} LoopIsCommittable(session: Store, s: Screener, tenant: nat, subjects: seq<Subject>, done: nat)
    requires InLoop(session, s, tenant, subjects, done)
    ensures done % 100 == 0 ==> Consistent(Saved(session, done), s, tenant, subjects)
    ensures done == |subjects| ==> Consistent(Finished(session, done), s, tenant, subjects)
    ensures InLoop(Saved(session, done), s, tenant, subjects, done)
  {}

  /** The update the exception handler makes; it touches no row when the job is not there. */
  function Marked(st: Store): Store {
    if st.status == Absent then st else st.(status := Failed)
  }

  lemma {:induction false} MarkedIsConsistent(st: Store, s: Screener, tenant: nat, subjects: seq<Subject>)
    requires Consistent(st, s, tenant, subjects)
    ensures Consistent(Marked(st), s, tenant, subjects)
    ensures Marked(st).results == st.results && Marked(st).fileKey == st.fileKey
  {}

  /** Every durable result is the screening of its subject against the watchlist the worker loaded. */
  lemma {:induction false} DurableResultsAreScreenings(st: Store, s: Screener, tenant: nat, subjects: seq<Subject>,
                                                       engine: Engine, threshold: real, rows: seq<Row>, i: nat)
    requires Consistent(st, s, tenant, subjects) && FindsMatches(s, engine, threshold, rows)
    requires i < |st.results|
    ensures IsScreeningOf(st.results[i], engine, threshold, rows) && st.results[i].subject == subjects[i]
  {
    FirstResultsAt(s, tenant, subjects, |st.results|);
  }

  /** The last multiple of a hundred: what is durable when n subjects are screened. */
  function LastSaved(n: nat): nat {
    if n == 0 || n % 100 == 0 then n else LastSaved(n - 1)
  }

  lemma {:induction false} LastSavedIs(n: nat)
    ensures LastSaved(n) == n - n % 100
  {
    if n % 100 == 0 {
    } else {
      LastSavedIs(n - 1);
    }
  }

  /** The last of the steps taken met the signal. */
  ghost predicate StoppedBy(faults: nat -> Signal, signal: Signal, steps: nat) {
    0 < steps && signal == faults(steps - 1)
  }

  class Job {
    const tenant: nat
    const rows: seq<InputRow>
    ghost const subjects: seq<Subject>  // Subjects(rows)
    var durable: Store            // what a crash leaves behind
    var session: Store            // what the worker's open transaction sees
    var uploaded: Option<seq<OutputRow>>
    var step: nat
    ghost var screener: Screener  // the watchlist loaded by the run that got past the queue

    ghost predicate Valid()
      reads this`durable, this`screener, this`uploaded
    {
      && Consistent(durable, screener, tenant, subjects)
      && (durable.fileKey ==> uploaded == Some(OutputsOf(durable.results)))
    }

    constructor (tenant: nat, rows: seq<InputRow>, ghost s: Screener)
      ensures Valid() && durable.status == Absent && this.tenant == tenant
      ensures this.rows == rows && subjects == Subjects(rows)
    {
      this.tenant, this.rows, subjects := tenant, rows, Subjects(rows);
      durable := Store(Absent, 0, false, [], [], []);
      session := Store(Absent, 0, false, [], [], []);
      uploaded, step, screener := None, 0, s;
    }

    /** The commit of the request that created the job; the task is enqueued before it. */
    method CommitCreation()
      requires Valid() && durable.status == Absent
      modifies this`durable
      ensures Valid() && durable == old(durable).(status := Queued)
    {
      durable := durable.(status := Queued);
    }

    method Tick(faults: nat -> Signal) returns (s: Signal)
      modifies this`step
      ensures step == old(step) + 1 && s == faults(old(step))
    {
      s := faults(step);
      step := step + 1;
    }

    method Commit(faults: nat -> Signal) returns (s: Signal)
      modifies this`step, this`durable
      ensures step == old(step) + 1 && s == faults(old(step))
      ensures durable == if s.Ok? then session else old(durable)
    {
      s := Tick(faults);
      if s.Ok? {
        durable := session;
      }
    }

    /** `create_alert_for_screening_sync`. */
    method CreateAlert(s: Screener, r: Result, faults: nat -> Signal) returns (signal: Signal)
      modifies this`step, this`session
      ensures signal.Ok? ==>
                session == old(session).(alerts := old(session).alerts +
                  if HasAlert(old(session).alerts, r.tenant, r.id) then [] else AlertsOf(s, r))
      ensures signal.Ok? || StoppedBy(faults, signal, step)
    {
      var isNew := r.matches != [] && !HasAlert(session.alerts, r.tenant, r.id);
      :- Tick(faults);
      if isNew {
        session := session.(alerts := session.alerts + [Alert(r.tenant, r.id, s.severity(r.matches))]);
        :- Tick(faults);  // flush
        :- Tick(faults);  // notifications and e-mails
      }
      signal := Ok;
    }

    /** Screens one subject and adds its result, and its alert when there are matches. */
    method ScreenRow(s: Screener, subject: Subject, faults: nat -> Signal, ghost done: nat)
      returns (signal: Signal, r: Result)
      requires done < |subjects| && subjects[done] == subject
      requires InLoop(session, s, tenant, subjects, done)
      modifies this`step, this`session
      ensures signal.Ok? ==>
                && InLoop(session, s, tenant, subjects, done + 1)
                && session.results == old(session).results + [r]
      ensures signal.Ok? || StoppedBy(faults, signal, step)
    {
      var matches := s.find(subject.name);
      r := Result(|session.results|, tenant, subject, matches, matches != []);
      LoopStep(session, s, tenant, subjects, done);
      signal := AddResult(s, r, faults);
    }

    method AddResult(s: Screener, r: Result, faults: nat -> Signal) returns (signal: Signal)
      requires !HasAlert(session.alerts, r.tenant, r.id)
      modifies this`step, this`session
      ensures signal.Ok? ==> session == old(session).(results := old(session).results + [r],
                                                      alerts := old(session).alerts + AlertsOf(s, r))
      ensures signal.Ok? || StoppedBy(faults, signal, step)
    {
      session := session.(results := session.results + [r]);
      :- Tick(faults);  // flush
      if r.matches != [] {
        :- CreateAlert(s, r, faults);
      }
      signal := Ok;
    }

    ghost predicate Started()
      reads this`durable, this`screener, this`uploaded
    {
      Valid() && durable.status == Processing && !durable.fileKey
    }

    /** Every hundred rows the count and the rows become durable together. */
    method SaveProgress(processed: nat, faults: nat -> Signal) returns (signal: Signal)
      requires processed % 100 == 0 && Started()
      requires InLoop(session, screener, tenant, subjects, processed)
      modifies this`step, this`session, this`durable
      ensures Started() && session.results == old(session).results
      ensures if signal.Ok? then durable == session else durable == old(durable)
      ensures InLoop(session, screener, tenant, subjects, processed)
      ensures signal.Ok? || StoppedBy(faults, signal, step)
    {
      LoopIsCommittable(session, screener, tenant, subjects, processed);
      :- Tick(faults);
      session := Saved(session, processed);
      :- Commit(faults);
      signal := Ok;
    }

    /** Takes the job off the queue, durably, and loads the watchlist. */
    method Begin(s: Screener, faults: nat -> Signal) returns (signal: Signal)
      requires Valid() && durable.status == Queued && session == durable
      modifies this`step, this`session, this`durable, this`screener
      ensures Valid() && (durable.status == Queued || durable.status == Processing) && !durable.fileKey
      ensures signal.Ok? ==> Started() && screener == s && InLoop(session, s, tenant, subjects, 0) && durable.results == []
      ensures signal.Ok? || StoppedBy(faults, signal, step)
    {
      session := session.(status := Processing);
      :- Tick(faults);
      :- Commit(faults);
      screener := s;
      assert AlertsFor(s, []) == [];
      signal := Tick(faults);
    }

    /** One turn of the row loop for a named row. */
    method ScreenAndSave(s: Screener, subject: Subject, faults: nat -> Signal, processed: nat)
      returns (signal: Signal, output: OutputRow)
      requires Started() && screener == s
      requires processed < |subjects| && subjects[processed] == subject
      requires InLoop(session, s, tenant, subjects, processed) && |durable.results| == LastSaved(processed)
      modifies this`step, this`session, this`durable
      ensures Started()
      ensures if signal.Ok? then |durable.results| == LastSaved(processed + 1) else durable == old(durable)
      ensures signal.Ok? ==>
                && InLoop(session, s, tenant, subjects, processed + 1)
                && OutputsOf(session.results) == OutputsOf(old(session).results) + [output]
      ensures signal.Ok? || StoppedBy(faults, signal, step)
    {
      var r;
      OutputsAppend(session.results);
      signal, r := ScreenRow(s, subject, faults, processed);
      output := OutputOf(r);
      if signal.Ok? && (processed + 1) % 100 == 0 {
        signal := SaveProgress(processed + 1, faults);
      }
    }

    /** The row loop when `processed` of the first i rows have a name and are screened. */
    ghost predicate AtRow(s: Screener, i: nat, outputs: seq<OutputRow>, processed: nat)
      requires i <= |rows|
      reads this`durable, this`session, this`screener, this`uploaded
    {
      && Started() && InLoop(session, s, tenant, subjects, processed) && |durable.results| == LastSaved(processed)
      && processed == |Subjects(rows[..i])| && outputs == OutputsOf(session.results)
    }

    /** One turn of the row loop; rows without a name are skipped. */
    method ScreenNext(s: Screener, faults: nat -> Signal, i: nat, subject: Subject, outputs: seq<OutputRow>, processed: nat)
      returns (signal: Signal, outputs': seq<OutputRow>, processed': nat)
      requires i < |rows| && screener == s && AtRow(s, i, outputs, processed)
      requires |Subjects(rows[..i + 1])| == processed + if subject.name == "" then 0 else 1
      requires subject.name != "" ==> processed < |subjects| && subjects[processed] == subject
      modifies this`step, this`session, this`durable
      ensures if signal.Ok? then AtRow(s, i + 1, outputs', processed')
              else Started() && processed' == processed && |durable.results| == LastSaved(processed)
      ensures signal.Ok? || StoppedBy(faults, signal, step)
    {
      signal, outputs', processed' := Ok, outputs, processed;
      if subject.name == "" {
        return;
      }
      var output;
      signal, output := ScreenAndSave(s, subject, faults, processed);
      if signal.Ok? {
        outputs', processed' := outputs + [output], processed + 1;
      }
    }

    /** The row loop. Wherever it stops, all rows screened but the last up to 99 are durable. */
    method ScreenRows(s: Screener, faults: nat -> Signal)
      returns (signal: Signal, outputs: seq<OutputRow>, processed: nat)
      requires subjects == Subjects(rows)
      requires Started() && screener == s && InLoop(session, s, tenant, subjects, 0) && durable.results == []
      modifies this`step, this`session, this`durable
      ensures Started() && |durable.results| == LastSaved(processed)
      ensures signal.Ok? ==>
                && processed == |subjects| && InLoop(session, s, tenant, subjects, processed)
                && outputs == OutputsOf(session.results)
      ensures signal.Ok? || StoppedBy(faults, signal, step)
    {
      signal, outputs, processed := Ok, [], 0;
      for i := 0 to |rows|
        invariant AtRow(s, i, outputs, processed) && signal.Ok?
      {
        NextSubject(rows, i);
        signal, outputs, processed := ScreenNext(s, faults, i, SubjectOf(rows[i]), outputs, processed);
        if !signal.Ok? {
          return;
        }
      }
      assert rows[..|rows|] == rows;
    }

    /** Uploads the result file, then records completion and the billed quantity in one commit. */
    method Finish(outputs: seq<OutputRow>, processed: nat, faults: nat -> Signal) returns (signal: Signal)
      requires Started() && InLoop(session, screener, tenant, subjects, processed)
      requires processed == |subjects| && outputs == OutputsOf(session.results)
      modifies this`step, this`session, this`durable, this`uploaded
      ensures Valid() && if signal.Ok? then durable.status == Complete else Started()
      ensures signal.Ok? || StoppedBy(faults, signal, step)
    {
      LoopIsCommittable(session, screener, tenant, subjects, processed);
      ghost var before, finished := durable, Finished(session, processed);
      assert finished.results == session.results && finished.status == Complete;
      :- Tick(faults);
      uploaded := Some(outputs);
      :- Tick(faults);
      session := Finished(session, processed);
      signal := Commit(faults);
      assert durable == if signal.Ok? then finished else before;
    }

    /** The task up to its last commit; any step may raise or end the process. */
    method Attempt(s: Screener, faults: nat -> Signal) returns (signal: Signal)
      requires subjects == Subjects(rows)
      requires Valid() && durable.status == Queued && session == durable
      modifies this
      ensures Valid() && (durable.status == Queued || durable.status == Processing || durable.status == Complete)
      ensures durable.fileKey <==> durable.status == Complete
      ensures signal.Ok? <==> durable.status == Complete
      ensures signal.Ok? || StoppedBy(faults, signal, step)
    {
      signal := Begin(s, faults);
      if signal.Ok? {
        var outputs, processed;
        signal, outputs, processed := ScreenRows(s, faults);
        if signal.Ok? {
          signal := Finish(outputs, processed, faults);
        }
      }
    }

    /** After an exception: roll back, then try to mark the job failed. */
    method MarkFailed(faults: nat -> Signal)
      requires Valid()
      modifies this`step, this`session, this`durable
      ensures Valid()
      ensures durable == if faults(old(step)).Ok? && faults(old(step) + 1).Ok? then Marked(old(durable)) else old(durable)
    {
      session := durable;
      MarkedIsConsistent(durable, screener, tenant, subjects);
      var s := Tick(faults);
      if !s.Ok? {
        return;
      }
      session := Marked(session);
      s := Commit(faults);
    }

    /** The task on a queued job, with the handler of its exceptions. */
    method Process(s: Screener, faults: nat -> Signal) returns (signal: Signal, ghost raisedAt: nat)
      requires subjects == Subjects(rows)
      requires Valid() && durable.status == Queued && session == durable
      modifies this
      ensures Valid()
      ensures signal.Ok? ==> durable.status == Complete
      ensures durable.fileKey ==> durable.status == Complete
      ensures !signal.Ok? ==> signal == faults(raisedAt)
      ensures signal.Raised? && faults(raisedAt + 1).Ok? && faults(raisedAt + 2).Ok? ==> durable.status == Failed
    {
      signal := Attempt(s, faults);
      raisedAt := if signal.Ok? then 0 else step - 1;
      if signal.Raised? {
        MarkFailed(faults);
      }
    }

    /** One delivery of the task's message. A job that has left the queue is not run again, but a
        lookup that raises lets the handler mark even a finished job failed. */
    method Deliver(s: Screener, faults: nat -> Signal) returns (signal: Signal)
      requires Valid() && subjects == Subjects(rows)
      modifies this
      ensures Valid()
      ensures old(durable).status == Queued && signal.Ok? ==> durable.status == Complete
      ensures old(durable).status == Queued && signal.Raised? ==>
                exists n: nat :: faults(n).Raised? && (faults(n + 1).Ok? && faults(n + 2).Ok? ==> durable.status == Failed)
      ensures old(durable).status == Queued && (forall n :: faults(n).Ok?) ==> durable.status == Complete
      ensures old(durable).status != Queued ==> uploaded == old(uploaded)
      ensures old(durable).status != Queued ==>
                durable == if faults(0).Raised? && faults(1).Ok? && faults(2).Ok? then Marked(old(durable)) else old(durable)
      ensures old(durable).status == Queued && durable.fileKey ==> durable.status == Complete
    {
      step, session := 0, durable;
      signal := Tick(faults);
      if signal.Ok? {
        if session.status != Queued {
          return;
        }
        ghost var raisedAt;
        signal, raisedAt := Process(s, faults);
      } else if signal.Raised? {
        assert step == 1 && durable == old(durable) && step + 1 == 2;
        MarkFailed(faults);
      }
    }

    /** The next event in the life of the job; its creation is committed once. */
    method Meet(e: Event)
      requires Valid() && subjects == Subjects(rows)
      modifies this
      ensures Valid()
      ensures Steps(old(durable), e, durable)
    {
      ghost var before := durable;
      ConsistentIsBilled(durable, screener, tenant, subjects);
      match e
      case CreationCommitted =>
        if durable.status == Absent {
          CommitCreation();
        }
        ConsistentIsBilled(durable, screener, tenant, subjects);
      case Delivered(delivery) =>
        var _ := Deliver(delivery.screener, delivery.faults);
        ConsistentIsBilled(durable, screener, tenant, subjects);
        DeliverySteps(before, delivery, durable);
    }
  }

  /** A row with a name is the next subject. */
  lemma {:induction false} NextSubject(rows: seq<InputRow>, i: nat)
    requires i < |rows|
    ensures
      var n, s := |Subjects(rows[..i])|, SubjectOf(rows[i]);
      && |Subjects(rows[..i + 1])| == n + (if s.name == "" then 0 else 1)
      && (s.name != "" ==> n < |Subjects(rows)| && Subjects(rows)[n] == s)
  {
    SubjectsStep(rows, i);
  }

  lemma {:induction false} SubjectsStep(rows: seq<InputRow>, i: nat)
    requires i < |rows|
    ensures
      var s := SubjectOf(rows[i]);
      && Subjects(rows[..i + 1]) == Subjects(rows[..i]) + (if s.name == "" then [] else [s])
      && Subjects(rows[..i + 1]) <= Subjects(rows)
    decreases |rows| - i
  {
    assert rows[..i + 1][..i] == rows[..i];
    if i + 1 == |rows| {
      assert rows[..i + 1] == rows;
    } else {
      SubjectsStep(rows, i + 1);
    }
  }

  datatype Delivery = Delivery(screener: Screener, faults: nat -> Signal)

  /** What happens to a job once its request has enqueued the task: the request's commit, which
      may come after deliveries or never, and deliveries of the task's message. */
  datatype Event = CreationCommitted | Delivered(delivery: Delivery)

  /** The lookup raises and the handler's update and commit go through. */
  predicate HandlerMarks(e: Event) {
    && e.Delivered? && e.delivery.faults(0).Raised?
    && e.delivery.faults(1).Ok? && e.delivery.faults(2).Ok?
  }

  ghost predicate IsFaultFree(e: Event) {
    e.Delivered? ==> forall n :: e.delivery.faults(n).Ok?
  }

  ghost predicate FaultFree(events: seq<Event>) {
    forall i | 0 <= i < |events| :: IsFaultFree(events[i])
  }

  /** What an event without faults makes of the status. */
  function NextStatus(status: JobStatus, e: Event): JobStatus {
    if status == Absent && e.CreationCommitted? then Queued
    else if status == Queued && e.Delivered? then Complete
    else status
  }

  predicate CommittedIn(events: seq<Event>) {
    exists i :: 0 <= i < |events| && events[i].CreationCommitted?
  }

  predicate DeliveredAfterCommit(events: seq<Event>) {
    exists i, j :: 0 <= i < j < |events| && events[i].CreationCommitted? && events[j].Delivered?
  }

  /** The durable states of a run up to the delivery that completes the job, number `done`, if any. */
  ghost predicate CompletedBy(trace: seq<Store>, events: seq<Event>, done: nat) {
    && |trace| == |events| + 1 && done <= |events|
    && (forall i | 0 <= i <= done :: trace[i].usage == [] && trace[i].status != Complete)
    && (done < |events| ==> events[done].Delivered? && trace[done].status == Queued && trace[done + 1].status == Complete)
    && (forall i | done < i <= |events| :: trace[i].usage == trace[done + 1].usage != [])
  }

  /** After a delivery completed the job, some handler marked it failed. */
  predicate MarkedAfter(events: seq<Event>, done: nat) {
    exists i :: done < i < |events| && HandlerMarks(events[i])
  }

  /** What an event makes of the billing of a job. */
  ghost predicate BillingStep(before: Store, e: Event, after: Store) {
    && (before.fileKey ==> after == if HandlerMarks(e) then before.(status := Failed) else before)
    && (!before.fileKey && after.fileKey ==> e.Delivered? && before.status == Queued && after.status == Complete)
  }

  /** What `Consistent` says of billing. */
  predicate BilledIffKeyed(st: Store) {
    && (st.fileKey <==> st.usage != [])
    && if st.fileKey then st.status == Complete || st.status == Failed else st.status != Complete
  }

  /** What a run tells of its billing, and without faults of its status. */
  ghost predicate RunIs(trace: seq<Store>, events: seq<Event>, done: nat) {
    && CompletedBy(trace, events, done)
    && var last := trace[|events|];
       && (last.fileKey <==> done < |events|)
       && (last.fileKey && last.status == Failed <==> MarkedAfter(events, done))
       && (FaultFree(events) ==> CourseIs(last.status, events))
  }

  lemma {:induction false} RunStep(trace: seq<Store>, events: seq<Event>, done: nat, e: Event, after: Store) returns (done': nat)
    requires RunIs(trace, events, done) && BillingStep(trace[|events|], e, after)
    requires BilledIffKeyed(trace[|events|]) && BilledIffKeyed(after)
    requires IsFaultFree(e) ==> after.status == NextStatus(trace[|events|].status, e)
    ensures RunIs(trace + [after], events + [e], done')
  {
    var n := |events|;
    var trace', events' := trace + [after], events + [e];
    assert trace'[n + 1] == after && forall i | 0 <= i <= n :: trace'[i] == trace[i];
    assert events'[n] == e && forall i | 0 <= i < n :: events'[i] == events[i];
    done' := if after.fileKey then done else n + 1;
    MarkedStep(events, e, done');
    CourseStep(trace[n].status, events, e);
    assert FaultFree(events') ==> FaultFree(events) && IsFaultFree(e);
  }

  /** What an event makes of a job. */
  ghost predicate Steps(before: Store, e: Event, after: Store) {
    && BillingStep(before, e, after) && BilledIffKeyed(before) && BilledIffKeyed(after)
    && (IsFaultFree(e) ==> after.status == NextStatus(before.status, e))
  }

  ghost predicate IsRun(trace: seq<Store>, events: seq<Event>) {
    && |trace| == |events| + 1
    && trace[0].status == Absent && BilledIffKeyed(trace[0])
    && forall i | 0 <= i < |events| :: Steps(trace[i], events[i], trace[i + 1])
  }

  lemma {:induction false} ConsistentIsBilled(st: Store, s: Screener, tenant: nat, subjects: seq<Subject>)
    requires Consistent(st, s, tenant, subjects)
    ensures BilledIffKeyed(st) && (st.fileKey ==> st.status != Queued && st.status != Absent)
  {}

  lemma {:induction false} DeliverySteps(before: Store, d: Delivery, after: Store)
    requires BilledIffKeyed(before) && BilledIffKeyed(after)
    requires before.status == Queued ==> !before.fileKey && (after.fileKey ==> after.status == Complete)
    requires before.status == Queued && (forall n :: d.faults(n).Ok?) ==> after.status == Complete
    requires before.status != Queued ==> after == if HandlerMarks(Delivered(d)) then Marked(before) else before
    requires before.status == Absent ==> !before.fileKey
    ensures Steps(before, Delivered(d), after)
  {}

  lemma {:induction false} ExtendRun(trace: seq<Store>, events: seq<Event>, n: nat, after: Store)
    requires n < |events| && IsRun(trace, events[..n]) && Steps(trace[n], events[n], after)
    ensures IsRun(trace + [after], events[..n + 1])
  {
    assert events[..n + 1] == events[..n] + [events[n]];
  }

  lemma {:induction false} RunHasOutcome(trace: seq<Store>, events: seq<Event>) returns (done: nat)
    requires IsRun(trace, events)
    ensures RunIs(trace, events, done) && CompletedBy(trace, events, done)
    ensures trace[|events|].usage != [] <==> done < |events|
    ensures trace[|events|].usage != [] && trace[|events|].status != Complete <==> MarkedAfter(events, done)
    ensures FaultFree(events) ==> CourseIs(trace[|events|].status, events)
  {
    if events == [] {
      done := 0;
    } else {
      var n := |events| - 1;
      done := RunHasOutcome(trace[..n + 1], events[..n]);
      assert Steps(trace[n], events[n], trace[n + 1]);
      assert events == events[..n] + [events[n]] && trace == trace[..n + 1] + [trace[n + 1]];
      done := RunStep(trace[..n + 1], events[..n], done, events[n], trace[n + 1]);
    }
  }

  /** Every run of a job under any faults. The committed rows stay consistent; the job is billed,
      for all its subjects, exactly when some delivery completed it; and a billed job is not
      complete exactly when a later delivery's lookup raised and its handler went through.
      Without faults the job completes exactly when a delivery follows the creation's commit. */
  method RunJob(tenant: nat, rows: seq<InputRow>, ghost s: Screener, events: seq<Event>)
    returns (job: Job, ghost trace: seq<Store>, ghost done: nat)
    ensures fresh(job) && job.Valid() && job.rows == rows && job.subjects == Subjects(rows)
    ensures IsRun(trace, events) && trace[|events|] == job.durable
    ensures CompletedBy(trace, events, done)
    ensures job.durable.usage != [] <==> done < |events|
    ensures job.durable.usage != [] ==> job.durable.usage == [|Subjects(rows)|]
    ensures job.durable.usage != [] && job.durable.status != Complete <==> MarkedAfter(events, done)
    ensures FaultFree(events) ==> CourseIs(job.durable.status, events)
  {
    job := new Job(tenant, rows, s);
    trace := [job.durable];
    for i := 0 to |events|
      invariant fresh(job) && job.Valid() && job.rows == rows && job.subjects == Subjects(rows)
      invariant IsRun(trace, events[..i]) && trace[i] == job.durable
    {
      job.Meet(events[i]);
      ExtendRun(trace, events, i, job.durable);
      trace := trace + [job.durable];
    }
    assert events[..|events|] == events;
    done := RunHasOutcome(trace, events);
  }

  /** The status of a job none of whose deliveries meets a fault. */
  predicate CourseIs(status: JobStatus, events: seq<Event>) {
    status == if !CommittedIn(events) then Absent else if DeliveredAfterCommit(events) then Complete else Queued
  }

  lemma {:induction false} CourseStep(status: JobStatus, events: seq<Event>, e: Event)
    ensures CourseIs(status, events) ==> CourseIs(NextStatus(status, e), events + [e])
  {
    var all := events + [e];
    assert all[|events|] == e && forall i | 0 <= i < |events| :: all[i] == events[i];
    if i :| 0 <= i < |events| && events[i].CreationCommitted? {
      assert all[i].CreationCommitted? && i < |events| < |all|;
    }
    if i, j :| 0 <= i < j < |events| && events[i].CreationCommitted? && events[j].Delivered? {
      assert all[i].CreationCommitted? && all[j].Delivered?;
    }
  }

  lemma {:induction false} MarkedStep(events: seq<Event>, e: Event, done: nat)
    ensures MarkedAfter(events + [e], done) <==> MarkedAfter(events, done) || (done < |events| && HandlerMarks(e))
  {
    var all := events + [e];
    assert all[|events|] == e && forall i | 0 <= i < |events| :: all[i] == events[i];
    if i :| done < i < |events| && HandlerMarks(events[i]) {
      assert HandlerMarks(all[i]);
    }
  }

  /** A complete and billed job that a raising lookup leaves marked failed. */
  method FinishedJobIsMarkedFailed(tenant: nat, rows: seq<InputRow>, s: Screener) returns (job: Job)
    ensures job.durable.status == Failed && job.durable.usage == [|Subjects(rows)|]
  {
    job := new Job(tenant, rows, s);
    job.CommitCreation();
    var _ := job.Deliver(s, n => Ok);
    assert job.durable.status == Complete;
    var _ := job.Deliver(s, n => if n == 0 then Raised else Ok);
  }
}
