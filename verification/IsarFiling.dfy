/** The review of one internal suspicious activity report and the STR reports made from it. */
module IsarFiling {
  import opened Common

  datatype Status = Draft | SubmittedForReview | Approved | Rejected | FiledAsStr

  /** The sections of Form A7; JSON sections are held as text. */
  datatype Content = Content(
    suspicionType: string,
    narrative: string,
    evidence: Option<string>,
    reporter: Option<string>,
    customer: Option<string>,
    transactions: Option<string>,
    determination: Option<string>)

  datatype Edits = Edits(
    suspicionType: Option<string>,
    narrative: Option<string>,
    evidence: Option<string>,
    reporter: Option<string>,
    customer: Option<string>,
    transactions: Option<string>,
    determination: Option<string>)

  datatype Role = Mlro | PlatformAdmin | OtherRole

  /** An STR report is rendered from the content and the filing time it was generated with. */
  datatype Report = Report(content: Content, filedAt: Option<int>, schema: string)

  /** The ISAR row, its report rows, whether the subject and tenant rows exist; and, beside the
      tables, the content as last submitted for review. */
  datatype Isar = Isar(
    status: Status,
    content: Content,
    submittedBy: Option<nat>,
    reviewedBy: Option<nat>,
    approvedBy: Option<nat>,
    approvedAt: Option<int>,
    filedAt: Option<int>,
    rejectionRationale: Option<string>,
    reports: seq<Report>,
    partiesExist: bool,
    submittedContent: Option<Content>)

  datatype Request =
    | Update(edits: Edits)
    | Submit(user: nat)
    | Approve(approver: nat, approverRole: Role, approvalTime: int)
    | Reject(rejecter: nat, rejecterRole: Role, rationale: string)
    | Revise
    | File(filerRole: Role, filingTime: int, xmlBuilds: bool)
    | Generate(schema: string, xmlValid: bool)

  function Created(content: Content, partiesExist: bool): Isar {
    Isar(Draft, content, None, None, None, None, None, None, [], partiesExist, None)
  }

  predicate MayApprove(role: Role) {
    role == Mlro || role == PlatformAdmin
  }

  function Edited(c: Content, e: Edits): Content {
    Content(e.suspicionType.GetOr(c.suspicionType), e.narrative.GetOr(c.narrative),
            if e.evidence.Some? then e.evidence else c.evidence,
            if e.reporter.Some? then e.reporter else c.reporter,
            if e.customer.Some? then e.customer else c.customer,
            if e.transactions.Some? then e.transactions else c.transactions,
            if e.determination.Some? then e.determination else c.determination)
  }

  /** What a request makes of the ISAR, or nothing when it is refused. */
  function Handle(i: Isar, r: Request): Option<Isar> {
    match r
    case Update(edits) =>
      if i.status != Draft then None else Some(i.(content := Edited(i.content, edits)))
    case Submit(user) =>
      if i.status != Draft then None
      else Some(i.(status := SubmittedForReview, submittedBy := Some(user), submittedContent := Some(i.content)))
    case Approve(user, role, now) =>
      if !MayApprove(role) || i.status != SubmittedForReview then None
      else Some(i.(status := Approved, reviewedBy := Some(user), approvedBy := Some(user), approvedAt := Some(now)))
    case Reject(user, role, rationale) =>
      if !MayApprove(role) || i.status != SubmittedForReview then None
      else Some(i.(status := Rejected, reviewedBy := Some(user), rejectionRationale := Some(rationale)))
    case Revise =>
      if i.status != Rejected then None
      else Some(i.(status := Draft, rejectionRationale := None, reviewedBy := None))
    case File(role, now, xmlBuilds) =>
      if !MayApprove(role) || i.status != Approved || (i.partiesExist && !xmlBuilds) then None
      else
        var filed := i.(status := FiledAsStr, filedAt := Some(now));
        Some(if i.partiesExist then filed.(reports := i.reports + [Report(i.content, Some(now), "5.0.2")]) else filed)
    case Generate(schema, xmlValid) =>
      if (i.status != Approved && i.status != FiledAsStr) || !i.partiesExist || !xmlValid then None
      else Some(i.(reports := i.reports + [Report(i.content, i.filedAt, schema)]))
  }

  function After(i: Isar, r: Request): Isar {
    Handle(i, r).GetOr(i)
  }

  function Run(start: Isar, rs: seq<Request>): Isar {
    if rs == [] then start else After(Run(start, rs[..|rs| - 1]), rs[|rs| - 1])
  }

  class Session {
    var status: Status
    var content: Content
    var submittedBy: Option<nat>
    var reviewedBy: Option<nat>
    var approvedBy: Option<nat>
    var approvedAt: Option<int>
    var filedAt: Option<int>
    var rejectionRationale: Option<string>
    var reports: seq<Report>
    const partiesExist: bool
    var submittedContent: Option<Content>
    var committed: Isar

    function View(): Isar
      reads this
    {
      Isar(status, content, submittedBy, reviewedBy, approvedBy, approvedAt, filedAt, rejectionRationale, reports,
           partiesExist, submittedContent)
    }

    constructor (content: Content, partiesExist: bool)
      ensures View() == committed == Created(content, partiesExist)
    {
      status, this.content, this.partiesExist := Draft, content, partiesExist;
      submittedBy, reviewedBy, approvedBy, approvedAt, filedAt := None, None, None, None, None;
      rejectionRationale, reports, submittedContent := None, [], None;
      committed := Created(content, partiesExist);
    }

    method UpdateDraft(e: Edits) returns (ok: bool)
      modifies this`content
      ensures var h := Handle(old(View()), Update(e)); ok == h.Some? && (ok ==> View() == h.value)
    {
      if status != Draft {
        return false;
      }
      var c := content;
      if e.suspicionType.Some? {
        c := c.(suspicionType := e.suspicionType.value);
      }
      if e.narrative.Some? {
        c := c.(narrative := e.narrative.value);
      }
      if e.evidence.Some? {
        c := c.(evidence := e.evidence);
      }
      if e.reporter.Some? {
        c := c.(reporter := e.reporter);
      }
      if e.customer.Some? {
        c := c.(customer := e.customer);
      }
      if e.transactions.Some? {
        c := c.(transactions := e.transactions);
      }
      if e.determination.Some? {
        c := c.(determination := e.determination);
      }
      content := c;
      ok := true;
    }

    method SubmitForReview(user: nat) returns (ok: bool)
      modifies this`status, this`submittedBy, this`submittedContent
      ensures var h := Handle(old(View()), Submit(user)); ok == h.Some? && (ok ==> View() == h.value)
    {
      if status != Draft {
        return false;
      }
      status := SubmittedForReview;
      submittedBy := Some(user);
      submittedContent := Some(content);
      ok := true;
    }

    method ApproveIsar(user: nat, role: Role, now: int) returns (ok: bool)
      modifies this`status, this`reviewedBy, this`approvedBy, this`approvedAt
      ensures var h := Handle(old(View()), Approve(user, role, now)); ok == h.Some? && (ok ==> View() == h.value)
    {
      if !MayApprove(role) || status != SubmittedForReview {
        return false;
      }
      status := Approved;
      reviewedBy := Some(user);
      approvedBy := Some(user);
      approvedAt := Some(now);
      ok := true;
    }

    method RejectIsar(user: nat, role: Role, rationale: string) returns (ok: bool)
      modifies this`status, this`reviewedBy, this`rejectionRationale
      ensures var h := Handle(old(View()), Reject(user, role, rationale)); ok == h.Some? && (ok ==> View() == h.value)
    {
      if !MayApprove(role) || status != SubmittedForReview {
        return false;
      }
      status := Rejected;
      reviewedBy := Some(user);
      rejectionRationale := Some(rationale);
      ok := true;
    }

    method ReviseRejected() returns (ok: bool)
      modifies this`status, this`reviewedBy, this`rejectionRationale
      ensures var h := Handle(old(View()), Revise); ok == h.Some? && (ok ==> View() == h.value)
    {
      if status != Rejected {
        return false;
      }
      status := Draft;
      rejectionRationale := None;
      reviewedBy := None;
      ok := true;
    }

    /** When the report cannot be built the filing is taken back before the error is raised. */
    method FileAsStr(role: Role, now: int, xmlBuilds: bool) returns (ok: bool)
      modifies this`status, this`filedAt, this`reports
      ensures var h := Handle(old(View()), File(role, now, xmlBuilds)); ok == h.Some? && (ok ==> View() == h.value)
      ensures !ok && old(filedAt) == None ==> View() == old(View())
    {
      if !MayApprove(role) || status != Approved {
        return false;
      }
      status := FiledAsStr;
      filedAt := Some(now);
      if partiesExist {
        if !xmlBuilds {
          status := Approved;
          filedAt := None;
          return false;
        }
        reports := reports + [Report(content, filedAt, "5.0.2")];
      }
      ok := true;
    }

    method GenerateReport(schema: string, xmlValid: bool) returns (ok: bool)
      modifies this`reports
      ensures var h := Handle(old(View()), Generate(schema, xmlValid)); ok == h.Some? && (ok ==> View() == h.value)
    {
      if status != Approved && status != FiledAsStr {
        return false;
      }
      if !partiesExist || !xmlValid {
        return false;
      }
      reports := reports + [Report(content, filedAt, schema)];
      ok := true;
    }

    method Rollback()
      requires committed.partiesExist == partiesExist
      modifies this
      ensures committed == old(committed) && View() == committed
    {
      var i := committed;
      status, content, submittedBy, reviewedBy, approvedBy := i.status, i.content, i.submittedBy, i.reviewedBy, i.approvedBy;
      approvedAt, filedAt, rejectionRationale := i.approvedAt, i.filedAt, i.rejectionRationale;
      reports, submittedContent := i.reports, i.submittedContent;
    }

    /** One request: its service, then commit, or rollback when the service raises. */
    method Serve(r: Request) returns (ok: bool)
      requires View() == committed
      modifies this
      ensures ok == Handle(old(committed), r).Some?
      ensures committed == After(old(committed), r) && View() == committed
    {
      match r {
        case Update(edits) => ok := UpdateDraft(edits);
        case Submit(user) => ok := SubmitForReview(user);
        case Approve(user, role, now) => ok := ApproveIsar(user, role, now);
        case Reject(user, role, rationale) => ok := RejectIsar(user, role, rationale);
        case Revise => ok := ReviseRejected();
        case File(role, now, xmlBuilds) => ok := FileAsStr(role, now, xmlBuilds);
        case Generate(schema, xmlValid) => ok := GenerateReport(schema, xmlValid);
      }
      if ok {
        committed := View();
      } else {
        Rollback();
      }
    }
  }

  // ---- What every run keeps ----

  predicate Decided(s: Status) {
    s == Approved || s == FiledAsStr
  }

  /** The audit fields say what the status says. */
  ghost predicate AuditInv(i: Isar) {
    && (i.approvedBy.Some? <==> Decided(i.status)) && (i.approvedAt.Some? <==> Decided(i.status))
    && (i.reviewedBy.Some? <==> Decided(i.status) || i.status == Rejected)
    && (i.rejectionRationale.Some? <==> i.status == Rejected)
    && (i.filedAt.Some? <==> i.status == FiledAsStr)
    && (i.status != Draft ==> i.submittedBy.Some?)
  }

  /** Reports belong to a decided ISAR and carry what was submitted for review. */
  ghost predicate ReportInv(i: Isar) {
    && (i.status != Draft ==> i.submittedContent == Some(i.content))
    && (i.reports != [] ==> Decided(i.status) && i.partiesExist)
    && (forall k | 0 <= k < |i.reports| :: i.reports[k].content == i.content)
    && (i.status == FiledAsStr && i.partiesExist ==>
          exists k :: 0 <= k < |i.reports| && i.reports[k].filedAt == i.filedAt)
  }

  lemma {:induction false} StepKeepsReportInv(i: Isar, r: Request)
    requires AuditInv(i) && ReportInv(i)
    ensures ReportInv(After(i, r))
  {
    var i' := After(i, r);
    if i'.reports != i.reports {
      var n := |i.reports|;
      assert i'.reports[n].filedAt == i'.filedAt;
      forall k | 0 <= k < |i'.reports|
        ensures i'.reports[k].content == i'.content
      {
        assert k < n ==> i'.reports[k] == i.reports[k];
      }
    }
  }

  /** In every committed state reviewer, approver, rationale and times agree with the status, and
      every report was rendered from exactly the content last submitted for review. */
  lemma {:induction false} EveryRunKeepsInv(content: Content, partiesExist: bool, rs: seq<Request>)
    ensures AuditInv(Run(Created(content, partiesExist), rs)) && ReportInv(Run(Created(content, partiesExist), rs))
  {
    if rs == [] {
    } else {
      EveryRunKeepsInv(content, partiesExist, rs[..|rs| - 1]);
      StepKeepsReportInv(Run(Created(content, partiesExist), rs[..|rs| - 1]), rs[|rs| - 1]);
    }
  }

  /** From approval on, the ISAR stays approved or filed, its content stays, and reports only grow. */
  lemma {:induction false} DecidedStaysDecided(start: Isar, rs: seq<Request>, n: nat)
    requires n <= |rs| && Decided(Run(start, rs[..n]).status)
    ensures
      var then', now := Run(start, rs[..n]), Run(start, rs);
      && Decided(now.status) && (then'.status == FiledAsStr ==> now.status == FiledAsStr)
      && now.content == then'.content && now.approvedBy == then'.approvedBy && now.approvedAt == then'.approvedAt
      && then'.reports <= now.reports
    decreases |rs|
  {
    if n < |rs| {
      assert rs[..|rs| - 1][..n] == rs[..n];
      DecidedStaysDecided(start, rs[..|rs| - 1], n);
    } else {
      assert rs[..n] == rs;
    }
  }

  /** An ISAR that some report was made from is never edited, rejected or revised again. */
  lemma {:induction false} ReportedContentIsFinal(content: Content, partiesExist: bool, rs: seq<Request>, n: nat, k: nat)
    requires n <= |rs| && k < |Run(Created(content, partiesExist), rs[..n]).reports|
    ensures
      var then', now := Run(Created(content, partiesExist), rs[..n]), Run(Created(content, partiesExist), rs);
      && Decided(now.status) && k < |now.reports| && now.reports[k] == then'.reports[k]
      && now.reports[k].content == now.content && now.submittedContent == Some(now.content)
  {
    EveryRunKeepsInv(content, partiesExist, rs[..n]);
    EveryRunKeepsInv(content, partiesExist, rs);
    DecidedStaysDecided(Created(content, partiesExist), rs, n);
  }

  /** Serving any list of requests commits the state the run describes, with all it keeps. */
  method ServeAll(content: Content, partiesExist: bool, rs: seq<Request>) returns (session: Session)
    ensures session.committed == Run(Created(content, partiesExist), rs)
    ensures AuditInv(session.committed) && ReportInv(session.committed)
  {
    session := new Session(content, partiesExist);
    for i := 0 to |rs|
      invariant fresh(session) && session.View() == session.committed == Run(Created(content, partiesExist), rs[..i])
    {
      assert rs[..i + 1][..i] == rs[..i];
      var _ := session.Serve(rs[i]);
    }
    assert rs[..|rs|] == rs;
    EveryRunKeepsInv(content, partiesExist, rs);
  }

  // ---- Who may do what, and what is recorded of it ----

  predicate IsSenior(role: Role) {
    role == Mlro || role == PlatformAdmin
  }

  /** When each request is accepted. */
  lemma {:induction false} AcceptedIff(i: Isar, r: Request)
    ensures Handle(i, r).Some? <==>
            match r
            case Update(_) => i.status == Draft
            case Submit(_) => i.status == Draft
            case Approve(_, role, _) => IsSenior(role) && i.status == SubmittedForReview
            case Reject(_, role, _) => IsSenior(role) && i.status == SubmittedForReview
            case Revise => i.status == Rejected
            case File(role, _, xmlBuilds) => IsSenior(role) && i.status == Approved && (i.partiesExist ==> xmlBuilds)
            case Generate(_, xmlValid) => (i.status == Approved || i.status == FiledAsStr) && i.partiesExist && xmlValid
  {}

  /** An accepted update replaces the sections it gives and keeps all else. */
  lemma {:induction false} UpdateReplacesGiven(i: Isar, e: Edits)
    requires i.status == Draft
    ensures
      var c := After(i, Update(e)).content;
      && c.suspicionType == (if e.suspicionType.Some? then e.suspicionType.value else i.content.suspicionType)
      && c.narrative == (if e.narrative.Some? then e.narrative.value else i.content.narrative)
      && c.evidence == (if e.evidence.Some? then e.evidence else i.content.evidence)
      && c.reporter == (if e.reporter.Some? then e.reporter else i.content.reporter)
      && c.customer == (if e.customer.Some? then e.customer else i.content.customer)
      && c.transactions == (if e.transactions.Some? then e.transactions else i.content.transactions)
      && c.determination == (if e.determination.Some? then e.determination else i.content.determination)
      && After(i, Update(e)) == i.(content := c)
  {}

  /** A filing with its parties and a generation each add one report of the current content; a filing's
      own carries its time and the standard schema. */
  lemma {:induction false} NewReportIs(i: Isar, r: Request)
    ensures Handle(i, r).Some? && r.File? && i.partiesExist ==>
              After(i, r).reports == i.reports + [Report(i.content, Some(r.filingTime), "5.0.2")]
    ensures Handle(i, r).Some? && r.Generate? ==> After(i, r).reports == i.reports + [Report(i.content, i.filedAt, r.schema)]
    ensures !r.Generate? && !(r.File? && i.partiesExist) ==> After(i, r).reports == i.reports
  {}

  predicate ApprovedIn(rs: seq<Request>, user: nat, time: int) {
    exists j, role :: 0 <= j < |rs| && IsSenior(role) && rs[j] == Approve(user, role, time)
  }

  predicate RejectedIn(rs: seq<Request>, user: nat, rationale: string) {
    exists j, role :: 0 <= j < |rs| && IsSenior(role) && rs[j] == Reject(user, role, rationale)
  }

  predicate FiledIn(rs: seq<Request>, time: int) {
    exists j, role, built :: 0 <= j < |rs| && IsSenior(role) && rs[j] == File(role, time, built)
  }

  predicate SubmittedIn(rs: seq<Request>, user: nat) {
    exists j :: 0 <= j < |rs| && rs[j] == Submit(user)
  }

  /** The audit fields name those who acted: approver and reviewer a senior who approved at that time,
      reviewer and rationale one who rejected with it, the submitter one who submitted, and the filing time
      that of a senior's filing. */
  lemma {:induction false} AuditFieldsNameActors(content: Content, partiesExist: bool, rs: seq<Request>)
    ensures
      var i := Run(Created(content, partiesExist), rs);
      && (i.approvedBy.Some? ==> i.approvedAt.Some? && i.reviewedBy == i.approvedBy
                                 && ApprovedIn(rs, i.approvedBy.value, i.approvedAt.value))
      && (i.rejectionRationale.Some? ==> i.reviewedBy.Some? && RejectedIn(rs, i.reviewedBy.value, i.rejectionRationale.value))
      && (i.submittedBy.Some? ==> SubmittedIn(rs, i.submittedBy.value))
      && (i.filedAt.Some? ==> FiledIn(rs, i.filedAt.value))
  {
    if rs == [] {
    } else {
      var n := |rs| - 1;
      AuditFieldsNameActors(content, partiesExist, rs[..n]);
      EveryRunKeepsInv(content, partiesExist, rs[..n]);
      ActorsStay(rs);
      var r := rs[n];
      match r
      case Approve(user, role, time) => assert IsSenior(role) ==> ApprovedIn(rs, user, time);
      case Reject(user, role, rationale) => assert IsSenior(role) ==> RejectedIn(rs, user, rationale);
      case Submit(user) => assert SubmittedIn(rs, user);
      case File(role, time, built) => assert IsSenior(role) ==> FiledIn(rs, time);
      case _ =>
    }
  }

  lemma {:induction false} ActorsStay(rs: seq<Request>)
    requires rs != []
    ensures forall user, time :: ApprovedIn(rs[..|rs| - 1], user, time) ==> ApprovedIn(rs, user, time)
    ensures forall user, rationale :: RejectedIn(rs[..|rs| - 1], user, rationale) ==> RejectedIn(rs, user, rationale)
    ensures forall user :: SubmittedIn(rs[..|rs| - 1], user) ==> SubmittedIn(rs, user)
    ensures forall time :: FiledIn(rs[..|rs| - 1], time) ==> FiledIn(rs, time)
  {
    assert forall j | 0 <= j < |rs| - 1 :: rs[..|rs| - 1][j] == rs[j];
  }

  /** An accepted request records who made it, and no request touches another's record. */
  lemma {:induction false} RequestIsRecorded(i: Isar, r: Request)
    requires Handle(i, r).Some?
    ensures
      var j := After(i, r);
      && j.submittedBy == (if r.Submit? then Some(r.user) else i.submittedBy)
      && j.approvedBy == (if r.Approve? then Some(r.approver) else i.approvedBy)
      && j.approvedAt == (if r.Approve? then Some(r.approvalTime) else i.approvedAt)
      && j.reviewedBy == (match r case Approve(user, _, _) => Some(user) case Reject(user, _, _) => Some(user)
                                  case Revise => None case _ => i.reviewedBy)
      && j.rejectionRationale == (match r case Reject(_, _, why) => Some(why) case Revise => None case _ => i.rejectionRationale)
      && j.filedAt == (if r.File? then Some(r.filingTime) else i.filedAt)
      && (!r.Update? ==> j.content == i.content)
  {}
}
