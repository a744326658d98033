/** One customer's life under every service that writes its status, request by request. */
module KycLifecycle {
  import opened Common
  import opened KycWorkflow

  datatype Tier = Low | Medium | High | Prohibited

  datatype Role = Mlro | ComplianceOfficer | PlatformAdmin | OtherRole

  datatype DocumentType = Cnic | Passport | DrivingLicense | Selfie | ProofOfAddress | BankStatement

  datatype Decision = Pending | ApprovedBy(user: nat, role: Role) | RejectedBy(user: nat, role: Role)

  datatype EddCase = EddCase(sourceOfFunds: Option<string>, verified: bool, decision: Decision)

  datatype FreezeStatus = Open | ReportedToFmu | Unfrozen

  /** The customer's row and the rows that hang from it. The last three fields record, beside
      the tables, the status writes, the announced pairs and the stages entered by PATCH. */
  datatype Kyc = Kyc(
    status: Status,
    tier: Tier,
    hasCnic: bool,
    documents: seq<DocumentType>,
    nadraChecked: bool,
    shuftiPending: set<nat>,
    edd: Option<EddCase>,
    freezes: seq<FreezeStatus>,
    writes: seq<Status>,
    announced: seq<(Status, Status)>,
    patchedInto: set<Status>)

  const NEW_CUSTOMER := Kyc(Initiated, Medium, false, [], false, {}, None, [], [], [], {})

  datatype ProviderRun = Nadra(verified: bool) | Shufti(reference: nat)

  datatype ShuftiEvent = Accepted | Declined | OtherEvent

  /** `cnic` says whether the number given, if one is, has any characters. */
  datatype Request =
    | Patch(newTier: Option<Tier>, newStatus: Option<Status>, cnic: Option<bool>)
    | Upload(document: DocumentType, ocrPasses: bool, faceMatches: bool)
    | Verify(runs: seq<ProviderRun>)
    | ShuftiCallback(reference: nat, event: ShuftiEvent)
    | ScoreRisk(scored: Tier)
    | RunPipeline(pipelineRuns: seq<ProviderRun>, pipelineTier: Tier)
    | StartEdd
    | SubmitFunds(text: string, fundsVerified: bool)
    | DecideEdd(user: nat, role: Role, approve: bool)
    | Freeze(freezer: Role)
    | ReportFreeze
    | Unfreeze(unfreezer: Role)

  predicate IsIdDocument(d: DocumentType) {
    d == Cnic || d == Passport || d == DrivingLicense
  }

  predicate IsEddDocument(d: DocumentType) {
    d == ProofOfAddress || d == BankStatement
  }

  predicate HasIdDocument(ds: seq<DocumentType>) {
    exists i | 0 <= i < |ds| :: IsIdDocument(ds[i])
  }

  /** A selfie is compared with an earlier ID document, an ID document with an earlier selfie. */
  predicate Comparable(ds: seq<DocumentType>, d: DocumentType) {
    (d == Selfie && HasIdDocument(ds)) || (IsIdDocument(d) && Selfie in ds)
  }

  function Write(k: Kyc, to: Status): Kyc {
    k.(status := to, writes := k.writes + [to])
  }

  function WriteAndAnnounce(k: Kyc, to: Status): Kyc {
    Write(k, to).(announced := k.announced + [(k.status, to)])
  }

  /** Moves along one edge when the customer stands at its start. */
  function Advance(k: Kyc, from: Status, to: Status, passes: bool): Kyc {
    if k.status == from && passes then WriteAndAnnounce(k, to) else k
  }

  function AfterUpload(k: Kyc, d: DocumentType, ocrPasses: bool, faceMatches: bool): Kyc {
    var uploaded := Advance(k.(documents := k.documents + [d]), Initiated, DocumentsUploaded, true);
    var read := Advance(uploaded, DocumentsUploaded, IdentityVerified, IsIdDocument(d) && ocrPasses);
    Advance(read, IdentityVerified, LivenessChecked, Comparable(k.documents, d) && faceMatches)
  }

  function AfterRun(k: Kyc, run: ProviderRun): Kyc {
    match run
    case Nadra(verified) => Advance(k.(nadraChecked := true), DocumentsUploaded, IdentityVerified, verified)
    case Shufti(reference) => k.(shuftiPending := k.shuftiPending + {reference})
  }

  function AfterRuns(k: Kyc, runs: seq<ProviderRun>): Kyc {
    if runs == [] then k else AfterRun(AfterRuns(k, runs[..|runs| - 1]), runs[|runs| - 1])
  }

  function AfterScore(k: Kyc, scored: Tier): Kyc {
    var tiered := k.(tier := scored);
    if k.status == LivenessChecked then WriteAndAnnounce(tiered, RiskScored)
    else if k.status == RiskScored && scored == Prohibited then WriteAndAnnounce(tiered, Rejected)
    else if k.status == RiskScored && scored == High then WriteAndAnnounce(tiered, EddRequired)
    else tiered
  }

  predicate MayDecideEdd(role: Role) {
    role == Mlro || role == PlatformAdmin
  }

  predicate MayFreeze(role: Role) {
    role == Mlro || role == ComplianceOfficer || role == PlatformAdmin
  }

  predicate IsActive(f: FreezeStatus) {
    f != Unfrozen
  }

  /** Position just past the last freeze record of the wanted kind, 0 when there is none. */
  function LatestFreeze(freezes: seq<FreezeStatus>, openOnly: bool): nat {
    if freezes == [] then 0
    else if (if openOnly then freezes[|freezes| - 1] == Open else IsActive(freezes[|freezes| - 1])) then |freezes|
    else LatestFreeze(freezes[..|freezes| - 1], openOnly)
  }

  lemma {:induction false} LatestFreezeIsLatest(freezes: seq<FreezeStatus>, openOnly: bool)
    ensures
      var n := LatestFreeze(freezes, openOnly);
      && n <= |freezes|
      && (0 < n ==> if openOnly then freezes[n - 1] == Open else IsActive(freezes[n - 1]))
      && forall i | n <= i < |freezes| :: if openOnly then freezes[i] != Open else !IsActive(freezes[i])
  {
    if freezes == [] {
    } else {
      LatestFreezeIsLatest(freezes[..|freezes| - 1], openOnly);
    }
  }

  function Changed(freezes: seq<FreezeStatus>, n: nat, to: FreezeStatus): seq<FreezeStatus> {
    if 0 < n <= |freezes| then freezes[n - 1 := to] else freezes
  }

  /** What a request makes of the customer, or nothing when it is refused. */
  function Handle(k: Kyc, r: Request): Option<Kyc> {
    match r
    case Patch(newTier, newStatus, cnic) =>
      var edited := k.(tier := newTier.GetOr(k.tier), hasCnic := cnic.GetOr(k.hasCnic));
      if newStatus.None? then Some(edited)
      else if !CanTransition(k.status, newStatus.value) then None
      else
        var entered := if newStatus.value == k.status then {} else {newStatus.value};
        Some(WriteAndAnnounce(edited, newStatus.value).(patchedInto := k.patchedInto + entered))
    case Upload(d, ocrPasses, faceMatches) =>
      if IsEddDocument(d) && k.status != EddInProgress then None
      else Some(AfterUpload(k, d, ocrPasses, faceMatches))
    case Verify(runs) =>
      if !k.hasCnic then None else Some(AfterRuns(k, runs))
    case ShuftiCallback(reference, event) =>
      if reference !in k.shuftiPending then Some(k)
      else
        var taken := k.(shuftiPending := k.shuftiPending - {reference});
        Some(if event == OtherEvent then taken
             else Advance(taken.(nadraChecked := true), DocumentsUploaded, IdentityVerified, event == Accepted))
    case ScoreRisk(scored) => Some(AfterScore(k, scored))
    case RunPipeline(runs, scored) =>
      var verified :=
        if (k.status == DocumentsUploaded || k.status == IdentityVerified) && k.hasCnic && !k.nadraChecked
        then AfterRuns(k, runs) else k;
      Some(if verified.status == LivenessChecked then AfterScore(verified, scored) else verified)
    case StartEdd =>
      if k.status != EddRequired || k.edd.Some? then None
      else Some(WriteAndAnnounce(k, EddInProgress).(edd := Some(EddCase(None, false, Pending))))
    case SubmitFunds(text, fundsVerified) =>
      if k.edd.None? || k.edd.value.decision != Pending then None
      else Some(k.(edd := Some(k.edd.value.(sourceOfFunds := Some(text), verified := fundsVerified))))
    case DecideEdd(user, role, approve) =>
      if !MayDecideEdd(role) || k.edd.None? || k.edd.value.decision != Pending || k.status != EddInProgress then None
      else
        var decision := if approve then ApprovedBy(user, role) else RejectedBy(user, role);
        Some(WriteAndAnnounce(k, if approve then Approved else Rejected).(edd := Some(k.edd.value.(decision := decision))))
    case Freeze(role) =>
      if !MayFreeze(role) then None else Some(Write(k, Frozen).(freezes := k.freezes + [Open]))
    case ReportFreeze =>
      var n := LatestFreeze(k.freezes, true);
      if n == 0 then None else Some(k.(freezes := Changed(k.freezes, n, ReportedToFmu)))
    case Unfreeze(role) =>
      var n := LatestFreeze(k.freezes, false);
      if !MayDecideEdd(role) || n == 0 then None
      else Some(Write(k, Rejected).(freezes := Changed(k.freezes, n, Unfrozen)))
  }

  /** The committed state: a refused request is rolled back. */
  function After(k: Kyc, r: Request): Kyc {
    Handle(k, r).GetOr(k)
  }

  function Run(rs: seq<Request>): Kyc {
    if rs == [] then NEW_CUSTOMER else After(Run(rs[..|rs| - 1]), rs[|rs| - 1])
  }

  // ---- What every run keeps ----

  ghost predicate HasActiveFreeze(freezes: seq<FreezeStatus>) {
    exists i :: 0 <= i < |freezes| && IsActive(freezes[i])
  }

  ghost predicate StatusInv(k: Kyc) {
    && LegalWrites(k.writes) && k.status == Last(k.writes)
    && (k.freezes != [] ==> Closed(k.status))
    && (k.freezes == [] ==> k.announced == Announcements(k.writes) && Frozen !in k.writes)
    && (k.status == Frozen ==> HasActiveFreeze(k.freezes))
  }

  ghost predicate EddInv(status: Status, edd: Option<EddCase>) {
    edd.Some? ==>
      && Rank(EddInProgress) <= Rank(status)
      && match edd.value.decision
         case Pending => true
         case ApprovedBy(_, role) => MayDecideEdd(role) && (status == Approved || Closed(status))
         case RejectedBy(_, role) => MayDecideEdd(role) && Closed(status)
  }

  /** Without PATCH an undecided case stands behind a customer in EDD, and a senior decision
      behind an approved one; with it, neither does. */
  ghost predicate OriginInv(status: Status, edd: Option<EddCase>, patchedInto: set<Status>) {
    && (forall s | s in patchedInto :: Rank(s) <= Rank(status))
    && (status == EddInProgress ==> if EddInProgress in patchedInto then edd == None else edd.Some? && edd.value.decision == Pending)
    && (status == Approved ==> (edd.Some? && edd.value.decision.ApprovedBy? <==> Approved !in patchedInto))
  }

  ghost predicate Inv(k: Kyc) {
    StatusInv(k) && EddInv(k.status, k.edd) && OriginInv(k.status, k.edd, k.patchedInto)
  }

  lemma {:induction false} WriteKeepsTrail(k: Kyc, to: Status)
    requires StatusInv(k) && LegalWrite(k.status, to)
    ensures LegalWrites(k.writes + [to]) && Last(k.writes + [to]) == to
    ensures k.freezes == [] ==> k.announced + [(k.status, to)] == Announcements(k.writes + [to])
  {
    assert (k.writes + [to])[..|k.writes|] == k.writes;
  }

  /** A write along the table, with its announcement, keeps the trail whatever else changes. */
  lemma {:induction false} AnnounceKeepsStatus(k: Kyc, to: Status)
    requires StatusInv(k) && CanTransition(k.status, to)
    ensures StatusInv(WriteAndAnnounce(k, to))
  {
    WriteKeepsTrail(k, to);
  }

  lemma {:induction false} AdvanceKeepsInv(k: Kyc, from: Status, to: Status, passes: bool)
    requires Inv(k) && to in Successors(from) && Rank(to) <= Rank(EddRequired)
    ensures Inv(Advance(k, from, to, passes))
  {
    if k.status == from && passes {
      AnnounceKeepsStatus(k, to);
    }
  }

  lemma {:induction false} PatchKeepsInv(k: Kyc, r: Request)
    requires Inv(k) && r.Patch?
    ensures Inv(After(k, r))
  {
    var edited := k.(tier := r.newTier.GetOr(k.tier), hasCnic := r.cnic.GetOr(k.hasCnic));
    if r.newStatus.Some? && CanTransition(k.status, r.newStatus.value) {
      AnnounceKeepsStatus(edited, r.newStatus.value);
      PatchKeepsOrigin(k, r.newStatus.value);
    }
  }

  lemma {:induction false} PatchKeepsOrigin(k: Kyc, to: Status)
    requires EddInv(k.status, k.edd) && OriginInv(k.status, k.edd, k.patchedInto) && CanTransition(k.status, to)
    ensures EddInv(to, k.edd) && OriginInv(to, k.edd, k.patchedInto + if to == k.status then {} else {to})
  {
    LegalWriteRaisesRank(k.status, to);
  }

  lemma {:induction false} UploadKeepsInv(k: Kyc, d: DocumentType, ocrPasses: bool, faceMatches: bool)
    requires Inv(k)
    ensures Inv(AfterUpload(k, d, ocrPasses, faceMatches))
  {
    var filed := k.(documents := k.documents + [d]);
    AdvanceKeepsInv(filed, Initiated, DocumentsUploaded, true);
    var uploaded := Advance(filed, Initiated, DocumentsUploaded, true);
    AdvanceKeepsInv(uploaded, DocumentsUploaded, IdentityVerified, IsIdDocument(d) && ocrPasses);
    var read := Advance(uploaded, DocumentsUploaded, IdentityVerified, IsIdDocument(d) && ocrPasses);
    AdvanceKeepsInv(read, IdentityVerified, LivenessChecked, true);
  }

  lemma {:induction false} RunKeepsInv(k: Kyc, run: ProviderRun)
    requires Inv(k)
    ensures Inv(AfterRun(k, run))
  {
    match run
    case Nadra(verified) =>
      var checked := k.(nadraChecked := true);
      AdvanceKeepsInv(checked, DocumentsUploaded, IdentityVerified, verified);
    case Shufti(reference) =>
  }

  lemma {:induction false} RunsKeepInv(k: Kyc, runs: seq<ProviderRun>)
    requires Inv(k)
    ensures Inv(AfterRuns(k, runs))
  {
    if runs == [] {
    } else {
      RunsKeepInv(k, runs[..|runs| - 1]);
      RunKeepsInv(AfterRuns(k, runs[..|runs| - 1]), runs[|runs| - 1]);
    }
  }

  lemma {:induction false} CallbackKeepsInv(k: Kyc, r: Request)
    requires Inv(k) && r.ShuftiCallback?
    ensures Inv(After(k, r))
  {
    var taken := k.(shuftiPending := k.shuftiPending - {r.reference});
    var checked := taken.(nadraChecked := true);
    AdvanceKeepsInv(checked, DocumentsUploaded, IdentityVerified, r.event == Accepted);
  }

  lemma {:induction false} ScoreKeepsInv(k: Kyc, scored: Tier)
    requires Inv(k)
    ensures Inv(AfterScore(k, scored))
  {
    var tiered := k.(tier := scored);
    if k.status == LivenessChecked {
      AdvanceKeepsInv(tiered, LivenessChecked, RiskScored, true);
    } else if k.status == RiskScored && scored == Prohibited {
      AnnounceKeepsStatus(tiered, Rejected);
    } else if k.status == RiskScored {
      AdvanceKeepsInv(tiered, RiskScored, EddRequired, scored == High);
    }
  }

  lemma {:induction false} StartEddKeepsInv(k: Kyc)
    requires Inv(k)
    ensures Inv(After(k, StartEdd))
  {
    if k.status == EddRequired {
      AnnounceKeepsStatus(k, EddInProgress);
    }
  }

  lemma {:induction false} SubmitFundsKeepsInv(k: Kyc, r: Request)
    requires Inv(k) && r.SubmitFunds?
    ensures Inv(After(k, r))
  {
  }

  lemma {:induction false} DecideEddKeepsInv(k: Kyc, r: Request)
    requires Inv(k) && r.DecideEdd?
    ensures Inv(After(k, r))
  {
    if Handle(k, r).Some? {
      var to := if r.approve then Approved else Rejected;
      AnnounceKeepsStatus(k, to);
      assert StatusInv(After(k, r));
      assert EddInv(to, After(k, r).edd);
    }
  }

  lemma {:induction false} FreezeKeepsInv(k: Kyc, r: Request)
    requires Inv(k) && r.Freeze?
    ensures Inv(After(k, r))
  {
    WriteKeepsTrail(k, Frozen);
    assert MayFreeze(r.freezer) ==> IsActive(After(k, r).freezes[|k.freezes|]);
  }

  lemma {:induction false} ReportFreezeKeepsInv(k: Kyc)
    requires Inv(k)
    ensures Inv(After(k, ReportFreeze))
  {
    var k' := After(k, ReportFreeze);
    LatestFreezeIsLatest(k.freezes, true);
    if HasActiveFreeze(k.freezes) {
      var i :| 0 <= i < |k.freezes| && IsActive(k.freezes[i]);
      assert IsActive(k'.freezes[i]);
    }
  }

  lemma {:induction false} UnfreezeKeepsInv(k: Kyc, r: Request)
    requires Inv(k) && r.Unfreeze?
    ensures Inv(After(k, r))
  {
    LatestFreezeIsLatest(k.freezes, false);
    if k.freezes != [] {
      WriteKeepsTrail(k, Rejected);
    }
  }

  lemma {:induction false} StepKeepsInv(k: Kyc, r: Request)
    requires Inv(k)
    ensures Inv(After(k, r))
  {
    match r
    case Patch(_, _, _) => PatchKeepsInv(k, r);
    case Upload(d, ocrPasses, faceMatches) => UploadKeepsInv(k, d, ocrPasses, faceMatches);
    case Verify(runs) => RunsKeepInv(k, runs);
    case ShuftiCallback(_, _) => CallbackKeepsInv(k, r);
    case ScoreRisk(scored) => ScoreKeepsInv(k, scored);
    case RunPipeline(runs, scored) =>
      RunsKeepInv(k, runs);
      ScoreKeepsInv(AfterRuns(k, runs), scored);
      ScoreKeepsInv(k, scored);
    case StartEdd => StartEddKeepsInv(k);
    case SubmitFunds(_, _) => SubmitFundsKeepsInv(k, r);
    case DecideEdd(_, _, _) => DecideEddKeepsInv(k, r);
    case Freeze(_) => FreezeKeepsInv(k, r);
    case ReportFreeze => ReportFreezeKeepsInv(k);
    case Unfreeze(_) => UnfreezeKeepsInv(k, r);
  }

  lemma {:induction false} EveryRunKeepsInv(rs: seq<Request>)
    ensures Inv(Run(rs))
  {
    if rs == [] {
    } else {
      EveryRunKeepsInv(rs[..|rs| - 1]);
      StepKeepsInv(Run(rs[..|rs| - 1]), rs[|rs| - 1]);
    }
  }
}
