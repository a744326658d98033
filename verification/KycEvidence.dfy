/** Why a customer's status moved: what each request needs, and what stands behind every move of a run. */
module KycEvidence {
  import opened Common
  import opened KycWorkflow
  import opened KycLifecycle
  import opened KycLaws

  predicate ProvesIdentity(d: DocumentType) {
    d == Cnic || d == Passport || d == DrivingLicense
  }

  predicate ForEddOnly(d: DocumentType) {
    d == ProofOfAddress || d == BankStatement
  }

  predicate IsSenior(role: Role) {
    role == Mlro || role == PlatformAdmin
  }

  /** A new customer stands at initiated with a medium risk tier and nothing else. */
  lemma {:induction false} NewCustomerIs()
    ensures
      var k := Run([]);
      && k.status == Initiated && k.tier == Medium && !k.hasCnic && k.documents == [] && !k.nadraChecked
      && k.shuftiPending == {} && k.edd.None? && k.freezes == [] && k.writes == [] && k.announced == []
  {}

  // ---- Identity providers ----

  /** References of the Shufti runs. */
  function References(runs: seq<ProviderRun>): set<nat> {
    set run | run in runs && run.Shufti? :: run.reference
  }

  lemma {:induction false} ProvidersDo(k: Kyc, runs: seq<ProviderRun>)
    ensures
      var after := AfterRuns(k, runs);
      && after.status == (if k.status == DocumentsUploaded && Nadra(true) in runs then IdentityVerified else k.status)
      && after.shuftiPending == k.shuftiPending + References(runs)
      && (after.nadraChecked <==> k.nadraChecked || exists verified :: Nadra(verified) in runs)
      && after.writes == k.writes + (if after.status == k.status then [] else [IdentityVerified])
      && after.tier == k.tier && after.hasCnic == k.hasCnic && after.documents == k.documents
      && after.edd == k.edd && after.freezes == k.freezes
  {
    if runs == [] {
    } else {
      var n := |runs| - 1;
      ProvidersDo(k, runs[..n]);
      LastProvider(runs);
    }
  }

  lemma {:induction false} LastProvider(runs: seq<ProviderRun>)
    requires runs != []
    ensures
      var rest, last := runs[..|runs| - 1], runs[|runs| - 1];
      && (forall run :: run in runs <==> run in rest || run == last)
      && References(runs) == References(rest) + if last.Shufti? then {last.reference} else {}
  {
    assert runs == runs[..|runs| - 1] + [runs[|runs| - 1]];
  }

  /** With a CNIC, verification moves on from documents_uploaded exactly on a positive NADRA answer, and
      from nowhere else; without one it is refused. */
  lemma {:induction false} VerifyMovesIff(k: Kyc, runs: seq<ProviderRun>)
    ensures Handle(k, Verify(runs)).Some? <==> k.hasCnic
    ensures k.hasCnic && k.status == DocumentsUploaded ==>
              After(k, Verify(runs)).status == if Nadra(true) in runs then IdentityVerified else DocumentsUploaded
    ensures k.status != DocumentsUploaded ==> After(k, Verify(runs)).status == k.status
    ensures k.hasCnic ==> After(k, Verify(runs)).shuftiPending == k.shuftiPending + References(runs)
  {
    ProvidersDo(k, runs);
  }

  /** A callback is heard once, for a reference that is pending, and moves on only when accepted. */
  lemma {:induction false} CallbackMovesIff(k: Kyc, reference: nat, event: ShuftiEvent)
    ensures
      var after := After(k, ShuftiCallback(reference, event));
      && reference !in after.shuftiPending && after.shuftiPending == k.shuftiPending - {reference}
      && (reference !in k.shuftiPending ==> after == k)
      && (after.status != k.status <==> k.status == DocumentsUploaded && reference in k.shuftiPending && event == Accepted)
      && (after.status != k.status ==> after.status == IdentityVerified)
      && (after.nadraChecked <==> k.nadraChecked || (reference in k.shuftiPending && event != OtherEvent))
  {}

  // ---- Documents ----

  /** The new document and a stored one are a selfie and an ID document, and the faces match. */
  predicate FacesMatch(k: Kyc, d: DocumentType, faceMatches: bool) {
    && faceMatches
    && if d == Selfie then exists i :: 0 <= i < |k.documents| && ProvesIdentity(k.documents[i])
       else ProvesIdentity(d) && Selfie in k.documents
  }

  lemma {:induction false} FacesMatchIff(k: Kyc, d: DocumentType, faceMatches: bool)
    ensures FacesMatch(k, d, faceMatches) <==> Comparable(k.documents, d) && faceMatches
    ensures ProvesIdentity(d) <==> IsIdDocument(d)
  {
    assert forall i | 0 <= i < |k.documents| :: IsIdDocument(k.documents[i]) <==> ProvesIdentity(k.documents[i]);
  }

  /** Where an upload leaves the status, by status. */
  lemma {:induction false} UploadMovesIff(k: Kyc, d: DocumentType, ocrPasses: bool, faceMatches: bool)
    ensures Handle(k, Upload(d, ocrPasses, faceMatches)).None? <==> ForEddOnly(d) && k.status != EddInProgress
    ensures !ForEddOnly(d) || k.status == EddInProgress ==>
              var after := After(k, Upload(d, ocrPasses, faceMatches));
              var matches := FacesMatch(k, d, faceMatches);
              var identified := (k.status == Initiated || k.status == DocumentsUploaded) && ProvesIdentity(d) && ocrPasses;
              && after.documents == k.documents + [d]
              && (after.status == LivenessChecked <==>
                    k.status == LivenessChecked || ((k.status == IdentityVerified || identified) && matches))
              && (after.status == IdentityVerified <==> (k.status == IdentityVerified || identified) && !matches)
              && (after.status == DocumentsUploaded <==>
                    (k.status == Initiated || k.status == DocumentsUploaded) && !identified)
              && (Rank(LivenessChecked) < Rank(k.status) ==> after.status == k.status)
  {
    FacesMatchIff(k, d, faceMatches);
  }

  // ---- Scoring, EDD, freezes and PATCH ----

  /** Scoring stores the tier, and moves once from liveness_checked, and from risk_scored as it says. */
  lemma {:induction false} ScoreMovesIff(k: Kyc, scored: Tier)
    ensures
      var after := After(k, ScoreRisk(scored));
      && after.tier == scored
      && (after.status == RiskScored <==> k.status == LivenessChecked || (k.status == RiskScored && scored != High && scored != Prohibited))
      && (k.status == RiskScored ==>
            (after.status == EddRequired <==> scored == High) && (after.status == Rejected <==> scored == Prohibited))
      && (k.status != LivenessChecked && k.status != RiskScored ==> after.status == k.status)
  {}

  /** The pipeline asks the providers only with a CNIC, without an earlier NADRA result and before
      liveness; and it scores only at liveness_checked. */
  lemma {:induction false} PipelineMovesIff(k: Kyc, runs: seq<ProviderRun>, scored: Tier)
    ensures
      var after := After(k, RunPipeline(runs, scored));
      var asks := (k.status == DocumentsUploaded || k.status == IdentityVerified) && k.hasCnic && !k.nadraChecked;
      && after.shuftiPending == k.shuftiPending + (if asks then References(runs) else {})
      && (k.status == DocumentsUploaded ==>
            after.status == if asks && Nadra(true) in runs then IdentityVerified else DocumentsUploaded)
      && (k.status == LivenessChecked ==> after.status == RiskScored)
      && (k.status != DocumentsUploaded && k.status != LivenessChecked ==> after.status == k.status)
      && after.tier == (if k.status == LivenessChecked then scored else k.tier)
  {
    ProvidersDo(k, runs);
  }

  lemma {:induction false} StartEddIff(k: Kyc)
    ensures Handle(k, StartEdd).Some? <==> k.status == EddRequired && k.edd.None?
    ensures Handle(k, StartEdd).Some? ==>
              After(k, StartEdd).status == EddInProgress && After(k, StartEdd).edd == Some(EddCase(None, false, Pending))
  {}

  lemma {:induction false} SubmitFundsIff(k: Kyc, text: string, verified: bool)
    ensures Handle(k, SubmitFunds(text, verified)).Some? <==> k.edd.Some? && k.edd.value.decision == Pending
    ensures Handle(k, SubmitFunds(text, verified)).Some? ==>
              var after := After(k, SubmitFunds(text, verified));
              after.edd == Some(EddCase(Some(text), verified, Pending)) && after.status == k.status
  {}

  /** A decision needs a senior role, a pending case and edd_in_progress; it is recorded with who made
      it, keeps the source of funds and sets the status it says. */
  lemma {:induction false} DecideEddIff(k: Kyc, user: nat, role: Role, approve: bool)
    ensures Handle(k, DecideEdd(user, role, approve)).Some? <==>
            IsSenior(role) && k.edd.Some? && k.edd.value.decision == Pending && k.status == EddInProgress
    ensures Handle(k, DecideEdd(user, role, approve)).Some? ==>
              var after := After(k, DecideEdd(user, role, approve));
              && after.edd.Some? && after.edd.value.decision == (if approve then ApprovedBy(user, role) else RejectedBy(user, role))
              && after.edd.value.sourceOfFunds == k.edd.value.sourceOfFunds && after.edd.value.verified == k.edd.value.verified
              && (after.status == Approved <==> approve) && (after.status == Rejected <==> !approve)
  {}

  lemma {:induction false} FreezeIff(k: Kyc, role: Role)
    ensures Handle(k, Freeze(role)).Some? <==> IsSenior(role) || role == ComplianceOfficer
    ensures Handle(k, Freeze(role)).Some? ==>
              && After(k, Freeze(role)).status == Frozen && After(k, Freeze(role)).freezes == k.freezes + [Open]
              && After(k, Freeze(role)).announced == k.announced
  {}

  /** The record n is the last that is wanted. */
  predicate IsLastWanted(freezes: seq<FreezeStatus>, n: nat, wanted: set<FreezeStatus>) {
    n < |freezes| && freezes[n] in wanted && forall i | n < i < |freezes| :: freezes[i] !in wanted
  }

  /** Reporting turns the last record still open into a reported one, and is refused without one. */
  lemma {:induction false} ReportFreezeIff(k: Kyc)
    ensures Handle(k, ReportFreeze).Some? <==> Open in k.freezes
    ensures forall n: nat | IsLastWanted(k.freezes, n, {Open}) ::
              After(k, ReportFreeze).freezes == k.freezes[n := ReportedToFmu] && After(k, ReportFreeze).status == k.status
  {
    LatestFreezeIsLatest(k.freezes, true);
  }

  /** Unfreezing needs a senior role and a record that is open or reported; the last such is closed and
      the customer rejected. */
  lemma {:induction false} UnfreezeIff(k: Kyc, role: Role)
    ensures Handle(k, Unfreeze(role)).Some? <==> IsSenior(role) && (Open in k.freezes || ReportedToFmu in k.freezes)
    ensures IsSenior(role) ==>
              forall n: nat | IsLastWanted(k.freezes, n, {Open, ReportedToFmu}) ::
                && After(k, Unfreeze(role)).freezes == k.freezes[n := Unfrozen] && After(k, Unfreeze(role)).status == Rejected
                && After(k, Unfreeze(role)).announced == k.announced
  {
    LatestFreezeIsLatest(k.freezes, false);
    assert forall f :: IsActive(f) <==> f in {Open, ReportedToFmu};
  }

  /** PATCH is refused exactly for a status the table does not allow, and sets what it is given. */
  lemma {:induction false} PatchIff(k: Kyc, newTier: Option<Tier>, newStatus: Option<Status>, cnic: Option<bool>)
    ensures Handle(k, Patch(newTier, newStatus, cnic)).None? <==>
            newStatus.Some? && newStatus.value != k.status && newStatus.value !in Successors(k.status)
    ensures Handle(k, Patch(newTier, newStatus, cnic)).Some? ==>
              var after := After(k, Patch(newTier, newStatus, cnic));
              && after.tier == (if newTier.Some? then newTier.value else k.tier)
              && after.status == (if newStatus.Some? then newStatus.value else k.status)
              && after.hasCnic == (if cnic.Some? then cnic.value else k.hasCnic)
  {}

  /** No request changes what is not its own. */
  lemma {:induction false} RequestsKeepTheRest(k: Kyc, r: Request)
    ensures After(k, r).tier != k.tier ==> r.Patch? || r.ScoreRisk? || r.RunPipeline?
    ensures After(k, r).hasCnic != k.hasCnic ==> r.Patch?
    ensures After(k, r).documents != k.documents ==> r.Upload?
    ensures After(k, r).nadraChecked != k.nadraChecked || After(k, r).shuftiPending != k.shuftiPending ==>
              r.Verify? || r.RunPipeline? || r.ShuftiCallback?
    ensures After(k, r).edd != k.edd ==> r.StartEdd? || r.SubmitFunds? || r.DecideEdd?
    ensures After(k, r).freezes != k.freezes ==> r.Freeze? || r.ReportFreeze? || r.Unfreeze?
  {
    match r
    case Verify(runs) => ProvidersDo(k, runs);
    case RunPipeline(runs, scored) => PipelineKeepsTheRest(k, runs, scored);
    case Upload(d, ocrPasses, faceMatches) => UploadKeepsTheRest(k, d, ocrPasses, faceMatches);
    case ScoreRisk(scored) => ScoreKeepsTheRest(k, scored);
    case _ =>
  }

  lemma {:induction false} ScoreKeepsTheRest(k: Kyc, scored: Tier)
    ensures SameRest(k.(tier := scored), After(k, ScoreRisk(scored))) && After(k, ScoreRisk(scored)).documents == k.documents
  {}

  predicate SameRest(k: Kyc, k': Kyc) {
    && k'.tier == k.tier && k'.hasCnic == k.hasCnic && k'.nadraChecked == k.nadraChecked
    && k'.shuftiPending == k.shuftiPending && k'.edd == k.edd && k'.freezes == k.freezes
  }

  lemma {:induction false} AdvanceKeepsTheRest(k: Kyc, from: Status, to: Status, passes: bool)
    ensures SameRest(k, Advance(k, from, to, passes))
  {}

  lemma {:induction false} UploadKeepsTheRest(k: Kyc, d: DocumentType, ocrPasses: bool, faceMatches: bool)
    ensures SameRest(k, After(k, Upload(d, ocrPasses, faceMatches)))
  {
    var filed := k.(documents := k.documents + [d]);
    AdvanceKeepsTheRest(filed, Initiated, DocumentsUploaded, true);
    var uploaded := Advance(filed, Initiated, DocumentsUploaded, true);
    AdvanceKeepsTheRest(uploaded, DocumentsUploaded, IdentityVerified, IsIdDocument(d) && ocrPasses);
    var read := Advance(uploaded, DocumentsUploaded, IdentityVerified, IsIdDocument(d) && ocrPasses);
    AdvanceKeepsTheRest(read, IdentityVerified, LivenessChecked, Comparable(k.documents, d) && faceMatches);
  }

  lemma {:induction false} PipelineKeepsTheRest(k: Kyc, runs: seq<ProviderRun>, scored: Tier)
    ensures
      var after := After(k, RunPipeline(runs, scored));
      && after.hasCnic == k.hasCnic && after.documents == k.documents && after.edd == k.edd && after.freezes == k.freezes
  {
    ProvidersDo(k, runs);
  }

  // ---- What stands behind every move of a run ----

  /** What a customer was identified by. */
  predicate IdentifiedBy(k: Kyc, r: Request) {
    match r
    case Upload(d, ocrPasses, _) => ProvesIdentity(d) && ocrPasses
    case Verify(runs) => k.hasCnic && Nadra(true) in runs
    case RunPipeline(runs, _) => k.hasCnic && !k.nadraChecked && Nadra(true) in runs
    case ShuftiCallback(reference, event) => event == Accepted && reference in k.shuftiPending
    case _ => false
  }

  /** The request, made in state k, is a reason to move along the edge. */
  predicate Justifies(k: Kyc, r: Request, from: Status, to: Status) {
    match r
    case Patch(_, newStatus, _) => newStatus == Some(to) && (to == from || to in Successors(from))
    case Freeze(role) => to == Frozen && (IsSenior(role) || role == ComplianceOfficer)
    case Unfreeze(role) => to == Rejected && IsSenior(role) && (Open in k.freezes || ReportedToFmu in k.freezes)
    case DecideEdd(_, role, approve) =>
      from == EddInProgress && IsSenior(role) && to == if approve then Approved else Rejected
    case _ =>
      match from
      case Initiated => to == DocumentsUploaded && r.Upload?
      case DocumentsUploaded => to == IdentityVerified && IdentifiedBy(k, r)
      case IdentityVerified => to == LivenessChecked && r.Upload? && FacesMatch(k, r.document, r.faceMatches)
      case LivenessChecked => to == RiskScored && (r.ScoreRisk? || r.RunPipeline?)
      case RiskScored => (to == Rejected && r == ScoreRisk(Prohibited)) || (to == EddRequired && r == ScoreRisk(High))
      case EddRequired => to == EddInProgress && r == StartEdd
      case _ => false
  }

  lemma {:induction false} UploadIsJustified(k: Kyc, r: Request, i: nat)
    requires r.Upload? && k.status == Last(k.writes) && |k.writes| <= i < |After(k, r).writes|
    ensures Justifies(k, r, Found(After(k, r).writes, i), After(k, r).writes[i])
  {
    FacesMatchIff(k, r.document, r.faceMatches);
  }

  lemma {:induction false} ProvidersAreJustified(k: Kyc, r: Request, i: nat)
    requires (r.Verify? || r.RunPipeline?) && k.status == Last(k.writes) && |k.writes| <= i < |After(k, r).writes|
    ensures Justifies(k, r, Found(After(k, r).writes, i), After(k, r).writes[i])
  {
    ProvidersDo(k, if r.Verify? then r.runs else r.pipelineRuns);
  }

  lemma {:induction false} DeskIsJustified(k: Kyc, r: Request, i: nat)
    requires r.Patch? || r.StartEdd? || r.SubmitFunds? || r.DecideEdd? || r.Freeze? || r.ReportFreeze?
    requires k.status == Last(k.writes) && |k.writes| <= i < |After(k, r).writes|
    ensures Justifies(k, r, Found(After(k, r).writes, i), After(k, r).writes[i])
  {}

  lemma {:induction false} ScoreIsJustified(k: Kyc, r: Request, i: nat)
    requires r.ScoreRisk? || r.ShuftiCallback?
    requires k.status == Last(k.writes) && |k.writes| <= i < |After(k, r).writes|
    ensures Justifies(k, r, Found(After(k, r).writes, i), After(k, r).writes[i])
  {}

  lemma {:induction false} NewWriteIsJustified(k: Kyc, r: Request, i: nat)
    requires k.status == Last(k.writes) && |k.writes| <= i < |After(k, r).writes|
    ensures Justifies(k, r, Found(After(k, r).writes, i), After(k, r).writes[i])
  {
    match r
    case Upload(_, _, _) => UploadIsJustified(k, r, i);
    case Verify(_) => ProvidersAreJustified(k, r, i);
    case RunPipeline(_, _) => ProvidersAreJustified(k, r, i);
    case ScoreRisk(_) => ScoreIsJustified(k, r, i);
    case ShuftiCallback(_, _) => ScoreIsJustified(k, r, i);
    case Unfreeze(role) => UnfreezeIff(k, role);
    case _ => DeskIsJustified(k, r, i);
  }

  /** Every status write of a run was made by a request that was a reason for it when it came. */
  lemma {:induction false} EveryMoveIsJustified(rs: seq<Request>, i: nat) returns (j: nat)
    requires i < |Run(rs).writes|
    ensures j < |rs|
    ensures Justifies(Run(rs[..j]), rs[j], Found(Run(rs).writes, i), Run(rs).writes[i])
  {
    var n := |rs| - 1;
    EveryRunKeepsInv(rs[..n]);
    RequestsOnlyWrite(Run(rs[..n]), rs[n]);
    if i < |Run(rs[..n]).writes| {
      j := EveryMoveIsJustified(rs[..n], i);
      assert rs[..n][..j] == rs[..j];
    } else {
      j := n;
      NewWriteIsJustified(Run(rs[..n]), rs[n], i);
    }
  }

  /** Request j is an upload of such a document, and was accepted. */
  predicate UploadedAt(rs: seq<Request>, j: nat, d: DocumentType)
    requires j < |rs|
  {
    rs[j].Upload? && rs[j].document == d && (ForEddOnly(d) ==> Run(rs[..j]).status == EddInProgress)
  }

  predicate WasUploaded(rs: seq<Request>, d: DocumentType) {
    exists j: nat :: j < |rs| && UploadedAt(rs, j, d)
  }

  lemma {:induction false} UploadedStep(rs: seq<Request>, d: DocumentType)
    requires rs != []
    ensures WasUploaded(rs, d) <==> WasUploaded(rs[..|rs| - 1], d) || UploadedAt(rs, |rs| - 1, d)
  {
    var n := |rs| - 1;
    forall j: nat | j < n
      ensures UploadedAt(rs[..n], j, d) <==> UploadedAt(rs, j, d)
    {
      assert rs[..n][..j] == rs[..j];
    }
  }

  /** The documents of a customer are those of the uploads that were accepted. */
  lemma {:induction false} DocumentsWereUploaded(rs: seq<Request>, d: DocumentType)
    ensures d in Run(rs).documents <==> WasUploaded(rs, d)
  {
    if rs == [] {
    } else {
      var n := |rs| - 1;
      DocumentsWereUploaded(rs[..n], d);
      UploadedStep(rs, d);
      RequestsKeepTheRest(Run(rs[..n]), rs[n]);
      if rs[n].Upload? {
        UploadMovesIff(Run(rs[..n]), rs[n].document, rs[n].ocrPasses, rs[n].faceMatches);
      }
    }
  }
}
