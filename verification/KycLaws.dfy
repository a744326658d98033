/** What holds of one customer over every run of requests. */
module KycLaws {
  import opened Common
  import opened KycWorkflow
  import opened KycLifecycle

  // ---- Announced pairs ----

  /** The status the i-th write found. */
  function Found(writes: seq<Status>, i: nat): Status
    requires i < |writes|
  {
    if i == 0 then Initiated else writes[i - 1]
  }

  lemma {:induction false} AnnouncementsLength(writes: seq<Status>)
    ensures |Announcements(writes)| == |writes|
  {
    if writes == [] {
    } else {
      AnnouncementsLength(writes[..|writes| - 1]);
    }
  }

  lemma {:induction false} AnnouncementAt(writes: seq<Status>, i: nat)
    requires i < |writes| == |Announcements(writes)|
    ensures Announcements(writes)[i] == (Found(writes, i), writes[i])
  {
    var n := |writes| - 1;
    AnnouncementsLength(writes[..n]);
    if i == n {
      assert Last(writes[..n]) == Found(writes, n);
    } else {
      AnnouncementAt(writes[..n], i);
      assert Found(writes[..n], i) == Found(writes, i);
    }
  }

  lemma {:induction false} LegalWriteAt(writes: seq<Status>, i: nat)
    requires LegalWrites(writes) && i < |writes|
    ensures LegalWrite(Found(writes, i), writes[i])
  {
    LegalPrefix(writes, i + 1);
    assert writes[..i + 1][..i] == writes[..i];
  }

  lemma {:induction false} UnfrozenWriteIsInTable(writes: seq<Status>, i: nat)
    requires LegalWrites(writes) && i < |writes| && Frozen !in writes
    ensures CanTransition(Found(writes, i), writes[i])
  {
    LegalWriteAt(writes, i);
    assert writes[i] != Frozen && Found(writes, i) != Frozen;
  }

  /** For a customer never frozen the announced pairs replay, from initiated to the current
      status, every status write there was, and each is in the table. */
  lemma {:induction false} NeverFrozenIsReplayed(rs: seq<Request>)
    requires Run(rs).freezes == []
    ensures
      var k := Run(rs);
      && |k.announced| == |k.writes|
      && (k.announced != [] ==> k.announced[0].0 == Initiated)
      && (forall i | 0 < i < |k.announced| :: k.announced[i].0 == k.announced[i - 1].1)
      && (forall i | 0 <= i < |k.announced| :: k.announced[i].1 == k.writes[i])
      && (forall i | 0 <= i < |k.announced| :: CanTransition(k.announced[i].0, k.announced[i].1))
      && k.status == if k.announced == [] then Initiated else k.announced[|k.announced| - 1].1
  {
    EveryRunKeepsInv(rs);
    AnnouncementsReplay(Run(rs).writes);
  }

  lemma {:induction false} AnnouncementsReplay(writes: seq<Status>)
    requires LegalWrites(writes) && Frozen !in writes
    ensures
      var announced := Announcements(writes);
      && |announced| == |writes|
      && (announced != [] ==> announced[0].0 == Initiated)
      && (forall i | 0 < i < |announced| :: announced[i].0 == announced[i - 1].1)
      && (forall i | 0 <= i < |announced| :: announced[i].1 == writes[i])
      && (forall i | 0 <= i < |announced| :: CanTransition(announced[i].0, announced[i].1))
      && Last(writes) == if announced == [] then Initiated else announced[|announced| - 1].1
  {
    AnnouncementsLength(writes);
    forall i: nat | i < |writes|
      ensures Announcements(writes)[i] == (Found(writes, i), writes[i]) && CanTransition(Found(writes, i), writes[i])
    {
      AnnouncementAt(writes, i);
      UnfrozenWriteIsInTable(writes, i);
    }
  }

  // ---- The course of the status ----

  lemma {:induction false} RunsOnlyWrite(k: Kyc, runs: seq<ProviderRun>)
    ensures k.writes <= AfterRuns(k, runs).writes
    ensures AfterRuns(k, runs).edd == k.edd
  {
    if runs == [] {
    } else {
      RunsOnlyWrite(k, runs[..|runs| - 1]);
    }
  }

  lemma {:induction false} UploadOnlyWrites(k: Kyc, d: DocumentType, ocrPasses: bool, faceMatches: bool)
    ensures k.writes <= AfterUpload(k, d, ocrPasses, faceMatches).writes
  {}

  lemma {:induction false} ScoreOnlyWrites(k: Kyc, scored: Tier)
    ensures k.writes <= AfterScore(k, scored).writes
  {}

  lemma {:induction false} PipelineOnlyWrites(k: Kyc, runs: seq<ProviderRun>, scored: Tier)
    ensures k.writes <= After(k, RunPipeline(runs, scored)).writes
  {
    RunsOnlyWrite(k, runs);
    ScoreOnlyWrites(k, scored);
    ScoreOnlyWrites(AfterRuns(k, runs), scored);
  }

  lemma {:induction false} RequestsOnlyWrite(k: Kyc, r: Request)
    ensures k.writes <= After(k, r).writes
  {
    match r
    case Upload(d, ocrPasses, faceMatches) => UploadOnlyWrites(k, d, ocrPasses, faceMatches);
    case Verify(runs) => RunsOnlyWrite(k, runs);
    case ScoreRisk(scored) => ScoreOnlyWrites(k, scored);
    case RunPipeline(runs, scored) => PipelineOnlyWrites(k, runs, scored);
    case _ =>
  }

  lemma {:induction false} EarlierWritesStay(rs: seq<Request>, i: nat)
    requires i <= |rs|
    ensures Run(rs[..i]).writes <= Run(rs).writes
    decreases |rs|
  {
    if i < |rs| {
      assert rs[..|rs| - 1][..i] == rs[..i];
      EarlierWritesStay(rs[..|rs| - 1], i);
      RequestsOnlyWrite(Run(rs[..|rs| - 1]), rs[|rs| - 1]);
    } else {
      assert rs[..i] == rs;
    }
  }

  /** Over every run the status never falls in rank and rejected or frozen is never left. */
  lemma {:induction false} StatusOnlyRises(rs: seq<Request>, i: nat)
    requires i <= |rs|
    ensures Rank(Run(rs[..i]).status) <= Rank(Run(rs).status)
    ensures Closed(Run(rs[..i]).status) ==> Closed(Run(rs).status)
  {
    EveryRunKeepsInv(rs[..i]);
    EveryRunKeepsInv(rs);
    EarlierWritesStay(rs, i);
    var n := |Run(rs[..i]).writes|;
    assert Run(rs).writes[..n] == Run(rs[..i]).writes;
    RankNeverFalls(Run(rs).writes, n);
  }

  /** An approved customer went through every stage up to risk scoring. */
  lemma {:induction false} ApprovedVisitedEveryStage(rs: seq<Request>, stage: Status)
    requires Run(rs).status == Approved
    requires 0 < Rank(stage) <= Rank(RiskScored)
    ensures stage in Run(rs).writes
  {
    EveryRunKeepsInv(rs);
    StagesAreVisited(Run(rs).writes, stage);
  }

  /** The writes up to the one that rejects or freezes. */
  function UntilClosed(writes: seq<Status>): seq<Status> {
    if writes == [] then []
    else if Closed(writes[0]) then [writes[0]]
    else [writes[0]] + UntilClosed(writes[1..])
  }

  lemma {:induction false} UntilClosedIsPrefix(writes: seq<Status>)
    ensures UntilClosed(writes) <= writes
    ensures forall i | 0 <= i < |UntilClosed(writes)| - 1 :: !Closed(writes[i])
    ensures UntilClosed(writes) != writes ==> UntilClosed(writes) != [] && Closed(writes[|UntilClosed(writes)| - 1])
  {
    if writes == [] || Closed(writes[0]) {
    } else {
      UntilClosedIsPrefix(writes[1..]);
      assert forall i | 0 < i < |writes| :: writes[i] == writes[1..][i - 1];
    }
  }

  /** The status changes at most eight times, rejection or freeze included, before it stays in
      the closed pair. */
  lemma {:induction false} AtMostEightChangesInARun(rs: seq<Request>)
    ensures Changes(UntilClosed(Run(rs).writes)) <= 8
  {
    EveryRunKeepsInv(rs);
    var writes := Run(rs).writes;
    UntilClosedIsPrefix(writes);
    LegalPrefix(writes, |UntilClosed(writes)|);
    assert writes[..|UntilClosed(writes)|] == UntilClosed(writes);
    AtMostEightChanges(UntilClosed(writes));
  }

  // ---- EDD and freezes ----

  /** An EDD case only exists from edd_in_progress on, so starting EDD never meets one. */
  lemma {:induction false} EddCaseNeverPrecedesEdd(rs: seq<Request>)
    ensures Run(rs).edd.Some? ==> Run(rs).status in {EddInProgress, Approved, Rejected, Frozen}
    ensures Run(rs).status == EddRequired ==> Handle(Run(rs), StartEdd).Some?
  {
    EveryRunKeepsInv(rs);
  }

  lemma {:induction false} DecidedCaseStays(k: Kyc, r: Request)
    requires k.edd.Some? && k.edd.value.decision != Pending
    ensures After(k, r).edd == k.edd
  {
    match r
    case Verify(runs) => RunsOnlyWrite(k, runs);
    case RunPipeline(runs, _) => RunsOnlyWrite(k, runs);
    case _ =>
  }

  /** A decision is final, was a senior role's, and shows in the status. */
  lemma {:induction false} EddDecisionIsFinal(rs: seq<Request>, r: Request)
    requires Run(rs).edd.Some? && Run(rs).edd.value.decision != Pending
    ensures After(Run(rs), r).edd == Run(rs).edd
    ensures MayDecideEdd(Run(rs).edd.value.decision.role)
    ensures Run(rs).edd.value.decision.ApprovedBy? ==> Run(rs).status in {Approved, Frozen, Rejected}
    ensures Run(rs).edd.value.decision.RejectedBy? ==> Run(rs).status in {Rejected, Frozen}
  {
    DecidedCaseStays(Run(rs), r);
    EveryRunKeepsInv(rs);
  }

  /** A frozen customer has an open freeze record; any record means rejected or frozen. */
  lemma {:induction false} FreezeRecordsExplainStatus(rs: seq<Request>)
    ensures Run(rs).status == Frozen ==> HasActiveFreeze(Run(rs).freezes)
    ensures Run(rs).freezes != [] ==> Run(rs).status in {Rejected, Frozen}
  {
    EveryRunKeepsInv(rs);
  }

  /** A customer in EDD has an undecided case, and an approved one a senior decision, exactly
      when that status was not entered by PATCH or reached without EDD. */
  lemma {:induction false} SeniorDecisionIff(rs: seq<Request>)
    ensures
      var k := Run(rs);
      && (k.status == EddInProgress ==>
            (k.edd.Some? && k.edd.value.decision == Pending <==> EddInProgress !in k.patchedInto))
      && (k.status == Approved ==>
            (k.edd.Some? && k.edd.value.decision.ApprovedBy? && MayDecideEdd(k.edd.value.decision.role)
             <==> Approved !in k.patchedInto))
  {
    EveryRunKeepsInv(rs);
  }

  lemma {:induction false} RunOneMore(rs: seq<Request>, r: Request)
    ensures Run(rs + [r]) == After(Run(rs), r)
  {
    assert (rs + [r])[..|rs|] == rs;
  }

  function PatchTo(s: Status): Request {
    Patch(None, Some(s), None)
  }

  lemma {:induction false} PatchesMove(rs: seq<Request>, to: Status)
    requires to in Successors(Run(rs).status) && Run(rs).edd == None
    ensures Run(rs + [PatchTo(to)]).status == to && Run(rs + [PatchTo(to)]).edd == None
    ensures Run(rs + [PatchTo(to)]).tier == Run(rs).tier
  {
    RunOneMore(rs, PatchTo(to));
  }

  lemma {:induction false} PatchesReachLiveness() returns (rs: seq<Request>)
    ensures rs == [PatchTo(DocumentsUploaded), PatchTo(IdentityVerified), PatchTo(LivenessChecked)]
    ensures Run(rs).status == LivenessChecked && Run(rs).edd == None
  {
    PatchesMove([], DocumentsUploaded);
    var one := [] + [PatchTo(DocumentsUploaded)];
    PatchesMove(one, IdentityVerified);
    var two := one + [PatchTo(IdentityVerified)];
    PatchesMove(two, LivenessChecked);
    rs := two + [PatchTo(LivenessChecked)];
  }

  lemma {:induction false} HighScoreRequiresEdd(rs: seq<Request>)
    requires Run(rs).status == RiskScored
    ensures
      var k := Run(rs + [ScoreRisk(High)]);
      k.status == EddRequired && k.tier == High && k.edd == Run(rs).edd
  {
    RunOneMore(rs, ScoreRisk(High));
  }

  lemma {:induction false} PatchesApprove(rs: seq<Request>)
    requires Run(rs).status == EddRequired && Run(rs).edd == None
    ensures
      var k := Run(rs + [PatchTo(EddInProgress)] + [PatchTo(Approved)]);
      k.status == Approved && k.tier == Run(rs).tier && k.edd == None
  {
    PatchesMove(rs, EddInProgress);
    PatchesMove(rs + [PatchTo(EddInProgress)], Approved);
  }

  /** PATCH takes a high-risk customer through EDD to approval with no case at all. */
  lemma {:induction false} PatchSkipsEdd() returns (rs: seq<Request>)
    ensures rs == [PatchTo(DocumentsUploaded), PatchTo(IdentityVerified), PatchTo(LivenessChecked), PatchTo(RiskScored),
                   ScoreRisk(High), PatchTo(EddInProgress), PatchTo(Approved)]
    ensures Run(rs).status == Approved && Run(rs).tier == High && Run(rs).edd == None
  {
    var three := PatchesReachLiveness();
    PatchesMove(three, RiskScored);
    var four := three + [PatchTo(RiskScored)];
    HighScoreRequiresEdd(four);
    var five := four + [ScoreRisk(High)];
    PatchesApprove(five);
    assert five == [PatchTo(DocumentsUploaded), PatchTo(IdentityVerified), PatchTo(LivenessChecked), PatchTo(RiskScored),
                    ScoreRisk(High)];
    rs := five + [PatchTo(EddInProgress)] + [PatchTo(Approved)];
  }

  /** Unfreezing brings back the status the customer was frozen in exactly when that was rejected. */
  lemma {:induction false} UnfreezeRestoresIff(before: seq<Request>, between: seq<Request>, freezer: Role, unfreezer: Role)
    requires Handle(Run(before), Freeze(freezer)).Some?
    requires Handle(Run(before + [Freeze(freezer)] + between), Unfreeze(unfreezer)).Some?
    ensures
      var rs := before + [Freeze(freezer)] + between + [Unfreeze(unfreezer)];
      Run(rs).status == Run(before).status <==> Run(before).status == Rejected
  {
    RunOneMore(before + [Freeze(freezer)] + between, Unfreeze(unfreezer));
  }

  /** An approved customer, frozen and unfrozen, ends rejected. */
  lemma {:induction false} UnfrozenIsNotApproved(rs: seq<Request>)
    requires Run(rs).status == Approved
    ensures Run(rs + [Freeze(Mlro), Unfreeze(Mlro)]).status == Rejected
  {
    RunOneMore(rs, Freeze(Mlro));
    RunOneMore(rs + [Freeze(Mlro)], Unfreeze(Mlro));
    assert rs + [Freeze(Mlro)] + [Unfreeze(Mlro)] == rs + [Freeze(Mlro), Unfreeze(Mlro)];
    assert Run(rs + [Freeze(Mlro)]).freezes[|Run(rs).freezes|] == Open;
  }
}
