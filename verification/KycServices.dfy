/** The services that write a customer's status, step by step on one database session. */
module KycServices {
  import opened Common
  import opened KycWorkflow
  import opened KycLifecycle

  class Session {
    var status: Status
    var tier: Tier
    var hasCnic: bool
    var documents: seq<DocumentType>
    var nadraChecked: bool
    var shuftiPending: set<nat>
    var edd: Option<EddCase>
    var freezes: seq<FreezeStatus>
    var writes: seq<Status>
    var announced: seq<(Status, Status)>
    var patchedInto: set<Status>
    var committed: Kyc

    function View(): Kyc
      reads this
    {
      Kyc(status, tier, hasCnic, documents, nadraChecked, shuftiPending, edd, freezes, writes, announced, patchedInto)
    }

    constructor ()
      ensures View() == committed == NEW_CUSTOMER
    {
      status, tier, hasCnic, documents, nadraChecked := Initiated, Medium, false, [], false;
      shuftiPending, edd, freezes, writes, announced, patchedInto := {}, None, [], [], [], {};
      committed := NEW_CUSTOMER;
    }

    method SetStatus(to: Status)
      modifies this`status, this`writes
      ensures View() == Write(old(View()), to)
    {
      status := to;
      writes := writes + [to];
    }

    /** `notify_kyc_status_change`: the new status is read off the customer. */
    method Announce(previous: Status)
      modifies this`announced
      ensures announced == old(announced) + [(previous, status)]
    {
      announced := announced + [(previous, status)];
    }

    /** Sets the status, flushes, and announces the change. */
    method Move(to: Status)
      modifies this`status, this`writes, this`announced
      ensures View() == WriteAndAnnounce(old(View()), to)
    {
      var previous := status;
      SetStatus(to);
      Announce(previous);
    }

    method MoveIf(from: Status, to: Status, passes: bool)
      modifies this`status, this`writes, this`announced
      ensures View() == Advance(old(View()), from, to, passes)
    {
      if passes && status == from {
        Move(to);
      }
    }

    method UpdateCustomer(newTier: Option<Tier>, newStatus: Option<Status>, cnic: Option<bool>) returns (ok: bool)
      modifies this`status, this`writes, this`announced, this`tier, this`hasCnic, this`patchedInto
      ensures var h := Handle(old(View()), Patch(newTier, newStatus, cnic));
              ok == h.Some? && (ok ==> View() == h.value)
    {
      if cnic.Some? {
        hasCnic := cnic.value;
      }
      if newTier.Some? {
        tier := newTier.value;
      }
      if newStatus.Some? {
        if !CanTransition(status, newStatus.value) {
          return false;
        }
        if newStatus.value != status {
          patchedInto := patchedInto + {newStatus.value};
        }
        Move(newStatus.value);
      }
      ok := true;
    }

    method UploadDocument(d: DocumentType, ocrPasses: bool, faceMatches: bool) returns (ok: bool)
      modifies this`status, this`writes, this`announced, this`documents
      ensures var h := Handle(old(View()), Upload(d, ocrPasses, faceMatches));
              ok == h.Some? && (ok ==> View() == h.value)
    {
      if IsEddDocument(d) && status != EddInProgress {
        return false;
      }
      NewDocumentComparesWithOld(documents, d);
      documents := documents + [d];
      MoveIf(Initiated, DocumentsUploaded, true);
      if IsIdDocument(d) {
        MoveIf(DocumentsUploaded, IdentityVerified, ocrPasses);
      }
      CompareFaces(d, faceMatches);
      ok := true;
    }

    /** The face match, run on what is already stored, the new document included. */
    method CompareFaces(d: DocumentType, faceMatches: bool)
      modifies this`status, this`writes, this`announced
      ensures View() == Advance(old(View()), IdentityVerified, LivenessChecked, Comparable(documents, d) && faceMatches)
    {
      if d == Selfie {
        if HasIdDocument(documents) {
          MoveIf(IdentityVerified, LivenessChecked, faceMatches);
        }
      }
      if IsIdDocument(d) && status == IdentityVerified {
        if Selfie in documents {
          MoveIf(IdentityVerified, LivenessChecked, faceMatches);
        }
      }
    }

    method RunProvider(run: ProviderRun)
      modifies this`status, this`writes, this`announced, this`nadraChecked, this`shuftiPending
      ensures View() == AfterRun(old(View()), run)
    {
      match run
      case Nadra(verified) =>
        nadraChecked := true;
        if verified && status == DocumentsUploaded {
          Move(IdentityVerified);
        }
      case Shufti(reference) => shuftiPending := shuftiPending + {reference};
    }

    method RunProviders(runs: seq<ProviderRun>)
      modifies this`status, this`writes, this`announced, this`nadraChecked, this`shuftiPending
      ensures View() == AfterRuns(old(View()), runs)
    {
      for i := 0 to |runs|
        invariant View() == AfterRuns(old(View()), runs[..i])
      {
        assert runs[..i + 1][..i] == runs[..i];
        RunProvider(runs[i]);
      }
      assert runs[..|runs|] == runs;
    }

    method ProcessCallback(reference: nat, event: ShuftiEvent)
      modifies this`status, this`writes, this`announced, this`nadraChecked, this`shuftiPending
      ensures View() == Handle(old(View()), ShuftiCallback(reference, event)).value
    {
      if reference !in shuftiPending {
        return;
      }
      shuftiPending := shuftiPending - {reference};
      if event == OtherEvent {
        return;
      }
      nadraChecked := true;
      if event == Accepted && status == DocumentsUploaded {
        Move(IdentityVerified);
      }
    }

    method Score(scored: Tier)
      modifies this`status, this`writes, this`announced, this`tier
      ensures View() == AfterScore(old(View()), scored)
    {
      tier := scored;
      if status == LivenessChecked {
        Move(RiskScored);
      } else if status == RiskScored {
        var previous := RiskScored;
        if scored == Prohibited {
          SetStatus(Rejected);
        } else if scored == High {
          SetStatus(EddRequired);
        }
        if status != previous {
          Announce(previous);
        }
      }
    }

    method RunKycPipeline(runs: seq<ProviderRun>, scored: Tier)
      modifies this`status, this`writes, this`announced, this`tier, this`nadraChecked, this`shuftiPending
      ensures View() == Handle(old(View()), RunPipeline(runs, scored)).value
    {
      if (status == DocumentsUploaded || status == IdentityVerified) && hasCnic && !nadraChecked {
        RunProviders(runs);
      }
      if status == LivenessChecked {
        Score(scored);
      }
    }

    method OpenEdd() returns (ok: bool)
      modifies this`status, this`writes, this`announced, this`edd
      ensures var h := Handle(old(View()), StartEdd); ok == h.Some? && (ok ==> View() == h.value)
    {
      if status != EddRequired || edd.Some? {
        return false;
      }
      Move(EddInProgress);
      edd := Some(EddCase(None, false, Pending));
      ok := true;
    }

    method SubmitSourceOfFunds(text: string, verified: bool) returns (ok: bool)
      modifies this`edd
      ensures var h := Handle(old(View()), SubmitFunds(text, verified)); ok == h.Some? && (ok ==> View() == h.value)
    {
      if edd.None? || edd.value.decision != Pending {
        return false;
      }
      edd := Some(edd.value.(sourceOfFunds := Some(text), verified := verified));
      ok := true;
    }

    method Decide(user: nat, role: Role, approve: bool) returns (ok: bool)
      modifies this`status, this`writes, this`announced, this`edd
      ensures var h := Handle(old(View()), DecideEdd(user, role, approve)); ok == h.Some? && (ok ==> View() == h.value)
    {
      if !MayDecideEdd(role) || edd.None? || edd.value.decision != Pending || status != EddInProgress {
        return false;
      }
      edd := Some(edd.value.(decision := if approve then ApprovedBy(user, role) else RejectedBy(user, role)));
      Move(if approve then Approved else Rejected);
      ok := true;
    }

    method FreezeCustomer(role: Role) returns (ok: bool)
      modifies this`status, this`writes, this`freezes
      ensures var h := Handle(old(View()), Freeze(role)); ok == h.Some? && (ok ==> View() == h.value)
    {
      if !MayFreeze(role) {
        return false;
      }
      SetStatus(Frozen);
      freezes := freezes + [Open];
      ok := true;
    }

    method ReportFreezeToFmu() returns (ok: bool)
      modifies this`freezes
      ensures var h := Handle(old(View()), ReportFreeze); ok == h.Some? && (ok ==> View() == h.value)
    {
      var n := LatestFreeze(freezes, true);
      LatestFreezeIsLatest(freezes, true);
      if n == 0 {
        return false;
      }
      freezes := freezes[n - 1 := ReportedToFmu];
      ok := true;
    }

    method UnfreezeCustomer(role: Role) returns (ok: bool)
      modifies this`status, this`writes, this`freezes
      ensures var h := Handle(old(View()), Unfreeze(role)); ok == h.Some? && (ok ==> View() == h.value)
    {
      if !MayDecideEdd(role) {
        return false;
      }
      var n := LatestFreeze(freezes, false);
      LatestFreezeIsLatest(freezes, false);
      if n == 0 {
        return false;
      }
      freezes := freezes[n - 1 := Unfrozen];
      SetStatus(Rejected);
      ok := true;
    }

    method Rollback()
      modifies this
      ensures committed == old(committed) && View() == committed
    {
      var k := committed;
      status, tier, hasCnic, documents, nadraChecked := k.status, k.tier, k.hasCnic, k.documents, k.nadraChecked;
      shuftiPending, edd, freezes := k.shuftiPending, k.edd, k.freezes;
      writes, announced, patchedInto := k.writes, k.announced, k.patchedInto;
    }

    /** One request: its service, then commit, or rollback when the service raises. */
    method Serve(r: Request) returns (ok: bool)
      requires View() == committed
      modifies this
      ensures ok == Handle(old(committed), r).Some?
      ensures committed == After(old(committed), r) && View() == committed
    {
      ok := true;
      match r {
        case Patch(newTier, newStatus, cnic) => ok := UpdateCustomer(newTier, newStatus, cnic);
        case Upload(d, ocrPasses, faceMatches) => ok := UploadDocument(d, ocrPasses, faceMatches);
        case Verify(runs) =>
          if hasCnic {
            RunProviders(runs);
          } else {
            ok := false;
          }
        case ShuftiCallback(reference, event) => ProcessCallback(reference, event);
        case ScoreRisk(scored) => Score(scored);
        case RunPipeline(runs, scored) => RunKycPipeline(runs, scored);
        case StartEdd => ok := OpenEdd();
        case SubmitFunds(text, verified) => ok := SubmitSourceOfFunds(text, verified);
        case DecideEdd(user, role, approve) => ok := Decide(user, role, approve);
        case Freeze(role) => ok := FreezeCustomer(role);
        case ReportFreeze => ok := ReportFreezeToFmu();
        case Unfreeze(role) => ok := UnfreezeCustomer(role);
      }
      if ok {
        committed := View();
      } else {
        Rollback();
      }
    }
  }

  lemma {:induction false} NewDocumentComparesWithOld(ds: seq<DocumentType>, d: DocumentType)
    ensures Comparable(ds + [d], d) <==> Comparable(ds, d)
  {
    var ds' := ds + [d];
    assert forall i | 0 <= i < |ds| :: ds'[i] == ds[i];
    if i :| 0 <= i < |ds| && IsIdDocument(ds[i]) {
      assert IsIdDocument(ds'[i]);
    }
  }

  /** Serving any list of requests leaves the customer the run describes, with all it keeps. */
  method ServeAll(rs: seq<Request>) returns (session: Session)
    ensures session.committed == Run(rs) && Inv(session.committed)
  {
    session := new Session();
    for i := 0 to |rs|
      invariant fresh(session) && session.View() == session.committed == Run(rs[..i])
    {
      assert rs[..i + 1][..i] == rs[..i];
      var _ := session.Serve(rs[i]);
    }
    assert rs[..|rs|] == rs;
    EveryRunKeepsInv(rs);
  }
}
