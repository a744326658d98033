/** The KYC status graph and what any list of status writes along it obeys. */
module KycWorkflow {
  datatype Status =
    | Initiated | DocumentsUploaded | IdentityVerified | LivenessChecked | RiskScored
    | EddRequired | EddInProgress | Approved | Rejected | Frozen

  /** `KYC_TRANSITIONS`; `frozen` has no entry. */
  function Successors(s: Status): set<Status> {
    match s
    case Initiated => {DocumentsUploaded, Rejected}
    case DocumentsUploaded => {IdentityVerified, Rejected}
    case IdentityVerified => {LivenessChecked, Rejected}
    case LivenessChecked => {RiskScored, Rejected}
    case RiskScored => {Approved, Rejected, EddRequired}
    case EddRequired => {EddInProgress, Rejected}
    case EddInProgress => {Approved, Rejected}
    case Approved => {}
    case Rejected => {}
    case Frozen => {}
  }

  predicate CanTransition(from: Status, to: Status) {
    from == to || to in Successors(from)
  }

  function Rank(s: Status): nat {
    match s
    case Initiated => 0
    case DocumentsUploaded => 1
    case IdentityVerified => 2
    case LivenessChecked => 3
    case RiskScored => 4
    case EddRequired => 5
    case EddInProgress => 6
    case Approved => 7
    case Rejected => 8
    case Frozen => 8
  }

  predicate Closed(s: Status) {
    s == Rejected || s == Frozen
  }

  /** The writes the platform makes: table transitions, a freeze, and the rejection that ends one. */
  predicate LegalWrite(from: Status, to: Status) {
    CanTransition(from, to) || to == Frozen || (Closed(from) && to == Rejected)
  }

  /** The status after the writes; a customer starts as initiated. */
  function Last(writes: seq<Status>): Status {
    if writes == [] then Initiated else writes[|writes| - 1]
  }

  predicate LegalWrites(writes: seq<Status>) {
    writes == [] ||
    (LegalWrites(writes[..|writes| - 1]) && LegalWrite(Last(writes[..|writes| - 1]), writes[|writes| - 1]))
  }

  /** The (old, new) pairs that announce every write. */
  function Announcements(writes: seq<Status>): seq<(Status, Status)> {
    if writes == [] then []
    else Announcements(writes[..|writes| - 1]) + [(Last(writes[..|writes| - 1]), writes[|writes| - 1])]
  }

  /** How many writes changed the status. */
  function Changes(writes: seq<Status>): nat {
    if writes == [] then 0
    else Changes(writes[..|writes| - 1]) + if Last(writes[..|writes| - 1]) == writes[|writes| - 1] then 0 else 1
  }

  lemma {:induction false} LegalWriteRaisesRank(from: Status, to: Status)
    requires LegalWrite(from, to)
    ensures Rank(from) <= Rank(to)
    ensures Rank(from) == Rank(to) ==> from == to || Closed(from)
    ensures Closed(from) ==> Closed(to)
  {}

  lemma {:induction false} LegalPrefix(writes: seq<Status>, i: nat)
    requires LegalWrites(writes) && i <= |writes|
    ensures LegalWrites(writes[..i])
    decreases |writes|
  {
    if i < |writes| {
      assert writes[..|writes| - 1][..i] == writes[..i];
      LegalPrefix(writes[..|writes| - 1], i);
    } else {
      assert writes[..i] == writes;
    }
  }

  /** The status never falls in rank, and rejected and frozen are never left. */
  lemma {:induction false} RankNeverFalls(writes: seq<Status>, i: nat)
    requires LegalWrites(writes) && i <= |writes|
    ensures Rank(Last(writes[..i])) <= Rank(Last(writes))
    ensures Closed(Last(writes[..i])) ==> Closed(Last(writes))
    decreases |writes|
  {
    if i < |writes| {
      var n := |writes| - 1;
      assert writes[..n][..i] == writes[..i];
      RankNeverFalls(writes[..n], i);
      LegalWriteRaisesRank(Last(writes[..n]), writes[n]);
    } else {
      assert writes[..i] == writes;
    }
  }

  lemma {:induction false} ChangesAreRanked(writes: seq<Status>)
    requires LegalWrites(writes)
    requires forall i | 0 <= i < |writes| - 1 :: !Closed(writes[i])
    ensures Changes(writes) <= Rank(Last(writes))
  {
    if writes == [] {
    } else {
      var n := |writes| - 1;
      ChangesAreRanked(writes[..n]);
      LegalWriteRaisesRank(Last(writes[..n]), writes[n]);
    }
  }

  /** At most eight writes change the status up to the one that enters rejected or frozen. */
  lemma {:induction false} AtMostEightChanges(writes: seq<Status>)
    requires LegalWrites(writes)
    requires forall i | 0 <= i < |writes| - 1 :: !Closed(writes[i])
    ensures Changes(writes) <= 8
    ensures !Closed(Last(writes)) ==> Changes(writes) <= 7
  {
    ChangesAreRanked(writes);
  }

  /** A status past a stage of the onboarding line was reached through that stage. */
  lemma {:induction false} StagesAreVisited(writes: seq<Status>, stage: Status)
    requires LegalWrites(writes) && !Closed(Last(writes))
    requires 0 < Rank(stage) <= Rank(RiskScored) && Rank(stage) <= Rank(Last(writes))
    ensures stage in writes
  {
    var n := |writes| - 1;
    var before := Last(writes[..n]);
    LegalWriteRaisesRank(before, writes[n]);
    if Rank(before) < Rank(stage) {
      assert writes[n] == stage;
    } else {
      StagesAreVisited(writes[..n], stage);
    }
  }

  /** The table's edges: from every open status to rejected and to the next stage, besides from risk_scored
      straight to approved; approved, rejected and frozen have none, and none leads to frozen. */
  lemma {:induction false} TransitionIff(from: Status, to: Status)
    ensures CanTransition(from, to) <==>
            from == to ||
            (Rank(from) < 7 && (to == Rejected || (Rank(to) == Rank(from) + 1 && to != Frozen) || (from == RiskScored && to == Approved)))
  {}

  /** The stages in their order. */
  lemma {:induction false} RankIs(s: Status)
    ensures [Initiated, DocumentsUploaded, IdentityVerified, LivenessChecked, RiskScored, EddRequired, EddInProgress,
             Approved, if s == Frozen then Frozen else Rejected][Rank(s)] == s
  {}
}
