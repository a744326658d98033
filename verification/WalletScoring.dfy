/** Wallet risk scores of layers 1 and 2. */
module WalletScoring {
  import opened Common
  import opened SanctionsCheck
  import Text

  datatype Category = LowRisk | MediumRisk | HighRisk | SevereRisk

  datatype Confidence = LowConfidence | MediumConfidence | HighConfidence

  datatype Layer = Layer1 | Layer2

  datatype AddressInfo =
    | NotFound
    | Found(txCount: int, balanceWei: int, tokenTransfers: int, isContract: bool, isVerified: bool)

  /** Percentages by counterparty kind. */
  datatype Exposure = Exposure(mixer: int, sanctioned: int, gambling: int, exchange: int, unknown: int)

  datatype Flag =
    | UnknownAddress | SanctionedCounterparty | ElevatedRisk | SanctionsProximity | MixerExposure
    | UnverifiedContract | NoActivity | SanctionedCounterpartyL2 | SanctionsMatch

  datatype Scoring = Scoring(score: int, confidence: Confidence, exposure: Exposure, flagged: seq<Flag>)

  datatype Result = Result(scoring: Scoring, category: Category, layer: Layer)

  datatype Transaction = Transaction(from: string, to: string)

  function CategoryOf(score: int): Category {
    if score >= 90 then SevereRisk else if score >= 70 then HighRisk else if score >= 40 then MediumRisk else LowRisk
  }

  function Level(c: Category): nat {
    match c case LowRisk => 0 case MediumRisk => 1 case HighRisk => 2 case SevereRisk => 3
  }

  function Min(x: int, y: int): int {
    if x <= y then x else y
  }

  function Max(x: int, y: int): int {
    if x <= y then y else x
  }

  const WEI_PER_ETH := 1_000_000_000_000_000_000

  /** What activity, balance, contract and token transfers make of the baseline of 10. */
  function BaseScore(info: AddressInfo): int
    requires info.Found?
  {
    10
    + (if info.txCount == 0 then 15 else if info.txCount < 5 then 10 else if info.txCount < 50 then 0
       else if info.txCount < 500 then -5 else 5)
    + (if info.balanceWei == 0 && info.txCount > 10 then 10 else if info.balanceWei > 100 * WEI_PER_ETH then 5 else 0)
    + (if info.isContract then (if info.isVerified then -5 else 15) else 0)
    + (if info.tokenTransfers > 200 then 5 else 0)
  }

  function LayerOneScore(info: AddressInfo, sanctionedCount: nat): int {
    if info.NotFound? then 50
    else Max(0, Min(100, BaseScore(info) + Min(40, 20 * sanctionedCount)))
  }

  function LayerOneConfidence(info: AddressInfo): Confidence {
    if info.NotFound? then LowConfidence
    else if info.txCount >= 10 then HighConfidence else if info.txCount >= 3 then MediumConfidence else LowConfidence
  }

  function ExposureFor(score: int, sanctionedCount: nat): Exposure {
    var sanctioned := Min(100, 15 * sanctionedCount);
    var mixer := if score >= 40 then Min(15, score / 7) else 0;
    var gambling := if score >= 30 then Min(10, score / 10) else 0;
    var exchange := if score < 80 then Max(5, 50 - score / 2) else 5;
    Exposure(mixer, sanctioned, gambling, exchange, Max(0, 100 - sanctioned - mixer - gambling - exchange))
  }

  function LayerOneExposure(info: AddressInfo, sanctionedCount: nat): Exposure {
    if info.NotFound? then Exposure(0, 0, 0, 0, 100)
    else ExposureFor(LayerOneScore(info, sanctionedCount), sanctionedCount)
  }

  function FlagIf(condition: bool, flag: Flag): seq<Flag> {
    if condition then [flag] else []
  }

  function FlagsFor(info: AddressInfo, sanctionedCount: nat, score: int, mixerPct: int): seq<Flag>
    requires info.Found?
  {
    FlagIf(sanctionedCount > 0, SanctionedCounterparty) + FlagIf(score >= 70, ElevatedRisk)
    + FlagIf(score >= 85, SanctionsProximity) + FlagIf(mixerPct > 5, MixerExposure)
    + FlagIf(info.isContract && !info.isVerified, UnverifiedContract) + FlagIf(info.txCount == 0, NoActivity)
  }

  function LayerOneFlags(info: AddressInfo, sanctionedCount: nat): seq<Flag> {
    if info.NotFound? then [UnknownAddress]
    else FlagsFor(info, sanctionedCount, LayerOneScore(info, sanctionedCount), LayerOneExposure(info, sanctionedCount).mixer)
  }

  function LayerOne(info: AddressInfo, sanctionedCount: nat): Scoring {
    Scoring(LayerOneScore(info, sanctionedCount), LayerOneConfidence(info),
            LayerOneExposure(info, sanctionedCount), LayerOneFlags(info, sanctionedCount))
  }

  /** `_calculate_blockscout_score`. */
  method CalculateScore(info: AddressInfo, sanctionedCount: nat) returns (s: Scoring)
    ensures s == LayerOne(info, sanctionedCount)
  {
    if info.NotFound? {
      return Scoring(50, LowConfidence, Exposure(0, 0, 0, 0, 100), [UnknownAddress]);
    }
    var score := RawScore(info);
    if sanctionedCount > 0 {
      score := score + Min(40, sanctionedCount * 20);
    }
    score := Max(0, Min(100, score));
    var confidence := if info.txCount >= 10 then HighConfidence else if info.txCount >= 3 then MediumConfidence else LowConfidence;
    var exposure := BreakDown(score, sanctionedCount);
    var flagged := CollectFlags(info, sanctionedCount, score, exposure.mixer);
    s := Scoring(score, confidence, exposure, flagged);
  }

  method BreakDown(score: int, sanctionedCount: nat) returns (exposure: Exposure)
    ensures exposure == ExposureFor(score, sanctionedCount)
  {
    var sanctionedPct := if sanctionedCount > 0 then Min(100, sanctionedCount * 15) else 0;
    var mixerPct := if score >= 40 then Min(15, score / 7) else 0;
    var gamblingPct := if score >= 30 then Min(10, score / 10) else 0;
    var exchangePct := if score < 80 then Max(5, 50 - score / 2) else 5;
    var unknownPct := Max(0, 100 - sanctionedPct - mixerPct - gamblingPct - exchangePct);
    exposure := Exposure(mixerPct, sanctionedPct, gamblingPct, exchangePct, unknownPct);
  }

  method CollectFlags(info: AddressInfo, sanctionedCount: nat, score: int, mixerPct: int) returns (flagged: seq<Flag>)
    requires info.Found?
    ensures flagged == FlagsFor(info, sanctionedCount, score, mixerPct)
  {
    flagged := AppendIf([], sanctionedCount > 0, SanctionedCounterparty);
    assert flagged == FlagIf(sanctionedCount > 0, SanctionedCounterparty);
    flagged := AppendIf(flagged, score >= 70, ElevatedRisk);
    flagged := AppendIf(flagged, score >= 85, SanctionsProximity);
    flagged := AppendIf(flagged, mixerPct > 5, MixerExposure);
    flagged := AppendIf(flagged, info.isContract && !info.isVerified, UnverifiedContract);
    flagged := AppendIf(flagged, info.txCount == 0, NoActivity);
  }

  method AppendIf(flagged: seq<Flag>, condition: bool, flag: Flag) returns (r: seq<Flag>)
    ensures r == flagged + FlagIf(condition, flag)
  {
    r := flagged;
    if condition {
      r := r + [flag];
    }
  }

  /** The score before counterparties, built up factor by factor. */
  method RawScore(info: AddressInfo) returns (score: int)
    requires info.Found?
    ensures score == BaseScore(info)
  {
    score := 10;
    if info.txCount == 0 {
      score := score + 15;
    } else if info.txCount < 5 {
      score := score + 10;
    } else if info.txCount < 50 {
    } else if info.txCount < 500 {
      score := score - 5;
    } else {
      score := score + 5;
    }
    if info.balanceWei == 0 && info.txCount > 10 {
      score := score + 10;
    } else if info.balanceWei > 100 * WEI_PER_ETH {
      score := score + 5;
    }
    if info.isContract && !info.isVerified {
      score := score + 15;
    } else if info.isContract && info.isVerified {
      score := score - 5;
    }
    if info.tokenTransfers > 200 {
      score := score + 5;
    }
  }

  // ---- Counterparties and layer 2 ----

  function PartiesOf(lower: char -> string, tx: Transaction, self: string): set<string> {
    (if tx.from != "" && Text.Lower(lower, tx.from) != self then {Text.Lower(lower, tx.from)} else {}) +
    (if tx.to != "" && Text.Lower(lower, tx.to) != self then {Text.Lower(lower, tx.to)} else {})
  }

  function Counterparties(lower: char -> string, txs: seq<Transaction>, self: string): set<string> {
    if txs == [] then {}
    else Counterparties(lower, txs[..|txs| - 1], self) + PartiesOf(lower, txs[|txs| - 1], self)
  }

  method CollectCounterparties(lower: char -> string, txs: seq<Transaction>, self: string) returns (parties: set<string>)
    ensures parties == Counterparties(lower, txs, self)
  {
    parties := {};
    for i := 0 to |txs|
      invariant parties == Counterparties(lower, txs[..i], self)
    {
      assert txs[..i + 1][..i] == txs[..i];
      var from, to := Text.Lower(lower, txs[i].from), Text.Lower(lower, txs[i].to);
      if txs[i].from != "" && from != self {
        parties := parties + {from};
      }
      if txs[i].to != "" && to != self {
        parties := parties + {to};
      }
    }
    assert txs[..|txs|] == txs;
  }

  /** What one request learns from outside: Blockscout's answers and Subsquid's, if any. */
  datatype Chain = Chain(info: AddressInfo, recent: seq<Transaction>, squid: Option<seq<Transaction>>)

  function LayerOneCount(lower: char -> string, entries: seq<Entry>, chain: Chain, self: string): nat {
    |SanctionedAmong(lower, entries, Counterparties(lower, chain.recent, self))|
  }

  function NewCounterparties(lower: char -> string, chain: Chain, self: string): set<string> {
    Counterparties(lower, chain.squid.GetOr([]), self) - Counterparties(lower, chain.recent, self)
  }

  function ExtraCount(lower: char -> string, entries: seq<Entry>, chain: Chain, self: string): nat {
    |SanctionedAmong(lower, entries, NewCounterparties(lower, chain, self))|
  }

  predicate Enriches(chain: Chain, layer2Allowed: bool) {
    LayerOneConfidence(chain.info) == LowConfidence && layer2Allowed && chain.squid.GetOr([]) != []
  }

  function Enriched(s: Scoring, totalTxs: nat, extra: nat): Scoring {
    Scoring(
      if extra > 0 then Min(100, s.score + 20 * extra) else s.score,
      if totalTxs >= 10 then MediumConfidence else s.confidence,
      if extra > 0 then s.exposure.(sanctioned := Min(100, s.exposure.sanctioned + 15 * extra)) else s.exposure,
      s.flagged + FlagIf(extra > 0, SanctionedCounterpartyL2))
  }

  /** Both layers, from what was learnt and the sanctioned counterparties each counts. */
  function FromCounts(chain: Chain, enriches: bool, count: nat, extra: nat): Result {
    var s := LayerOne(chain.info, count);
    if enriches then
      var s2 := Enriched(s, |chain.recent| + |chain.squid.GetOr([])|, extra);
      Result(s2, CategoryOf(s2.score), Layer2)
    else Result(s, CategoryOf(s.score), Layer1)
  }

  function Scored(lower: char -> string, entries: seq<Entry>, chain: Chain, self: string, layer2Allowed: bool): Result {
    FromCounts(chain, Enriches(chain, layer2Allowed),
               LayerOneCount(lower, entries, chain, self), ExtraCount(lower, entries, chain, self))
  }

  const SANCTIONED_RESULT :=
    Result(Scoring(100, HighConfidence, Exposure(0, 100, 0, 0, 0), [SanctionsMatch]), SevereRisk, Layer1)

  /** `score_wallet` on a cache miss: a listed address is severe, any other is scored. */
  function WalletResult(lower: char -> string, entries: seq<Entry>, address: string, chain: Chain, layer2Allowed: bool): Result {
    var self := Target(lower, address);
    if Sanctioned(lower, entries, Target(lower, self)) then SANCTIONED_RESULT
    else Scored(lower, entries, chain, self, layer2Allowed)
  }

  method ScoreWallet(lower: char -> string, entries: seq<Entry>, address: string, chain: Chain, layer2Allowed: bool)
    returns (r: Result)
    ensures r == WalletResult(lower, entries, address, chain, layer2Allowed)
  {
    var self := Target(lower, address);
    var listed := IsSanctionedAddress(lower, entries, self);
    if listed {
      return SANCTIONED_RESULT;
    }
    var parties := CollectCounterparties(lower, chain.recent, self);
    var _, count := CheckCounterparties(lower, entries, parties);
    var s := CalculateScore(chain.info, count);
    var layer := Layer1;
    if s.confidence == LowConfidence && layer2Allowed {
      if chain.squid.Some? && chain.squid.value != [] {
        var squidParties := CollectCounterparties(lower, chain.squid.value, self);
        var _, extra := CheckCounterparties(lower, entries, squidParties - parties);
        s := Enrich(s, |chain.recent| + |chain.squid.value|, extra);
        layer := Layer2;
      }
    }
    r := Result(s, CategoryOf(s.score), layer);
  }

  method Enrich(s: Scoring, totalTxs: nat, extra: nat) returns (r: Scoring)
    ensures r == Enriched(s, totalTxs, extra)
  {
    var score, confidence, exposure, flagged := s.score, s.confidence, s.exposure, s.flagged;
    if extra > 0 {
      score := Min(100, score + extra * 20);
      exposure := exposure.(sanctioned := Min(100, exposure.sanctioned + extra * 15));
      flagged := flagged + [SanctionedCounterpartyL2];
    }
    if totalTxs >= 10 {
      confidence := MediumConfidence;
    }
    r := Scoring(score, confidence, exposure, flagged);
  }

  // ---- Laws ----

  lemma {:induction false} ScoreIsPercentage(lower: char -> string, entries: seq<Entry>, address: string, chain: Chain, layer2Allowed: bool)
    ensures 0 <= WalletResult(lower, entries, address, chain, layer2Allowed).scoring.score <= 100
  {}

  /** Layer 1 exposure of a known address adds up to 100 exactly up to four sanctioned
      counterparties, and with five while the score lies in the eighties. */
  lemma {:induction false} ExposureAddsUpIff(info: AddressInfo, count: nat)
    requires info.Found?
    ensures
      var e, score := LayerOneExposure(info, count), LayerOneScore(info, count);
      e.mixer + e.sanctioned + e.gambling + e.exchange + e.unknown == 100 <==>
        count <= 4 || (count == 5 && 80 <= score < 90)
  {
    var base, score := BaseScore(info), LayerOneScore(info, count);
    assert 0 <= base <= 60;
    assert 2 <= count ==> 40 <= score;
    OtherExposureBounds(score);
  }

  function OtherExposure(score: int): int {
    (if score >= 40 then Min(15, score / 7) else 0) + (if score >= 30 then Min(10, score / 10) else 0)
    + (if score < 80 then Max(5, 50 - score / 2) else 5)
  }

  lemma {:induction false} OtherExposureBounds(score: int)
    requires 0 <= score <= 100
    ensures OtherExposure(score) <= 55
    ensures 40 <= score ==> 24 <= OtherExposure(score) <= 40
    ensures 40 <= score ==> (OtherExposure(score) <= 25 <==> 80 <= score < 90)
  {}

  lemma {:induction false} UnionCountsIff(a: set<string>, b: set<string>)
    ensures |a| + |b| == |a + b| <==> a !! b
  {
    assert |a + b| == |a| + |b| - |a * b|;
    if a !! b {
      assert a * b == {};
    } else {
      var x :| x in a && x in b;
      assert x in a * b;
    }
  }

  lemma {:induction false} SanctionedAmongUnion(lower: char -> string, entries: seq<Entry>, x: set<string>, y: set<string>)
    ensures SanctionedAmong(lower, entries, x + y) == SanctionedAmong(lower, entries, x) + SanctionedAmong(lower, entries, y)
  {
    assert Targets(lower, x + y) == Targets(lower, x) + Targets(lower, y);
  }

  /** Two addresses that are one listed address but for surrounding blanks. */
  predicate SameListing(lower: char -> string, entries: seq<Entry>, a: string, b: string) {
    a != "" && b != "" && Target(lower, a) == Target(lower, b) && SanctionedLoosely(lower, entries, Target(lower, a))
  }

  lemma {:induction false} ListingsMeetIff(lower: char -> string, entries: seq<Entry>, x: set<string>, y: set<string>)
    ensures SanctionedAmong(lower, entries, x) !! SanctionedAmong(lower, entries, y) <==>
            forall a, b | a in x && b in y :: !SameListing(lower, entries, a, b)
  {
    forall a, b | a in x && b in y && SameListing(lower, entries, a, b)
      ensures Target(lower, a) in SanctionedAmong(lower, entries, x)
      ensures Target(lower, a) in SanctionedAmong(lower, entries, y)
    {
      assert Target(lower, a) in Targets(lower, x) && Target(lower, b) in Targets(lower, y);
    }
    forall t | t in SanctionedAmong(lower, entries, x) && t in SanctionedAmong(lower, entries, y)
      ensures exists a, b :: a in x && b in y && SameListing(lower, entries, a, b)
    {
      var a :| a in x && a != "" && t == Target(lower, a);
      var b :| b in y && b != "" && t == Target(lower, b);
      assert SameListing(lower, entries, a, b);
    }
  }

  /** Both layers' counts add up to the count over all counterparties exactly when no listed
      address is met in both, differing only in surrounding blanks. */
  lemma {:induction false} CountsAddUpIff(lower: char -> string, entries: seq<Entry>, chain: Chain, self: string)
    ensures
      var seen, more := Counterparties(lower, chain.recent, self), NewCounterparties(lower, chain, self);
      LayerOneCount(lower, entries, chain, self) + ExtraCount(lower, entries, chain, self)
        == |SanctionedAmong(lower, entries, seen + more)|
      <==> forall a, b | a in seen && b in more :: !SameListing(lower, entries, a, b)
  {
    var seen, more := Counterparties(lower, chain.recent, self), NewCounterparties(lower, chain, self);
    SanctionedAmongUnion(lower, entries, seen, more);
    UnionCountsIff(SanctionedAmong(lower, entries, seen), SanctionedAmong(lower, entries, more));
    ListingsMeetIff(lower, entries, seen, more);
  }

  /** One listed address met padded in layer 1 and bare in layer 2 is counted twice. */
  lemma {:induction false} PaddedAddressCountsTwice(lower: char -> string)
    requires Text.IsCaseMap(lower)
    ensures
      var entries := [Entry("ofac", "", Some([Plain("x")]))];
      var chain := Chain(NotFound, [Transaction(" x", "")], Some([Transaction("x", "")]));
      LayerOneCount(lower, entries, chain, "s") == 1 && ExtraCount(lower, entries, chain, "s") == 1
  {
    var entries := [Entry("ofac", "", Some([Plain("x")]))];
    LowerOfOneAndTwo(lower);
    OneCounterparty(lower, " x", "s");
    OneCounterparty(lower, "x", "s");
    ListingIsFound(lower, entries, "x");
    OneTarget(lower, entries, " x");
    OneTarget(lower, entries, "x");
    assert {"x"} - {" x"} == {"x"};
  }

  lemma {:induction false} OneCounterparty(lower: char -> string, from: string, self: string)
    requires from != "" && Text.Lower(lower, from) != self
    ensures Counterparties(lower, [Transaction(from, "")], self) == {Text.Lower(lower, from)}
  {
    assert [Transaction(from, "")][..0] == [];
  }

  lemma {:induction false} OneTarget(lower: char -> string, entries: seq<Entry>, address: string)
    requires address != "" && SanctionedLoosely(lower, entries, Target(lower, address))
    ensures SanctionedAmong(lower, entries, {address}) == {Target(lower, address)}
  {
    assert Targets(lower, {address}) == {Target(lower, address)};
  }

  lemma {:induction false} ListingIsFound(lower: char -> string, entries: seq<Entry>, address: string)
    requires entries == [Entry("ofac", "", Some([Plain(address)]))] && Text.Lower(lower, address) == address
    ensures SanctionedLoosely(lower, entries, address)
  {
    assert LowerOrEmpty(lower, entries[0].addresses.GetOr([])[0]) == address;
    assert EntryMatchesLoosely(lower, entries[0], address);
  }

  lemma {:induction false} LowerOfOneAndTwo(lower: char -> string)
    requires Text.IsCaseMap(lower)
    ensures Text.Lower(lower, "x") == "x" && Text.Lower(lower, " x") == " x"
    ensures Text.Strip("x") == "x" && Text.Strip(" x") == "x"
  {
    assert "x"[1..] == "" && " x"[1..] == "x";
    assert Text.StripLeft("x") == "x" && Text.StripLeft(" x") == "x";
  }

  predicate Trimmed(lower: char -> string, addresses: set<string>) {
    forall a | a in addresses :: Target(lower, a) == a
  }

  /** Addresses without surrounding blanks are each counted once over the two layers. */
  lemma {:induction false} TrimmedCountsAddUp(lower: char -> string, entries: seq<Entry>, chain: Chain, self: string)
    requires Trimmed(lower, Counterparties(lower, chain.recent, self))
    requires Trimmed(lower, NewCounterparties(lower, chain, self))
    ensures LayerOneCount(lower, entries, chain, self) + ExtraCount(lower, entries, chain, self) ==
            |SanctionedAmong(lower, entries, Counterparties(lower, chain.recent, self)
                                             + Counterparties(lower, chain.squid.GetOr([]), self))|
  {
    var seen, more := Counterparties(lower, chain.recent, self), NewCounterparties(lower, chain, self);
    assert seen + more == seen + Counterparties(lower, chain.squid.GetOr([]), self);
    CountsAddUpIff(lower, entries, chain, self);
  }

  ghost predicate Enlarges(lower: char -> string, entries': seq<Entry>, entries: seq<Entry>) {
    forall t :: (Sanctioned(lower, entries, t) ==> Sanctioned(lower, entries', t)) &&
                (SanctionedLoosely(lower, entries, t) ==> SanctionedLoosely(lower, entries', t))
  }

  lemma {:induction false} LargerListsCountMore(lower: char -> string, entries: seq<Entry>, entries': seq<Entry>, addresses: set<string>)
    requires Enlarges(lower, entries', entries)
    ensures |SanctionedAmong(lower, entries, addresses)| <= |SanctionedAmong(lower, entries', addresses)|
  {
    var a, b := SanctionedAmong(lower, entries, addresses), SanctionedAmong(lower, entries', addresses);
    assert b == a + (b - a);
  }

  predicate NoHigher(r: Result, r': Result) {
    r.scoring.score <= r'.scoring.score && Level(r.category) <= Level(r'.category)
  }

  lemma {:induction false} HigherCountsScoreHigher(chain: Chain, enriches: bool, count: nat, extra: nat, count': nat, extra': nat)
    requires count <= count' && extra <= extra'
    ensures NoHigher(FromCounts(chain, enriches, count, extra), FromCounts(chain, enriches, count', extra'))
    ensures NoHigher(FromCounts(chain, enriches, count, extra), SANCTIONED_RESULT)
  {
    assert LayerOneScore(chain.info, count) <= LayerOneScore(chain.info, count') <= 100;
  }

  lemma {:induction false} LargerListsRaiseCounts(lower: char -> string, entries: seq<Entry>, entries': seq<Entry>, chain: Chain, self: string)
    requires Enlarges(lower, entries', entries)
    ensures LayerOneCount(lower, entries, chain, self) <= LayerOneCount(lower, entries', chain, self)
    ensures ExtraCount(lower, entries, chain, self) <= ExtraCount(lower, entries', chain, self)
  {
    LargerListsCountMore(lower, entries, entries', Counterparties(lower, chain.recent, self));
    LargerListsCountMore(lower, entries, entries', NewCounterparties(lower, chain, self));
  }

  lemma {:induction false} EnlargingListsNeverLowersScored(lower: char -> string, entries: seq<Entry>, entries': seq<Entry>,
                                                           chain: Chain, self: string, layer2Allowed: bool)
    requires Enlarges(lower, entries', entries)
    ensures NoHigher(Scored(lower, entries, chain, self, layer2Allowed), Scored(lower, entries', chain, self, layer2Allowed))
    ensures NoHigher(Scored(lower, entries, chain, self, layer2Allowed), SANCTIONED_RESULT)
  {
    LargerListsRaiseCounts(lower, entries, entries', chain, self);
    var count, extra := LayerOneCount(lower, entries, chain, self), ExtraCount(lower, entries, chain, self);
    var count', extra' := LayerOneCount(lower, entries', chain, self), ExtraCount(lower, entries', chain, self);
    HigherCountsScoreHigher(chain, Enriches(chain, layer2Allowed), count, extra, count', extra');
  }

  /** Enlarging the sanctions lists never lowers a wallet's score or category. */
  lemma {:induction false} EnlargingListsNeverLowers(lower: char -> string, entries: seq<Entry>, entries': seq<Entry>,
                                                     address: string, chain: Chain, layer2Allowed: bool)
    requires Enlarges(lower, entries', entries)
    ensures NoHigher(WalletResult(lower, entries, address, chain, layer2Allowed),
                     WalletResult(lower, entries', address, chain, layer2Allowed))
  {
    var self := Target(lower, address);
    assert Sanctioned(lower, entries, Target(lower, self)) ==> Sanctioned(lower, entries', Target(lower, self));
    EnlargingListsNeverLowersScored(lower, entries, entries', chain, self, layer2Allowed);
  }

  /** More entries enlarge the lists. */
  lemma {:induction false} AddingEntriesEnlarges(lower: char -> string, entries: seq<Entry>, more: seq<Entry>)
    ensures Enlarges(lower, entries + more, entries)
  {
    var all := entries + more;
    forall t
      ensures Sanctioned(lower, entries, t) ==> Sanctioned(lower, all, t)
      ensures SanctionedLoosely(lower, entries, t) ==> SanctionedLoosely(lower, all, t)
    {
      if Sanctioned(lower, entries, t) {
        var e :| 0 <= e < |entries| && EntryMatches(lower, entries[e], t);
        assert EntryMatches(lower, all[e], t);
      }
      if SanctionedLoosely(lower, entries, t) {
        var e :| 0 <= e < |entries| && EntryMatchesLoosely(lower, entries[e], t);
        assert EntryMatchesLoosely(lower, all[e], t);
      }
    }
  }

  /** Sanctioned counterparties of layer 1 raise its score exactly for an address Blockscout knows. */
  lemma {:induction false} LayerOneCountRaisesIff(info: AddressInfo, count: nat)
    requires 0 < count
    ensures LayerOneScore(info, count) > LayerOneScore(info, 0) <==> info.Found?
  {}

  /** Any other address scores 50, whatever layer 1 saw, plus 20 for each sanctioned counterparty
      new in layer 2 where that is allowed. */
  lemma {:induction false} UnknownAddressIgnoresLayerOne(lower: char -> string, entries: seq<Entry>, chain: Chain, self: string, layer2Allowed: bool)
    requires chain.info.NotFound?
    ensures
      Scored(lower, entries, chain, self, layer2Allowed).scoring.score ==
      if layer2Allowed then Min(100, 50 + 20 * ExtraCount(lower, entries, chain, self)) else 50
  {
    if chain.squid.GetOr([]) == [] {
      assert NewCounterparties(lower, chain, self) == {};
      assert SanctionedAmong(lower, entries, {}) == {};
    }
  }
}
