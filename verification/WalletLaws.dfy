/** What each factor contributes to a wallet's score, and what a result consists of. */
module WalletLaws {
  import opened Common
  import opened SanctionsCheck
  import opened WalletScoring
  import Text

  const ETH := 1_000_000_000_000_000_000  // in wei

  // ---- The factors of layer 1 ----

  /** An address without a contract, an emptied or large balance, or many token transfers. */
  predicate IsPlain(info: AddressInfo) {
    info.Found? && !info.isContract && 0 < info.balanceWei <= 100 * ETH && info.tokenTransfers <= 200
  }

  /** A plain address is scored by its activity alone. */
  lemma {:induction false} ActivityScores(info: AddressInfo)
    requires IsPlain(info)
    ensures info.txCount == 0 ==> LayerOneScore(info, 0) == 25
    ensures info.txCount < 5 && info.txCount != 0 ==> LayerOneScore(info, 0) == 20
    ensures 5 <= info.txCount < 50 ==> LayerOneScore(info, 0) == 10
    ensures 50 <= info.txCount < 500 ==> LayerOneScore(info, 0) == 5
    ensures 500 <= info.txCount ==> LayerOneScore(info, 0) == 15
  {}

  /** Whatever the rest: an unverified contract adds 15 to the score and a verified one takes 5 off;
      whether an address without a contract counts as verified makes no difference. */
  lemma {:induction false} ContractAdds(info: AddressInfo, count: nat)
    requires info.Found?
    ensures LayerOneScore(info.(isContract := true, isVerified := false), count) == LayerOneScore(info.(isContract := false), count) + 15
    ensures LayerOneScore(info.(isContract := true, isVerified := true), count) == LayerOneScore(info.(isContract := false), count) - 5
    ensures LayerOneScore(info.(isContract := false, isVerified := true), count) ==
            LayerOneScore(info.(isContract := false, isVerified := false), count)
  {}

  /** An emptied wallet adds 10 after more than ten transactions, more than 100 ETH add 5, and any
      balance in between, or an empty one without that history, nothing. */
  lemma {:induction false} BalanceAdds(info: AddressInfo, wei: int, count: nat)
    requires info.Found?
    ensures LayerOneScore(info.(balanceWei := wei), count) == LayerOneScore(info.(balanceWei := ETH), count) +
            if 100 * ETH < wei then 5 else if wei == 0 && 10 < info.txCount then 10 else 0
  {}

  /** More than 200 token transfers add 5. */
  lemma {:induction false} TransfersAdd(info: AddressInfo, transfers: int, count: nat)
    requires info.Found?
    ensures LayerOneScore(info.(tokenTransfers := transfers), count) == LayerOneScore(info.(tokenTransfers := 0), count) +
            if 200 < transfers then 5 else 0
  {}

  /** One sanctioned counterparty adds 20 to a known address and more add 40 in all: the score is never
      clamped, and an unknown address stands at 50. */
  lemma {:induction false} CounterpartiesAdd(info: AddressInfo, count: nat)
    ensures info.Found? ==>
              LayerOneScore(info, count) == LayerOneScore(info, 0) + (if count == 0 then 0 else if count == 1 then 20 else 40)
    ensures info.Found? ==> 0 <= LayerOneScore(info, count) <= 90
    ensures info.NotFound? ==> LayerOneScore(info, count) == 50
  {}

  // ---- Category, confidence, exposure and flags ----

  lemma {:induction false} CategoryIff(score: int)
    ensures CategoryOf(score) == LowRisk <==> score < 40
    ensures CategoryOf(score) == MediumRisk <==> 40 <= score < 70
    ensures CategoryOf(score) == HighRisk <==> 70 <= score < 90
    ensures CategoryOf(score) == SevereRisk <==> 90 <= score
  {}

  lemma {:induction false} ConfidenceIff(info: AddressInfo, count: nat)
    ensures
      var confidence := LayerOne(info, count).confidence;
      && (confidence == LowConfidence <==> info.NotFound? || info.txCount < 3)
      && (confidence == MediumConfidence <==> info.Found? && 3 <= info.txCount < 10)
      && (confidence == HighConfidence <==> info.Found? && 10 <= info.txCount)
  {}

  /** The shares of a known address by its score: a seventh to mixers from 40 on, a tenth to gambling from
      30 on, 15 for each sanctioned counterparty up to 100, to exchanges 50 less half the score below 80
      and 5 from there, and what is left, if anything, unknown. */
  lemma {:induction false} ExposureIs(info: AddressInfo, count: nat)
    requires info.Found?
    ensures
      var e, score := LayerOne(info, count).exposure, LayerOneScore(info, count);
      && (if score < 40 then e.mixer == 0 else 7 * e.mixer <= score < 7 * e.mixer + 7)
      && (if score < 30 then e.gambling == 0 else 10 * e.gambling <= score < 10 * e.gambling + 10)
      && e.sanctioned == (if count < 7 then 15 * count else 100)
      && (if score < 80 then 100 - score <= 2 * e.exchange <= 101 - score else e.exchange == 5)
      && e.unknown == (var rest := 100 - e.mixer - e.gambling - e.sanctioned - e.exchange; if rest < 0 then 0 else rest)
  {
    CounterpartiesAdd(info, count);
  }

  lemma {:induction false} UnknownAddressIs(count: nat)
    ensures LayerOne(NotFound, count) == Scoring(50, LowConfidence, Exposure(0, 0, 0, 0, 100), [UnknownAddress])
  {}

  function When(condition: bool, f: Flag): seq<Flag> {
    if condition then [f] else []
  }

  /** Each flag of a known address, in order, stands for its reason; mixers are flagged from a score of 42. */
  lemma {:induction false} FlagsAre(info: AddressInfo, count: nat)
    requires info.Found?
    ensures
      var score := LayerOneScore(info, count);
      LayerOne(info, count).flagged ==
      When(0 < count, SanctionedCounterparty) + When(70 <= score, ElevatedRisk) + When(85 <= score, SanctionsProximity)
      + When(42 <= score, MixerExposure) + When(info.isContract && !info.isVerified, UnverifiedContract)
      + When(info.txCount == 0, NoActivity)
  {
    var score := LayerOneScore(info, count);
    CounterpartiesAdd(info, count);
    assert LayerOneExposure(info, count).mixer > 5 <==> 42 <= score;
  }

  // ---- Counterparties and layer 2 ----

  /** The wallet's counterparties are the senders and receivers of its transactions, in lower case, but
      for blanks and itself. */
  lemma {:induction false} CounterpartiesAre(lower: char -> string, txs: seq<Transaction>, self: string, a: string)
    ensures a in Counterparties(lower, txs, self) <==>
            a != self && exists tx :: tx in txs && ((tx.from != "" && a == Text.Lower(lower, tx.from)) ||
                                                    (tx.to != "" && a == Text.Lower(lower, tx.to)))
  {
    if txs == [] {
    } else {
      var n := |txs| - 1;
      CounterpartiesAre(lower, txs[..n], self, a);
      assert txs == txs[..n] + [txs[n]];
      assert forall tx :: tx in txs <==> tx in txs[..n] || tx == txs[n];
    }
  }

  /** An address that an OFAC or EU entry lists is severe, whatever is known of it. */
  lemma {:induction false} ListedWalletIsSevere(lower: char -> string, entries: seq<Entry>, address: string, chain: Chain, layer2Allowed: bool)
    requires Text.IsCaseMap(lower)
    ensures
      var r := WalletResult(lower, entries, address, chain, layer2Allowed);
      (exists e :: e in entries && Lists(lower, e, Text.Strip(Text.Lower(lower, address)))) ==>
        && r.scoring.score == 100 && r.category == SevereRisk && r.layer == Layer1
        && r.scoring.exposure == Exposure(0, 100, 0, 0, 0) && r.scoring.flagged == [SanctionsMatch]
        && r.scoring.confidence == HighConfidence
  {
    SanctionedIff(lower, entries, address);
    TargetIsNormal(lower, address);
  }

  /** One that no such entry lists is scored from what is learnt about it. */
  lemma {:induction false} UnlistedWalletIsScored(lower: char -> string, entries: seq<Entry>, address: string, chain: Chain, layer2Allowed: bool)
    requires Text.IsCaseMap(lower)
    requires forall e | e in entries :: !Lists(lower, e, Text.Strip(Text.Lower(lower, address)))
    ensures WalletResult(lower, entries, address, chain, layer2Allowed) ==
            Scored(lower, entries, chain, Text.Strip(Text.Lower(lower, address)), layer2Allowed)
  {
    SanctionedIff(lower, entries, address);
    TargetIsNormal(lower, address);
  }

  lemma {:induction false} TargetIsNormal(lower: char -> string, address: string)
    requires Text.IsCaseMap(lower)
    ensures Target(lower, Target(lower, address)) == Target(lower, address)
  {
    var lowered := Text.Lower(lower, address);
    Text.LowerIsLowered(lower, address);
    Text.StrippedIsNormal(lowered);
    var text := Text.Strip(lowered);
    forall i | 0 <= i < |text|
      ensures lower(text[i]) == [text[i]]
    {
      assert text[i] in lowered;
    }
    Text.LowerFixesLowered(lower, text);
  }

  /** Any other address keeps its layer 1 scoring when that is confident, when layer 2 is not allowed or
      when it finds nothing. */
  lemma {:induction false} LayerOneStands(lower: char -> string, entries: seq<Entry>, chain: Chain, self: string, layer2Allowed: bool)
    ensures
      var r := Scored(lower, entries, chain, self, layer2Allowed);
      (chain.info.Found? && 3 <= chain.info.txCount) || !layer2Allowed || chain.squid == None || chain.squid == Some([]) ==>
        && r.layer == Layer1 && r.scoring == LayerOne(chain.info, LayerOneCount(lower, entries, chain, self))
        && r.category == CategoryOf(r.scoring.score)
  {}

  /** Otherwise layer 2 adds 20 to the score and 15 to the sanctioned share for each sanctioned counterparty
      that is new, both up to 100, with a flag; ten transactions in all make the confidence medium. */
  lemma {:induction false} LayerTwoAdds(lower: char -> string, entries: seq<Entry>, chain: Chain, self: string)
    requires chain.squid.Some? && chain.squid.value != [] && (chain.info.Found? ==> chain.info.txCount < 3)
    ensures
      var r, s := Scored(lower, entries, chain, self, true), LayerOne(chain.info, LayerOneCount(lower, entries, chain, self));
      var extra := ExtraCount(lower, entries, chain, self);
      && r.layer == Layer2 && r.category == CategoryOf(r.scoring.score)
      && r.scoring.score == (if s.score + 20 * extra < 100 then s.score + 20 * extra else 100)
      && r.scoring.exposure.sanctioned ==
         (if s.exposure.sanctioned + 15 * extra < 100 then s.exposure.sanctioned + 15 * extra else 100)
      && r.scoring.exposure.(sanctioned := 0) == s.exposure.(sanctioned := 0)
      && (r.scoring.confidence == MediumConfidence <==> 10 <= |chain.recent| + |chain.squid.value|)
      && (r.scoring.confidence == LowConfidence <==> |chain.recent| + |chain.squid.value| < 10)
      && r.scoring.flagged == (if extra == 0 then s.flagged else s.flagged + [SanctionedCounterpartyL2])
  {
    if chain.info.Found? {
      CounterpartiesAdd(chain.info, LayerOneCount(lower, entries, chain, self));
    }
  }

  /** The looked-for addresses found are those, blanks aside, that some OFAC or EU entry lists. */
  lemma {:induction false} FoundAmongIff(lower: char -> string, entries: seq<Entry>, addresses: set<string>, text: string)
    requires text != ""
    ensures text in SanctionedAmong(lower, entries, addresses) <==>
            (exists a :: a in addresses && Text.Strip(Text.Lower(lower, a)) == text) && exists e :: e in entries && Lists(lower, e, text)
  {
    assert Text.Strip(Text.Lower(lower, "")) == "";
    FoundIff(lower, entries, text);
    if a :| a in addresses && Text.Strip(Text.Lower(lower, a)) == text {
      assert a != "" && Target(lower, a) in Targets(lower, addresses);
    }
  }

  lemma {:induction false} FoundIff(lower: char -> string, entries: seq<Entry>, text: string)
    requires text != ""
    ensures SanctionedLoosely(lower, entries, text) <==> exists e :: e in entries && Lists(lower, e, text)
  {
    if SanctionedLoosely(lower, entries, text) {
      var k :| 0 <= k < |entries| && EntryMatchesLoosely(lower, entries[k], text);
      EntryLookupsAgree(lower, entries[k], text);
      EntryMatchesIff(lower, entries[k], text);
    }
    if e :| e in entries && Lists(lower, e, text) {
      var k :| 0 <= k < |entries| && entries[k] == e;
      EntryMatchesIff(lower, e, text);
      EntryLookupsAgree(lower, e, text);
      assert EntryMatchesLoosely(lower, entries[k], text);
    }
  }

  /** Empty addresses are not looked for. */
  lemma {:induction false} EmptyAddressIsNotFound(lower: char -> string, entries: seq<Entry>)
    ensures SanctionedAmong(lower, entries, {""}) == {}
  {}
}
