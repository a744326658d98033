/** The lookups of wallet addresses in the OFAC and EU sanctions lists. */
module SanctionsCheck {
  import opened Common
  import opened Places
  import opened Text

  /** An element of `crypto_addresses`. */
  datatype Listing = Plain(address: string) | Record(listed: Option<string>) | Other

  datatype Entry = Entry(source: string, primaryName: string, addresses: Option<seq<Listing>>)

  predicate IsSanctionsList(source: string) {
    source == "ofac" || source == "eu"
  }

  /** The address a listing holds; a record without one holds "". */
  function AddressOf(l: Listing): Option<string> {
    match l
    case Plain(address) => Some(address)
    case Record(listed) => Some(listed.GetOr(""))
    case Other => None
  }

  function Target(lower: char -> string, address: string): string {
    Strip(Lower(lower, address))
  }

  predicate Matches(lower: char -> string, l: Listing, target: string) {
    AddressOf(l).Some? && Lower(lower, AddressOf(l).value) == target
  }

  /** The batch and reporting lookups take "" for a listing without an address. */
  function LowerOrEmpty(lower: char -> string, l: Listing): string {
    Lower(lower, AddressOf(l).GetOr(""))
  }

  predicate EntryMatches(lower: char -> string, e: Entry, target: string) {
    IsSanctionsList(e.source) && exists i | 0 <= i < |e.addresses.GetOr([])| :: Matches(lower, e.addresses.GetOr([])[i], target)
  }

  predicate Sanctioned(lower: char -> string, entries: seq<Entry>, target: string) {
    exists e | 0 <= e < |entries| :: EntryMatches(lower, entries[e], target)
  }

  predicate EntryMatchesLoosely(lower: char -> string, e: Entry, target: string) {
    IsSanctionsList(e.source) && exists i | 0 <= i < |e.addresses.GetOr([])| :: LowerOrEmpty(lower, e.addresses.GetOr([])[i]) == target
  }

  predicate SanctionedLoosely(lower: char -> string, entries: seq<Entry>, target: string) {
    exists e | 0 <= e < |entries| :: EntryMatchesLoosely(lower, entries[e], target)
  }

  method IsSanctionedAddress(lower: char -> string, entries: seq<Entry>, address: string) returns (found: bool)
    ensures found <==> Sanctioned(lower, entries, Target(lower, address))
  {
    var target := Target(lower, address);
    for e := 0 to |entries|
      invariant !Sanctioned(lower, entries[..e], target)
    {
      if IsSanctionsList(entries[e].source) {
        var addresses := entries[e].addresses.GetOr([]);
        for i := 0 to |addresses|
          invariant forall j | 0 <= j < i :: !Matches(lower, addresses[j], target)
        {
          if Matches(lower, addresses[i], target) {
            assert EntryMatches(lower, entries[e], target);
            return true;
          }
        }
      }
      assert !EntryMatches(lower, entries[e], target);
      assert forall k | 0 <= k < e :: entries[..e + 1][k] == entries[..e][k];
    }
    assert entries[..|entries|] == entries;
    found := false;
  }

  function MatchingEntries(lower: char -> string, entries: seq<Entry>, target: string): seq<(string, string)> {
    if entries == [] then [] else
      var e := entries[|entries| - 1];
      MatchingEntries(lower, entries[..|entries| - 1], target) +
      if EntryMatches(lower, e, target) then [(e.source, e.primaryName)] else []
  }

  /** The matching entries, each once, however many of its addresses match. */
  method SanctionedEntries(lower: char -> string, entries: seq<Entry>, address: string)
    returns (out: seq<(string, string)>)
    ensures out == MatchingEntries(lower, entries, Target(lower, address))
  {
    var target := Target(lower, address);
    out := [];
    for e := 0 to |entries|
      invariant out == MatchingEntries(lower, entries[..e], target)
    {
      assert entries[..e + 1][..e] == entries[..e];
      if IsSanctionsList(entries[e].source) {
        var addresses := entries[e].addresses.GetOr([]);
        ghost var before := out;
        for i := 0 to |addresses|
          invariant out == before
          invariant forall j | 0 <= j < i :: !Matches(lower, addresses[j], target)
        {
          if Matches(lower, addresses[i], target) {
            out := out + [(entries[e].source, entries[e].primaryName)];
            assert EntryMatches(lower, entries[e], target);
            break;
          }
        }
      }
    }
    assert entries[..|entries|] == entries;
  }

  /** A reported listing; its address is spelled as listed. */
  datatype Hit = Hit(entityName: string, source: string, address: string)

  predicate HitsAt(lower: char -> string, e: Entry, target: string, i: nat) {
    && IsSanctionsList(e.source) && i < |e.addresses.GetOr([])|
    && LowerOrEmpty(lower, e.addresses.GetOr([])[i]) == target
  }

  /** The hit is an entry's first listing of the address. */
  ghost predicate IsHitOf(lower: char -> string, e: Entry, target: string, hit: Hit) {
    exists i: nat ::
      && HitsAt(lower, e, target, i) && (forall j: nat | j < i :: !HitsAt(lower, e, target, j))
      && hit == Hit(e.primaryName, e.source, AddressOf(e.addresses.GetOr([])[i]).GetOr(""))
  }

  /** One hit for each entry that lists the address, in order. */
  ghost predicate AreHits(lower: char -> string, entries: seq<Entry>, target: string, hits: seq<Hit>) {
    if entries == [] then hits == [] else
      var e, rest := entries[|entries| - 1], entries[..|entries| - 1];
      if EntryMatchesLoosely(lower, e, target) then
        hits != [] && AreHits(lower, rest, target, hits[..|hits| - 1]) && IsHitOf(lower, e, target, hits[|hits| - 1])
      else AreHits(lower, rest, target, hits)
  }

  /** `check_address_sanctions`. */
  method CheckAddress(lower: char -> string, entries: seq<Entry>, address: string) returns (isSanctioned: bool, hits: seq<Hit>)
    ensures AreHits(lower, entries, Target(lower, address), hits)
    ensures isSanctioned <==> SanctionedLoosely(lower, entries, Target(lower, address))
  {
    var target := Target(lower, address);
    hits := [];
    for e := 0 to |entries|
      invariant AreHits(lower, entries[..e], target, hits)
    {
      var found, hit := FirstHit(lower, entries[e], target);
      assert entries[..e + 1][..e] == entries[..e];
      if found {
        assert (hits + [hit])[..|hits|] == hits;
        hits := hits + [hit];
      }
    }
    assert entries[..|entries|] == entries;
    HitsIff(lower, entries, target, hits);
    isSanctioned := |hits| > 0;
  }

  /** The scan of one entry's listings, which ends at the first hit. */
  method FirstHit(lower: char -> string, e: Entry, target: string) returns (found: bool, hit: Hit)
    ensures found <==> EntryMatchesLoosely(lower, e, target)
    ensures found ==> IsHitOf(lower, e, target, hit)
  {
    found, hit := false, Hit("", "", "");
    var addresses := e.addresses.GetOr([]);
    if IsSanctionsList(e.source) {
      for i := 0 to |addresses|
        invariant !found && forall j: nat | j < i :: !HitsAt(lower, e, target, j)
      {
        var val := AddressOf(addresses[i]).GetOr("");
        if Lower(lower, val) == target {
          assert HitsAt(lower, e, target, i);
          return true, Hit(e.primaryName, e.source, val);
        }
      }
      assert forall i: nat | i < |addresses| :: LowerOrEmpty(lower, addresses[i]) == target ==> HitsAt(lower, e, target, i);
    }
  }

  lemma {:induction false} HitsIff(lower: char -> string, entries: seq<Entry>, target: string, hits: seq<Hit>)
    requires AreHits(lower, entries, target, hits)
    ensures hits != [] <==> SanctionedLoosely(lower, entries, target)
  {
    if entries == [] {
    } else {
      var e, rest := entries[|entries| - 1], entries[..|entries| - 1];
      assert entries == rest + [e];
      LooselyAppend(lower, rest, e, target);
      if !EntryMatchesLoosely(lower, e, target) {
        HitsIff(lower, rest, target, hits);
      }
    }
  }

  lemma {:induction false} LooselyAppend(lower: char -> string, entries: seq<Entry>, e: Entry, target: string)
    ensures SanctionedLoosely(lower, entries + [e], target) <==>
            SanctionedLoosely(lower, entries, target) || EntryMatchesLoosely(lower, e, target)
  {
    var all := entries + [e];
    assert all[|entries|] == e && forall k | 0 <= k < |entries| :: all[k] == entries[k];
    if SanctionedLoosely(lower, entries, target) {
      var k :| 0 <= k < |entries| && EntryMatchesLoosely(lower, entries[k], target);
      assert EntryMatchesLoosely(lower, all[k], target);
    }
  }

  /** The addresses a batch check looks for. */
  function Targets(lower: char -> string, addresses: set<string>): set<string> {
    set a | a in addresses && a != "" :: Target(lower, a)
  }

  /** The looked-for addresses that are listed. */
  function SanctionedAmong(lower: char -> string, entries: seq<Entry>, addresses: set<string>): set<string> {
    set t | t in Targets(lower, addresses) && SanctionedLoosely(lower, entries, t)
  }

  method CheckCounterparties(lower: char -> string, entries: seq<Entry>, addresses: set<string>)
    returns (sanctioned: set<string>, count: nat)
    ensures sanctioned == SanctionedAmong(lower, entries, addresses) && count == |sanctioned|
  {
    if addresses == {} {
      return {}, 0;
    }
    var lowered := Targets(lower, addresses);
    sanctioned := {};
    for e := 0 to |entries|
      invariant forall t :: t in sanctioned <==> t in lowered && SanctionedLoosely(lower, entries[..e], t)
    {
      ghost var before := sanctioned;
      var listings := entries[e].addresses.GetOr([]);
      if IsSanctionsList(entries[e].source) {
        for i := 0 to |listings|
          invariant forall t :: t in sanctioned <==>
                      t in before || (t in lowered && exists j :: 0 <= j < i && LowerOrEmpty(lower, listings[j]) == t)
        {
          var val := LowerOrEmpty(lower, listings[i]);
          if val in lowered {
            sanctioned := sanctioned + {val};
          }
        }
      }
      assert entries[..e + 1] == entries[..e] + [entries[e]];
      forall t
        ensures t in sanctioned <==> t in lowered && SanctionedLoosely(lower, entries[..e + 1], t)
      {
        LooselyAppend(lower, entries[..e], entries[e], t);
      }
    }
    assert entries[..|entries|] == entries;
    count := |sanctioned|;
  }

  // ---- The lookups agree ----

  lemma {:induction false} MatchingEntriesIff(lower: char -> string, entries: seq<Entry>, target: string)
    ensures MatchingEntries(lower, entries, target) != [] <==> Sanctioned(lower, entries, target)
  {
    if entries == [] {
    } else {
      var n := |entries| - 1;
      MatchingEntriesIff(lower, entries[..n], target);
      if Sanctioned(lower, entries[..n], target) {
        var k :| 0 <= k < n && EntryMatches(lower, entries[..n][k], target);
        assert EntryMatches(lower, entries[k], target);
      }
      if Sanctioned(lower, entries, target) {
        var k :| 0 <= k < |entries| && EntryMatches(lower, entries[k], target);
        assert k < n ==> EntryMatches(lower, entries[..n][k], target);
      }
    }
  }

  lemma {:induction false} EntryLookupsAgree(lower: char -> string, e: Entry, target: string)
    requires target != ""
    ensures EntryMatches(lower, e, target) <==> EntryMatchesLoosely(lower, e, target)
  {
    var addresses := e.addresses.GetOr([]);
    assert forall i | 0 <= i < |addresses| :: Matches(lower, addresses[i], target) <==> LowerOrEmpty(lower, addresses[i]) == target;
  }

  /** All four lookups give one answer for every address that is not blank. */
  lemma {:induction false} LookupsAgree(lower: char -> string, entries: seq<Entry>, address: string)
    requires Target(lower, address) != ""
    ensures Sanctioned(lower, entries, Target(lower, address)) <==> SanctionedLoosely(lower, entries, Target(lower, address))
    ensures Sanctioned(lower, entries, Target(lower, address)) <==> MatchingEntries(lower, entries, Target(lower, address)) != []
    ensures Sanctioned(lower, entries, Target(lower, address)) <==> Target(lower, address) in SanctionedAmong(lower, entries, {address})
  {
    var target := Target(lower, address);
    MatchingEntriesIff(lower, entries, target);
    forall e | 0 <= e < |entries|
      ensures EntryMatches(lower, entries[e], target) <==> EntryMatchesLoosely(lower, entries[e], target)
    {
      EntryLookupsAgree(lower, entries[e], target);
    }
    assert address != "";
    assert target in Targets(lower, {address});
  }

  /** Some entry has a listing that is neither text nor a record. */
  predicate HoldsOther(entries: seq<Entry>) {
    exists e :: 0 <= e < |entries| && IsSanctionsList(entries[e].source) && Other in entries[e].addresses.GetOr([])
  }

  /** For a blank address the lookups differ exactly when the single one finds no blank listing and
      some listing is neither text nor a record, which the batch and reporting ones read as "". */
  lemma {:induction false} BlankLookupsDifferIff(lower: char -> string, entries: seq<Entry>)
    ensures SanctionedLoosely(lower, entries, "") <==> Sanctioned(lower, entries, "") || HoldsOther(entries)
    ensures Sanctioned(lower, entries, "") != SanctionedLoosely(lower, entries, "") <==>
            !Sanctioned(lower, entries, "") && HoldsOther(entries)
  {
    if SanctionedLoosely(lower, entries, "") && !Sanctioned(lower, entries, "") {
      var e :| 0 <= e < |entries| && EntryMatchesLoosely(lower, entries[e], "");
      var i :| 0 <= i < |entries[e].addresses.GetOr([])| && LowerOrEmpty(lower, entries[e].addresses.GetOr([])[i]) == "";
      assert !EntryMatches(lower, entries[e], "");
      assert entries[e].addresses.GetOr([])[i] == Other;
    }
    if Sanctioned(lower, entries, "") {
      var e :| 0 <= e < |entries| && EntryMatches(lower, entries[e], "");
      var i :| 0 <= i < |entries[e].addresses.GetOr([])| && Matches(lower, entries[e].addresses.GetOr([])[i], "");
      assert LowerOrEmpty(lower, entries[e].addresses.GetOr([])[i]) == "";
      assert EntryMatchesLoosely(lower, entries[e], "");
    }
    if HoldsOther(entries) {
      var e :| 0 <= e < |entries| && IsSanctionsList(entries[e].source) && Other in entries[e].addresses.GetOr([]);
      var i :| 0 <= i < |entries[e].addresses.GetOr([])| && entries[e].addresses.GetOr([])[i] == Other;
      assert LowerOrEmpty(lower, entries[e].addresses.GetOr([])[i]) == "";
      assert EntryMatchesLoosely(lower, entries[e], "");
    }
  }

  /** One listing that is neither text nor a record: the batch and reporting lookups find a blank
      address, the single ones do not. */
  lemma {:induction false} BlankAddressIsFound(lower: char -> string, name: string)
    ensures
      var entries := [Entry("ofac", name, Some([Other]))];
      SanctionedLoosely(lower, entries, "") && !Sanctioned(lower, entries, "")
  {
    var entries := [Entry("ofac", name, Some([Other]))];
    assert IsSanctionsList(entries[0].source) && [Other][0] == Other;
    assert HoldsOther(entries);
    BlankLookupsDifferIff(lower, entries);
  }

  // ---- What is found, read off the lists ----

  /** The listing is text, or a record's address, that is the given text in lower case. */
  predicate ListsText(lower: char -> string, l: Listing, text: string) {
    || (l.Plain? && Lower(lower, l.address) == text)
    || (l.Record? && Lower(lower, if l.listed.Some? then l.listed.value else "") == text)
  }

  predicate ListsAt(lower: char -> string, e: Entry, i: nat, text: string) {
    && (e.source == "ofac" || e.source == "eu")
    && e.addresses.Some? && i < |e.addresses.value| && ListsText(lower, e.addresses.value[i], text)
  }

  ghost predicate Lists(lower: char -> string, e: Entry, text: string) {
    exists i: nat :: ListsAt(lower, e, i, text)
  }

  lemma {:induction false} EntryMatchesIff(lower: char -> string, e: Entry, text: string)
    ensures EntryMatches(lower, e, text) <==> Lists(lower, e, text)
  {
    if EntryMatches(lower, e, text) {
      var i :| 0 <= i < |e.addresses.GetOr([])| && Matches(lower, e.addresses.GetOr([])[i], text);
      assert ListsAt(lower, e, i, text);
    }
    if i: nat :| ListsAt(lower, e, i, text) {
      assert Matches(lower, e.addresses.GetOr([])[i], text);
    }
  }

  /** An address is sanctioned exactly when an OFAC or EU entry lists it, up to letter case and the
      white space around the address asked for. */
  lemma {:induction false} SanctionedIff(lower: char -> string, entries: seq<Entry>, address: string)
    ensures Sanctioned(lower, entries, Target(lower, address)) <==>
            exists e :: e in entries && Lists(lower, e, Strip(Lower(lower, address)))
  {
    var text := Strip(Lower(lower, address));
    if Sanctioned(lower, entries, Target(lower, address)) {
      var k :| 0 <= k < |entries| && EntryMatches(lower, entries[k], text);
      EntryMatchesIff(lower, entries[k], text);
    }
    if e :| e in entries && Lists(lower, e, text) {
      var k :| 0 <= k < |entries| && entries[k] == e;
      EntryMatchesIff(lower, entries[k], text);
    }
  }

  ghost function ListingEntries(lower: char -> string, entries: seq<Entry>, text: string): seq<nat> {
    PlacesOf(entries, (e: Entry) => EntryMatches(lower, e, text))
  }

  lemma {:induction false} MatchingEntriesAt(lower: char -> string, entries: seq<Entry>, text: string)
    ensures
      var at, found := ListingEntries(lower, entries, text), MatchingEntries(lower, entries, text);
      && |found| == |at|
      && forall k | 0 <= k < |at| :: at[k] < |entries| && found[k] == (entries[at[k]].source, entries[at[k]].primaryName)
  {
    if entries == [] {
    } else {
      MatchingEntriesAt(lower, entries[..|entries| - 1], text);
    }
  }

  /** The entries found are those that list the address, each once and in order, by source and name. */
  lemma {:induction false} MatchingEntriesAre(lower: char -> string, entries: seq<Entry>, text: string) returns (at: seq<nat>)
    ensures forall e: nat :: e in at <==> e < |entries| && Lists(lower, entries[e], text)
    ensures forall k, l | 0 <= k < l < |at| :: at[k] < at[l]
    ensures
      var found := MatchingEntries(lower, entries, text);
      && |found| == |at|
      && forall k | 0 <= k < |at| :: at[k] < |entries| && found[k] == (entries[at[k]].source, entries[at[k]].primaryName)
  {
    at := ListingEntries(lower, entries, text);
    PlacesAre(entries, (e: Entry) => EntryMatches(lower, e, text));
    MatchingEntriesAt(lower, entries, text);
    forall e: nat | e < |entries|
      ensures EntryMatches(lower, entries[e], text) <==> Lists(lower, entries[e], text)
    {
      EntryMatchesIff(lower, entries[e], text);
    }
  }
}
