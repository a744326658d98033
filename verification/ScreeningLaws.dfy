/** Laws of the screening result, derived from its specification alone. */
module ScreeningLaws {
  import opened Common
  import opened Scoring
  import opened FindMatches
  import Names

  // ---- The specification determines the result ----

  lemma {:induction false} EmptyIfContainerIs(xs: seq<Match>, ys: seq<Match>)
    requires forall m :: m in ys ==> m in xs
    ensures xs == [] ==> ys == []
  {
    if ys != [] {
      assert ys[0] in xs;
    }
  }

  lemma {:induction false} OrderedListIsUnique(rank: string -> nat, xs: seq<Match>, ys: seq<Match>)
    requires Ordered(rank, xs) && Ordered(rank, ys)
    requires forall m :: m in xs <==> m in ys
    ensures xs == ys
  {
    EmptyIfContainerIs(xs, ys);
    EmptyIfContainerIs(ys, xs);
    if xs == [] {
    } else {
      assert xs[0] in xs && xs[0] in ys;
      assert ys[0] in ys && ys[0] in xs;
      var k :| 0 <= k < |ys| && ys[k] == xs[0];
      var l :| 0 <= l < |xs| && xs[l] == ys[0];
      assert k == 0 || l == 0;
      assert forall i | 0 < i < |xs| :: Precedes(rank, xs[0], xs[i]);
      assert forall i | 0 < i < |ys| :: Precedes(rank, ys[0], ys[i]);
      forall m
        ensures m in xs[1..] <==> m in ys[1..]
      {
        assert m in xs <==> m == xs[0] || m in xs[1..];
        assert m in ys <==> m == ys[0] || m in ys[1..];
      }
      OrderedListIsUnique(rank, xs[1..], ys[1..]);
    }
  }

  /** At most one list of rows is the screening of the given candidates. */
  lemma {:induction false} ScreeningIsUnique(cs: seq<Candidate>, threshold: real, ms: seq<Match>, ms': seq<Match>)
    requires IsScreening(cs, threshold, ms) && IsScreening(cs, threshold, ms')
    ensures ms == ms'
  {
    OrderedListIsUnique(FirstOf(cs, threshold), ms, ms');
  }

  /** No entry is reported twice. */
  lemma {:induction false} OneRowPerEntry(cs: seq<Candidate>, threshold: real, ms: seq<Match>, k: nat, l: nat)
    requires IsScreening(cs, threshold, ms) && k < l < |ms|
    ensures ms[k].id != ms[l].id
  {
    assert Precedes(FirstOf(cs, threshold), ms[k], ms[l]);
    assert IsBestMatch(cs, threshold, ms[k]) && IsBestMatch(cs, threshold, ms[l]);
  }

  // ---- Raising the threshold ----

  ghost predicate Grouped(cs: seq<Candidate>) {
    forall i, j, k | 0 <= i < j < k < |cs| && cs[i].id == cs[k].id :: cs[j].id == cs[i].id
  }

  ghost predicate DistinctIds(rows: seq<Row>) {
    forall i, j | 0 <= i < j < |rows| :: rows[i].id != rows[j].id
  }

  lemma {:induction false} AliasCandidatesShareId(q: Query, row: Row, aliases: seq<Alias>)
    ensures forall i | 0 <= i < |AliasCandidates(q, row, aliases)| :: AliasCandidates(q, row, aliases)[i].id == row.id
  {
    if aliases == [] {
    } else {
      AliasCandidatesShareId(q, row, aliases[..|aliases| - 1]);
    }
  }

  lemma {:induction false} RowCandidatesShareId(q: Query, row: Row)
    ensures forall i | 0 <= i < |RowCandidates(q, row)| :: RowCandidates(q, row)[i].id == row.id
  {
    AliasCandidatesShareId(q, row, AliasesOf(row));
  }

  ghost predicate Listed(rows: seq<Row>, id: string) {
    exists r :: 0 <= r < |rows| && rows[r].id == id
  }

  lemma {:induction false} ListedAppend(rows: seq<Row>, row: Row)
    ensures forall id :: Listed(rows + [row], id) <==> Listed(rows, id) || id == row.id
  {
    var rows' := rows + [row];
    assert rows'[|rows|] == row;
    forall id | Listed(rows, id)
      ensures Listed(rows', id)
    {
      var r :| 0 <= r < |rows| && rows[r].id == id;
      assert rows'[r].id == id;
    }
  }

  lemma {:induction false} CandidatesBelongToRows(q: Query, rows: seq<Row>)
    ensures forall i | 0 <= i < |Candidates(q, rows)| :: Listed(rows, Candidates(q, rows)[i].id)
  {
    if rows == [] {
    } else {
      var n := |rows| - 1;
      CandidatesBelongToRows(q, rows[..n]);
      RowCandidatesShareId(q, rows[n]);
      ListedAppend(rows[..n], rows[n]);
      assert rows == rows[..n] + [rows[n]];
    }
  }

  lemma {:induction false} DistinctIdsGroup(q: Query, rows: seq<Row>)
    requires DistinctIds(rows)
    ensures Grouped(Candidates(q, rows))
  {
    if rows == [] {
    } else {
      var n := |rows| - 1;
      DistinctIdsGroup(q, rows[..n]);
      assert !Listed(rows[..n], rows[n].id);
      CandidatesBelongToRows(q, rows[..n]);
      RowCandidatesShareId(q, rows[n]);
    }
  }

  /** A higher threshold keeps exactly the best rows that reach it. */
  lemma {:induction false} BestAtHigherThreshold(cs: seq<Candidate>, low: real, high: real, m: Match)
    requires low <= high
    ensures IsBestMatch(cs, high, m) <==> IsBestMatch(cs, low, m) && Reaches(m.score, high)
  {
    forall i: nat
      ensures IsBest(cs, high, i) <==> IsBest(cs, low, i) && Reaches(cs[i].score, high)
    {
      if IsBest(cs, high, i) {
        forall j | 0 <= j < |cs| && cs[j].id == cs[i].id && Qualifies(cs[j], low)
          ensures cs[j].score < cs[i].score || (cs[j].score == cs[i].score && i <= j)
        {
          if cs[j].score >= cs[i].score {
            assert Qualifies(cs[j], high);
          }
        }
      }
    }
    if IsBestMatch(cs, high, m) {
      var i: nat :| IsBest(cs, high, i) && m == ToMatch(cs[i]);
      assert IsBest(cs, low, i);
    }
    if IsBestMatch(cs, low, m) && Reaches(m.score, high) {
      var i: nat :| IsBest(cs, low, i) && m == ToMatch(cs[i]);
      assert IsBest(cs, high, i);
    }
  }

  /** When each entry's names stand together, raising the threshold keeps tie order. */
  lemma {:induction false} GroupedKeepsFirstOrder(cs: seq<Candidate>, low: real, high: real, m: Match, n: Match)
    requires low <= high && Grouped(cs)
    requires IsBestMatch(cs, high, m) && IsBestMatch(cs, high, n) && m.id != n.id
    requires First(cs, low, m.id) < First(cs, low, n.id)
    ensures First(cs, high, m.id) < First(cs, high, n.id)
  {
    FirstIsFirst(cs, low, m.id);
    FirstIsFirst(cs, low, n.id);
    FirstIsFirst(cs, high, m.id);
    FirstIsFirst(cs, high, n.id);
    GroupsKeepOrder(cs, First(cs, low, m.id), First(cs, high, m.id), First(cs, low, n.id), First(cs, high, n.id));
  }

  lemma {:induction false} GroupsKeepOrder(cs: seq<Candidate>, gm: nat, fm: nat, gn: nat, fn: nat)
    requires Grouped(cs) && gm <= fm < |cs| && gn <= fn < |cs| && gm < gn
    requires cs[gm].id == cs[fm].id != cs[gn].id == cs[fn].id
    ensures fm < fn
  {}

  /** How many leading rows reach the threshold. */
  function Reaching(ms: seq<Match>, threshold: real): (n: nat)
    ensures n <= |ms|
  {
    if ms == [] || !Reaches(ms[0].score, threshold) then 0 else 1 + Reaching(ms[1..], threshold)
  }

  lemma {:induction false} ReachingSplits(rank: string -> nat, ms: seq<Match>, threshold: real)
    requires Ordered(rank, ms)
    ensures forall k | 0 <= k < |ms| :: Reaches(ms[k].score, threshold) <==> k < Reaching(ms, threshold)
  {
    if ms == [] {
    } else {
      ReachingSplits(rank, ms[1..], threshold);
      forall k | 0 < k < |ms|
        ensures Reaches(ms[k].score, threshold) <==> k < Reaching(ms, threshold)
      {
        assert Precedes(rank, ms[0], ms[k]);
        assert ms[k] == ms[1..][k - 1];
      }
    }
  }

  /** Entries that tie at a best score reaching `high` have their first names qualifying for
      `high` in the order of their first names qualifying for `low`. */
  ghost predicate TiesKeepOrder(cs: seq<Candidate>, low: real, high: real) {
    forall m, n | IsBestMatch(cs, high, m) && IsBestMatch(cs, high, n) && m.score == n.score ::
      First(cs, low, m.id) < First(cs, low, n.id) ==> First(cs, high, m.id) < First(cs, high, n.id)
  }

  /** Raising the threshold cuts the result to the prefix that reaches it exactly when tied
      entries keep the order of their first qualifying names. */
  lemma {:induction false} RaisingThresholdCutsPrefixIff(cs: seq<Candidate>, low: real, high: real, ms: seq<Match>, ms': seq<Match>)
    requires low <= high
    requires IsScreening(cs, low, ms) && IsScreening(cs, high, ms')
    ensures ms' == ms[..Reaching(ms, high)] <==> TiesKeepOrder(cs, low, high)
    ensures forall k | 0 <= k < |ms| :: Reaches(ms[k].score, high) <==> k < Reaching(ms, high)
  {
    ReachingSplits(FirstOf(cs, low), ms, high);
    var prefix := ms[..Reaching(ms, high)];
    forall m
      ensures m in prefix <==> m in ms'
    {
      BestAtHigherThreshold(cs, low, high, m);
    }
    if ms' == prefix {
      forall m, n | IsBestMatch(cs, high, m) && IsBestMatch(cs, high, n) && m.score == n.score &&
                    First(cs, low, m.id) < First(cs, low, n.id)
        ensures First(cs, high, m.id) < First(cs, high, n.id)
      {
        PrefixKeepsOrder(cs, low, high, ms, ms', m, n);
      }
    }
    if TiesKeepOrder(cs, low, high) {
      PrefixIsOrdered(cs, low, high, ms, ms', prefix);
      OrderedListIsUnique(FirstOf(cs, high), prefix, ms');
    }
  }

  lemma {:induction false} PrefixKeepsOrder(cs: seq<Candidate>, low: real, high: real, ms: seq<Match>, ms': seq<Match>, m: Match, n: Match)
    requires Ordered(FirstOf(cs, low), ms) && Ordered(FirstOf(cs, high), ms') && ms' <= ms
    requires m in ms' && n in ms' && m.score == n.score && First(cs, low, m.id) < First(cs, low, n.id)
    ensures First(cs, high, m.id) < First(cs, high, n.id)
  {
    var k :| 0 <= k < |ms'| && ms'[k] == m;
    var l :| 0 <= l < |ms'| && ms'[l] == n;
    assert ms[k] == m && ms[l] == n;
    assert k < l;
    assert Precedes(FirstOf(cs, high), ms'[k], ms'[l]);
  }

  lemma {:induction false} PrefixIsOrdered(cs: seq<Candidate>, low: real, high: real, ms: seq<Match>, ms': seq<Match>, prefix: seq<Match>)
    requires TiesKeepOrder(cs, low, high) && prefix <= ms
    requires Ordered(FirstOf(cs, low), ms) && IsScreening(cs, high, ms')
    requires forall m | m in prefix :: m in ms'
    ensures Ordered(FirstOf(cs, high), prefix)
  {
    forall k, l | 0 <= k < l < |prefix|
      ensures Precedes(FirstOf(cs, high), prefix[k], prefix[l])
    {
      assert prefix[k] in prefix && prefix[l] in prefix && ms[k] == prefix[k] && ms[l] == prefix[l];
      assert Precedes(FirstOf(cs, low), ms[k], ms[l]);
      assert IsBestMatch(cs, high, prefix[k]) && IsBestMatch(cs, high, prefix[l]);
    }
  }

  /** So it does whenever the names of each entry stand together. */
  lemma {:induction false} RaisingThresholdCutsPrefix(cs: seq<Candidate>, low: real, high: real, ms: seq<Match>, ms': seq<Match>)
    requires low <= high && Grouped(cs)
    requires IsScreening(cs, low, ms) && IsScreening(cs, high, ms')
    ensures ms' == ms[..Reaching(ms, high)]
    ensures forall k | Reaching(ms, high) <= k < |ms| :: !Reaches(ms[k].score, high)
  {
    forall m, n | IsBestMatch(cs, high, m) && IsBestMatch(cs, high, n) && m.score == n.score &&
                  First(cs, low, m.id) < First(cs, low, n.id)
      ensures First(cs, high, m.id) < First(cs, high, n.id)
    {
      GroupedKeepsFirstOrder(cs, low, high, m, n);
    }
    RaisingThresholdCutsPrefixIff(cs, low, high, ms, ms');
  }

  /** The same for a watchlist, whose entry ids are primary keys. */
  lemma {:induction false} ScreeningAtHigherThreshold(q: Query, high: real, rows: seq<Row>, ms: seq<Match>, ms': seq<Match>)
    requires q.threshold <= high && DistinctIds(rows)
    requires IsScreening(Candidates(q, rows), q.threshold, ms)
    requires IsScreening(Candidates(q.(threshold := high), rows), high, ms')
    ensures ms' == ms[..Reaching(ms, high)]
    ensures forall k | Reaching(ms, high) <= k < |ms| :: !Reaches(ms[k].score, high)
  {
    CandidatesIgnoreThreshold(q, high, rows);
    DistinctIdsGroup(q, rows);
    RaisingThresholdCutsPrefix(Candidates(q, rows), q.threshold, high, ms, ms');
  }

  lemma {:induction false} CandidatesIgnoreThreshold(q: Query, high: real, rows: seq<Row>)
    ensures Candidates(q.(threshold := high), rows) == Candidates(q, rows)
  {
    if rows == [] {
    } else {
      CandidatesIgnoreThreshold(q, high, rows[..|rows| - 1]);
      AliasCandidatesIgnoreThreshold(q, high, rows[|rows| - 1], AliasesOf(rows[|rows| - 1]));
    }
  }

  lemma {:induction false} AliasCandidatesIgnoreThreshold(q: Query, high: real, row: Row, aliases: seq<Alias>)
    ensures AliasCandidates(q.(threshold := high), row, aliases) == AliasCandidates(q, row, aliases)
  {
    if aliases == [] {
    } else {
      AliasCandidatesIgnoreThreshold(q, high, row, aliases[..|aliases| - 1]);
    }
  }

  const REPEATED: seq<Candidate> := [Candidate("a", 700, "", PrimaryName), Candidate("b", 900, "", PrimaryName),
                                     Candidate("a", 900, "", PrimaryName)]
  const ROW_A := Match("a", 900, "", PrimaryName)
  const ROW_B := Match("b", 900, "", PrimaryName)

  lemma {:induction false} BestOfRepeated(threshold: real, m: Match)
    requires threshold <= 90.0
    ensures IsBestMatch(REPEATED, threshold, m) <==> m == ROW_A || m == ROW_B
  {
    assert Qualifies(REPEATED[1], threshold) && Qualifies(REPEATED[2], threshold);
    assert IsBest(REPEATED, threshold, 1) && ToMatch(REPEATED[1]) == ROW_B;
    assert IsBest(REPEATED, threshold, 2) && ToMatch(REPEATED[2]) == ROW_A;
    assert !IsBest(REPEATED, threshold, 0);
  }

  lemma {:induction false} FirstOfRepeated(threshold: real)
    requires threshold <= 90.0
    ensures First(REPEATED, threshold, "b") == 1
    ensures First(REPEATED, threshold, "a") == if threshold <= 70.0 then 0 else 2
  {
    FirstIsFirst(REPEATED, threshold, "a");
    FirstIsFirst(REPEATED, threshold, "b");
    assert Qualifies(REPEATED[0], threshold) <==> threshold <= 70.0;
    assert Qualifies(REPEATED[1], threshold) && Qualifies(REPEATED[2], threshold);
  }

  lemma {:induction false} TwoRowsAreScreening(cs: seq<Candidate>, threshold: real, m: Match, n: Match)
    requires forall x :: IsBestMatch(cs, threshold, x) <==> x == m || x == n
    requires Precedes(FirstOf(cs, threshold), m, n)
    ensures IsScreening(cs, threshold, [m, n])
  {}

  /** An entry listed twice makes two tied entries change places at every threshold between its
      two scores. */
  lemma {:induction false} RepeatedEntryBreaksPrefix(low: real, high: real)
    requires low <= 70.0 < high <= 90.0
    ensures IsScreening(REPEATED, low, [ROW_A, ROW_B]) && IsScreening(REPEATED, high, [ROW_B, ROW_A])
  {
    forall m, t | t == low || t == high
      ensures IsBestMatch(REPEATED, t, m) <==> m == ROW_A || m == ROW_B
    {
      BestOfRepeated(t, m);
    }
    FirstOfRepeated(low);
    FirstOfRepeated(high);
    TwoRowsAreScreening(REPEATED, low, ROW_A, ROW_B);
    TwoRowsAreScreening(REPEATED, high, ROW_B, ROW_A);
  }

  // ---- Reordering the watchlist ----

  ghost predicate SharesNoId(cs: seq<Candidate>, ds: seq<Candidate>) {
    forall i, j | 0 <= i < |cs| && 0 <= j < |ds| :: cs[i].id != ds[j].id
  }

  lemma {:induction false} BestInFirstPart(cs: seq<Candidate>, ds: seq<Candidate>, threshold: real, i: nat)
    requires SharesNoId(cs, ds) && i < |cs|
    ensures IsBest(cs + ds, threshold, i) <==> IsBest(cs, threshold, i)
  {
    assert forall j | 0 <= j < |cs| :: (cs + ds)[j] == cs[j];
  }

  lemma {:induction false} BestOfPartIsBest(cs: seq<Candidate>, ds: seq<Candidate>, threshold: real, m: Match)
    requires SharesNoId(cs, ds)
    requires IsBestMatch(cs, threshold, m) || IsBestMatch(ds, threshold, m)
    ensures IsBestMatch(cs + ds, threshold, m)
  {
    if i: nat :| IsBest(cs, threshold, i) && m == ToMatch(cs[i]) {
      BestInFirstPart(cs, ds, threshold, i);
      assert (cs + ds)[i] == cs[i];
    } else {
      var i: nat :| IsBest(ds, threshold, i) && m == ToMatch(ds[i]);
      BestInSecondPart(cs, ds, threshold, i);
      assert (cs + ds)[|cs| + i] == ds[i];
    }
  }

  lemma {:induction false} BestOfWholeIsBest(cs: seq<Candidate>, ds: seq<Candidate>, threshold: real, i: nat)
    requires SharesNoId(cs, ds) && IsBest(cs + ds, threshold, i)
    ensures if i < |cs| then IsBest(cs, threshold, i) && (cs + ds)[i] == cs[i]
            else IsBest(ds, threshold, i - |cs|) && (cs + ds)[i] == ds[i - |cs|]
  {
    if i < |cs| {
      BestInFirstPart(cs, ds, threshold, i);
    } else {
      BestInSecondPart(cs, ds, threshold, i - |cs|);
    }
  }

  lemma {:induction false} BestMatchesAppend(cs: seq<Candidate>, ds: seq<Candidate>, threshold: real, m: Match)
    requires SharesNoId(cs, ds)
    ensures IsBestMatch(cs + ds, threshold, m) <==> IsBestMatch(cs, threshold, m) || IsBestMatch(ds, threshold, m)
  {
    if i: nat :| IsBest(cs + ds, threshold, i) && m == ToMatch((cs + ds)[i]) {
      BestOfWholeIsBest(cs, ds, threshold, i);
    } else if IsBestMatch(cs, threshold, m) || IsBestMatch(ds, threshold, m) {
      BestOfPartIsBest(cs, ds, threshold, m);
    }
  }

  lemma {:induction false} BestInSecondPart(cs: seq<Candidate>, ds: seq<Candidate>, threshold: real, i: nat)
    requires SharesNoId(cs, ds) && i < |ds|
    ensures IsBest(cs + ds, threshold, |cs| + i) <==> IsBest(ds, threshold, i)
  {
    var es := cs + ds;
    assert es[|cs| + i] == ds[i];
    assert forall j | 0 <= j < |ds| :: es[|cs| + j] == ds[j];
    assert forall j | 0 <= j < |cs| :: es[j] == cs[j];
    if IsBest(es, threshold, |cs| + i) {
      forall j | 0 <= j < |ds| && ds[j].id == ds[i].id && Qualifies(ds[j], threshold)
        ensures ds[j].score < ds[i].score || (ds[j].score == ds[i].score && i <= j)
      {
        assert es[|cs| + j] == ds[j];
      }
    }
    if IsBest(ds, threshold, i) {
      forall j | 0 <= j < |es| && es[j].id == es[|cs| + i].id && Qualifies(es[j], threshold)
        ensures es[j].score < es[|cs| + i].score || (es[j].score == es[|cs| + i].score && |cs| + i <= j)
      {
        assert |cs| <= j && es[j] == ds[j - |cs|];
      }
    }
  }

  ghost predicate IsBestOfSomeRow(q: Query, rows: seq<Row>, m: Match) {
    exists row :: row in rows && IsBestMatch(RowCandidates(q, row), q.threshold, m)
  }

  lemma {:induction false} BestOfSomeRowAppend(q: Query, rows: seq<Row>, row: Row, m: Match)
    ensures IsBestOfSomeRow(q, rows + [row], m) <==>
            IsBestOfSomeRow(q, rows, m) || IsBestMatch(RowCandidates(q, row), q.threshold, m)
  {
    assert forall r :: r in rows + [row] <==> r in rows || r == row;
  }

  lemma {:induction false} NewRowSharesNoId(q: Query, rows: seq<Row>, row: Row)
    requires !Listed(rows, row.id)
    ensures SharesNoId(Candidates(q, rows), RowCandidates(q, row))
  {
    CandidatesBelongToRows(q, rows);
    RowCandidatesShareId(q, row);
  }

  /** With distinct ids, the reported rows are the best rows of the single entries. */
  lemma {:induction false} BestMatchesAreRowwise(q: Query, rows: seq<Row>, m: Match)
    requires DistinctIds(rows)
    ensures IsBestMatch(Candidates(q, rows), q.threshold, m) <==> IsBestOfSomeRow(q, rows, m)
  {
    if rows == [] {
    } else {
      var n := |rows| - 1;
      BestMatchesAreRowwise(q, rows[..n], m);
      assert !Listed(rows[..n], rows[n].id);
      NewRowSharesNoId(q, rows[..n], rows[n]);
      BestMatchesAppend(Candidates(q, rows[..n]), RowCandidates(q, rows[n]), q.threshold, m);
      BestOfSomeRowAppend(q, rows[..n], rows[n], m);
      assert rows == rows[..n] + [rows[n]];
    }
  }

  lemma {:induction false} OrderedHasNoRepeats(rank: string -> nat, ms: seq<Match>)
    requires Ordered(rank, ms)
    ensures forall m :: multiset(ms)[m] == if m in ms then 1 else 0
  {
    if ms == [] {
    } else {
      OrderedHasNoRepeats(rank, ms[1..]);
      assert ms == [ms[0]] + ms[1..];
      assert forall i | 0 < i < |ms| :: Precedes(rank, ms[0], ms[i]);
    }
  }

  /** Two lists in falling score order with the same rows have the same scores, place by place. */
  lemma {:induction false} FallingScoresAgree(rank: string -> nat, xs: seq<Match>, rank': string -> nat, ys: seq<Match>, k: nat)
    requires Ordered(rank, xs) && Ordered(rank', ys) && multiset(xs) == multiset(ys) && k < |xs|
    ensures |xs| == |ys| && xs[k].score == ys[k].score
  {
    SameRows(xs, ys);
    NotHigherAt(rank, xs, rank', ys, k);
    NotHigherAt(rank', ys, rank, xs, k);
  }

  /** Distinct rows that all stand in another list are no more than that list is long. */
  lemma {:induction false} DistinctRowsFit(xs: seq<Match>, ys: seq<Match>)
    requires forall m :: multiset(xs)[m] <= 1
    requires forall m :: m in xs ==> m in ys
    ensures |xs| <= |ys|
  {
    forall m
      ensures multiset(xs)[m] <= multiset(ys)[m]
    {
      if m in xs {
        assert m in ys && m in multiset(ys);
      } else {
        assert m !in multiset(xs);
      }
    }
    SmallerMultiset(multiset(xs), multiset(ys));
  }

  lemma {:induction false} OrderedPrefix(rank: string -> nat, ms: seq<Match>, k: nat)
    requires Ordered(rank, ms) && k <= |ms|
    ensures Ordered(rank, ms[..k])
  {}

  lemma {:induction false} NotHigherAt(rank: string -> nat, xs: seq<Match>, rank': string -> nat, ys: seq<Match>, k: nat)
    requires Ordered(rank, xs) && Ordered(rank', ys) && multiset(xs) == multiset(ys) && k < |xs| == |ys|
    ensures xs[k].score <= ys[k].score
  {
    SameRows(xs, ys);
    if i :| 0 <= i <= k && xs[i] !in ys[..k] {
      assert xs[i] in xs && xs[i] in ys;
      var j :| 0 <= j < |ys| && ys[j] == xs[i];
      assert k <= j;
      assert i < k ==> Precedes(rank, xs[i], xs[k]);
      assert k < j ==> Precedes(rank', ys[k], ys[j]);
    } else {
      var prefix := xs[..k + 1];
      OrderedPrefix(rank, xs, k + 1);
      OrderedHasNoRepeats(rank, prefix);
      DistinctRowsFit(prefix, ys[..k]);
    }
  }

  lemma {:induction false} SmallerMultiset<T>(a: multiset<T>, b: multiset<T>)
    requires a <= b
    ensures |a| <= |b|
  {
    assert b == a + (b - a);
  }

  /** Permuting the watchlist permutes the result among equal scores only. */
  lemma {:induction false} PermutingWatchlist(q: Query, rows: seq<Row>, rows': seq<Row>, ms: seq<Match>, ms': seq<Match>)
    requires DistinctIds(rows) && multiset(rows) == multiset(rows')
    requires IsScreening(Candidates(q, rows), q.threshold, ms)
    requires IsScreening(Candidates(q, rows'), q.threshold, ms')
    ensures multiset(ms) == multiset(ms')
    ensures |ms| == |ms'| && forall k | 0 <= k < |ms| :: ms[k].score == ms'[k].score
  {
    PermutedIdsStayDistinct(rows, rows');
    forall row
      ensures row in rows <==> row in rows'
    {
      assert row in rows <==> row in multiset(rows);
      assert row in rows' <==> row in multiset(rows');
    }
    var rank, rank' := FirstOf(Candidates(q, rows), q.threshold), FirstOf(Candidates(q, rows'), q.threshold);
    forall m
      ensures m in ms <==> m in ms'
      ensures multiset(ms)[m] == multiset(ms')[m]
    {
      BestMatchesAreRowwise(q, rows, m);
      BestMatchesAreRowwise(q, rows', m);
      OrderedHasNoRepeats(rank, ms);
      OrderedHasNoRepeats(rank', ms');
    }
    SameRows(ms, ms');
    forall k: nat | k < |ms|
      ensures ms[k].score == ms'[k].score
    {
      FallingScoresAgree(rank, ms, rank', ms', k);
    }
  }

  lemma {:induction false} PermutedIdsStayDistinct(rows: seq<Row>, rows': seq<Row>)
    requires DistinctIds(rows) && multiset(rows) == multiset(rows')
    ensures DistinctIds(rows')
  {
    forall i, j | 0 <= i < j < |rows'|
      ensures rows'[i].id != rows'[j].id
    {
      assert rows'[i] in multiset(rows') && rows'[j] in multiset(rows');
      var k :| 0 <= k < |rows| && rows[k] == rows'[i];
      var l :| 0 <= l < |rows| && rows[l] == rows'[j];
      OccursOnce(rows, k);
      if rows'[i] == rows'[j] {
        OccursTwice(rows', i, j);
      }
    }
  }

  lemma {:induction false} OccursOnce<T>(s: seq<T>, k: nat)
    requires k < |s| && forall l | 0 <= l < |s| && l != k :: s[l] != s[k]
    ensures multiset(s)[s[k]] == 1
  {
    assert s == s[..k] + [s[k]] + s[k + 1..];
  }

  lemma {:induction false} OccursTwice<T>(s: seq<T>, i: nat, j: nat)
    requires i < j < |s| && s[i] == s[j]
    ensures multiset(s)[s[i]] >= 2
  {
    assert s == s[..j] + s[j..];
    assert s[i] in s[..j] && s[j] in s[j..];
  }

  // ---- Exact names ----

  predicate HasName(q: Query, row: Row, name: string) {
    name == row.primary || (q.useAliases && Name(name) in AliasesOf(row))
  }

  lemma {:induction false} AliasIsScored(q: Query, row: Row, aliases: seq<Alias>, name: string)
    requires Name(name) in aliases
    ensures CandidateOf(q, row.id, name, AliasName, SourceOf(row)) in AliasCandidates(q, row, aliases)
  {
    var n := |aliases| - 1;
    if aliases[n] != Name(name) {
      assert aliases == aliases[..n] + [aliases[n]];
      AliasIsScored(q, row, aliases[..n], name);
    }
  }

  lemma {:induction false} NameIsScoredInRow(q: Query, row: Row, name: string) returns (c: Candidate)
    requires HasName(q, row, name)
    ensures c in RowCandidates(q, row) && c.id == row.id && c.score == ScoreMatch(q.engine, q.screened, name)
  {
    if name == row.primary {
      c := CandidateOf(q, row.id, name, PrimaryName, SourceOf(row));
      assert RowCandidates(q, row)[0] == c;
    } else {
      c := CandidateOf(q, row.id, name, AliasName, SourceOf(row));
      AliasIsScored(q, row, AliasesOf(row), name);
      assert c in AliasCandidates(q, row, AliasesOf(row));
    }
  }

  lemma {:induction false} NameIsScored(q: Query, rows: seq<Row>, row: Row, name: string) returns (c: Candidate)
    requires row in rows && HasName(q, row, name)
    ensures c in Candidates(q, rows) && c.id == row.id && c.score == ScoreMatch(q.engine, q.screened, name)
  {
    var n := |rows| - 1;
    if rows[n] == row {
      c := NameIsScoredInRow(q, row, name);
    } else {
      assert rows == rows[..n] + [rows[n]];
      c := NameIsScored(q, rows[..n], row, name);
    }
  }

  lemma {:induction false} ScoresAreCapped(q: Query, rows: seq<Row>)
    ensures forall c | c in Candidates(q, rows) :: c.score <= PERFECT
  {
    if rows == [] {
    } else {
      var n := |rows| - 1;
      ScoresAreCapped(q, rows[..n]);
      ScoreIsCapped(q.engine, q.screened, rows[n].primary);
      AliasScoresAreCapped(q, rows[n], AliasesOf(rows[n]));
    }
  }

  lemma {:induction false} AliasScoresAreCapped(q: Query, row: Row, aliases: seq<Alias>)
    ensures forall c | c in AliasCandidates(q, row, aliases) :: c.score <= PERFECT
  {
    if aliases == [] {
    } else {
      var n := |aliases| - 1;
      AliasScoresAreCapped(q, row, aliases[..n]);
      if aliases[n].Name? {
        ScoreIsCapped(q.engine, q.screened, aliases[n].text);
      }
    }
  }

  /** The best among qualifying candidates of an entry exists. */
  lemma {:induction false} BestExists(cs: seq<Candidate>, threshold: real, i: nat) returns (b: nat)
    requires i < |cs| && Qualifies(cs[i], threshold)
    ensures IsBest(cs, threshold, b) && cs[b].id == cs[i].id && cs[i].score <= cs[b].score
    decreases MaxScore(cs) - cs[i].score, i
  {
    ScoreAtMostMax(cs);
    if IsBest(cs, threshold, i) {
      b := i;
    } else {
      var j: nat :| j < |cs| && cs[j].id == cs[i].id && Qualifies(cs[j], threshold) &&
                    !(cs[j].score < cs[i].score || (cs[j].score == cs[i].score && i <= j));
      b := BestExists(cs, threshold, j);
    }
  }

  function MaxScore(cs: seq<Candidate>): int {
    if cs == [] then 0 else
      var rest := MaxScore(cs[1..]);
      if cs[0].score > rest then cs[0].score else rest
  }

  lemma {:induction false} ScoreAtMostMax(cs: seq<Candidate>)
    ensures forall i | 0 <= i < |cs| :: cs[i].score <= MaxScore(cs)
  {
    if cs == [] {
    } else {
      ScoreAtMostMax(cs[1..]);
      assert forall i | 0 < i < |cs| :: cs[i] == cs[1..][i - 1];
    }
  }

  /** Every qualifying candidate's entry is reported, with a score at least its own. */
  lemma {:induction false} QualifyingIsReported(cs: seq<Candidate>, threshold: real, i: nat, ms: seq<Match>) returns (k: nat)
    requires i < |cs| && Qualifies(cs[i], threshold) && IsScreening(cs, threshold, ms)
    ensures k < |ms| && ms[k].id == cs[i].id && cs[i].score <= ms[k].score
    ensures forall l | 0 <= l < k :: ms[k].score <= ms[l].score
  {
    var b := BestExists(cs, threshold, i);
    assert IsBestMatch(cs, threshold, ToMatch(cs[b]));
    k :| 0 <= k < |ms| && ms[k] == ToMatch(cs[b]);
    assert forall l | 0 <= l < k :: Precedes(FirstOf(cs, threshold), ms[l], ms[k]);
  }

  lemma {:induction false} ReportedScoresAreCapped(q: Query, rows: seq<Row>, ms: seq<Match>)
    requires IsScreening(Candidates(q, rows), q.threshold, ms)
    ensures forall k | 0 <= k < |ms| :: ms[k].score <= PERFECT
  {
    var cs := Candidates(q, rows);
    ScoresAreCapped(q, rows);
    forall k | 0 <= k < |ms|
      ensures ms[k].score <= PERFECT
    {
      assert ms[k] in ms;
      var i: nat :| IsBest(cs, q.threshold, i) && ms[k] == ToMatch(cs[i]);
      assert cs[i] in cs;
    }
  }

  lemma {:induction false} ExactNameIsCandidate(q: Query, rows: seq<Row>, row: Row, name: string) returns (i: nat)
    requires row in rows && HasName(q, row, name)
    requires Names.Normalized(q.engine.lower, name) == Names.Normalized(q.engine.lower, q.screened) != ""
    ensures i < |Candidates(q, rows)|
    ensures Candidates(q, rows)[i].id == row.id && Candidates(q, rows)[i].score == PERFECT
  {
    EqualNormalFormsArePerfect(q.engine, q.screened, name);
    var c := NameIsScored(q, rows, row, name);
    i :| 0 <= i < |Candidates(q, rows)| && Candidates(q, rows)[i] == c;
  }

  /** An entry with a name of the screened name's normal form is reported with score 100, and
      nothing that scores less stands ahead of it. */
  lemma {:induction false} ExactNameIsReportedFirst(q: Query, rows: seq<Row>, row: Row, name: string, ms: seq<Match>) returns (k: nat)
    requires row in rows && HasName(q, row, name)
    requires Names.Normalized(q.engine.lower, name) == Names.Normalized(q.engine.lower, q.screened) != ""
    requires q.threshold <= 100.0
    requires IsScreening(Candidates(q, rows), q.threshold, ms)
    ensures k < |ms| && ms[k].id == row.id
    ensures forall l | 0 <= l <= k :: ms[l].score == PERFECT
  {
    var i := ExactNameIsCandidate(q, rows, row, name);
    var cs := Candidates(q, rows);
    k := QualifyingIsReported(cs, q.threshold, i, ms);
    ReportedScoresAreCapped(q, rows, ms);
  }

  // ---- Every list of candidates has a screening ----

  lemma {:induction false} OneBestPerEntry(cs: seq<Candidate>, threshold: real, m: Match, n: Match)
    requires IsBestMatch(cs, threshold, m) && IsBestMatch(cs, threshold, n) && m.id == n.id
    ensures m == n
  {
    var i: nat :| IsBest(cs, threshold, i) && m == ToMatch(cs[i]);
    var j: nat :| IsBest(cs, threshold, j) && n == ToMatch(cs[j]);
    assert i == j;
  }

  lemma {:induction false} FirstOfBest(cs: seq<Candidate>, threshold: real, m: Match)
    requires IsBestMatch(cs, threshold, m)
    ensures First(cs, threshold, m.id) < |cs| && cs[First(cs, threshold, m.id)].id == m.id
  {
    var i: nat :| IsBest(cs, threshold, i) && m == ToMatch(cs[i]);
    FirstIsFirst(cs, threshold, m.id);
  }

  /** The best row of the entry whose first qualifying name is number i, if there is one. */
  lemma {:induction false} BestRowAt(cs: seq<Candidate>, threshold: real, i: nat) returns (row: Option<Match>)
    requires i < |cs|
    ensures forall m :: IsBestMatch(cs, threshold, m) && First(cs, threshold, m.id) == i <==> row == Some(m)
  {
    FirstIsFirst(cs, threshold, cs[i].id);
    row := None;
    if First(cs, threshold, cs[i].id) == i {
      var b := BestExists(cs, threshold, i);
      assert IsBestMatch(cs, threshold, ToMatch(cs[b]));
      row := Some(ToMatch(cs[b]));
    }
    forall m | IsBestMatch(cs, threshold, m) && First(cs, threshold, m.id) == i
      ensures row == Some(m)
    {
      FirstOfBest(cs, threshold, m);
      OneBestPerEntry(cs, threshold, m, row.value);
    }
  }

  ghost predicate BestBelow(cs: seq<Candidate>, threshold: real, n: nat, m: Match) {
    IsBestMatch(cs, threshold, m) && First(cs, threshold, m.id) < n
  }

  lemma {:induction false} BestRows(cs: seq<Candidate>, threshold: real, n: nat) returns (values: seq<Match>)
    requires n <= |cs|
    ensures RanksRise(FirstOf(cs, threshold), values)
    ensures forall m :: m in values <==> BestBelow(cs, threshold, n, m)
  {
    if n == 0 {
      values := [];
    } else {
      values := BestRows(cs, threshold, n - 1);
      var row := BestRowAt(cs, threshold, n - 1);
      assert forall m :: BestBelow(cs, threshold, n, m) <==> BestBelow(cs, threshold, n - 1, m) || row == Some(m);
      if row.Some? {
        HigherRankAppends(FirstOf(cs, threshold), values, row.value);
        values := values + [row.value];
      }
    }
  }

  lemma {:induction false} HigherRankAppends(rank: string -> nat, ms: seq<Match>, m: Match)
    requires RanksRise(rank, ms) && forall x | x in ms :: rank(x.id) < rank(m.id)
    ensures RanksRise(rank, ms + [m])
  {
    assert forall a | 0 <= a < |ms| :: ms[a] in ms;
  }

  /** With `ScreeningIsUnique`: each list of candidates has exactly one screening. */
  lemma {:induction false} ScreeningExists(cs: seq<Candidate>, threshold: real) returns (ms: seq<Match>)
    ensures IsScreening(cs, threshold, ms)
  {
    var values := BestRows(cs, threshold, |cs|);
    ms := SortByScore(values);
    SortOrders(FirstOf(cs, threshold), values);
    SortKeepsRows(values);
    SameRows(ms, values);
    forall m
      ensures IsBestMatch(cs, threshold, m) <==> BestBelow(cs, threshold, |cs|, m)
    {
      if IsBestMatch(cs, threshold, m) {
        FirstOfBest(cs, threshold, m);
      }
    }
  }
}
