/** `find_matches`: the running-maximum scan, the dedupe pass and the stable sort, against a
    declarative reading of the screening result. */
module FindMatches {
  import opened Common
  import opened Scoring
  import opened Rounding

  datatype Alias = Name(text: string) | NotAName

  /** The tuple shapes `find_matches` unpacks. */
  datatype Row =
    | Pair(id: string, primary: string)
    | Triple(id: string, primary: string, aliases: Option<seq<Alias>>)
    | Quad(id: string, primary: string, aliases: Option<seq<Alias>>, source: Option<string>)

  function AliasesOf(row: Row): seq<Alias> {
    if row.Pair? then [] else row.aliases.GetOr([])
  }

  function SourceOf(row: Row): string {
    if row.Quad? then row.source.GetOr("") else ""
  }

  datatype Field = PrimaryName | AliasName

  /** One scored name of one watchlist entry. */
  datatype Candidate = Candidate(id: string, score: int, source: string, field: Field)

  /** A reported row; its `matched_fields` is the one field. */
  datatype Match = Match(id: string, score: int, source: string, field: Field)

  datatype Query = Query(engine: Engine, screened: string, threshold: real, useAliases: bool)

  function CandidateOf(q: Query, id: string, name: string, field: Field, source: string): Candidate {
    Candidate(id, ScoreMatch(q.engine, q.screened, name), source, field)
  }

  function AliasCandidate(q: Query, row: Row, alias: Alias): seq<Candidate> {
    if alias.Name? then [CandidateOf(q, row.id, alias.text, AliasName, SourceOf(row))] else []
  }

  function AliasCandidates(q: Query, row: Row, aliases: seq<Alias>): seq<Candidate> {
    if aliases == [] then [] else
      AliasCandidates(q, row, aliases[..|aliases| - 1]) + AliasCandidate(q, row, aliases[|aliases| - 1])
  }

  function RowCandidates(q: Query, row: Row): seq<Candidate> {
    [CandidateOf(q, row.id, row.primary, PrimaryName, SourceOf(row))] +
    if q.useAliases then AliasCandidates(q, row, AliasesOf(row)) else []
  }

  /** Every name of every entry, in the order in which it is scored. */
  function Candidates(q: Query, rows: seq<Row>): seq<Candidate> {
    if rows == [] then []
    else Candidates(q, rows[..|rows| - 1]) + RowCandidates(q, rows[|rows| - 1])
  }

  // ---- The specification ----

  predicate Reaches(score: int, threshold: real) {
    score as real >= 10.0 * threshold
  }

  predicate Qualifies(c: Candidate, threshold: real) {
    0 < c.score && Reaches(c.score, threshold)
  }

  function ToMatch(c: Candidate): Match {
    Match(c.id, c.score, c.source, c.field)
  }

  /** Position of the first qualifying candidate of an entry, |cs| when there is none. */
  function First(cs: seq<Candidate>, threshold: real, id: string): nat {
    if cs == [] then 0 else
      var n := |cs| - 1;
      var before := First(cs[..n], threshold, id);
      if before < n then before
      else if cs[n].id == id && Qualifies(cs[n], threshold) then n
      else n + 1
  }

  /** Candidate i is the first among the best qualifying candidates of its entry. */
  ghost predicate IsBest(cs: seq<Candidate>, threshold: real, i: nat) {
    && i < |cs| && Qualifies(cs[i], threshold)
    && forall j | 0 <= j < |cs| && cs[j].id == cs[i].id && Qualifies(cs[j], threshold) ::
         cs[j].score < cs[i].score || (cs[j].score == cs[i].score && i <= j)
  }

  ghost predicate IsBestMatch(cs: seq<Candidate>, threshold: real, m: Match) {
    exists i: nat :: IsBest(cs, threshold, i) && m == ToMatch(cs[i])
  }

  function FirstOf(cs: seq<Candidate>, threshold: real): string -> nat {
    id => First(cs, threshold, id)
  }

  /** Higher score first; among equal scores the entry of lower rank. */
  predicate Precedes(rank: string -> nat, m: Match, n: Match) {
    m.score > n.score || (m.score == n.score && rank(m.id) < rank(n.id))
  }

  ghost predicate Ordered(rank: string -> nat, ms: seq<Match>) {
    forall k, l | 0 <= k < l < |ms| :: Precedes(rank, ms[k], ms[l])
  }

  /** The result of screening: exactly the best row of each qualifying entry, best scores
      first and ties by the first qualifying name. */
  ghost predicate IsScreening(cs: seq<Candidate>, threshold: real, ms: seq<Match>) {
    && Ordered(FirstOf(cs, threshold), ms)
    && forall m :: m in ms <==> IsBestMatch(cs, threshold, m)
  }

  // ---- First pass: running maxima ----

  ghost predicate IsRecord(cs: seq<Candidate>, threshold: real, i: nat) {
    && i < |cs| && Qualifies(cs[i], threshold)
    && forall j | 0 <= j < i && cs[j].id == cs[i].id && Qualifies(cs[j], threshold) :: cs[j].score < cs[i].score
  }

  /** `results` holds the running maxima of the candidates seen so far, taken at `at`. */
  ghost predicate AreRecords(cs: seq<Candidate>, threshold: real, results: seq<Match>, at: seq<nat>) {
    && |results| == |at|
    && (forall k | 0 <= k < |at| :: IsRecord(cs, threshold, at[k]) && results[k] == ToMatch(cs[at[k]]))
    && (forall k, l | 0 <= k < l < |at| :: at[k] < at[l])
    && (forall i: nat | IsRecord(cs, threshold, i) :: i in at)
  }

  ghost predicate AreMaxima(cs: seq<Candidate>, threshold: real, seen: map<string, int>) {
    && (forall i | 0 <= i < |cs| && Qualifies(cs[i], threshold) :: cs[i].id in seen && cs[i].score <= seen[cs[i].id])
    && (forall id | id in seen ::
          exists i :: 0 <= i < |cs| && Qualifies(cs[i], threshold) && cs[i].id == id && cs[i].score == seen[id])
  }

  /** The guard of `add_candidate`: the candidate reaches the threshold and beats what was seen. */
  predicate Improves(c: Candidate, threshold: real, seen: map<string, int>) {
    Reaches(c.score, threshold) && c.score > if c.id in seen then seen[c.id] else 0
  }

  /** What the closure's variables hold. */
  datatype Collected = Collected(results: seq<Match>, seen: map<string, int>, sources: map<string, string>)

  function Collect(cs: seq<Candidate>, threshold: real): Collected {
    if cs == [] then Collected([], map[], map[]) else
      var before, c := Collect(cs[..|cs| - 1], threshold), cs[|cs| - 1];
      if Improves(c, threshold, before.seen) then
        Collected(before.results + [ToMatch(c)], before.seen[c.id := c.score], before.sources[c.id := c.source])
      else before
  }

  class Collector {
    var results: seq<Match>
    var seenScores: map<string, int>
    var seenSource: map<string, string>
    const query: Query
    ghost var scanned: seq<Candidate>

    ghost predicate Valid()
      reads this
    {
      Collected(results, seenScores, seenSource) == Collect(scanned, query.threshold)
    }

    constructor (query: Query)
      ensures Valid() && scanned == [] && this.query == query
    {
      this.query := query;
      results, seenScores, seenSource := [], map[], map[];
      scanned := [];
    }

    /** `add_candidate`: keeps a row only when it beats the entry's best so far. */
    method AddCandidate(id: string, name: string, field: Field, source: string)
      requires Valid()
      modifies this
      ensures Valid() && scanned == old(scanned) + [CandidateOf(query, id, name, field, source)]
    {
      var sc := ScoreMatch(query.engine, query.screened, name);
      ghost var c := Candidate(id, sc, source, field);
      RoundingKeepsWhole(sc);
      assert (scanned + [c])[..|scanned|] == scanned;
      if Reaches(sc, query.threshold) {
        if sc > if id in seenScores then seenScores[id] else 0 {
          seenScores := seenScores[id := sc];
          seenSource := seenSource[id := source];
          results := results + [Match(id, Tenths(sc as real / 10.0), source, field)];
        }
      }
      scanned := scanned + [c];
    }
  }

  /** What is collected are the running maxima of every entry. */
  lemma {:induction false} CollectedAreRecords(cs: seq<Candidate>, threshold: real) returns (at: seq<nat>)
    ensures AreRecords(cs, threshold, Collect(cs, threshold).results, at)
    ensures AreMaxima(cs, threshold, Collect(cs, threshold).seen)
  {
    if cs == [] {
      at := [];
    } else {
      var n, c := |cs| - 1, cs[|cs| - 1];
      at := CollectedAreRecords(cs[..n], threshold);
      var before := Collect(cs[..n], threshold);
      RecordsGrow(cs[..n], threshold, c, before.seen, before.results, at);
      MaximaGrow(cs[..n], threshold, c, before.seen);
      assert cs == cs[..n] + [c];
      if Improves(c, threshold, before.seen) {
        at := at + [n];
      }
    }
  }

  lemma {:induction false} ImprovesIffRecord(cs: seq<Candidate>, threshold: real, c: Candidate, seen: map<string, int>)
    requires AreMaxima(cs, threshold, seen)
    ensures Improves(c, threshold, seen) <==> IsRecord(cs + [c], threshold, |cs|)
  {
    var cs' := cs + [c];
    if IsRecord(cs', threshold, |cs|) && c.id in seen {
      var i :| 0 <= i < |cs| && Qualifies(cs[i], threshold) && cs[i].id == c.id && cs[i].score == seen[c.id];
      assert cs'[i] == cs[i];
    }
  }

  lemma {:induction false} RecordsGrow(cs: seq<Candidate>, threshold: real, c: Candidate, seen: map<string, int>,
                                       results: seq<Match>, at: seq<nat>)
    requires AreMaxima(cs, threshold, seen) && AreRecords(cs, threshold, results, at)
    ensures
      if Improves(c, threshold, seen) then AreRecords(cs + [c], threshold, results + [ToMatch(c)], at + [|cs|])
      else AreRecords(cs + [c], threshold, results, at)
  {
    ImprovesIffRecord(cs, threshold, c, seen);
    var cs' := cs + [c];
    forall i: nat | i < |cs|
      ensures IsRecord(cs', threshold, i) <==> IsRecord(cs, threshold, i)
    {
      assert forall j | 0 <= j <= i :: cs'[j] == cs[j];
    }
    assert forall i: nat | IsRecord(cs', threshold, i) && i != |cs| :: i in at;
    assert (at + [|cs|])[|at|] == |cs|;
  }

  lemma {:induction false} MaximaGrow(cs: seq<Candidate>, threshold: real, c: Candidate, seen: map<string, int>)
    requires AreMaxima(cs, threshold, seen)
    ensures AreMaxima(cs + [c], threshold, if Improves(c, threshold, seen) then seen[c.id := c.score] else seen)
  {
    var cs', seen' := cs + [c], if Improves(c, threshold, seen) then seen[c.id := c.score] else seen;
    forall id | id in seen'
      ensures exists i :: 0 <= i < |cs'| && Qualifies(cs'[i], threshold) && cs'[i].id == id && cs'[i].score == seen'[id]
    {
      if id in seen && seen'[id] == seen[id] {
        var i :| 0 <= i < |cs| && Qualifies(cs[i], threshold) && cs[i].id == id && cs[i].score == seen[id];
        assert cs'[i] == cs[i];
      } else {
        assert cs'[|cs|] == c;
      }
    }
  }

  // ---- Second pass: one row per entry ----

  ghost predicate IsLast(rs: seq<Match>, k: nat) {
    k < |rs| && forall l | k < l < |rs| :: rs[l].id != rs[k].id
  }

  /** `byId` keeps the last, that is the best, row of each entry. */
  ghost predicate KeepsLast(rs: seq<Match>, byId: map<string, Match>) {
    && (forall k | 0 <= k < |rs| :: rs[k].id in byId)
    && (forall id | id in byId :: exists k: nat :: IsLast(rs, k) && rs[k].id == id && byId[id] == rs[k])
  }

  /** `ids` lists the entries by their first row, found at `at`. */
  ghost predicate ListsFirst(rs: seq<Match>, ids: seq<string>, at: seq<nat>) {
    && |ids| == |at|
    && (forall a | 0 <= a < |at| :: at[a] < |rs| && rs[at[a]].id == ids[a] && forall l | 0 <= l < at[a] :: rs[l].id != ids[a])
    && (forall a, b | 0 <= a < b < |at| :: at[a] < at[b])
    && (forall k | 0 <= k < |rs| :: rs[k].id in ids)
  }

  ghost predicate RisesPerEntry(rs: seq<Match>) {
    forall k, l | 0 <= k < l < |rs| && rs[k].id == rs[l].id :: rs[k].score < rs[l].score
  }

  /** A dictionary that remembers insertion order: its keys in `ids`, its values in `byId`. */
  method DedupeById(rs: seq<Match>) returns (ids: seq<string>, byId: map<string, Match>, ghost at: seq<nat>)
    requires RisesPerEntry(rs)
    ensures KeepsLast(rs, byId) && ListsFirst(rs, ids, at)
    ensures forall id :: id in ids <==> id in byId
  {
    ids, byId, at := [], map[], [];
    for n := 0 to |rs|
      invariant KeepsLast(rs[..n], byId) && ListsFirst(rs[..n], ids, at)
      invariant forall id :: id in ids <==> id in byId
    {
      var r := rs[n];
      LastRowWins(rs, n, byId);
      FirstRowCounts(rs, n, ids, at);
      if r.id !in byId || r.score > byId[r.id].score {
        if r.id !in byId {
          ids, at := ids + [r.id], at + [n];
        }
        byId := byId[r.id := r];
      }
    }
    assert rs[..|rs|] == rs;
  }

  lemma {:induction false} LastRowWins(rs: seq<Match>, n: nat, byId: map<string, Match>)
    requires n < |rs| && RisesPerEntry(rs) && KeepsLast(rs[..n], byId)
    ensures rs[n].id in byId ==> byId[rs[n].id].score < rs[n].score
    ensures KeepsLast(rs[..n + 1], byId[rs[n].id := rs[n]])
  {
    var before, after, byId' := rs[..n], rs[..n + 1], byId[rs[n].id := rs[n]];
    assert IsLast(after, n) && after == before + [rs[n]];
    forall id | id in byId'
      ensures exists k: nat :: IsLast(after, k) && after[k].id == id && byId'[id] == after[k]
    {
      if id == rs[n].id {
        assert after[n] == rs[n];
      } else {
        var k: nat :| IsLast(before, k) && before[k].id == id && byId[id] == before[k];
        assert after[k] == before[k] && IsLast(after, k);
      }
    }
  }

  lemma {:induction false} FirstRowCounts(rs: seq<Match>, n: nat, ids: seq<string>, at: seq<nat>)
    requires n < |rs| && ListsFirst(rs[..n], ids, at)
    ensures if rs[n].id in ids then ListsFirst(rs[..n + 1], ids, at)
            else ListsFirst(rs[..n + 1], ids + [rs[n].id], at + [n])
  {
    assert rs[..n + 1] == rs[..n] + [rs[n]];
    if rs[n].id in ids {
      KnownRowCounts(rs[..n], rs[n], ids, at);
    } else {
      NewRowCounts(rs[..n], rs[n], ids, at);
    }
  }

  lemma {:induction false} KnownRowCounts(rs: seq<Match>, r: Match, ids: seq<string>, at: seq<nat>)
    requires ListsFirst(rs, ids, at) && r.id in ids
    ensures ListsFirst(rs + [r], ids, at)
  {}

  lemma {:induction false} NewRowCounts(rs: seq<Match>, r: Match, ids: seq<string>, at: seq<nat>)
    requires ListsFirst(rs, ids, at) && r.id !in ids
    ensures ListsFirst(rs + [r], ids + [r.id], at + [|rs|])
  {
    assert forall k | 0 <= k < |rs| :: rs[k].id in ids;
    assert (ids + [r.id])[|ids|] == r.id;
  }

  // ---- From rows back to candidates ----

  lemma {:induction false} FirstIsFirst(cs: seq<Candidate>, threshold: real, id: string)
    ensures
      var f := First(cs, threshold, id);
      && f <= |cs|
      && (f < |cs| ==> cs[f].id == id && Qualifies(cs[f], threshold))
      && forall j | 0 <= j < f && cs[j].id == id :: !Qualifies(cs[j], threshold)
  {
    if cs == [] {
    } else {
      FirstIsFirst(cs[..|cs| - 1], threshold, id);
    }
  }

  /** Every qualifying candidate is matched or beaten by a record of its entry, no later. */
  lemma {:induction false} RecordAtLeast(cs: seq<Candidate>, threshold: real, j: nat) returns (r: nat)
    requires j < |cs| && Qualifies(cs[j], threshold)
    ensures r <= j && IsRecord(cs, threshold, r) && cs[r].id == cs[j].id && cs[j].score <= cs[r].score
  {
    if IsRecord(cs, threshold, j) {
      r := j;
    } else {
      var i: nat :| i < j && cs[i].id == cs[j].id && Qualifies(cs[i], threshold) && cs[j].score <= cs[i].score;
      r := RecordAtLeast(cs, threshold, i);
    }
  }

  lemma {:induction false} LastRecordIsBest(cs: seq<Candidate>, threshold: real, rs: seq<Match>, at: seq<nat>, k: nat)
    requires AreRecords(cs, threshold, rs, at) && IsLast(rs, k)
    ensures IsBest(cs, threshold, at[k])
  {
    var i := at[k];
    forall j: nat | j < |cs| && cs[j].id == cs[i].id && Qualifies(cs[j], threshold)
      ensures cs[j].score < cs[i].score || (cs[j].score == cs[i].score && i <= j)
    {
      var r := RecordAtLeast(cs, threshold, j);
      var l :| 0 <= l < |at| && at[l] == r;
      assert rs[l].id == rs[k].id;
      assert l <= k;
    }
  }

  lemma {:induction false} BestIsLastRecord(cs: seq<Candidate>, threshold: real, rs: seq<Match>, at: seq<nat>, i: nat) returns (k: nat)
    requires AreRecords(cs, threshold, rs, at) && IsBest(cs, threshold, i)
    ensures IsLast(rs, k) && at[k] == i
  {
    assert IsRecord(cs, threshold, i);
    k :| 0 <= k < |at| && at[k] == i;
    forall l | k < l < |rs|
      ensures rs[l].id != rs[k].id
    {
      assert IsRecord(cs, threshold, at[l]) && at[k] < at[l];
    }
  }

  lemma {:induction false} FirstRecordIsFirst(cs: seq<Candidate>, threshold: real, rs: seq<Match>, at: seq<nat>, k: nat)
    requires AreRecords(cs, threshold, rs, at) && k < |rs|
    requires forall l | 0 <= l < k :: rs[l].id != rs[k].id
    ensures First(cs, threshold, rs[k].id) == at[k]
  {
    var f := First(cs, threshold, rs[k].id);
    FirstIsFirst(cs, threshold, rs[k].id);
    assert f <= at[k];
    assert IsRecord(cs, threshold, f);
    var l :| 0 <= l < |at| && at[l] == f;
    assert rs[l].id == rs[k].id;
  }

  lemma {:induction false} RecordsRise(cs: seq<Candidate>, threshold: real, rs: seq<Match>, at: seq<nat>)
    requires AreRecords(cs, threshold, rs, at)
    ensures RisesPerEntry(rs)
  {
    forall k, l | 0 <= k < l < |rs| && rs[k].id == rs[l].id
      ensures rs[k].score < rs[l].score
    {
      assert IsRecord(cs, threshold, at[l]) && at[k] < at[l];
    }
  }

  // ---- The stable sort ----

  function InsertByScore(ms: seq<Match>, m: Match): seq<Match> {
    if ms == [] || ms[|ms| - 1].score >= m.score then ms + [m]
    else InsertByScore(ms[..|ms| - 1], m) + [ms[|ms| - 1]]
  }

  /** `sorted(ms, key=lambda x: -x["score"])`. */
  function SortByScore(ms: seq<Match>): seq<Match> {
    if ms == [] then [] else InsertByScore(SortByScore(ms[..|ms| - 1]), ms[|ms| - 1])
  }

  lemma {:induction false} InsertKeepsRows(ms: seq<Match>, m: Match)
    ensures multiset(InsertByScore(ms, m)) == multiset(ms) + multiset{m}
  {
    if ms == [] || ms[|ms| - 1].score >= m.score {
    } else {
      InsertKeepsRows(ms[..|ms| - 1], m);
      assert ms == ms[..|ms| - 1] + [ms[|ms| - 1]];
    }
  }

  lemma {:induction false} SameRows(xs: seq<Match>, ys: seq<Match>)
    requires multiset(xs) == multiset(ys)
    ensures |xs| == |ys| && forall m :: m in xs <==> m in ys
  {
    assert |multiset(xs)| == |xs| && |multiset(ys)| == |ys|;
    forall m ensures m in xs <==> m in ys {
      assert m in xs <==> m in multiset(xs);
      assert m in ys <==> m in multiset(ys);
    }
  }

  lemma {:induction false} InsertKeepsOrder(rank: string -> nat, ms: seq<Match>, m: Match)
    requires Ordered(rank, ms)
    requires forall x | x in ms :: rank(x.id) < rank(m.id)
    ensures Ordered(rank, InsertByScore(ms, m))
  {
    if ms == [] {
    } else if ms[|ms| - 1].score >= m.score {
      forall k | 0 <= k < |ms|
        ensures Precedes(rank, ms[k], m)
      {
        assert k < |ms| - 1 ==> Precedes(rank, ms[k], ms[|ms| - 1]);
      }
      AppendKeepsOrder(rank, ms, m);
    } else {
      var n := |ms| - 1;
      InsertKeepsOrder(rank, ms[..n], m);
      var rest := InsertByScore(ms[..n], m);
      InsertedRows(ms[..n], m);
      forall x | x in rest
        ensures Precedes(rank, x, ms[n])
      {
        assert x == m || exists k :: 0 <= k < n && ms[k] == x;
      }
      AppendKeepsOrder(rank, rest, ms[n]);
    }
  }

  lemma {:induction false} InsertedRows(ms: seq<Match>, m: Match)
    ensures forall x :: x in InsertByScore(ms, m) <==> x in ms || x == m
  {
    InsertKeepsRows(ms, m);
    SameRows(InsertByScore(ms, m), ms + [m]);
  }

  lemma {:induction false} AppendKeepsOrder(rank: string -> nat, ms: seq<Match>, m: Match)
    requires Ordered(rank, ms)
    requires forall x | x in ms :: Precedes(rank, x, m)
    ensures Ordered(rank, ms + [m])
  {}

  lemma {:induction false} SortKeepsRows(ms: seq<Match>)
    ensures multiset(SortByScore(ms)) == multiset(ms)
  {
    if ms == [] {
    } else {
      var n := |ms| - 1;
      SortKeepsRows(ms[..n]);
      InsertKeepsRows(SortByScore(ms[..n]), ms[n]);
      assert multiset(ms) == multiset(ms[..n]) + multiset{ms[n]} by {
        assert ms == ms[..n] + [ms[n]];
      }
    }
  }

  ghost predicate RanksRise(rank: string -> nat, ms: seq<Match>) {
    forall a, b | 0 <= a < b < |ms| :: rank(ms[a].id) < rank(ms[b].id)
  }

  lemma {:induction false} LastRankIsHighest(rank: string -> nat, ms: seq<Match>, x: Match)
    requires ms != [] && RanksRise(rank, ms)
    requires x in ms[..|ms| - 1]
    ensures rank(x.id) < rank(ms[|ms| - 1].id)
  {
    var a :| 0 <= a < |ms| - 1 && ms[a] == x;
  }

  /** Sorting rows listed by rising rank orders them. */
  lemma {:induction false} SortOrders(rank: string -> nat, ms: seq<Match>)
    requires RanksRise(rank, ms)
    ensures Ordered(rank, SortByScore(ms))
  {
    if ms == [] {
    } else {
      var n := |ms| - 1;
      SortOrders(rank, ms[..n]);
      var sorted := SortByScore(ms[..n]);
      SortKeepsRows(ms[..n]);
      SameRows(sorted, ms[..n]);
      forall x | x in sorted
        ensures rank(x.id) < rank(ms[n].id)
      {
        LastRankIsHighest(rank, ms, x);
      }
      InsertKeepsOrder(rank, sorted, ms[n]);
    }
  }

  lemma {:induction false} KeptRow(rs: seq<Match>, byId: map<string, Match>, id: string) returns (k: nat)
    requires KeepsLast(rs, byId) && id in byId
    ensures IsLast(rs, k) && rs[k].id == id && byId[id] == rs[k]
  {
    k :| IsLast(rs, k) && rs[k].id == id && byId[id] == rs[k];
  }

  /** The deduplicated rows are the best rows, listed by first qualifying name. */
  lemma {:induction false} DedupedAreBest(cs: seq<Candidate>, threshold: real, rs: seq<Match>, at: seq<nat>,
                                          ids: seq<string>, byId: map<string, Match>, firsts: seq<nat>, a: nat)
    requires AreRecords(cs, threshold, rs, at)
    requires KeepsLast(rs, byId) && ListsFirst(rs, ids, firsts)
    requires a < |ids| && ids[a] in byId
    ensures byId[ids[a]].id == ids[a] && First(cs, threshold, ids[a]) == at[firsts[a]]
    ensures IsBestMatch(cs, threshold, byId[ids[a]])
  {
    FirstRecordIsFirst(cs, threshold, rs, at, firsts[a]);
    var k := KeptRow(rs, byId, ids[a]);
    LastRecordIsBest(cs, threshold, rs, at, k);
  }

  lemma {:induction false} LastIsKept(rs: seq<Match>, byId: map<string, Match>, k: nat)
    requires KeepsLast(rs, byId) && IsLast(rs, k)
    ensures rs[k].id in byId && byId[rs[k].id] == rs[k]
  {
    var l := KeptRow(rs, byId, rs[k].id);
    assert l == k;
  }

  lemma {:induction false} BestIsDeduped(cs: seq<Candidate>, threshold: real, rs: seq<Match>, at: seq<nat>,
                                         byId: map<string, Match>, m: Match)
    requires AreRecords(cs, threshold, rs, at) && KeepsLast(rs, byId)
    requires IsBestMatch(cs, threshold, m)
    ensures m.id in byId && byId[m.id] == m
  {
    var i: nat :| IsBest(cs, threshold, i) && m == ToMatch(cs[i]);
    var k := BestIsLastRecord(cs, threshold, rs, at, i);
    LastIsKept(rs, byId, k);
  }

  lemma {:induction false} DedupedIsScreening(cs: seq<Candidate>, threshold: real, rs: seq<Match>, at: seq<nat>,
                                              ids: seq<string>, byId: map<string, Match>, firsts: seq<nat>, values: seq<Match>)
    requires AreRecords(cs, threshold, rs, at)
    requires KeepsLast(rs, byId) && ListsFirst(rs, ids, firsts)
    requires forall id :: id in ids <==> id in byId
    requires |values| == |ids| && forall a | 0 <= a < |ids| :: ids[a] in byId && values[a] == byId[ids[a]]
    ensures IsScreening(cs, threshold, SortByScore(values))
  {
    var rank := FirstOf(cs, threshold);
    forall a: nat | a < |ids|
      ensures values[a].id == ids[a] && rank(ids[a]) == at[firsts[a]] && IsBestMatch(cs, threshold, values[a])
    {
      DedupedAreBest(cs, threshold, rs, at, ids, byId, firsts, a);
    }
    SortOrders(rank, values);
    SortKeepsRows(values);
    SameRows(SortByScore(values), values);
    forall m | IsBestMatch(cs, threshold, m)
      ensures m in values
    {
      BestIsDeduped(cs, threshold, rs, at, byId, m);
      var a :| 0 <= a < |ids| && ids[a] == m.id;
      assert values[a] == m;
    }
  }

  lemma {:induction false} AliasStep(q: Query, row: Row, aliases: seq<Alias>, i: nat)
    requires i < |aliases|
    ensures AliasCandidates(q, row, aliases[..i + 1]) ==
            AliasCandidates(q, row, aliases[..i]) + AliasCandidate(q, row, aliases[i])
  {
    assert aliases[..i + 1][..i] == aliases[..i];
  }

  /** One element of an entry's alias list; only strings are scored. */
  method ScanAlias(collector: Collector, row: Row, alias: Alias)
    requires collector.Valid()
    modifies collector
    ensures collector.Valid()
    ensures collector.scanned == old(collector.scanned) + AliasCandidate(collector.query, row, alias)
  {
    if alias.Name? {
      collector.AddCandidate(row.id, alias.text, AliasName, SourceOf(row));
    }
  }

  /** The scan over one watchlist row, its primary name first. */
  method ScanRow(collector: Collector, row: Row)
    requires collector.Valid()
    modifies collector
    ensures collector.Valid()
    ensures collector.scanned == old(collector.scanned) + RowCandidates(collector.query, row)
  {
    collector.AddCandidate(row.id, row.primary, PrimaryName, SourceOf(row));
    if collector.query.useAliases {
      ScanAliases(collector, row);
    }
  }

  method ScanAliases(collector: Collector, row: Row)
    requires collector.Valid()
    modifies collector
    ensures collector.Valid()
    ensures collector.scanned == old(collector.scanned) + AliasCandidates(collector.query, row, AliasesOf(row))
  {
    var aliases := AliasesOf(row);
    for i := 0 to |aliases|
      invariant collector.Valid()
      invariant collector.scanned == old(collector.scanned) + AliasCandidates(collector.query, row, aliases[..i])
    {
      AliasStep(collector.query, row, aliases, i);
      ScanAlias(collector, row, aliases[i]);
    }
    assert aliases[..|aliases|] == aliases;
  }

  /** Reports, for every entry with a qualifying name, its best one, best entries first. */
  method FindMatches(q: Query, rows: seq<Row>) returns (matches: seq<Match>)
    ensures IsScreening(Candidates(q, rows), q.threshold, matches)
  {
    var collector := new Collector(q);
    for n := 0 to |rows|
      invariant fresh(collector) && collector.Valid()
      invariant collector.scanned == Candidates(q, rows[..n])
    {
      assert rows[..n + 1][..n] == rows[..n];
      ScanRow(collector, rows[n]);
    }
    assert rows[..|rows|] == rows;
    matches := SortedBest(collector.query, collector.scanned, collector.results);
  }

  /** The dedupe pass and the final sort. */
  method SortedBest(q: Query, ghost cs: seq<Candidate>, results: seq<Match>) returns (matches: seq<Match>)
    requires results == Collect(cs, q.threshold).results
    ensures IsScreening(cs, q.threshold, matches)
  {
    ghost var at := CollectedAreRecords(cs, q.threshold);
    RecordsRise(cs, q.threshold, results, at);
    var ids, byId, firsts := DedupeById(results);
    assert forall a | 0 <= a < |ids| :: ids[a] in byId;
    var values := seq(|ids|, a requires 0 <= a < |ids| => byId[ids[a]]);
    DedupedIsScreening(cs, q.threshold, results, at, ids, byId, firsts, values);
    matches := SortByScore(values);
  }
}
