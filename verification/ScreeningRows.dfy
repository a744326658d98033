/** The screening result read off the watchlist itself: its names, its sources and its scores. */
module ScreeningRows {
  import opened Common
  import opened Scoring
  import opened FindMatches
  import opened ScreeningLaws
  import opened WatchlistCache

  function ScoreOf(q: Query, text: string): int {
    ScoreMatch(q.engine, q.screened, text)
  }

  /** The row has the text as its primary name, or among the strings of its alias list. */
  predicate HasNameAs(q: Query, row: Row, field: Field, text: string) {
    || (field == PrimaryName && text == row.primary)
    || (field == AliasName && q.useAliases && !row.Pair? && row.aliases.Some? && Name(text) in row.aliases.value)
  }

  /** Id, score, source and field are those of one of the row's names. */
  ghost predicate IsNameOf(q: Query, row: Row, m: Match) {
    && m.id == row.id && m.source == (if row.Quad? && row.source.Some? then row.source.value else "")
    && exists text :: HasNameAs(q, row, m.field, text) && m.score == ScoreOf(q, text)
  }

  lemma {:induction false} AliasCandidatesAre(q: Query, row: Row, aliases: seq<Alias>, c: Candidate)
    ensures c in AliasCandidates(q, row, aliases) <==>
            && c.id == row.id && c.field == AliasName && c.source == SourceOf(row)
            && exists text :: Name(text) in aliases && c.score == ScoreOf(q, text)
  {
    if aliases == [] {
    } else {
      var n := |aliases| - 1;
      AliasCandidatesAre(q, row, aliases[..n], c);
      assert aliases == aliases[..n] + [aliases[n]];
      assert forall a :: a in aliases <==> a in aliases[..n] || a == aliases[n];
    }
  }

  lemma {:induction false} RowCandidatesAre(q: Query, row: Row, c: Candidate)
    ensures c in RowCandidates(q, row) <==> IsNameOf(q, row, ToMatch(c))
  {
    AliasCandidatesAre(q, row, AliasesOf(row), c);
    if c in RowCandidates(q, row) && c.field == PrimaryName {
      assert HasNameAs(q, row, PrimaryName, row.primary) && c.score == ScoreOf(q, row.primary);
    }
    if c in RowCandidates(q, row) && c.field == AliasName {
      var text :| Name(text) in AliasesOf(row) && c.score == ScoreOf(q, text);
      assert HasNameAs(q, row, AliasName, text);
    }
    if IsNameOf(q, row, ToMatch(c)) {
      var text :| HasNameAs(q, row, c.field, text) && c.score == ScoreOf(q, text);
      if c.field == PrimaryName {
        assert RowCandidates(q, row)[0] == c;
      } else {
        assert Name(text) in AliasesOf(row);
        assert c in AliasCandidates(q, row, AliasesOf(row));
      }
    }
  }

  ghost predicate IsNameOfSome(q: Query, rows: seq<Row>, m: Match) {
    exists row :: row in rows && IsNameOf(q, row, m)
  }

  lemma {:induction false} CandidatesAre(q: Query, rows: seq<Row>, c: Candidate)
    ensures c in Candidates(q, rows) <==> IsNameOfSome(q, rows, ToMatch(c))
  {
    if rows == [] {
    } else {
      var n := |rows| - 1;
      CandidatesAre(q, rows[..n], c);
      RowCandidatesAre(q, rows[n], c);
      assert rows == rows[..n] + [rows[n]];
      assert forall row :: row in rows <==> row in rows[..n] || row == rows[n];
    }
  }

  /** What is positive and at least the threshold; scores are in tenths. */
  predicate Counts(q: Query, score: int) {
    0 < score && score as real / 10.0 >= q.threshold
  }

  /** Each reported row is one of the watchlist's names, with the id and source of its entry and its
      own score, which counts; no other name of that entry scores higher. */
  lemma {:induction false} ReportedIsBestName(q: Query, rows: seq<Row>, ms: seq<Match>, k: nat)
    requires IsScreening(Candidates(q, rows), q.threshold, ms) && k < |ms|
    ensures IsNameOfSome(q, rows, ms[k]) && Counts(q, ms[k].score)
    ensures forall row, field, text | row in rows && row.id == ms[k].id && HasNameAs(q, row, field, text) ::
              ScoreOf(q, text) <= ms[k].score
  {
    var cs := Candidates(q, rows);
    assert ms[k] in ms;
    var i: nat :| IsBest(cs, q.threshold, i) && ms[k] == ToMatch(cs[i]);
    CandidatesAre(q, rows, cs[i]);
    assert cs[i] in cs;
    forall row, field, text | row in rows && row.id == ms[k].id && HasNameAs(q, row, field, text)
      ensures ScoreOf(q, text) <= ms[k].score
    {
      var j := NameIsCandidate(q, rows, row, field, text);
      assert ScoreOf(q, text) > ms[k].score ==> Qualifies(cs[j], q.threshold);
    }
  }

  lemma {:induction false} NameIsCandidate(q: Query, rows: seq<Row>, row: Row, field: Field, text: string) returns (j: nat)
    requires row in rows && HasNameAs(q, row, field, text)
    ensures j < |Candidates(q, rows)|
    ensures Candidates(q, rows)[j].id == row.id && Candidates(q, rows)[j].score == ScoreOf(q, text)
  {
    var c := Candidate(row.id, ScoreOf(q, text), SourceOf(row), field);
    assert IsNameOf(q, row, ToMatch(c));
    CandidatesAre(q, rows, c);
    j :| 0 <= j < |Candidates(q, rows)| && Candidates(q, rows)[j] == c;
  }

  /** Every name that counts has its entry reported, with at least its score. */
  lemma {:induction false} CountingNameIsReported(q: Query, rows: seq<Row>, ms: seq<Match>, row: Row, field: Field, text: string) returns (k: nat)
    requires IsScreening(Candidates(q, rows), q.threshold, ms)
    requires row in rows && HasNameAs(q, row, field, text) && Counts(q, ScoreOf(q, text))
    ensures k < |ms| && ms[k].id == row.id && ScoreOf(q, text) <= ms[k].score
    ensures forall l | 0 <= l < k :: ms[k].score <= ms[l].score
  {
    var j := NameIsCandidate(q, rows, row, field, text);
    k := QualifyingIsReported(Candidates(q, rows), q.threshold, j, ms);
  }

  /** With distinct ids an alias is only given as the matched field when it beats the primary name. */
  lemma {:induction false} AliasBeatsPrimary(q: Query, rows: seq<Row>, ms: seq<Match>, k: nat, row: Row)
    requires IsScreening(Candidates(q, rows), q.threshold, ms) && k < |ms| && DistinctIds(rows)
    requires row in rows && row.id == ms[k].id && ms[k].field == AliasName
    ensures ScoreOf(q, row.primary) < ms[k].score
  {
    assert ms[k] in ms && IsBestMatch(Candidates(q, rows), q.threshold, ms[k]);
    BestMatchesAreRowwise(q, rows, ms[k]);
    var r :| r in rows && IsBestMatch(RowCandidates(q, r), q.threshold, ms[k]);
    BestAliasBeatsPrimary(q, r, ms[k]);
    SameRow(rows, r, row);
  }

  lemma {:induction false} BestAliasBeatsPrimary(q: Query, row: Row, m: Match)
    requires IsBestMatch(RowCandidates(q, row), q.threshold, m) && m.field == AliasName
    ensures m.id == row.id && ScoreOf(q, row.primary) < m.score
  {
    var cs := RowCandidates(q, row);
    var i: nat :| IsBest(cs, q.threshold, i) && m == ToMatch(cs[i]);
    RowCandidatesShareId(q, row);
    assert cs[i] in cs && cs[0] in cs;
    assert cs[0].field == PrimaryName && cs[0].score == ScoreOf(q, row.primary);
    assert Qualifies(cs[0], q.threshold) ==> cs[0].score < cs[i].score;
  }

  lemma {:induction false} SameRow(rows: seq<Row>, r: Row, row: Row)
    requires DistinctIds(rows) && r in rows && row in rows && r.id == row.id
    ensures r == row
  {
    var i :| 0 <= i < |rows| && rows[i] == r;
    var j :| 0 <= j < |rows| && rows[j] == row;
  }

  // ---- The same of the table's entries ----

  predicate EntryHasName(q: Query, e: Entry, field: Field, text: string) {
    || (field == PrimaryName && text == e.primaryName)
    || (field == AliasName && q.useAliases && e.aliases.Some? && Name(text) in e.aliases.value)
  }

  lemma {:induction false} EntryNamesAreRowNames(q: Query, e: Entry, field: Field, text: string)
    ensures HasNameAs(q, RowOfEntry(e), field, text) <==> EntryHasName(q, e, field, text)
  {}

  /** Screening selected entries, from the table or through the cache, reports ids and sources of
      entries, each with the best score among the entry's own names. */
  lemma {:induction false} AnswerIsOfEntries(q: Query, es: seq<Entry>, ms: seq<Match>, k: nat) returns (e: Entry, text: string)
    requires IsScreening(Candidates(q, RowsOfCache(EncodeAll(es))), q.threshold, ms) && k < |ms|
    ensures IsScreening(Candidates(q, RowsOfTable(es)), q.threshold, ms)
    ensures e in es && ms[k].id == e.id && ms[k].source == e.source
    ensures EntryHasName(q, e, ms[k].field, text) && ms[k].score == ScoreOf(q, text) && Counts(q, ms[k].score)
    ensures forall e', field, text' | e' in es && e'.id == e.id && EntryHasName(q, e', field, text') ::
              ScoreOf(q, text') <= ms[k].score
  {
    CacheRoundTrip(es);
    var rows := RowsOfTable(es);
    ReportedIsBestName(q, rows, ms, k);
    var row :| row in rows && IsNameOf(q, row, ms[k]);
    var i :| 0 <= i < |rows| && rows[i] == row;
    e := es[i];
    text :| HasNameAs(q, row, ms[k].field, text) && ms[k].score == ScoreOf(q, text);
    EntryNamesAreRowNames(q, e, ms[k].field, text);
    forall e', field, text' | e' in es && e'.id == e.id && EntryHasName(q, e', field, text')
      ensures ScoreOf(q, text') <= ms[k].score
    {
      var j :| 0 <= j < |es| && es[j] == e';
      assert rows[j] == RowOfEntry(e') && rows[j] in rows;
      EntryNamesAreRowNames(q, e', field, text');
    }
  }

  /** And every entry with a name that counts is reported. */
  lemma {:induction false} CountingEntryIsReported(q: Query, es: seq<Entry>, ms: seq<Match>, e: Entry, field: Field, text: string) returns (k: nat)
    requires IsScreening(Candidates(q, RowsOfTable(es)), q.threshold, ms)
    requires e in es && EntryHasName(q, e, field, text) && Counts(q, ScoreOf(q, text))
    ensures k < |ms| && ms[k].id == e.id && ScoreOf(q, text) <= ms[k].score
  {
    var j :| 0 <= j < |es| && es[j] == e;
    assert RowsOfTable(es)[j] == RowOfEntry(e) && RowsOfTable(es)[j] in RowsOfTable(es);
    EntryNamesAreRowNames(q, e, field, text);
    k := CountingNameIsReported(q, RowsOfTable(es), ms, RowOfEntry(e), field, text);
  }

  /** The cached objects lose nothing but the difference between no alias list and an empty one. */
  lemma {:induction false} EncodingLosesNothing(a: Entry, b: Entry)
    ensures Encode(a) == Encode(b) <==>
            && a.id == b.id && a.source == b.source && a.primaryName == b.primaryName && a.rest == b.rest
            && (if a.aliases.Some? then a.aliases.value else []) == (if b.aliases.Some? then b.aliases.value else [])
  {}
}
