/** The Redis copy of the watchlist: its refresh pipeline, and the protocol in which database
    writes, refreshes and checks interleave. */
module WatchlistCache {
  import opened Common
  import opened FindMatches
  import opened ScreeningLaws

  /** A row of `watchlist_entries`; `rest` stands for the columns screening does not read. */
  datatype Entry = Entry(id: string, source: string, primaryName: string, aliases: Option<seq<Alias>>, rest: string)

  /** The JSON object cached for an entry. */
  datatype Cached = Cached(id: string, source: string, primaryName: string, aliases: seq<Alias>, rest: string)

  function Encode(e: Entry): Cached {
    Cached(e.id, e.source, e.primaryName, e.aliases.GetOr([]), e.rest)
  }

  function EncodeAll(es: seq<Entry>): seq<Cached> {
    seq(|es|, i requires 0 <= i < |es| => Encode(es[i]))
  }

  /** The tuple a check builds from a cached object, and from a database row. */
  function RowOfCached(c: Cached): Row {
    Quad(c.id, c.primaryName, Some(c.aliases), Some(c.source))
  }

  function RowOfEntry(e: Entry): Row {
    Quad(e.id, e.primaryName, Some(e.aliases.GetOr([])), Some(e.source))
  }

  function RowsOfCache(cs: seq<Cached>): seq<Row> {
    seq(|cs|, i requires 0 <= i < |cs| => RowOfCached(cs[i]))
  }

  function RowsOfTable(es: seq<Entry>): seq<Row> {
    seq(|es|, i requires 0 <= i < |es| => RowOfEntry(es[i]))
  }

  // ---- The refresh pipeline ----

  datatype Command = Delete | RPush(value: Cached) | SetVersion(time: int)

  class Redis {
    var list: seq<Cached>
    var version: Option<int>

    /** MULTI/EXEC: the queued commands run without anything in between. */
    method Execute(commands: seq<Command>)
      modifies this
      ensures list == ListAfter(commands, old(list))
      ensures version == VersionAfter(commands, old(version))
    {
      for i := 0 to |commands|
        invariant list == ListAfter(commands[..i], old(list))
        invariant version == VersionAfter(commands[..i], old(version))
      {
        assert commands[..i + 1][..i] == commands[..i];
        match commands[i]
        case Delete => list := [];
        case RPush(value) => list := list + [value];
        case SetVersion(time) => version := Some(time);
      }
      assert commands[..|commands|] == commands;
    }

    method Refresh(selected: seq<Entry>, now: int) returns (count: nat)
      modifies this
      ensures list == EncodeAll(selected) && version == Some(now) && count == |selected|
    {
      var pipe := [Delete];
      for i := 0 to |selected|
        invariant ListAfter(pipe, list) == EncodeAll(selected[..i])
      {
        pipe := pipe + [RPush(Encode(selected[i]))];
      }
      assert selected[..|selected|] == selected;
      pipe := pipe + [SetVersion(now)];
      Execute(pipe);
      count := |selected|;
    }

    /** `ScreeningService.check`: screen the cached list, or on a miss the table, and then refill
        the cache from a second select unless that raises. */
    method Check(q: Query, selected: seq<Entry>, reselected: seq<Entry>, refreshRaises: bool, now: int)
      returns (matches: seq<Match>)
      modifies this
      ensures var rows := if old(list) != [] then RowsOfCache(old(list)) else RowsOfTable(selected);
              IsScreening(Candidates(q, rows), q.threshold, matches)
      ensures list == if old(list) != [] || refreshRaises then old(list) else EncodeAll(reselected)
    {
      var rows := RowsOfCache(list);
      if list == [] {
        rows := RowsOfTable(selected);
        if !refreshRaises {
          var _ := Refresh(reselected, now);
        }
      }
      matches := FindMatches.FindMatches(q, rows);
    }
  }

  function ListAfter(commands: seq<Command>, list: seq<Cached>): seq<Cached> {
    if commands == [] then list else
      var before := ListAfter(commands[..|commands| - 1], list);
      match commands[|commands| - 1]
      case Delete => []
      case RPush(value) => before + [value]
      case SetVersion(_) => before
  }

  function VersionAfter(commands: seq<Command>, version: Option<int>): Option<int> {
    if commands == [] then version else
      match commands[|commands| - 1]
      case SetVersion(time) => Some(time)
      case _ => VersionAfter(commands[..|commands| - 1], version)
  }

  // ---- The protocol ----

  /** A select that has been answered: its rows, and which database state it saw. */
  datatype Snapshot = Snapshot(rows: seq<Entry>, at: nat)

  datatype Answer = Answer(query: Query, rows: seq<Row>, matches: seq<Match>, at: nat)

  /** `states` lists every committed state of the table, the current one last; `listAt` is the
      state the cached list was selected from. */
  datatype World = World(
    states: seq<seq<Entry>>,
    list: seq<Cached>,
    listAt: nat,
    refreshes: map<nat, Snapshot>,
    misses: set<nat>,
    answers: seq<Answer>)

  datatype Event =
    | Write(table: seq<Entry>)
    | ReadForRefresh(worker: nat, selected: seq<Entry>)
    | WriteCache(worker: nat)
    | AbandonRefresh(worker: nat)
    | Evict
    | HitCache(query: Query, matches: seq<Match>)
    | MissCache(worker: nat)
    | AnswerFromTable(worker: nat, query: Query, selected: seq<Entry>, matches: seq<Match>)

  ghost predicate DistinctEntries(es: seq<Entry>) {
    forall i, j | 0 <= i < j < |es| :: es[i].id != es[j].id
  }

  /** A select returns the rows of the table in any order. */
  ghost predicate Selects(selected: seq<Entry>, table: seq<Entry>) {
    multiset(selected) == multiset(table)
  }

  function Current(w: World): seq<Entry>
    requires w.states != []
  {
    w.states[|w.states| - 1]
  }

  ghost predicate Enabled(w: World, e: Event) {
    w.states != [] &&
    match e
    case Write(table) => DistinctEntries(table)
    case ReadForRefresh(worker, selected) => worker !in w.refreshes && Selects(selected, Current(w))
    case WriteCache(worker) => worker in w.refreshes
    case AbandonRefresh(worker) => worker in w.refreshes
    case Evict => true
    case HitCache(query, matches) =>
      w.list != [] && IsScreening(Candidates(query, RowsOfCache(w.list)), query.threshold, matches)
    case MissCache(worker) => w.list == [] && worker !in w.misses
    case AnswerFromTable(worker, query, selected, matches) =>
      && worker in w.misses && Selects(selected, Current(w))
      && IsScreening(Candidates(query, RowsOfTable(selected)), query.threshold, matches)
  }

  function Next(w: World, e: Event): World {
    match e
    case Write(table) => w.(states := w.states + [table])
    case ReadForRefresh(worker, selected) =>
      w.(refreshes := w.refreshes[worker := Snapshot(selected, if w.states == [] then 0 else |w.states| - 1)])
    case WriteCache(worker) =>
      if worker in w.refreshes then
        w.(list := EncodeAll(w.refreshes[worker].rows), listAt := w.refreshes[worker].at,
           refreshes := w.refreshes - {worker})
      else w
    case AbandonRefresh(worker) => w.(refreshes := w.refreshes - {worker})
    case Evict => w.(list := [])
    case HitCache(query, matches) =>
      w.(answers := w.answers + [Answer(query, RowsOfCache(w.list), matches, w.listAt)])
    case MissCache(worker) => w.(misses := w.misses + {worker})
    case AnswerFromTable(worker, query, selected, matches) =>
      w.(misses := w.misses - {worker},
         answers := w.answers + [Answer(query, RowsOfTable(selected), matches, if w.states == [] then 0 else |w.states| - 1)])
  }

  function Start(table: seq<Entry>): World {
    World([table], [], 0, map[], {}, [])
  }

  function After(w: World, es: seq<Event>): World {
    if es == [] then w else Next(After(w, es[..|es| - 1]), es[|es| - 1])
  }

  ghost predicate Possible(w: World, es: seq<Event>) {
    forall i | 0 <= i < |es| :: Enabled(After(w, es[..i]), es[i])
  }

  // ---- Safety over every interleaving ----

  /** `rows` are the rows of the `at`-th database state, in some select order. */
  ghost predicate SelectedFrom(states: seq<seq<Entry>>, at: nat, rows: seq<Entry>) {
    at < |states| && Selects(rows, states[at])
  }

  ghost predicate FromOneState(states: seq<seq<Entry>>, a: Answer) {
    && (exists es :: SelectedFrom(states, a.at, es) && a.rows == RowsOfTable(es))
    && IsScreening(Candidates(a.query, a.rows), a.query.threshold, a.matches)
  }

  ghost predicate CacheIsOneState(w: World) {
    w.list == [] || exists es :: SelectedFrom(w.states, w.listAt, es) && w.list == EncodeAll(es)
  }

  ghost predicate Inv(w: World) {
    && w.states != []
    && (forall i | 0 <= i < |w.states| :: DistinctEntries(w.states[i]))
    && CacheIsOneState(w)
    && (forall k | k in w.refreshes :: SelectedFrom(w.states, w.refreshes[k].at, w.refreshes[k].rows))
    && (forall i | 0 <= i < |w.answers| :: FromOneState(w.states, w.answers[i]))
  }

  /** Going through the cache builds the rows the database path builds. */
  lemma {:induction false} CacheRoundTrip(es: seq<Entry>)
    ensures RowsOfCache(EncodeAll(es)) == RowsOfTable(es)
  {
    assert |RowsOfCache(EncodeAll(es))| == |RowsOfTable(es)|;
  }

  lemma {:induction false} StatesGrow(w: World, table: seq<Entry>)
    requires Inv(w) && DistinctEntries(table)
    ensures Inv(w.(states := w.states + [table]))
  {
    var w' := w.(states := w.states + [table]);
    assert forall at, es | SelectedFrom(w.states, at, es) :: SelectedFrom(w'.states, at, es);
    forall i | 0 <= i < |w'.answers|
      ensures FromOneState(w'.states, w'.answers[i])
    {
      assert FromOneState(w.states, w.answers[i]);
      var es :| SelectedFrom(w.states, w.answers[i].at, es) && w.answers[i].rows == RowsOfTable(es);
      assert SelectedFrom(w'.states, w.answers[i].at, es);
    }
  }

  lemma {:induction false} AnswerKeepsInv(w: World, a: Answer, es: seq<Entry>)
    requires Inv(w) && SelectedFrom(w.states, a.at, es) && a.rows == RowsOfTable(es)
    requires IsScreening(Candidates(a.query, a.rows), a.query.threshold, a.matches)
    ensures forall i | 0 <= i < |w.answers + [a]| :: FromOneState(w.states, (w.answers + [a])[i])
  {
    assert FromOneState(w.states, a);
  }

  lemma {:induction false} StepKeepsInv(w: World, e: Event)
    requires Inv(w) && Enabled(w, e)
    ensures Inv(Next(w, e))
  {
    match e
    case Write(table) => StatesGrow(w, table);
    case WriteCache(worker) =>
      assert SelectedFrom(w.states, w.refreshes[worker].at, w.refreshes[worker].rows);
    case HitCache(query, matches) =>
      var es :| SelectedFrom(w.states, w.listAt, es) && w.list == EncodeAll(es);
      CacheRoundTrip(es);
      AnswerKeepsInv(w, Answer(query, RowsOfCache(w.list), matches, w.listAt), es);
    case AnswerFromTable(worker, query, selected, matches) =>
      AnswerKeepsInv(w, Answer(query, RowsOfTable(selected), matches, |w.states| - 1), selected);
    case _ =>
  }

  lemma {:induction false} PossiblePrefix(w: World, es: seq<Event>, n: nat)
    requires Possible(w, es) && n < |es|
    ensures Possible(w, es[..n]) && Enabled(After(w, es[..n]), es[n])
  {
    assert forall i | 0 <= i < n :: es[..n][..i] == es[..i] && es[..n][i] == es[i];
  }

  /** Every interleaving keeps the cached list empty or equal to one state that existed, and
      every answer a screening of one such state. */
  lemma {:induction false} EveryRunIsSafe(table: seq<Entry>, es: seq<Event>)
    requires DistinctEntries(table) && Possible(Start(table), es)
    ensures Inv(After(Start(table), es))
  {
    if es == [] {
      assert Inv(Start(table));
    } else {
      var n := |es| - 1;
      PossiblePrefix(Start(table), es, n);
      EveryRunIsSafe(table, es[..n]);
      StepKeepsInv(After(Start(table), es[..n]), es[n]);
    }
  }

  function Without<T>(s: seq<T>, k: nat): seq<T>
    requires k < |s|
  {
    s[..k] + s[k + 1..]
  }

  lemma {:induction false} WithoutRemovesOne<T>(s: seq<T>, k: nat)
    requires k < |s|
    ensures multiset(s) == multiset(Without(s, k)) + multiset{s[k]}
  {
    assert s == s[..k] + [s[k]] + s[k + 1..];
  }

  lemma {:induction false} RemovingEqualKeepsEqual<T>(s: seq<T>, k: nat, t: seq<T>, l: nat)
    requires k < |s| && l < |t| && s[k] == t[l]
    ensures multiset(s) == multiset(t) <==> multiset(Without(s, k)) == multiset(Without(t, l))
  {
    WithoutRemovesOne(s, k);
    WithoutRemovesOne(t, l);
    assert multiset(Without(s, k)) == multiset(s) - multiset{s[k]};
    assert multiset(Without(t, l)) == multiset(t) - multiset{s[k]};
  }

  lemma {:induction false} RowsWithout(es: seq<Entry>, k: nat)
    requires k < |es|
    ensures RowsOfTable(Without(es, k)) == Without(RowsOfTable(es), k)
  {}

  lemma {:induction false} RowsOfPermutedTable(es: seq<Entry>, es': seq<Entry>)
    requires multiset(es) == multiset(es')
    ensures multiset(RowsOfTable(es)) == multiset(RowsOfTable(es'))
  {
    assert |multiset(es')| == |es'| && |multiset(es)| == |es|;
    if es == [] {
    } else {
      assert es[0] in multiset(es');
      var k: nat :| k < |es'| && es'[k] == es[0];
      RemovingEqualKeepsEqual(es, 0, es', k);
      RowsOfPermutedTable(Without(es, 0), Without(es', k));
      RowsWithout(es, 0);
      RowsWithout(es', k);
      RemovingEqualKeepsEqual(RowsOfTable(es), 0, RowsOfTable(es'), k);
    }
  }

  /** Screening two selects of one state gives the same rows, up to order among ties. */
  lemma {:induction false} SelectOrderOnlyMovesTies(q: Query, table: seq<Entry>, es: seq<Entry>, ms: seq<Match>, ms': seq<Match>)
    requires DistinctEntries(table) && Selects(es, table)
    requires IsScreening(Candidates(q, RowsOfTable(es)), q.threshold, ms)
    requires IsScreening(Candidates(q, RowsOfTable(table)), q.threshold, ms')
    ensures multiset(ms) == multiset(ms')
    ensures |ms| == |ms'| && forall k | 0 <= k < |ms| :: ms[k].score == ms'[k].score
  {
    RowsOfPermutedTable(table, es);
    PermutingWatchlist(q, RowsOfTable(table), RowsOfTable(es), ms', ms);
  }

  /** Each answer given in any run is, up to order among ties, what `find_matches` returns on
      one database state that existed. */
  lemma {:induction false} AnswersScreenOnePastState(table: seq<Entry>, es: seq<Event>, i: nat, expected: seq<Match>)
    requires DistinctEntries(table) && Possible(Start(table), es)
    requires i < |After(Start(table), es).answers|
    requires
      var w := After(Start(table), es);
      var a := w.answers[i];
      a.at < |w.states| ==> IsScreening(Candidates(a.query, RowsOfTable(w.states[a.at])), a.query.threshold, expected)
    ensures
      var w := After(Start(table), es);
      w.answers[i].at < |w.states| && multiset(w.answers[i].matches) == multiset(expected)
  {
    EveryRunIsSafe(table, es);
    var w := After(Start(table), es);
    var a := w.answers[i];
    assert FromOneState(w.states, a);
    var rows :| SelectedFrom(w.states, a.at, rows) && a.rows == RowsOfTable(rows);
    SelectOrderOnlyMovesTies(a.query, w.states[a.at], rows, a.matches, expected);
  }

  /** Screening two selects of one state agrees, up to order among ties. */
  lemma {:induction false} SelectsAgree(q: Query, table: seq<Entry>, es: seq<Entry>, es': seq<Entry>, ms: seq<Match>, ms': seq<Match>)
    requires DistinctEntries(table) && Selects(es, table) && Selects(es', table)
    requires IsScreening(Candidates(q, RowsOfTable(es)), q.threshold, ms)
    requires IsScreening(Candidates(q, RowsOfTable(es')), q.threshold, ms')
    ensures multiset(ms) == multiset(ms')
    ensures |ms| == |ms'| && forall k | 0 <= k < |ms| :: ms[k].score == ms'[k].score
  {
    var expected := ScreeningExists(Candidates(q, RowsOfTable(table)), q.threshold);
    SelectOrderOnlyMovesTies(q, table, es, ms, expected);
    SelectOrderOnlyMovesTies(q, table, es', ms', expected);
  }

  /** A hit on a list refreshed from the current table agrees with the database path, up to
      order among ties. */
  lemma {:induction false} HitAfterRefreshAgrees(w: World, worker: nat, q: Query, hit: seq<Match>, selected: seq<Entry>, miss: seq<Match>)
    requires Inv(w) && worker in w.refreshes && w.refreshes[worker].at == |w.states| - 1
    requires Enabled(Next(w, WriteCache(worker)), HitCache(q, hit))
    requires Selects(selected, Current(w))
    requires IsScreening(Candidates(q, RowsOfTable(selected)), q.threshold, miss)
    ensures multiset(hit) == multiset(miss)
    ensures |hit| == |miss| && forall k | 0 <= k < |hit| :: hit[k].score == miss[k].score
  {
    CacheRoundTrip(w.refreshes[worker].rows);
    SelectsAgree(q, Current(w), w.refreshes[worker].rows, selected, hit, miss);
  }

  /** Whichever of two pending refreshes writes last decides the cached state, old or new. */
  lemma {:induction false} LastWriterWins(w: World, a: nat, b: nat)
    requires w.states != [] && a in w.refreshes && b in w.refreshes && a != b
    ensures
      var first := Next(w, WriteCache(b));
      var second := Next(first, WriteCache(a));
      && Enabled(w, WriteCache(b)) && Enabled(first, WriteCache(a))
      && first.list == EncodeAll(w.refreshes[b].rows)
      && second.list == EncodeAll(w.refreshes[a].rows) && second.listAt == w.refreshes[a].at
  {}

  /** So two overlapping refreshes can leave the older state cached: the slower one read before
      a write and writes the cache last. */
  lemma {:induction false} OverlappingRefreshesCanGoBack(old': seq<Entry>, new': seq<Entry>) returns (w: World)
    requires DistinctEntries(old') && DistinctEntries(new')
    ensures
      var w0 := Start(old');
      var w1 := Next(w0, ReadForRefresh(1, old'));
      var w2 := Next(w1, Write(new'));
      && w == Next(w2, ReadForRefresh(2, new'))
      && Enabled(w0, ReadForRefresh(1, old')) && Enabled(w1, Write(new')) && Enabled(w2, ReadForRefresh(2, new'))
    ensures Current(w) == new' && Next(w, WriteCache(2)).list == EncodeAll(new')
    ensures Next(Next(w, WriteCache(2)), WriteCache(1)).list == EncodeAll(old')
  {
    w := Next(Next(Next(Start(old'), ReadForRefresh(1, old')), Write(new')), ReadForRefresh(2, new'));
    LastWriterWins(w, 1, 2);
  }
}
