/** Screening results and the alerts raised for them. */
module Screenings {
  import opened Common
  import opened FindMatches
  import opened ScreeningLaws
  import opened Scoring
  import Text

  /** What a worker screens with: `find_matches` on the watchlist it loaded, as a function of
      the name, and the severity rule. */
  datatype Screener = Screener(find: string -> seq<Match>, severity: seq<Match> -> Severity)

  datatype Subject = Subject(name: string, dob: Option<string>, idNumber: Option<string>)

  datatype Result = Result(id: nat, tenant: nat, subject: Subject, matches: seq<Match>, potentialMatch: bool)

  datatype Severity = Low | Medium | High | Critical

  datatype Alert = Alert(tenant: nat, sourceId: nat, severity: Severity)

  /** The result of screening a subject; its primary key is its place in the table. */
  function ResultFor(s: Screener, id: nat, tenant: nat, subject: Subject): Result {
    var matches := s.find(subject.name);
    Result(id, tenant, subject, matches, matches != [])
  }

  /** The results of screening the first n subjects, in order. */
  function FirstResults(s: Screener, tenant: nat, subjects: seq<Subject>, n: nat): seq<Result>
    requires n <= |subjects|
  {
    if n == 0 then []
    else FirstResults(s, tenant, subjects, n - 1) + [ResultFor(s, n - 1, tenant, subjects[n - 1])]
  }

  lemma {:induction false} FirstResultsAt(s: Screener, tenant: nat, subjects: seq<Subject>, n: nat)
    requires n <= |subjects|
    ensures |FirstResults(s, tenant, subjects, n)| == n
    ensures forall i | 0 <= i < n :: FirstResults(s, tenant, subjects, n)[i] == ResultFor(s, i, tenant, subjects[i])
  {
    if n == 0 {
    } else {
      FirstResultsAt(s, tenant, subjects, n - 1);
    }
  }

  function AlertsOf(s: Screener, r: Result): seq<Alert> {
    if r.matches == [] then [] else [Alert(r.tenant, r.id, s.severity(r.matches))]
  }

  /** One alert per result with matches among the first n, in order. */
  function FirstAlerts(s: Screener, results: seq<Result>, n: nat): seq<Alert>
    requires n <= |results|
  {
    if n == 0 then [] else FirstAlerts(s, results, n - 1) + AlertsOf(s, results[n - 1])
  }

  function AlertsFor(s: Screener, results: seq<Result>): seq<Alert> {
    FirstAlerts(s, results, |results|)
  }

  predicate HasAlert(alerts: seq<Alert>, tenant: nat, sourceId: nat) {
    exists i | 0 <= i < |alerts| :: alerts[i].tenant == tenant && alerts[i].sourceId == sourceId
  }

  /** Only an alert of the same tenant and source stands in the way of another. */
  lemma {:induction false} HasAlertIff(alerts: seq<Alert>, tenant: nat, sourceId: nat)
    ensures HasAlert(alerts, tenant, sourceId) <==> exists severity :: Alert(tenant, sourceId, severity) in alerts
  {
    if severity :| Alert(tenant, sourceId, severity) in alerts {
      var i :| 0 <= i < |alerts| && alerts[i] == Alert(tenant, sourceId, severity);
    }
    if HasAlert(alerts, tenant, sourceId) {
      var i :| 0 <= i < |alerts| && alerts[i].tenant == tenant && alerts[i].sourceId == sourceId;
      assert Alert(tenant, sourceId, alerts[i].severity) in alerts;
    }
  }

  predicate IdsArePlaces(results: seq<Result>) {
    forall i | 0 <= i < |results| :: results[i].id == i
  }

  lemma {:induction false} FirstAlertsIgnoreRest(s: Screener, results: seq<Result>, r: Result, n: nat)
    requires n <= |results|
    ensures FirstAlerts(s, results + [r], n) == FirstAlerts(s, results, n)
  {
    if n == 0 {
    } else {
      FirstAlertsIgnoreRest(s, results, r, n - 1);
    }
  }

  /** The alert rows after a result has been added. */
  lemma {:induction false} AlertsForAppend(s: Screener, results: seq<Result>, r: Result)
    ensures AlertsFor(s, results + [r]) == AlertsFor(s, results) + AlertsOf(s, r)
  {
    FirstAlertsIgnoreRest(s, results, r, |results|);
  }

  ghost predicate AlertIdsBelow(alerts: seq<Alert>, bound: nat) {
    && (forall a | 0 <= a < |alerts| :: alerts[a].sourceId < bound)
    && (forall a, b | 0 <= a < b < |alerts| :: alerts[a].sourceId < alerts[b].sourceId)
  }

  /** Alerts stand in the order of their results, so no result has two. */
  lemma {:induction false} AlertIdsRise(s: Screener, results: seq<Result>, n: nat)
    requires IdsArePlaces(results) && n <= |results|
    ensures AlertIdsBelow(FirstAlerts(s, results, n), n)
  {
    if n == 0 {
    } else {
      AlertIdsRise(s, results, n - 1);
    }
  }

  /** A result has an alert exactly when it has matches. */
  lemma {:induction false} AlertedIffMatched(s: Screener, results: seq<Result>, n: nat, i: nat)
    requires IdsArePlaces(results) && i < n <= |results|
    ensures HasAlert(FirstAlerts(s, results, n), results[i].tenant, i) <==> results[i].matches != []
  {
    var before, alerts := FirstAlerts(s, results, n - 1), FirstAlerts(s, results, n);
    AlertIdsRise(s, results, n - 1);
    assert forall a | 0 <= a < |before| :: alerts[a] == before[a];
    if i < n - 1 {
      AlertedIffMatched(s, results, n - 1, i);
    } else {
      assert results[i].matches != [] ==> alerts[|before|].sourceId == i;
    }
  }

  /** An alert carries its result's id and tenant and the severity of its result's matches. */
  lemma {:induction false} AlertIsOfResult(s: Screener, results: seq<Result>, n: nat, a: Alert)
    requires IdsArePlaces(results) && n <= |results|
    requires a in FirstAlerts(s, results, n)
    ensures a.sourceId < n && results[a.sourceId].matches != []
    ensures a.tenant == results[a.sourceId].tenant && a.severity == s.severity(results[a.sourceId].matches)
  {
    var last := AlertsOf(s, results[n - 1]);
    assert a in FirstAlerts(s, results, n - 1) || a in last;
    if a in FirstAlerts(s, results, n - 1) {
      AlertIsOfResult(s, results, n - 1, a);
    }
  }

  lemma {:induction false} NoAlertForNextId(s: Screener, results: seq<Result>, tenant: nat)
    requires IdsArePlaces(results)
    ensures !HasAlert(AlertsFor(s, results), tenant, |results|)
  {
    AlertIdsRise(s, results, |results|);
  }

  /** `find` answers with the screening of each name against the loaded watchlist. */
  ghost predicate FindsMatches(s: Screener, engine: Engine, threshold: real, rows: seq<Row>) {
    forall name :: IsScreening(Candidates(Query(engine, name, threshold, true), rows), threshold, s.find(name))
  }

  /** There is only one such function: any right answer to a name is the one `find` gives. */
  lemma {:induction false} FindIsDetermined(s: Screener, engine: Engine, threshold: real, rows: seq<Row>, name: string, matches: seq<Match>)
    requires FindsMatches(s, engine, threshold, rows)
    requires IsScreening(Candidates(Query(engine, name, threshold, true), rows), threshold, matches)
    ensures matches == s.find(name)
  {
    ScreeningIsUnique(Candidates(Query(engine, name, threshold, true), rows), threshold, matches, s.find(name));
  }

  /** For every loaded watchlist there is one. */
  lemma {:induction false} ScreenerExists(engine: Engine, threshold: real, rows: seq<Row>, severity: seq<Match> -> Severity) returns (s: Screener)
    ensures FindsMatches(s, engine, threshold, rows) && s.severity == severity
  {
    forall name
      ensures exists ms :: IsScreening(Candidates(Query(engine, name, threshold, true), rows), threshold, ms)
    {
      var ms := ScreeningExists(Candidates(Query(engine, name, threshold, true), rows), threshold);
    }
    var find := name => var ms :| IsScreening(Candidates(Query(engine, name, threshold, true), rows), threshold, ms); ms;
    s := Screener(find, severity);
  }

  /** The result's matches are the screening of its subject against the loaded watchlist. */
  ghost predicate IsScreeningOf(r: Result, engine: Engine, threshold: real, rows: seq<Row>) {
    && IsScreening(Candidates(Query(engine, r.subject.name, threshold, true), rows), threshold, r.matches)
    && (r.potentialMatch <==> r.matches != [])
  }

  // ---- Severity ----

  predicate IsSanctions(lower: char -> string, m: Match) {
    Text.Lower(lower, m.source) in {"un", "ofac", "eu", "nacta"}
  }

  function Band(score: int): nat {
    if score >= 900 then 2 else if score >= 800 then 1 else 0
  }

  /** `severity_from_screening_match`: decided by the first match. */
  function SeverityOf(lower: char -> string, matches: seq<Match>): Severity {
    if matches == [] || matches[0].score <= 0 then Low
    else if IsSanctions(lower, matches[0]) then
      if matches[0].score >= 900 then Critical else if matches[0].score >= 800 then High else Medium
    else if matches[0].score >= 900 then High else if matches[0].score >= 800 then Medium else Low
  }

  function Level(s: Severity): nat {
    match s case Low => 0 case Medium => 1 case High => 2 case Critical => 3
  }

  /** In a result ordered by score the severity covers every match exactly when the first comes
      from a sanctions list or no sanctions match shares its score band. */
  lemma {:induction false} SeverityCoversAllIff(lower: char -> string, rank: string -> nat, matches: seq<Match>)
    requires matches != [] && Ordered(rank, matches) && forall k | 0 <= k < |matches| :: 0 < matches[k].score
    ensures
      (forall k | 0 <= k < |matches| :: Level(SeverityOf(lower, [matches[k]])) <= Level(SeverityOf(lower, matches))) <==>
      IsSanctions(lower, matches[0]) ||
      forall k | 0 <= k < |matches| && IsSanctions(lower, matches[k]) :: Band(matches[k].score) < Band(matches[0].score)
  {
    forall k | 0 <= k < |matches|
      ensures Band(matches[k].score) <= Band(matches[0].score)
      ensures Level(SeverityOf(lower, [matches[k]])) ==
              Band(matches[k].score) + if IsSanctions(lower, matches[k]) then 1 else 0
    {
      assert 0 < k ==> Precedes(rank, matches[0], matches[k]);
    }
    assert Level(SeverityOf(lower, matches)) == Level(SeverityOf(lower, [matches[0]]));
  }

  lemma {:induction false} SourcesAreLowered(lower: char -> string)
    requires Text.IsCaseMap(lower)
    ensures Text.Lower(lower, "pep") == "pep" && Text.Lower(lower, "ofac") == "ofac"
  {
    Text.LowerFixesLowered(lower, "pep");
    Text.LowerFixesLowered(lower, "ofac");
  }

  /** A politically exposed person scoring 95 hides a listed one scoring 94. */
  lemma {:induction false} SanctionsMatchIsHidden(lower: char -> string, rank: string -> nat)
    requires Text.IsCaseMap(lower)
    ensures
      var first, second := Match("a", 950, "pep", PrimaryName), Match("b", 940, "ofac", PrimaryName);
      && Ordered(rank, [first, second])
      && SeverityOf(lower, [first, second]) == High && SeverityOf(lower, [second]) == Critical
  {
    SourcesAreLowered(lower);
    assert !IsSanctions(lower, Match("a", 950, "pep", PrimaryName)) && IsSanctions(lower, Match("b", 940, "ofac", PrimaryName));
  }

  /** The severity of the first match, level by level, from its list and its score in tenths. */
  lemma {:induction false} SeverityIff(lower: char -> string, matches: seq<Match>)
    ensures
      var severity := SeverityOf(lower, matches);
      if matches == [] || matches[0].score <= 0 then severity == Low
      else
        var source, score := Text.Lower(lower, matches[0].source), matches[0].score;
        var listed := source == "un" || source == "ofac" || source == "eu" || source == "nacta";
        && (severity == Critical <==> listed && 900 <= score)
        && (severity == High <==> if listed then 800 <= score < 900 else 900 <= score)
        && (severity == Medium <==> if listed then score < 800 else 800 <= score < 900)
        && (severity == Low <==> !listed && score < 800)
  {}
}
