/** `score_match` and `score_match_levenshtein`, over exact reals; scores are held in tenths. */
module Scoring {
  import opened Rounding
  import opened EditDistance
  import opened Names
  import Text

  /** The libraries the scores call: similarities, phonetic codes and case mapping. */
  datatype Engine = Engine(
    lower: char -> string,
    tokenSetRatio: (string, string) -> real,
    jaroWinkler: (string, string) -> real,
    soundex: string -> string,
    metaphone: string -> string,
    phoneticsFail: (string, string) -> bool)

  ghost predicate IsEngine(e: Engine) {
    && Text.IsCaseMap(e.lower)
    && (forall a, b :: 0.0 <= e.tokenSetRatio(a, b) <= 100.0)
    && (forall a, b :: 0.0 <= e.jaroWinkler(a, b) <= 1.0)
  }

  const PERFECT := 1000  // a score of 100, in tenths

  function MaxReal(x: real, y: real): real {
    if x < y then y else x
  }

  /** 1 - distance / longer length. */
  function Similarity(a: string, b: string): real {
    1.0 - Distance(a, b) as real / Max(Max(|a|, |b|), 1) as real
  }

  function PhoneticBonus(e: Engine, a: string, b: string): real {
    if e.phoneticsFail(a, b) then 0.0
    else if e.soundex(a) != "" && e.soundex(b) != "" && e.soundex(a) == e.soundex(b) then 8.0
    else if e.metaphone(a) != "" && e.metaphone(b) != "" && e.metaphone(a) == e.metaphone(b) then 10.0
    else 0.0
  }

  /** The composite score before capping. */
  function Total(e: Engine, a: string, b: string): real {
    MaxReal(MaxReal(e.tokenSetRatio(a, b), e.jaroWinkler(a, b) * 100.0), Similarity(a, b) * 100.0) + PhoneticBonus(e, a, b)
  }

  /** The composite score of two normal forms. */
  function CompositeOf(e: Engine, a: string, b: string): int {
    if a == "" || b == "" then 0 else Tenths(if Total(e, a, b) < 100.0 then Total(e, a, b) else 100.0)
  }

  function LevenshteinOf(a: string, b: string): int {
    if a == "" || b == "" then 0 else Tenths(Similarity(a, b) * 100.0)
  }

  function ScoreMatch(e: Engine, screened: string, listed: string): int {
    CompositeOf(e, Normalized(e.lower, screened), Normalized(e.lower, listed))
  }

  function ScoreMatchLevenshtein(e: Engine, screened: string, listed: string): int {
    LevenshteinOf(Normalized(e.lower, screened), Normalized(e.lower, listed))
  }

  lemma {:induction false} SimilarityInUnitInterval(a: string, b: string)
    ensures 0.0 <= Similarity(a, b) <= 1.0
    ensures Similarity(a, b) == 1.0 <==> a == b
  {
    Bounds(a, b);
    ZeroIffEqual(a, b);
    var d, m := Distance(a, b) as real, Max(Max(|a|, |b|), 1) as real;
    QuotientInUnitInterval(d, m);
  }

  lemma {:induction false} ProductKeepsOrder(x: real, y: real, m: real)
    requires 0.0 < m
    ensures x <= y <==> x * m <= y * m
  {
    if x <= y {
      assert 0.0 <= (y - x) * m;
    } else {
      assert 0.0 < (x - y) * m;
    }
  }

  /** `d / m` compares with a bound as `d` with the bound's multiple. */
  lemma {:induction false} QuotientAtMost(d: real, m: real, bound: real)
    requires 0.0 < m
    ensures d / m <= bound <==> d <= bound * m
  {
    ProductKeepsOrder(d / m, bound, m);
    assert d / m * m == d;
  }

  lemma {:induction false} QuotientInUnitInterval(d: real, m: real)
    requires 0.0 <= d <= m && 0.0 < m
    ensures 0.0 <= d / m <= 1.0 && (d / m == 0.0 <==> d == 0.0)
  {
    QuotientAtMost(d, m, 1.0);
    QuotientAtMost(d, m, 0.0);
    QuotientAtMost(-d, m, 0.0);
    assert -d / m == -(d / m);
  }

  /** Capping and rounding keep order and range. */
  lemma {:induction false} CappedTenths(part: real, total: real)
    requires part <= total && part <= 100.0
    ensures Tenths(part) <= Tenths(if total < 100.0 then total else 100.0) <= PERFECT
    ensures 0.0 <= part ==> 0 <= Tenths(part)
  {
    var capped := if total < 100.0 then total else 100.0;
    RoundingIsMonotone(10.0 * part, 10.0 * capped);
    RoundingIsMonotone(10.0 * capped, 1000.0);
    if 0.0 <= part {
      RoundingIsMonotone(0.0, 10.0 * part);
    }
  }

  lemma {:induction false} TotalCoversSimilarity(e: Engine, a: string, b: string)
    ensures Similarity(a, b) * 100.0 <= Total(e, a, b)
    ensures 0.0 <= Similarity(a, b) * 100.0 <= 100.0
  {
    SimilarityInUnitInterval(a, b);
    assert 0.0 <= PhoneticBonus(e, a, b);
  }

  lemma {:induction false} NormalFormScores(e: Engine, a: string, b: string)
    ensures 0 <= LevenshteinOf(a, b) <= CompositeOf(e, a, b) <= PERFECT
  {
    TotalCoversSimilarity(e, a, b);
    CappedTenths(Similarity(a, b) * 100.0, Total(e, a, b));
  }

  /** Both scores lie in [0, 100], the composite dominates the plain one and the plain one
      is symmetric. */
  lemma {:induction false} CompositeDominatesLevenshtein(e: Engine, x: string, y: string)
    requires IsEngine(e)
    ensures 0 <= ScoreMatchLevenshtein(e, x, y) <= ScoreMatch(e, x, y) <= PERFECT
    ensures ScoreMatchLevenshtein(e, x, y) == ScoreMatchLevenshtein(e, y, x)
  {
    var a, b := Normalized(e.lower, x), Normalized(e.lower, y);
    NormalFormScores(e, a, b);
    Symmetric(a, b);
  }

  /** No score of any engine exceeds 100: the total is capped before rounding. */
  lemma {:induction false} ScoreIsCapped(e: Engine, x: string, y: string)
    ensures ScoreMatch(e, x, y) <= PERFECT
  {
    var total := Total(e, Normalized(e.lower, x), Normalized(e.lower, y));
    CappedTenths(if total < 100.0 then total else 100.0, total);
  }

  /** The plain score is 100 exactly when the normal forms are non-empty and differ by at
      most one edit in 2000 characters: rounding to one decimal hides less than that. */
  lemma {:induction false} LevenshteinIsPerfectIff(e: Engine, x: string, y: string)
    ensures
      var a, b := Normalized(e.lower, x), Normalized(e.lower, y);
      ScoreMatchLevenshtein(e, x, y) == PERFECT <==> a != "" && b != "" && 2000 * Distance(a, b) <= Max(|a|, |b|)
  {
    var a, b := Normalized(e.lower, x), Normalized(e.lower, y);
    if a != "" && b != "" {
      SimilarityInUnitInterval(a, b);
      SimilarityRoundsToPerfectIff(a, b);
    }
  }

  lemma {:induction false} SimilarityRoundsToPerfectIff(a: string, b: string)
    requires a != "" && b != ""
    ensures Tenths(Similarity(a, b) * 100.0) == PERFECT <==> 2000 * Distance(a, b) <= Max(|a|, |b|)
  {
    Bounds(a, b);
    TenthsArePerfectIff(Distance(a, b), Max(|a|, |b|));
  }

  lemma {:induction false} TenthsArePerfectIff(d: nat, m: nat)
    requires d <= m && 0 < m
    ensures Tenths((1.0 - d as real / m as real) * 100.0) == PERFECT <==> 2000 * d <= m
  {
    var q := d as real / m as real;
    QuotientInUnitInterval(d as real, m as real);
    QuotientAtMost(d as real, m as real, 0.0005);
    RoundsToThousandIff(1000.0 - 1000.0 * q);
    assert 10.0 * ((1.0 - q) * 100.0) == 1000.0 - 1000.0 * q;
  }

  lemma {:induction false} RoundsToThousandIff(x: real)
    requires x <= 1000.0
    ensures RoundHalfEven(x) == 1000 <==> 999.5 <= x
  {}

  /** Below 2000 characters a plain score of 100 means the normal forms are equal. */
  lemma {:induction false} LevenshteinIsPerfectIffEqual(e: Engine, x: string, y: string)
    requires |Normalized(e.lower, x)| < 2000 && |Normalized(e.lower, y)| < 2000
    ensures
      ScoreMatchLevenshtein(e, x, y) == PERFECT <==>
        Normalized(e.lower, x) != "" && Normalized(e.lower, x) == Normalized(e.lower, y)
  {
    LevenshteinIsPerfectIff(e, x, y);
    ZeroIffEqual(Normalized(e.lower, x), Normalized(e.lower, y));
  }

  /** At 2000 characters one edit goes unseen, so the bound above is the best possible. */
  lemma {:induction false} OneEditInTwoThousandIsUnseen(e: Engine, stem: string)
    requires IsEngine(e) && |stem| == 1999 && forall i | 0 <= i < |stem| :: 'a' <= stem[i] <= 'z'
    ensures Normalized(e.lower, stem + "a") != Normalized(e.lower, stem + "b")
    ensures ScoreMatchLevenshtein(e, stem + "a", stem + "b") == PERFECT
  {
    var a, b := stem + "a", stem + "b";
    LongWordIsNormal(e.lower, a);
    LongWordIsNormal(e.lower, b);
    LastCharacterChanged(stem, 'a', 'b');
    assert a[1999] != b[1999];
    SimilarityRoundsToPerfectIff(a, b);
  }

  lemma {:induction false} LongWordIsNormal(lower: char -> string, w: string)
    requires Text.IsCaseMap(lower) && 9 < |w| && forall i | 0 <= i < |w| :: 'a' <= w[i] <= 'z'
    ensures Normalized(lower, w) == w
  {
    LongTokenIsCanonical(w);
    assert NormalWords(lower, [w]) by {
      assert Text.IsWord(w) && Text.Lowered(lower, w);
    }
    assert Text.Join([w]) == w;
    NormalFormIsFixed(lower, [w]);
  }

  /** Names with one non-empty normal form score 100, whatever the libraries answer. */
  lemma {:induction false} EqualNormalFormsArePerfect(e: Engine, x: string, y: string)
    requires Normalized(e.lower, x) == Normalized(e.lower, y) != ""
    ensures ScoreMatch(e, x, y) == PERFECT
  {
    var a := Normalized(e.lower, x);
    SimilarityInUnitInterval(a, a);
    RoundingKeepsWhole(1000);
  }

  // ---- What the composite score is ----

  /** The score is the best of the three similarities plus the phonetic bonus, capped and rounded;
      names without a normal form score 0. */
  lemma {:induction false} ScoreIsBestOfThree(e: Engine, x: string, y: string) returns (best: real, bonus: real)
    ensures
      var a, b := Normalized(e.lower, x), Normalized(e.lower, y);
      a != "" && b != "" ==>
        var edit := 100.0 * (1.0 - Distance(a, b) as real / (if |a| < |b| then |b| else |a|) as real);
        && (best == e.tokenSetRatio(a, b) || best == 100.0 * e.jaroWinkler(a, b) || best == edit)
        && e.tokenSetRatio(a, b) <= best && 100.0 * e.jaroWinkler(a, b) <= best && edit <= best
        && bonus == (if e.phoneticsFail(a, b) then 0.0
                     else if e.soundex(a) == e.soundex(b) != "" then 8.0
                     else if e.metaphone(a) == e.metaphone(b) != "" then 10.0 else 0.0)
        && ScoreMatch(e, x, y) == Tenths(if best + bonus < 100.0 then best + bonus else 100.0)
    ensures Normalized(e.lower, x) == "" || Normalized(e.lower, y) == "" ==> ScoreMatch(e, x, y) == 0
  {
    var a, b := Normalized(e.lower, x), Normalized(e.lower, y);
    best := MaxReal(MaxReal(e.tokenSetRatio(a, b), e.jaroWinkler(a, b) * 100.0), Similarity(a, b) * 100.0);
    bonus := PhoneticBonus(e, a, b);
  }

  /** The score is at least what either library says; that it covers the edit similarity is
      `CompositeDominatesLevenshtein`. */
  lemma {:induction false} ScoreCoversSimilarities(e: Engine, x: string, y: string)
    requires IsEngine(e)
    ensures
      var a, b := Normalized(e.lower, x), Normalized(e.lower, y);
      a != "" && b != "" ==>
        && Tenths(e.tokenSetRatio(a, b)) <= ScoreMatch(e, x, y)
        && Tenths(100.0 * e.jaroWinkler(a, b)) <= ScoreMatch(e, x, y)
  {
    var a, b := Normalized(e.lower, x), Normalized(e.lower, y);
    if a != "" && b != "" {
      CompositeCovers(e, a, b);
    }
  }

  lemma {:induction false} CompositeCovers(e: Engine, a: string, b: string)
    requires IsEngine(e) && a != "" && b != ""
    ensures Tenths(e.tokenSetRatio(a, b)) <= CompositeOf(e, a, b)
    ensures Tenths(100.0 * e.jaroWinkler(a, b)) <= CompositeOf(e, a, b)
  {
    TotalCoversSimilarity(e, a, b);
    assert 0.0 <= PhoneticBonus(e, a, b);
    CappedTenths(e.tokenSetRatio(a, b), Total(e, a, b));
    CappedTenths(100.0 * e.jaroWinkler(a, b), Total(e, a, b));
  }

  /** A name with its words in another order scores 100 when the token set ratio says so. */
  lemma {:induction false} ReorderedNameIsPerfect(e: Engine, x: string, y: string)
    requires IsEngine(e)
    requires Normalized(e.lower, x) != "" && Normalized(e.lower, y) != ""
    requires e.tokenSetRatio(Normalized(e.lower, x), Normalized(e.lower, y)) == 100.0
    ensures ScoreMatch(e, x, y) == PERFECT
  {
    ScoreCoversSimilarities(e, x, y);
    ScoreIsCapped(e, x, y);
    RoundingKeepsWhole(1000);
  }

  /** The plain score is the rounded edit similarity. */
  lemma {:induction false} LevenshteinIsRoundedSimilarity(e: Engine, x: string, y: string)
    ensures
      var a, b := Normalized(e.lower, x), Normalized(e.lower, y);
      a != "" && b != "" ==>
        ScoreMatchLevenshtein(e, x, y) ==
        Tenths(100.0 * (1.0 - Distance(a, b) as real / (if |a| < |b| then |b| else |a|) as real))
  {}
}
