/** Name normalisation: lower case, single blanks, one spelling per common Urdu or Arabic name. */
module Names {
  import opened Text

  const ROMANIZATION: map<string, string> := map[
    "muhammad" := "muhammad", "mohammad" := "muhammad", "mohamed" := "muhammad",
    "mohammed" := "muhammad", "muhammed" := "muhammad",
    "ahmad" := "ahmad", "ahmed" := "ahmad",
    "hussain" := "hussain", "husain" := "hussain", "husayn" := "hussain",
    "hassan" := "hassan", "hasan" := "hassan",
    "ali" := "ali", "aley" := "ali", "aaly" := "ali",
    "abdul" := "abdul", "abd" := "abdul",
    "syed" := "syed", "said" := "syed", "sayed" := "syed",
    "karim" := "karim", "kareem" := "karim",
    "rasheed" := "rashid", "rashid" := "rashid",
    "qasim" := "qasim", "kasim" := "qasim",
    "osman" := "usman", "usman" := "usman", "othman" := "usman",
    "khan" := "khan"
  ]

  function Canonical(token: string): string {
    if token in ROMANIZATION then ROMANIZATION[token] else token
  }

  function CanonicalAll(tokens: seq<string>): seq<string> {
    seq(|tokens|, i requires 0 <= i < |tokens| => Canonical(tokens[i]))
  }

  function Romanized(lower: char -> string, text: string): string {
    Join(CanonicalAll(Split(Lower(lower, text))))
  }

  function Normalized(lower: char -> string, name: string): string {
    if name == "" then ""
    else Romanized(lower, Join(Split(Lower(lower, name))))
  }

  method ApplyRomanization(lower: char -> string, text: string) returns (r: string)
    ensures r == Romanized(lower, text)
  {
    var tokens := Split(Lower(lower, text));
    var out: seq<string> := [];
    for i := 0 to |tokens|
      invariant out == CanonicalAll(tokens)[..i]
    {
      out := out + [Canonical(tokens[i])];
    }
    assert out == CanonicalAll(tokens);
    r := Join(out);
  }

  /** The spellings the table maps to. */
  const SPELLINGS: set<string> := {
    "muhammad", "ahmad", "hussain", "hassan", "ali", "abdul", "syed", "karim", "rashid", "qasim", "usman", "khan"
  }

  predicate IsLetters(w: string) {
    w != "" && forall i | 0 <= i < |w| :: 'a' <= w[i] <= 'z'
  }

  lemma {:induction false} TableLeadsToSpellings()
    ensures forall t | t in ROMANIZATION :: ROMANIZATION[t] in SPELLINGS
  {}

  lemma {:induction false} SpellingsStay()
    ensures forall w | w in SPELLINGS :: Canonical(w) == w
  {}

  lemma {:induction false} SpellingsAreLetters()
    ensures forall w | w in SPELLINGS :: IsLetters(w)
  {}

  lemma {:induction false} CanonicalIsCanonical(token: string)
    ensures Canonical(Canonical(token)) == Canonical(token)
    ensures IsWord(token) ==> IsWord(Canonical(token))
  {
    if token in ROMANIZATION {
      TableLeadsToSpellings();
      SpellingsStay();
      SpellingsAreLetters();
    }
  }

  lemma {:induction false} CanonicalIsLowered(lower: char -> string, token: string)
    requires IsCaseMap(lower) && Lowered(lower, token)
    ensures Lowered(lower, Canonical(token))
  {
    if token in ROMANIZATION {
      TableLeadsToSpellings();
      SpellingsAreLetters();
      LettersAreLowered(lower, ROMANIZATION[token]);
    }
  }

  lemma {:induction false} LettersAreLowered(lower: char -> string, w: string)
    requires IsCaseMap(lower) && IsLetters(w)
    ensures Lowered(lower, w)
  {}

  /** Every variant spelling has at most nine letters. */
  lemma {:induction false} LongTokenIsCanonical(token: string)
    requires 9 < |token|
    ensures Canonical(token) == token
  {
    if token in ROMANIZATION {
      TableIsVariants(token);
    }
  }

  /** The words a normal form consists of. */
  ghost predicate NormalWords(lower: char -> string, words: seq<string>) {
    forall w :: w in words ==> IsWord(w) && Lowered(lower, w) && Canonical(w) == w
  }

  /** The lower-case words of a name, in canonical spelling. */
  function NameWords(lower: char -> string, name: string): seq<string> {
    CanonicalAll(Split(Lower(lower, name)))
  }

  /** A normal form is the name's lowered canonical words, joined by single blanks. */
  lemma {:induction false} NormalizedIsNormal(lower: char -> string, name: string)
    requires IsCaseMap(lower)
    ensures NormalWords(lower, NameWords(lower, name))
    ensures Split(Normalized(lower, name)) == NameWords(lower, name)
    ensures Normalized(lower, name) == Join(NameWords(lower, name)) && IsSingleSpaced(Normalized(lower, name))
  {
    if name != "" {
      var words := Split(Lower(lower, name));
      LowerIsLowered(lower, name);
      SplitAfterGivesWords(lower, "", Lower(lower, name));
      JoinIsLowered(lower, words);
      LowerFixesLowered(lower, Join(words));
      SplitOfJoin(words);
      var canonical := CanonicalAll(words);
      forall w | w in canonical
        ensures IsWord(w) && Lowered(lower, w) && Canonical(w) == w
      {
        var i :| 0 <= i < |words| && w == Canonical(words[i]);
        assert words[i] in words;
        CanonicalIsCanonical(words[i]);
        CanonicalIsLowered(lower, words[i]);
      }
      SplitOfJoin(canonical);
      JoinIsSingleSpaced(canonical);
    }
  }

  lemma {:induction false} NormalFormIsFixed(lower: char -> string, words: seq<string>)
    requires IsCaseMap(lower) && NormalWords(lower, words)
    ensures Normalized(lower, Join(words)) == Join(words)
  {
    if Join(words) != "" {
      JoinIsLowered(lower, words);
      LowerFixesLowered(lower, Join(words));
      SplitOfJoin(words);
      assert forall i | 0 <= i < |words| :: words[i] in words;
      assert CanonicalAll(words) == words;
    }
  }

  lemma {:induction false} NormalizationIsIdempotent(lower: char -> string, name: string)
    requires IsCaseMap(lower)
    ensures Normalized(lower, Normalized(lower, name)) == Normalized(lower, name)
  {
    NormalizedIsNormal(lower, name);
    NormalFormIsFixed(lower, Split(Normalized(lower, name)));
  }

  /** Two names share a normal form exactly when their words agree up to letter case,
      spacing and the romanization variants. */
  lemma {:induction false} SameNormalFormIff(lower: char -> string, a: string, b: string)
    requires IsCaseMap(lower)
    ensures Normalized(lower, a) == Normalized(lower, b) <==> NameWords(lower, a) == NameWords(lower, b)
  {
    NormalizedIsNormal(lower, a);
    NormalizedIsNormal(lower, b);
  }

  // ---- The variant spellings, by the name they stand for ----

  function VariantsOf(name: string): set<string> {
    if name == "muhammad" then {"muhammad", "mohammad", "mohamed", "mohammed", "muhammed"}
    else if name == "ahmad" then {"ahmad", "ahmed"}
    else if name == "hussain" then {"hussain", "husain", "husayn"}
    else if name == "hassan" then {"hassan", "hasan"}
    else if name == "ali" then {"ali", "aley", "aaly"}
    else if name == "abdul" then {"abdul", "abd"}
    else if name == "syed" then {"syed", "said", "sayed"}
    else if name == "karim" then {"karim", "kareem"}
    else if name == "rashid" then {"rasheed", "rashid"}
    else if name == "qasim" then {"qasim", "kasim"}
    else if name == "usman" then {"osman", "usman", "othman"}
    else if name == "khan" then {"khan"}
    else {}
  }

  lemma {:induction false} MuhammadIsSpelled(token: string)
    requires token in VariantsOf("muhammad")
    ensures Canonical(token) == "muhammad"
  {
    assert token in ROMANIZATION;
  }

  lemma {:induction false} LongVariantsAreSpelled(name: string, token: string)
    requires (name == "hussain" || name == "hassan") && token in VariantsOf(name)
    ensures Canonical(token) == name
  {}

  lemma {:induction false} MediumVariantsAreSpelled(name: string, token: string)
    requires (name == "ahmad" || name == "abdul" || name == "karim" || name == "rashid") && token in VariantsOf(name)
    ensures Canonical(token) == name
  {}

  lemma {:induction false} ShortVariantsAreSpelled(name: string, token: string)
    requires (name == "ali" || name == "syed" || name == "qasim" || name == "usman" || name == "khan") && token in VariantsOf(name)
    ensures Canonical(token) == name
  {}

  lemma {:induction false} VariantsAreSpelled(name: string, token: string)
    requires token in VariantsOf(name)
    ensures Canonical(token) == name
  {
    if name == "muhammad" {
      MuhammadIsSpelled(token);
    } else if name == "hussain" || name == "hassan" {
      LongVariantsAreSpelled(name, token);
    } else if name == "ahmad" || name == "abdul" || name == "karim" || name == "rashid" {
      MediumVariantsAreSpelled(name, token);
    } else {
      ShortVariantsAreSpelled(name, token);
    }
  }

  lemma {:induction false} TableIsVariants(token: string)
    requires token in ROMANIZATION
    ensures token in VariantsOf(ROMANIZATION[token])
  {}

  /** A word is rewritten to a name exactly when it is one of the name's variants; all others stay. */
  lemma {:induction false} CanonicalIffVariant(name: string, token: string)
    ensures Canonical(token) == name <==> token in VariantsOf(name) || (token == name && forall n :: token !in VariantsOf(n))
  {
    if token in ROMANIZATION {
      TableIsVariants(token);
    }
    forall n | token in VariantsOf(n)
      ensures Canonical(token) == n
    {
      VariantsAreSpelled(n, token);
    }
  }
}
