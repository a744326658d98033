/** Strings as Python's `str.lower`, `str.split()` and `" ".join` see them. */
module Text {

  /** The code points `str.split()` without arguments separates at. */
  predicate IsSpace(c: char) {
    || '\U{0009}' <= c <= '\U{000D}'
    || '\U{001C}' <= c <= '\U{0020}'
    || c == '\U{0085}' || c == '\U{00A0}' || c == '\U{1680}'
    || '\U{2000}' <= c <= '\U{200A}'
    || c == '\U{2028}' || c == '\U{2029}' || c == '\U{202F}' || c == '\U{205F}' || c == '\U{3000}'
  }

  predicate IsWord(w: string) {
    w != "" && forall i | 0 <= i < |w| :: !IsSpace(w[i])
  }

  /** `s.split()` when `word` has been read just before `s`. */
  function SplitAfter(word: string, s: string): seq<string>
    decreases |s|
  {
    var done := if word == "" then [] else [word];
    if s == "" then done
    else if IsSpace(s[0]) then done + SplitAfter("", s[1..])
    else SplitAfter(word + [s[0]], s[1..])
  }

  function Split(s: string): seq<string> {
    SplitAfter("", s)
  }

  /** `" ".join(words)`. */
  function Join(words: seq<string>): string {
    if words == [] then ""
    else if |words| == 1 then words[0]
    else words[0] + " " + Join(words[1..])
  }

  function StripLeft(s: string): string {
    if s == "" || !IsSpace(s[0]) then s else StripLeft(s[1..])
  }

  function StripRight(s: string): string {
    if s == "" || !IsSpace(s[|s| - 1]) then s else StripRight(s[..|s| - 1])
  }

  /** `s.strip()`. */
  function Strip(s: string): string {
    StripRight(StripLeft(s))
  }

  /** A full case mapping works code point by code point and may lengthen the text. */
  function Lower(lower: char -> string, s: string): string {
    if s == "" then "" else lower(s[0]) + Lower(lower, s[1..])
  }

  /** What normalisation needs of `str.lower`: it leaves its own output alone and it
      keeps the letters a to z and the blank. */
  ghost predicate IsCaseMap(lower: char -> string) {
    && (forall c: char, i :: 0 <= i < |lower(c)| ==> lower(lower(c)[i]) == [lower(c)[i]])
    && (forall c: char | 'a' <= c <= 'z' || c == ' ' :: lower(c) == [c])
  }

  ghost predicate Lowered(lower: char -> string, s: string) {
    forall i | 0 <= i < |s| :: lower(s[i]) == [s[i]]
  }

  lemma {:induction false} LowerIsLowered(lower: char -> string, s: string)
    requires IsCaseMap(lower)
    ensures Lowered(lower, Lower(lower, s))
  {
    if s == "" {
    } else {
      LowerIsLowered(lower, s[1..]);
    }
  }

  lemma {:induction false} LowerFixesLowered(lower: char -> string, s: string)
    requires Lowered(lower, s)
    ensures Lower(lower, s) == s
  {
    if s == "" {
    } else {
      assert lower(s[0]) == [s[0]];
      LowerFixesLowered(lower, s[1..]);
    }
  }

  lemma {:induction false} SplitAfterGivesWords(lower: char -> string, word: string, s: string)
    requires word == "" || IsWord(word)
    requires Lowered(lower, word) && Lowered(lower, s)
    ensures forall w :: w in SplitAfter(word, s) ==> IsWord(w) && Lowered(lower, w)
    decreases |s|
  {
    if s == "" {
    } else {
      if IsSpace(s[0]) {
        SplitAfterGivesWords(lower, "", s[1..]);
      } else {
        SplitAfterGivesWords(lower, word + [s[0]], s[1..]);
      }
    }
  }

  lemma {:induction false} SplitAfterReadsWord(word: string, w: string, rest: string)
    requires forall i | 0 <= i < |w| :: !IsSpace(w[i])
    ensures SplitAfter(word, w + rest) == SplitAfter(word + w, rest)
    decreases |w|
  {
    if w == "" {
      assert w + rest == rest && word + w == word;
    } else {
      assert (w + rest)[0] == w[0] && (w + rest)[1..] == w[1..] + rest;
      SplitAfterReadsWord(word + [w[0]], w[1..], rest);
      assert word + [w[0]] + w[1..] == word + w;
    }
  }

  /** Splitting undoes joining. */
  lemma {:induction false} SplitOfJoin(words: seq<string>)
    requires forall w :: w in words ==> IsWord(w)
    ensures Split(Join(words)) == words
  {
    if words == [] {
    } else {
      var w, tail := words[0], if |words| == 1 then "" else " " + Join(words[1..]);
      assert w in words && Join(words) == w + tail;
      SplitAfterReadsWord("", w, tail);
      assert "" + w == w;
      if |words| == 1 {
        assert w + tail == w && words == [w];
      } else {
        assert tail[0] == ' ' && tail[1..] == Join(words[1..]);
        SplitOfJoin(words[1..]);
        assert words == [w] + words[1..];
      }
    }
  }

  lemma {:induction false} JoinIsLowered(lower: char -> string, words: seq<string>)
    requires IsCaseMap(lower)
    requires forall w :: w in words ==> Lowered(lower, w)
    ensures Lowered(lower, Join(words))
  {
    if words == [] {
    } else {
      assert words[0] in words && lower(' ') == [' '];
      JoinIsLowered(lower, words[1..]);
    }
  }

  // ---- What splitting and stripping do, read off the text ----

  /** The white space of `str.split`, listed. */
  const SPACES: set<char> := {
    '\U{0009}', '\U{000A}', '\U{000B}', '\U{000C}', '\U{000D}', '\U{001C}', '\U{001D}', '\U{001E}', '\U{001F}', ' ',
    '\U{0085}', '\U{00A0}', '\U{1680}', '\U{2000}', '\U{2001}', '\U{2002}', '\U{2003}', '\U{2004}', '\U{2005}',
    '\U{2006}', '\U{2007}', '\U{2008}', '\U{2009}', '\U{200A}', '\U{2028}', '\U{2029}', '\U{202F}', '\U{205F}', '\U{3000}'
  }

  lemma {:induction false} SpacesAreThese(c: char)
    ensures IsSpace(c) <==> c in SPACES
  {}

  /** A word, white space, and the rest: the word comes off. */
  lemma {:induction false} SplitTakesWord(w: string, c: char, rest: string)
    requires IsWord(w) && c in SPACES
    ensures Split(w + [c] + rest) == [w] + Split(rest)
    ensures Split([c] + rest) == Split(rest)
  {
    SpacesAreThese(c);
    SplitAfterReadsWord("", w, [c] + rest);
    assert w + [c] + rest == w + ([c] + rest) && "" + w == w;
    assert ([c] + rest)[1..] == rest;
  }

  lemma {:induction false} StripLeftDropsSpaces(left: string, s: string)
    requires forall i | 0 <= i < |left| :: left[i] in SPACES
    requires s == "" || s[0] !in SPACES
    ensures StripLeft(left + s) == s
  {
    if left == "" {
      assert left + s == s;
    } else {
      SpacesAreThese(left[0]);
      assert (left + s)[1..] == left[1..] + s;
      StripLeftDropsSpaces(left[1..], s);
    }
    if s != "" {
      SpacesAreThese(s[0]);
    }
  }

  lemma {:induction false} StripRightDropsSpaces(s: string, right: string)
    requires forall i | 0 <= i < |right| :: right[i] in SPACES
    requires s == "" || s[|s| - 1] !in SPACES
    ensures StripRight(s + right) == s
  {
    if right == "" {
      assert s + right == s;
    } else {
      var n := |right| - 1;
      SpacesAreThese(right[n]);
      assert (s + right)[..|s + right| - 1] == s + right[..n];
      StripRightDropsSpaces(s, right[..n]);
    }
    if s != "" {
      SpacesAreThese(s[|s| - 1]);
    }
  }

  /** Stripping takes the white space off both ends and nothing else. */
  lemma {:induction false} StripDropsEnds(left: string, s: string, right: string)
    requires forall i | 0 <= i < |left| :: left[i] in SPACES
    requires forall i | 0 <= i < |right| :: right[i] in SPACES
    requires s != "" ==> s[0] !in SPACES && s[|s| - 1] !in SPACES
    ensures Strip(left + s + right) == s
  {
    if s == "" {
      StripLeftDropsSpaces(left + right, "");
      assert left + s + right == left + right + "";
    } else {
      StripLeftDropsSpaces(left, s + right);
      assert left + s + right == left + (s + right);
      StripRightDropsSpaces(s, right);
    }
  }

  lemma {:induction false} StripLeftEnds(s: string)
    ensures StripLeft(s) == "" || !IsSpace(StripLeft(s)[0])
    ensures forall c | c in StripLeft(s) :: c in s
  {
    if s == "" || !IsSpace(s[0]) {
    } else {
      StripLeftEnds(s[1..]);
    }
  }

  lemma {:induction false} StripRightEnds(s: string)
    ensures StripRight(s) <= s
    ensures StripRight(s) == "" || !IsSpace(StripRight(s)[|StripRight(s)| - 1])
  {
    if s == "" || !IsSpace(s[|s| - 1]) {
    } else {
      StripRightEnds(s[..|s| - 1]);
    }
  }

  /** Stripped text has no white space at its ends, is part of the text, and stays under stripping. */
  lemma {:induction false} StrippedIsNormal(s: string)
    ensures Strip(s) != "" ==> !IsSpace(Strip(s)[0]) && !IsSpace(Strip(s)[|Strip(s)| - 1])
    ensures forall c | c in Strip(s) :: c in s
    ensures Strip(Strip(s)) == Strip(s)
  {
    StripLeftEnds(s);
    StripRightEnds(StripLeft(s));
  }

  /** Every white space in joined words is one blank between two of them. */
  predicate IsSingleSpaced(s: string) {
    forall i | 0 <= i < |s| && IsSpace(s[i]) :: s[i] == ' ' && 0 < i < |s| - 1 && !IsSpace(s[i - 1]) && !IsSpace(s[i + 1])
  }

  lemma {:induction false} JoinIsSingleSpaced(words: seq<string>)
    requires forall w :: w in words ==> IsWord(w)
    ensures IsSingleSpaced(Join(words))
    ensures words != [] ==> Join(words) != "" && !IsSpace(Join(words)[0])
  {
    if words == [] {
    } else {
      assert IsWord(words[0]);
      if |words| > 1 {
        JoinIsSingleSpaced(words[1..]);
        WordBefore(words[0], Join(words[1..]));
      }
    }
  }

  lemma {:induction false} WordBefore(w: string, s: string)
    requires IsWord(w) && IsSingleSpaced(s) && s != "" && !IsSpace(s[0])
    ensures IsSingleSpaced(w + " " + s)
  {
    var all, n := w + " " + s, |w|;
    assert all[n] == ' ' && all[n - 1] == w[n - 1] && all[n + 1] == s[0];
    assert forall i | n < i < |all| :: all[i] == s[i - n - 1];
  }
}
