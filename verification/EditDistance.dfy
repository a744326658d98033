/** The textbook Levenshtein distance, the meaning of `Levenshtein.distance`, against an
    independent reading: the least cost of an alignment of the two strings. */
module EditDistance {
  function Min(x: nat, y: nat): nat {
    if x <= y then x else y
  }

  function Max(x: nat, y: nat): nat {
    if x <= y then y else x
  }

  function Distance(a: string, b: string): nat
    decreases |a| + |b|
  {
    if a == "" then |b|
    else if b == "" then |a|
    else
      var replace := Distance(a[1..], b[1..]) + if a[0] == b[0] then 0 else 1;
      Min(replace, Min(Distance(a[1..], b), Distance(a, b[1..])) + 1)
  }

  datatype Edit = Keep(c: char) | Replace(from: char, to: char) | Delete(c: char) | Insert(c: char)

  function Removed(e: Edit): string {
    match e
    case Keep(c) => [c]
    case Replace(c, _) => [c]
    case Delete(c) => [c]
    case Insert(_) => ""
  }

  function Added(e: Edit): string {
    match e
    case Keep(c) => [c]
    case Replace(_, c) => [c]
    case Delete(_) => ""
    case Insert(c) => [c]
  }

  function Source(script: seq<Edit>): string {
    if script == [] then "" else Removed(script[0]) + Source(script[1..])
  }

  function Target(script: seq<Edit>): string {
    if script == [] then "" else Added(script[0]) + Target(script[1..])
  }

  function Cost(script: seq<Edit>): nat {
    if script == [] then 0 else (if script[0].Keep? then 0 else 1) + Cost(script[1..])
  }

  /** No edit script is cheaper than the distance. */
  lemma {:induction false} ScriptCostsAtLeastDistance(script: seq<Edit>)
    ensures Distance(Source(script), Target(script)) <= Cost(script)
  {
    if script == [] {
    } else {
      var rest := script[1..];
      ScriptCostsAtLeastDistance(rest);
      var a, b := Source(rest), Target(rest);
      match script[0]
      case Keep(c) => assert ([c] + a)[1..] == a && ([c] + b)[1..] == b;
      case Replace(c, d) => assert ([c] + a)[1..] == a && ([d] + b)[1..] == b;
      case Delete(c) =>
        assert ([c] + a)[1..] == a && "" + b == b;
        DeletionStep(c, a, b);
      case Insert(c) =>
        assert ([c] + b)[1..] == b && "" + a == a;
        Symmetric(a, [c] + b);
        DeletionStep(c, b, a);
        Symmetric(a, b);
    }
  }

  lemma {:induction false} DeletionStep(c: char, a: string, b: string)
    ensures Distance([c] + a, b) <= Distance(a, b) + 1
  {
    assert ([c] + a)[1..] == a;
    if b == "" {
      Bounds(a, b);
    }
  }

  lemma {:induction false} EditFirst(e: Edit, script: seq<Edit>)
    ensures Source([e] + script) == Removed(e) + Source(script) && Target([e] + script) == Added(e) + Target(script)
    ensures Cost([e] + script) == Cost(script) + if e.Keep? then 0 else 1
  {
    assert ([e] + script)[1..] == script;
  }

  lemma {:induction false} EditsOn(e: Edit, rest: seq<Edit>, a: string, b: string)
    requires Removed(e) <= a && Source(rest) == a[|Removed(e)|..]
    requires Added(e) <= b && Target(rest) == b[|Added(e)|..]
    ensures Source([e] + rest) == a && Target([e] + rest) == b
    ensures Cost([e] + rest) == Cost(rest) + if e.Keep? then 0 else 1
  {
    EditFirst(e, rest);
    assert a == Removed(e) + a[|Removed(e)|..] && b == Added(e) + b[|Added(e)|..];
  }

  /** The first edit of a cheapest script. */
  lemma {:induction false} FirstEdit(a: string, b: string) returns (e: Edit)
    requires a != "" || b != ""
    ensures Removed(e) <= a && Added(e) <= b && 0 < |Removed(e)| + |Added(e)|
    ensures Distance(a, b) == Distance(a[|Removed(e)|..], b[|Added(e)|..]) + if e.Keep? then 0 else 1
  {
    if a == "" || (b != "" && Distance(a, b) == Distance(a, b[1..]) + 1) {
      e := Insert(b[0]);
    } else if b == "" || Distance(a, b) == Distance(a[1..], b) + 1 {
      e := Delete(a[0]);
    } else {
      e := if a[0] == b[0] then Keep(a[0]) else Replace(a[0], b[0]);
    }
  }

  /** Some edit script costs exactly the distance. */
  lemma {:induction false} CheapestScript(a: string, b: string) returns (script: seq<Edit>)
    ensures Source(script) == a && Target(script) == b && Cost(script) == Distance(a, b)
    decreases |a| + |b|
  {
    if a == "" && b == "" {
      script := [];
    } else {
      var e := FirstEdit(a, b);
      var rest := CheapestScript(a[|Removed(e)|..], b[|Added(e)|..]);
      EditsOn(e, rest, a, b);
      script := [e] + rest;
    }
  }

  lemma {:induction false} Symmetric(a: string, b: string)
    ensures Distance(a, b) == Distance(b, a)
    decreases |a| + |b|
  {
    if a == "" || b == "" {
    } else {
      Symmetric(a[1..], b[1..]);
      Symmetric(a[1..], b);
      Symmetric(a, b[1..]);
    }
  }

  lemma {:induction false} Bounds(a: string, b: string)
    ensures Distance(a, b) <= Max(|a|, |b|)
    ensures |a| - |b| <= Distance(a, b) && |b| - |a| <= Distance(a, b)
    decreases |a| + |b|
  {
    if a == "" || b == "" {
    } else {
      Bounds(a[1..], b[1..]);
      Bounds(a[1..], b);
      Bounds(a, b[1..]);
    }
  }

  lemma {:induction false} ZeroIffEqual(a: string, b: string)
    ensures Distance(a, b) == 0 <==> a == b
    decreases |a| + |b|
  {
    if a == "" || b == "" {
    } else {
      ZeroIffEqual(a[1..], b[1..]);
      assert a == [a[0]] + a[1..] && b == [b[0]] + b[1..];
    }
  }

  /** Changing the last character costs one. */
  lemma {:induction false} LastCharacterChanged(s: string, c: char, d: char)
    requires c != d
    ensures Distance(s + [c], s + [d]) == 1
  {
    ZeroIffEqual(s + [c], s + [d]);
    assert (s + [c])[|s|] == c && (s + [d])[|s|] == d;
    if s != "" {
      LastCharacterChanged(s[1..], c, d);
      assert (s + [c])[1..] == s[1..] + [c] && (s + [d])[1..] == s[1..] + [d];
    } else {
      assert (s + [c])[1..] == "" && (s + [d])[1..] == "";
    }
  }
}
