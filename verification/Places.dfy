/** The places of the elements a list is filtered down to. */
module Places {
  function PlacesOf<T>(xs: seq<T>, keep: T -> bool): seq<nat> {
    if xs == [] then []
    else PlacesOf(xs[..|xs| - 1], keep) + if keep(xs[|xs| - 1]) then [|xs| - 1] else []
  }

  /** They rise, and are exactly those of the elements kept. */
  lemma {:induction false} PlacesAre<T>(xs: seq<T>, keep: T -> bool)
    ensures forall i: nat :: i in PlacesOf(xs, keep) <==> i < |xs| && keep(xs[i])
    ensures forall k | 0 <= k < |PlacesOf(xs, keep)| :: PlacesOf(xs, keep)[k] < |xs| && keep(xs[PlacesOf(xs, keep)[k]])
    ensures forall k, l | 0 <= k < l < |PlacesOf(xs, keep)| :: PlacesOf(xs, keep)[k] < PlacesOf(xs, keep)[l]
  {
    if xs == [] {
    } else {
      var n := |xs| - 1;
      PlacesAre(xs[..n], keep);
      PlacesGrow(PlacesOf(xs[..n], keep), xs, keep, n);
    }
  }

  lemma {:induction false} PlacesGrow<T>(at: seq<nat>, xs: seq<T>, keep: T -> bool, n: nat)
    requires n < |xs|
    requires forall i: nat :: i in at <==> i < n && keep(xs[i])
    requires forall k | 0 <= k < |at| :: at[k] < n && keep(xs[at[k]])
    requires forall k, l | 0 <= k < l < |at| :: at[k] < at[l]
    ensures
      var at' := at + if keep(xs[n]) then [n] else [];
      && (forall i: nat :: i in at' <==> i <= n && keep(xs[i]))
      && (forall k | 0 <= k < |at'| :: at'[k] <= n && keep(xs[at'[k]]))
      && (forall k, l | 0 <= k < l < |at'| :: at'[k] < at'[l])
  {}

  /** One more element. */
  lemma {:induction false} PlacesStep<T>(xs: seq<T>, n: nat, keep: T -> bool)
    requires n < |xs|
    ensures PlacesOf(xs[..n + 1], keep) == PlacesOf(xs[..n], keep) + if keep(xs[n]) then [n] else []
  {
    assert xs[..n + 1][..n] == xs[..n];
  }
}
