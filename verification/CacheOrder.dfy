/** When the cached watchlist goes back to an older database state. */
module CacheOrder {
  import opened WatchlistCache

  /** The world before event number i. */
  function At(table: seq<Entry>, es: seq<Event>, i: nat): World
    requires i <= |es|
  {
    After(Start(table), es[..i])
  }

  lemma {:induction false} AtStep(table: seq<Entry>, es: seq<Event>, i: nat)
    requires i < |es|
    ensures At(table, es, i + 1) == Next(At(table, es, i), es[i])
  {
    assert es[..i + 1][..i] == es[..i];
  }

  predicate WriteIn(es: seq<Event>, i: nat, j: nat)
    requires j <= |es|
  {
    exists w :: i <= w < j && es[w].Write?
  }

  lemma {:induction false} StatesBetween(table: seq<Entry>, es: seq<Event>, i: nat, j: nat)
    requires i <= j <= |es|
    ensures 1 <= |At(table, es, i).states| <= |At(table, es, j).states|
    ensures |At(table, es, i).states| < |At(table, es, j).states| <==> WriteIn(es, i, j)
    decreases j
  {
    if i == j {
      SomeState(table, es, i);
    } else {
      StatesBetween(table, es, i, j - 1);
      WriteStep(table, es, j - 1);
      assert es[j - 1].Write? ==> WriteIn(es, i, j);
    }
  }

  lemma {:induction false} WriteStep(table: seq<Entry>, es: seq<Event>, i: nat)
    requires i < |es|
    ensures |At(table, es, i + 1).states| == |At(table, es, i).states| + if es[i].Write? then 1 else 0
  {
    AtStep(table, es, i);
  }

  lemma {:induction false} SomeState(table: seq<Entry>, es: seq<Event>, i: nat)
    requires i <= |es|
    ensures 1 <= |At(table, es, i).states|
  {
    if i == 0 {
    } else {
      SomeState(table, es, i - 1);
      WriteStep(table, es, i - 1);
    }
  }

  // ---- Refreshes in a run ----

  predicate Touches(e: Event, worker: nat) {
    (e.ReadForRefresh? || e.WriteCache? || e.AbandonRefresh?) && e.worker == worker
  }

  /** Event r reads the table for a refresh that is still pending before event c. */
  predicate Pending(es: seq<Event>, r: nat, c: nat, worker: nat) {
    && r < c <= |es| && es[r].ReadForRefresh? && es[r].worker == worker
    && forall i | r < i < c :: !Touches(es[i], worker)
  }

  /** Event c writes to the cache what event r read. */
  predicate Refreshes(es: seq<Event>, r: nat, c: nat) {
    c < |es| && es[c].WriteCache? && Pending(es, r, c, es[c].worker)
  }

  lemma {:induction false} PendingRead(table: seq<Entry>, es: seq<Event>, c: nat, worker: nat) returns (r: nat)
    requires c <= |es| && worker in At(table, es, c).refreshes
    ensures Pending(es, r, c, worker)
    ensures At(table, es, c).refreshes[worker].at == |At(table, es, r).states| - 1
  {
    AtStep(table, es, c - 1);
    if Touches(es[c - 1], worker) {
      r := c - 1;
      StatesBetween(table, es, r, r);
    } else {
      r := PendingRead(table, es, c - 1, worker);
    }
  }

  lemma {:induction false} PendingSnapshot(table: seq<Entry>, es: seq<Event>, r: nat, c: nat, worker: nat)
    requires Pending(es, r, c, worker)
    ensures worker in At(table, es, c).refreshes
    ensures At(table, es, c).refreshes[worker].at == |At(table, es, r).states| - 1
  {
    AtStep(table, es, c - 1);
    if r == c - 1 {
      StatesBetween(table, es, r, r);
    } else {
      PendingSnapshot(table, es, r, c - 1, worker);
    }
  }

  /** What a refresh leaves cached is the state its read saw. */
  lemma {:induction false} RefreshSetsState(table: seq<Entry>, es: seq<Event>, r: nat, c: nat)
    requires Refreshes(es, r, c)
    ensures At(table, es, c + 1).listAt == |At(table, es, r).states| - 1
  {
    PendingSnapshot(table, es, r, c, es[c].worker);
    AtStep(table, es, c);
  }

  /** A cached state other than the first was left by a refresh. */
  lemma {:induction false} LastRefresh(table: seq<Entry>, es: seq<Event>, i: nat) returns (r: nat, c: nat)
    requires i <= |es| && 0 < At(table, es, i).listAt
    ensures c < i && Refreshes(es, r, c) && At(table, es, i).listAt == |At(table, es, r).states| - 1
  {
    AtStep(table, es, i - 1);
    if es[i - 1].WriteCache? && es[i - 1].worker in At(table, es, i - 1).refreshes {
      c := i - 1;
      r := PendingRead(table, es, c, es[c].worker);
    } else {
      r, c := LastRefresh(table, es, i - 1);
    }
  }

  // ---- Going back ----

  predicate FallsAt(table: seq<Entry>, es: seq<Event>, i: nat)
    requires i < |es|
  {
    At(table, es, i + 1).listAt < At(table, es, i).listAt
  }

  /** Some step replaces the cached state by an older one. */
  predicate GoesBack(table: seq<Entry>, es: seq<Event>) {
    exists i: nat :: i < |es| && FallsAt(table, es, i)
  }

  /** The second refresh reads after the first and a table write in between, and writes before it. */
  predicate Overtakes(es: seq<Event>, r1: nat, c1: nat, r2: nat, c2: nat) {
    Refreshes(es, r1, c1) && Refreshes(es, r2, c2) && r1 < r2 && c2 < c1 && WriteIn(es, r1, r2)
  }

  lemma {:induction false} FallBetween(table: seq<Entry>, es: seq<Event>, i: nat, j: nat)
    requires i <= j <= |es| && At(table, es, j).listAt < At(table, es, i).listAt
    ensures GoesBack(table, es)
  {
    if At(table, es, j).listAt < At(table, es, j - 1).listAt {
      assert FallsAt(table, es, j - 1);
    } else {
      FallBetween(table, es, i, j - 1);
    }
  }

  lemma {:induction false} FallIsOvertaking(table: seq<Entry>, es: seq<Event>, i: nat) returns (r1: nat, r2: nat, c2: nat)
    requires i < |es| && FallsAt(table, es, i)
    ensures Overtakes(es, r1, i, r2, c2)
  {
    AtStep(table, es, i);
    r1 := PendingRead(table, es, i, es[i].worker);
    StatesBetween(table, es, 0, r1);
    r2, c2 := LastRefresh(table, es, i);
    if r2 <= r1 {
      StatesBetween(table, es, r2, r1);
      assert false;
    }
    StatesBetween(table, es, r1, r2);
  }

  lemma {:induction false} OvertakingFalls(table: seq<Entry>, es: seq<Event>, r1: nat, c1: nat, r2: nat, c2: nat)
    requires Overtakes(es, r1, c1, r2, c2)
    ensures GoesBack(table, es)
  {
    RefreshSetsState(table, es, r1, c1);
    RefreshSetsState(table, es, r2, c2);
    StatesBetween(table, es, r1, r2);
    FallBetween(table, es, c2 + 1, c1 + 1);
  }

  /** Over every run, possible or not, the cached state goes back exactly when some refresh overtakes
      another across a table write. */
  lemma {:induction false} GoesBackIff(table: seq<Entry>, es: seq<Event>)
    ensures GoesBack(table, es) <==> exists r1, c1, r2, c2 :: Overtakes(es, r1, c1, r2, c2)
  {
    if GoesBack(table, es) {
      var i: nat :| i < |es| && FallsAt(table, es, i);
      var r1, r2, c2 := FallIsOvertaking(table, es, i);
    }
    if r1, c1, r2, c2 :| Overtakes(es, r1, c1, r2, c2) {
      OvertakingFalls(table, es, r1, c1, r2, c2);
    }
  }

  /** The second refresh reads before the first has written. */
  predicate Overlap(es: seq<Event>, r1: nat, c1: nat, r2: nat, c2: nat) {
    Refreshes(es, r1, c1) && Refreshes(es, r2, c2) && r1 < r2 < c1
  }

  /** Refreshes that do not overlap only ever move the cached state forward. */
  lemma {:induction false} SeparateRefreshesMoveForward(table: seq<Entry>, es: seq<Event>, i: nat, j: nat)
    requires forall r1, c1, r2, c2 :: !Overlap(es, r1, c1, r2, c2)
    requires i <= j <= |es|
    ensures At(table, es, i).listAt <= At(table, es, j).listAt
  {
    GoesBackIff(table, es);
    forall r1, c1, r2, c2
      ensures Overtakes(es, r1, c1, r2, c2) ==> Overlap(es, r1, c1, r2, c2)
    {
    }
    if At(table, es, j).listAt < At(table, es, i).listAt {
      FallBetween(table, es, i, j);
    }
  }

  // ---- Fresh hits ----

  predicate NoCacheWrite(es: seq<Event>, i: nat, j: nat)
    requires j <= |es|
  {
    forall k | i <= k < j :: !es[k].WriteCache?
  }

  lemma {:induction false} CachedStateStays(table: seq<Entry>, es: seq<Event>, i: nat, j: nat)
    requires i <= j <= |es| && NoCacheWrite(es, i, j)
    ensures At(table, es, j).listAt == At(table, es, i).listAt
    decreases j
  {
    if i == j {
    } else {
      CachedStateStays(table, es, i, j - 1);
      AtStep(table, es, j - 1);
    }
  }

  /** While a refresh is the last to have written the cache, the cached state is the current one
      exactly when the table has not been written since that refresh read it. */
  lemma {:induction false} CachedIsCurrentIff(table: seq<Entry>, es: seq<Event>, r: nat, c: nat, i: nat)
    requires Refreshes(es, r, c) && c < i <= |es| && NoCacheWrite(es, c + 1, i)
    ensures At(table, es, i).listAt == |At(table, es, i).states| - 1 <==> !WriteIn(es, r, i)
  {
    RefreshSetsState(table, es, r, c);
    CachedStateStays(table, es, c + 1, i);
    StatesBetween(table, es, r, i);
  }

  /** So is the state that a hit's answer is drawn from. */
  lemma {:induction false} HitIsCurrentIff(table: seq<Entry>, es: seq<Event>, r: nat, c: nat, i: nat)
    requires Refreshes(es, r, c) && c < i < |es| && NoCacheWrite(es, c + 1, i) && es[i].HitCache?
    ensures
      var w := At(table, es, i + 1);
      w.answers != [] && (w.answers[|w.answers| - 1].at == |w.states| - 1 <==> !WriteIn(es, r, i))
  {
    CachedIsCurrentIff(table, es, r, c, i);
    AtStep(table, es, i);
  }
}
