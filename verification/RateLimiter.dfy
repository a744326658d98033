/** The per-minute limiter: Redis counters with expiry, bumped by any number of workers. */
module RateLimiter {
  import opened Rounding

  /** A request reads the clock, then its INCR/EXPIRE transaction runs at `at`; times are in seconds. */
  datatype Event = Event(bucket: string, now: real, at: real)

  datatype Key = Key(bucket: string, window: int)

  datatype Counter = Counter(count: nat, expires: real)

  type Counters = map<Key, Counter>

  const WINDOW := 60.0
  const EXPIRY := 120.0

  function WindowOf(now: real): int {
    (now / WINDOW).Floor
  }

  function KeyOf(e: Event): Key {
    Key(e.bucket, WindowOf(e.now))
  }

  /** A counter is gone once its expiry is reached. */
  function CountAt(counters: Counters, key: Key, at: real): nat {
    if key in counters && at < counters[key].expires then counters[key].count else 0
  }

  function AfterEvent(counters: Counters, e: Event): Counters {
    counters[KeyOf(e) := Counter(CountAt(counters, KeyOf(e), e.at) + 1, e.at + EXPIRY)]
  }

  function After(events: seq<Event>): Counters {
    if events == [] then map[] else AfterEvent(After(events[..|events| - 1]), events[|events| - 1])
  }

  /** The count the i-th request's INCR returns. */
  function CountSeen(events: seq<Event>, i: nat): nat
    requires i < |events|
  {
    CountAt(After(events[..i]), KeyOf(events[i]), events[i].at) + 1
  }

  predicate Admitted(events: seq<Event>, limit: string -> nat, i: nat)
    requires i < |events|
  {
    CountSeen(events, i) <= limit(events[i].bucket)
  }

  class Redis {
    var counters: Counters

    constructor ()
      ensures counters == map[]
    {
      counters := map[];
    }

    method IncrementAndExpire(key: Key, at: real) returns (count: nat)
      modifies this
      ensures count == CountAt(old(counters), key, at) + 1
      ensures counters == old(counters)[key := Counter(count, at + EXPIRY)]
    {
      if key in counters && at < counters[key].expires {
        count := counters[key].count + 1;
      } else {
        count := 1;
      }
      counters := counters[key := Counter(count, at + EXPIRY)];
    }

    /** `dispatch` for a limited path with Redis up. */
    method Dispatch(e: Event, limit: nat) returns (admitted: bool, remaining: nat, reset: int)
      modifies this
      ensures counters == AfterEvent(old(counters), e)
      ensures var count := CountAt(old(counters), KeyOf(e), e.at) + 1;
              && (admitted <==> count <= limit)
              && remaining == (if limit < count then 0 else limit - count)
      ensures reset == ResetSeconds(e.now)
    {
      var count := IncrementAndExpire(KeyOf(e), e.at);
      remaining := if limit - count > 0 then limit - count else 0;
      admitted := !(count > limit);
      reset := (60.0 - (e.now - WindowOf(e.now) as real * 60.0)).Floor;
    }
  }

  // ---- Exact admission ----

  /** Redis runs the transactions in time order, each within a minute of its clock reading. */
  predicate Timely(events: seq<Event>) {
    && (forall i, j | 0 <= i < j < |events| :: events[i].at <= events[j].at)
    && (forall i | 0 <= i < |events| :: events[i].now <= events[i].at <= events[i].now + WINDOW)
  }

  function Arrivals(events: seq<Event>, key: Key): nat {
    if events == [] then 0
    else Arrivals(events[..|events| - 1], key) + if KeyOf(events[|events| - 1]) == key then 1 else 0
  }

  lemma {:induction false} WindowHolds(now: real)
    ensures WindowOf(now) as real * WINDOW <= now < (WindowOf(now) + 1) as real * WINDOW
  {
    var q := now / WINDOW;
    assert q * WINDOW == now;
  }

  /** A window's counter, once there, outlives every arrival for the window. */
  lemma {:induction false} CountIsArrivals(events: seq<Event>, key: Key)
    requires Timely(events)
    ensures key in After(events) <==> 0 < Arrivals(events, key)
    ensures key in After(events) ==>
              && After(events)[key].count == Arrivals(events, key)
              && key.window as real * WINDOW + EXPIRY <= After(events)[key].expires
  {
    if events == [] {
    } else {
      var n := |events| - 1;
      CountIsArrivals(events[..n], key);
      WindowHolds(events[n].now);
    }
  }

  function AdmittedCount(events: seq<Event>, limit: string -> nat, key: Key, n: nat): nat
    requires n <= |events|
  {
    if n == 0 then 0
    else AdmittedCount(events, limit, key, n - 1) +
         if KeyOf(events[n - 1]) == key && Admitted(events, limit, n - 1) then 1 else 0
  }

  function Least(x: nat, y: nat): nat {
    if x <= y then x else y
  }

  /** The key's counter after the first n requests, expired or not; 0 when there was none. */
  function CounterOf(events: seq<Event>, key: Key, n: nat): nat
    requires n <= |events|
  {
    if key in After(events[..n]) then After(events[..n])[key].count else 0
  }

  /** The i-th request is one of the key, and its INCR comes when the key's counter has expired. */
  predicate RestartsAt(events: seq<Event>, key: Key, i: nat)
    requires i < |events|
  {
    KeyOf(events[i]) == key && key in After(events[..i]) && After(events[..i])[key].expires <= events[i].at
  }

  predicate NoRestart(events: seq<Event>, key: Key, n: nat)
    requires n <= |events|
  {
    forall i: nat | i < n :: !RestartsAt(events, key, i)
  }

  lemma {:induction false} CounterStep(events: seq<Event>, key: Key, n: nat)
    requires 0 < n <= |events|
    ensures key in After(events[..n]) <==> key in After(events[..n - 1]) || KeyOf(events[n - 1]) == key
    ensures KeyOf(events[n - 1]) != key ==> CounterOf(events, key, n) == CounterOf(events, key, n - 1)
    ensures KeyOf(events[n - 1]) == key ==>
              CounterOf(events, key, n) == CountSeen(events, n - 1) ==
              if RestartsAt(events, key, n - 1) then 1 else CounterOf(events, key, n - 1) + 1
  {
    assert events[..n][..n - 1] == events[..n - 1];
  }

  lemma {:induction false} ArrivalsStep(events: seq<Event>, key: Key, n: nat)
    requires 0 < n <= |events|
    ensures Arrivals(events[..n], key) == Arrivals(events[..n - 1], key) + if KeyOf(events[n - 1]) == key then 1 else 0
  {
    assert events[..n][..n - 1] == events[..n - 1];
  }

  /** For any requests, however late, a key's counter equals its arrivals exactly when it never
      restarted; otherwise it is smaller. */
  lemma {:induction false} CounterIsArrivalsIff(events: seq<Event>, key: Key, n: nat)
    requires n <= |events|
    ensures CounterOf(events, key, n) == Arrivals(events[..n], key) <==> NoRestart(events, key, n)
    ensures CounterOf(events, key, n) <= Arrivals(events[..n], key)
    ensures key in After(events[..n]) <==> 0 < CounterOf(events, key, n)
  {
    if n == 0 {
    } else {
      CounterIsArrivalsIff(events, key, n - 1);
      CounterStep(events, key, n);
      ArrivalsStep(events, key, n);
    }
  }

  /** Without a restart the first `limit` arrivals are admitted; with one, more than `limit` are, as
      soon as more arrive. */
  predicate AdmissionsAre(limit: nat, arrived: nat, admitted: nat, restarted: bool) {
    && admitted <= arrived && (arrived <= limit ==> admitted == arrived) && (limit == 0 ==> admitted == 0)
    && (!restarted ==> admitted == Least(limit, arrived))
    && (restarted && 0 < limit ==> Least(arrived, limit + 1) <= admitted)
  }

  lemma {:induction false} OneMoreArrival(limit: nat, arrived: nat, admitted: nat, counter: nat, restarted: bool, restarts: bool)
    requires AdmissionsAre(limit, arrived, admitted, restarted)
    requires counter <= arrived && (counter == arrived <==> !restarted) && (restarts ==> 0 < counter)
    ensures
      var seen := if restarts then 1 else counter + 1;
      AdmissionsAre(limit, arrived + 1, admitted + if seen <= limit then 1 else 0, restarted || restarts)
  {}

  lemma {:induction false} Admissions(events: seq<Event>, limit: string -> nat, key: Key, n: nat)
    requires n <= |events|
    ensures AdmissionsAre(limit(key.bucket), Arrivals(events[..n], key), AdmittedCount(events, limit, key, n),
                          !NoRestart(events, key, n))
  {
    if n == 0 {
    } else {
      Admissions(events, limit, key, n - 1);
      AdmissionsStep(events, limit, key, n);
    }
  }

  lemma {:induction false} AdmissionsStep(events: seq<Event>, limit: string -> nat, key: Key, n: nat)
    requires 0 < n <= |events|
    requires AdmissionsAre(limit(key.bucket), Arrivals(events[..n - 1], key), AdmittedCount(events, limit, key, n - 1),
                           !NoRestart(events, key, n - 1))
    ensures AdmissionsAre(limit(key.bucket), Arrivals(events[..n], key), AdmittedCount(events, limit, key, n),
                          !NoRestart(events, key, n))
  {
    var admitted, restarted := AdmittedCount(events, limit, key, n - 1), !NoRestart(events, key, n - 1);
    CounterIsArrivalsIff(events, key, n - 1);
    CounterStep(events, key, n);
    ArrivalsStep(events, key, n);
    RestartStep(events, key, n);
    if KeyOf(events[n - 1]) == key {
      OneMoreArrival(limit(key.bucket), Arrivals(events[..n - 1], key), admitted, CounterOf(events, key, n - 1), restarted,
                     RestartsAt(events, key, n - 1));
      assert AdmittedCount(events, limit, key, n) == admitted + if CountSeen(events, n - 1) <= limit(key.bucket) then 1 else 0;
    } else {
      assert AdmittedCount(events, limit, key, n) == admitted;
      assert !RestartsAt(events, key, n - 1);
    }
  }

  lemma {:induction false} RestartStep(events: seq<Event>, key: Key, n: nat)
    requires 0 < n <= |events|
    ensures NoRestart(events, key, n) <==> NoRestart(events, key, n - 1) && !RestartsAt(events, key, n - 1)
  {}

  /** For any requests, however late: a bucket and window admits exactly the lesser of limit and
      arrivals when nothing is ever admitted, when no more arrive than the limit, or when its counter
      never restarts, and in no other case. */
  lemma {:induction false} AdmitsExactlyIff(events: seq<Event>, limit: string -> nat, key: Key, n: nat)
    requires n <= |events|
    ensures AdmittedCount(events, limit, key, n) == Least(limit(key.bucket), Arrivals(events[..n], key)) <==>
            limit(key.bucket) == 0 || Arrivals(events[..n], key) <= limit(key.bucket) || NoRestart(events, key, n)
    ensures Least(limit(key.bucket), Arrivals(events[..n], key)) <= AdmittedCount(events, limit, key, n)
  {
    Admissions(events, limit, key, n);
  }

  /** Requests within a minute of their clock readings restart no counter. */
  lemma {:induction false} TimelyNeverRestarts(events: seq<Event>, key: Key, n: nat)
    requires Timely(events) && n <= |events|
    ensures NoRestart(events, key, n)
  {
    forall i: nat | i < n
      ensures !RestartsAt(events, key, i)
    {
      CountIsArrivals(events[..i], key);
      WindowHolds(events[i].now);
    }
  }

  /** So each bucket and window then admits exactly its first `limit` arrivals. */
  lemma {:induction false} AdmitsExactly(events: seq<Event>, limit: string -> nat, key: Key, n: nat)
    requires Timely(events) && n <= |events|
    ensures AdmittedCount(events, limit, key, n) == Least(limit(key.bucket), Arrivals(events[..n], key))
  {
    TimelyNeverRestarts(events, key, n);
    AdmitsExactlyIff(events, limit, key, n);
  }

  predicate InSpan(e: Event, start: real) {
    start <= e.now < start + WINDOW
  }

  /** Admitted requests of a bucket whose clock reading lies in the minute from `start`. */
  function AdmittedInSpan(events: seq<Event>, limit: string -> nat, bucket: string, start: real, n: nat): nat
    requires n <= |events|
  {
    if n == 0 then 0
    else AdmittedInSpan(events, limit, bucket, start, n - 1) +
         if events[n - 1].bucket == bucket && InSpan(events[n - 1], start) && Admitted(events, limit, n - 1) then 1 else 0
  }

  lemma {:induction false} SpanMeetsTwoWindows(now: real, start: real)
    requires start <= now < start + WINDOW
    ensures WindowOf(now) == WindowOf(start) || WindowOf(now) == WindowOf(start) + 1
  {
    WindowHolds(now);
    WindowHolds(start);
  }

  lemma {:induction false} SpanCountsTwoWindows(events: seq<Event>, limit: string -> nat, bucket: string, start: real, n: nat)
    requires n <= |events|
    ensures AdmittedInSpan(events, limit, bucket, start, n) <=
            AdmittedCount(events, limit, Key(bucket, WindowOf(start)), n) +
            AdmittedCount(events, limit, Key(bucket, WindowOf(start) + 1), n)
  {
    if n == 0 {
    } else {
      SpanCountsTwoWindows(events, limit, bucket, start, n - 1);
      if InSpan(events[n - 1], start) {
        SpanMeetsTwoWindows(events[n - 1].now, start);
      }
    }
  }

  /** Any minute of clock readings sees at most twice the limit admitted, unless a counter of one of
      its two windows restarts. */
  lemma {:induction false} AtMostTwiceWithoutRestart(events: seq<Event>, limit: string -> nat, bucket: string, start: real)
    requires NoRestart(events, Key(bucket, WindowOf(start)), |events|)
    requires NoRestart(events, Key(bucket, WindowOf(start) + 1), |events|)
    ensures AdmittedInSpan(events, limit, bucket, start, |events|) <= 2 * limit(bucket)
  {
    SpanCountsTwoWindows(events, limit, bucket, start, |events|);
    Admissions(events, limit, Key(bucket, WindowOf(start)), |events|);
    Admissions(events, limit, Key(bucket, WindowOf(start) + 1), |events|);
  }

  lemma {:induction false} AtMostTwiceTheLimit(events: seq<Event>, limit: string -> nat, bucket: string, start: real)
    requires Timely(events)
    ensures AdmittedInSpan(events, limit, bucket, start, |events|) <= 2 * limit(bucket)
  {
    TimelyNeverRestarts(events, Key(bucket, WindowOf(start)), |events|);
    TimelyNeverRestarts(events, Key(bucket, WindowOf(start) + 1), |events|);
    AtMostTwiceWithoutRestart(events, limit, bucket, start);
  }

  /** One request on time and one late in the same window. */
  function OneLate(bucket: string, late: real): seq<Event> {
    [Event(bucket, 0.0, 0.0), Event(bucket, if EXPIRY < late then 0.0 else EXPIRY - late, EXPIRY)]
  }

  /** For every longer delay some counter restarts, and a limit of one admits two. */
  lemma {:induction false} LateIncrementRestartsCount(bucket: string, late: real, limit: string -> nat)
    requires WINDOW < late
    ensures
      var events, key := OneLate(bucket, late), Key(bucket, 0);
      && KeyOf(events[0]) == KeyOf(events[1]) == key && events[1].now <= events[1].at <= events[1].now + EXPIRY
      && (late <= EXPIRY ==> events[1].at == events[1].now + late)
      && RestartsAt(events, key, 1) && Arrivals(events, key) == 2
      && (limit(bucket) == 1 ==> AdmittedCount(events, limit, key, 2) == 2)
  {
    var events, key := OneLate(bucket, late), Key(bucket, 0);
    WindowHolds(events[0].now);
    WindowHolds(events[1].now);
    assert events[..0] == [] && events[..1] == [events[0]] && events[..2] == events;
    assert After(events[..0]) == map[];
    CounterStep(events, key, 1);
    CounterStep(events, key, 2);
    ArrivalsStep(events, key, 1);
    ArrivalsStep(events, key, 2);
    Admissions(events, limit, key, 2);
  }

  // ---- Retry-After ----

  /** `int(60 - seconds_into_window)`. */
  function ResetSeconds(now: real): int {
    (WINDOW - (now - WindowOf(now) as real * WINDOW)).Floor
  }

  lemma {:induction false} LaterWindowIff(now: real, w: int)
    ensures w < WindowOf(now) <==> (60 * (w + 1)) as real <= now
  {
    WindowHolds(now);
    assert WindowOf(now) as real * WINDOW == (60 * WindowOf(now)) as real;
    assert (WindowOf(now) + 1) as real * WINDOW == (60 * (WindowOf(now) + 1)) as real;
  }

  /** Waiting a second beyond Retry-After always leads to a later window; waiting Retry-After
      alone does exactly when the clock stood on a whole second. */
  lemma {:induction false} RetryAfterLeadsToNextWindow(now: real)
    ensures 0 <= ResetSeconds(now) <= 60
    ensures WindowOf(now) < WindowOf(now + ResetSeconds(now) as real + 1.0)
    ensures WindowOf(now) < WindowOf(now + ResetSeconds(now) as real) <==> now == now.Floor as real
  {
    var w, reset := WindowOf(now), ResetSeconds(now);
    WindowHolds(now);
    assert w as real * WINDOW == (60 * w) as real && (w + 1) as real * WINDOW == (60 * w + 60) as real;
    LaterWindowIff(now + reset as real + 1.0, w);
    LaterWindowIff(now + reset as real, w);
    FloorOfDifference((60 * w + 60), now);
  }

  lemma {:induction false} FloorOfDifference(n: int, x: real)
    ensures x <= n as real ==> 0 <= (n as real - x).Floor
    ensures n as real <= x + (n as real - x).Floor as real <==> x == x.Floor as real
    ensures n as real < x + (n as real - x).Floor as real + 1.0
  {
    var d := n as real - x;
    var f := d.Floor;
    assert f as real <= d < f as real + 1.0;
    if d == f as real {
      FloorOfWhole(x, n - f);
    }
    if x == x.Floor as real {
      FloorOfWhole(d, n - x.Floor);
    }
  }
}
