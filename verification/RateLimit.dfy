/**
 * The Redis-backed sliding-window limiter: one sorted set of millisecond stamps per client, cleaned on every
 * request, with an expiry on the whole key.
 */
module RateLimit {
  import opened Common

  const WINDOW_MS: int := 60_000
  const EXPIRE_MS: int := 120_000

  /** A sorted set whose members are their own scores, and the moment the key is dropped. */
  datatype Stamps = Stamps(members: set<int>, deadline: int)

  /** The stamps that still exist at a moment and lie inside the window that ends there. */
  function Remaining(s: Stamps, now: int): set<int> {
    if now >= s.deadline then {} else set t | t in s.members && t > now - WINDOW_MS
  }

  predicate Allowed(s: Stamps, limit: int, now: int) {
    |Remaining(s, now)| < limit
  }

  function Request(s: Stamps, limit: int, now: int): Stamps {
    var kept := Remaining(s, now);
    if |kept| < limit then Stamps(kept + {now}, now + EXPIRE_MS) else Stamps(kept, s.deadline)
  }

  /** The state of one client after requests at the given stamps. */
  function Run(limit: int, stamps: seq<int>): Stamps {
    if stamps == [] then Stamps({}, 0)
    else Request(Run(limit, stamps[..|stamps| - 1]), limit, stamps[|stamps| - 1])
  }

  /** The stamps of the accepted requests, one for each of them, in order. */
  function Log(limit: int, stamps: seq<int>): seq<int> {
    if stamps == [] then []
    else
      var before, last := stamps[..|stamps| - 1], stamps[|stamps| - 1];
      if Allowed(Run(limit, before), limit, last) then Log(limit, before) + [last] else Log(limit, before)
  }

  /** How many entries lie in [lo, hi). */
  function CountIn(log: seq<int>, lo: int, hi: int): nat {
    if log == [] then 0
    else CountIn(log[..|log| - 1], lo, hi) + (if lo <= log[|log| - 1] < hi then 1 else 0)
  }

  /** The accepted requests of the window that starts at lo. */
  function InWindow(limit: int, stamps: seq<int>, lo: int): nat {
    CountIn(Log(limit, stamps), lo, lo + 60_000)
  }

  /** They do not exceed the limit. */
  ghost predicate WithinLimit(limit: int, stamps: seq<int>, lo: int) {
    InWindow(limit, stamps, lo) <= Max(limit, 0)
  }

  ghost predicate Nondecreasing(stamps: seq<int>) {
    forall i, j :: 0 <= i < j < |stamps| ==> stamps[i] <= stamps[j]
  }

  ghost predicate Increasing(stamps: seq<int>) {
    forall i, j :: 0 <= i < j < |stamps| ==> stamps[i] < stamps[j]
  }

  ghost function Between(log: seq<int>, lo: int, hi: int): set<int> {
    set t | t in log && lo <= t < hi
  }

  lemma {:induction false} LogIsOrdered(limit: int, stamps: seq<int>)
    requires Nondecreasing(stamps)
    ensures forall t :: t in Log(limit, stamps) ==> stamps != [] && t <= stamps[|stamps| - 1]
    ensures Increasing(stamps) ==> Increasing(Log(limit, stamps))
    decreases |stamps|
  {
    if stamps == [] {
    } else {
      var n := |stamps| - 1;
      LogIsOrdered(limit, stamps[..n]);
      var log := Log(limit, stamps[..n]);
      if Increasing(stamps) {
        forall i | 0 <= i < |log|
          ensures log[i] < stamps[n]
        {
          assert log[i] in log;
        }
      }
    }
  }

  /** The sorted set forgets nothing that matters: neither cleaning nor key expiry drops a stamp of the window. */
  lemma {:induction false} RemainingIsLogged(limit: int, stamps: seq<int>, now: int, t: int)
    requires Nondecreasing(stamps) && (stamps != [] ==> stamps[|stamps| - 1] <= now)
    ensures t in Remaining(Run(limit, stamps), now) <==> t in Log(limit, stamps) && t > now - WINDOW_MS
    ensures t in Log(limit, stamps) ==> t + EXPIRE_MS <= Run(limit, stamps).deadline
    decreases |stamps|
  {
    if stamps == [] {
    } else {
      var n := |stamps| - 1;
      RemainingIsLogged(limit, stamps[..n], stamps[n], t);
      LogIsOrdered(limit, stamps[..n]);
    }
  }

  /** The stamps the limiter counts are the accepted ones of the window that ends now. */
  lemma RemainingIsWindow(limit: int, stamps: seq<int>, now: int)
    requires Nondecreasing(stamps) && (stamps != [] ==> stamps[|stamps| - 1] <= now)
    ensures Remaining(Run(limit, stamps), now) == Between(Log(limit, stamps), now - WINDOW_MS + 1, now + 1)
  {
    var log := Log(limit, stamps);
    LogIsOrdered(limit, stamps);
    forall t
      ensures t in Remaining(Run(limit, stamps), now) <==> t in Between(log, now - WINDOW_MS + 1, now + 1)
    {
      RemainingIsLogged(limit, stamps, now, t);
    }
  }

  lemma BetweenAppend(log: seq<int>, t: int, lo: int, hi: int)
    ensures Between(log + [t], lo, hi) == Between(log, lo, hi) + (if lo <= t < hi then {t} else {})
    ensures t !in log ==> t !in Between(log, lo, hi)
  {
  }

  lemma IncreasingFront(log: seq<int>)
    requires Increasing(log) && log != []
    ensures Increasing(log[..|log| - 1]) && log[|log| - 1] !in log[..|log| - 1]
  {
  }

  lemma {:induction false} CountOfDistinct(log: seq<int>, lo: int, hi: int)
    requires Increasing(log)
    ensures CountIn(log, lo, hi) == |Between(log, lo, hi)|
    decreases |log|
  {
    if log == [] {
      assert Between(log, lo, hi) == {};
    } else {
      var front, last := log[..|log| - 1], log[|log| - 1];
      IncreasingFront(log);
      CountOfDistinct(front, lo, hi);
      BetweenAppend(front, last, lo, hi);
      assert log == front + [last];
    }
  }

  lemma CountAppend(log: seq<int>, t: int, lo: int, hi: int)
    ensures CountIn(log + [t], lo, hi) == CountIn(log, lo, hi) + (if lo <= t < hi then 1 else 0)
  {
  }

  // ---- How many requests a window can hold ----

  function CountAt(log: seq<int>, t: int): nat {
    CountIn(log, t, t + 1)
  }

  ghost predicate AtMostPerMs(log: seq<int>, k: nat) {
    forall t :: CountAt(log, t) <= k
  }

  /** With at most k requests in each millisecond: k in all but the last of limit milliseconds, and one in the last. */
  function Capacity(limit: int, k: nat): int {
    if limit <= 0 then 0 else if limit <= 60_000 then (limit - 1) * k + 1 else 60_000 * k
  }

  lemma {:induction false} CountSplit(log: seq<int>, lo: int, mid: int, hi: int)
    requires lo <= mid <= hi
    ensures CountIn(log, lo, hi) == CountIn(log, lo, mid) + CountIn(log, mid, hi)
    decreases |log|
  {
    if log == [] {
    } else {
      CountSplit(log[..|log| - 1], lo, mid, hi);
    }
  }

  lemma {:induction false} NoneInWindow(log: seq<int>, lo: int, hi: int)
    requires forall i :: 0 <= i < |log| ==> !(lo <= log[i] < hi)
    ensures CountIn(log, lo, hi) == 0
    decreases |log|
  {
    if log == [] {
    } else {
      NoneInWindow(log[..|log| - 1], lo, hi);
    }
  }

  lemma {:induction false} LogCountsLess(limit: int, stamps: seq<int>, lo: int, hi: int)
    ensures CountIn(Log(limit, stamps), lo, hi) <= CountIn(stamps, lo, hi)
    decreases |stamps|
  {
    if stamps == [] {
    } else {
      var before, last := stamps[..|stamps| - 1], stamps[|stamps| - 1];
      LogCountsLess(limit, before, lo, hi);
      CountAppend(Log(limit, before), last, lo, hi);
    }
  }

  lemma BetweenOneMore(log: seq<int>, lo: int, t: int)
    requires lo <= t
    ensures |Between(log, lo, t + 1)| == |Between(log, lo, t)| + if t in log then 1 else 0
  {
    assert Between(log, lo, t + 1) == Between(log, lo, t) + if t in log then {t} else {};
  }

  lemma OneMoreTimes(k: nat, n: nat)
    ensures k * (n + 1) == k * n + k
  {
  }

  /** At most k entries for each millisecond that occurs. */
  lemma {:induction false} CountByMs(log: seq<int>, k: nat, lo: int, hi: int)
    requires AtMostPerMs(log, k) && lo <= hi
    ensures CountIn(log, lo, hi) <= k * |Between(log, lo, hi)|
    ensures |Between(log, lo, hi)| <= hi - lo
    decreases hi - lo
  {
    if lo == hi {
      NoneInWindow(log, lo, hi);
      assert Between(log, lo, hi) == {};
    } else {
      var t := hi - 1;
      CountByMs(log, k, lo, t);
      CountSplit(log, lo, t, hi);
      BetweenOneMore(log, lo, t);
      if t in log {
        assert CountAt(log, t) <= k;
        OneMoreTimes(k, |Between(log, lo, t)|);
      } else {
        NoneInWindow(log, t, hi);
      }
    }
  }

  lemma ScaledUp(k: nat, a: nat, b: nat)
    requires a <= b
    ensures k * a <= b * k
  {
  }

  /** The last accepted request of a window saw fewer milliseconds in it than the limit. */
  lemma LastAccepted(limit: int, before: seq<int>, last: int, k: nat, lo: int)
    requires Nondecreasing(before) && (before != [] ==> before[|before| - 1] <= last)
    requires AtMostPerMs(Log(limit, before), k) && Allowed(Run(limit, before), limit, last)
    requires lo <= last < lo + WINDOW_MS
    ensures CountIn(Log(limit, before), lo, lo + WINDOW_MS) <= (limit - 1) * k
  {
    var log := Log(limit, before);
    LogIsOrdered(limit, before);
    CountByMs(log, k, lo, lo + WINDOW_MS);
    RemainingIsWindow(limit, before, last);
    SubsetSize(Between(log, lo, lo + WINDOW_MS), Remaining(Run(limit, before), last));
    ScaledUp(k, |Between(log, lo, lo + WINDOW_MS)|, limit - 1);
  }

  lemma {:induction false} FewMilliseconds(limit: int, stamps: seq<int>, k: nat, lo: int)
    requires Nondecreasing(stamps) && k >= 1 && AtMostPerMs(stamps, k)
    ensures CountIn(Log(limit, stamps), lo, lo + WINDOW_MS) <= if limit <= 0 then 0 else (limit - 1) * k + 1
    decreases |stamps|
  {
    if stamps == [] {
      ScaledUp(k, 0, Max(limit - 1, 0));
    } else {
      var n := |stamps| - 1;
      var before, last := stamps[..n], stamps[n];
      PrefixPerMs(stamps, k);
      FewMilliseconds(limit, before, k, lo);
      if Allowed(Run(limit, before), limit, last) {
        CountAppend(Log(limit, before), last, lo, lo + WINDOW_MS);
        if lo <= last < lo + WINDOW_MS {
          LogPerMs(limit, before, k);
          LastAccepted(limit, before, last, k, lo);
        }
      }
    }
  }

  lemma PrefixPerMs(stamps: seq<int>, k: nat)
    requires stamps != [] && AtMostPerMs(stamps, k)
    ensures AtMostPerMs(stamps[..|stamps| - 1], k)
  {
    var before := stamps[..|stamps| - 1];
    forall t
      ensures CountAt(before, t) <= k
    {
      assert CountAt(stamps, t) <= k;
    }
  }

  lemma LogPerMs(limit: int, stamps: seq<int>, k: nat)
    requires AtMostPerMs(stamps, k)
    ensures AtMostPerMs(Log(limit, stamps), k)
  {
    forall t
      ensures CountAt(Log(limit, stamps), t) <= k
    {
      LogCountsLess(limit, stamps, t, t + 1);
      assert CountAt(stamps, t) <= k;
    }
  }

  /** No window, wherever it starts, holds more accepted requests than the capacity. */
  lemma WindowHoldsCapacity(limit: int, stamps: seq<int>, k: nat, lo: int)
    requires Nondecreasing(stamps) && k >= 1 && AtMostPerMs(stamps, k)
    ensures InWindow(limit, stamps, lo) <= Capacity(limit, k)
  {
    FewMilliseconds(limit, stamps, k, lo);
    var log := Log(limit, stamps);
    LogPerMs(limit, stamps, k);
    CountByMs(log, k, lo, lo + WINDOW_MS);
    ScaledUp(k, |Between(log, lo, lo + WINDOW_MS)|, WINDOW_MS);
  }

  // The capacity is reached: k requests in each of the first milliseconds

  function Blocks(n: nat, k: nat): (stamps: seq<int>)
    ensures forall i :: 0 <= i < |stamps| ==> 0 <= stamps[i] < n
  {
    if n == 0 then [] else Blocks(n - 1, k) + seq(k, _ => n - 1)
  }

  lemma {:induction false} CountConcat(a: seq<int>, b: seq<int>, lo: int, hi: int)
    ensures CountIn(a + b, lo, hi) == CountIn(a, lo, hi) + CountIn(b, lo, hi)
    decreases |b|
  {
    if b == [] {
      assert a + b == a;
    } else {
      CountConcat(a, b[..|b| - 1], lo, hi);
      assert (a + b)[..|a + b| - 1] == a + b[..|b| - 1];
    }
  }

  lemma {:induction false} AllInWindow(log: seq<int>, lo: int, hi: int)
    requires forall i :: 0 <= i < |log| ==> lo <= log[i] < hi
    ensures CountIn(log, lo, hi) == |log|
    decreases |log|
  {
    if log == [] {
    } else {
      AllInWindow(log[..|log| - 1], lo, hi);
    }
  }

  lemma {:induction false} BlocksPerMs(n: nat, k: nat, t: int)
    ensures CountAt(Blocks(n, k), t) == if 0 <= t < n then k else 0
    decreases n
  {
    if n == 0 {
    } else {
      var block := seq(k, _ => n - 1);
      BlocksPerMs(n - 1, k, t);
      CountConcat(Blocks(n - 1, k), block, t, t + 1);
      if t == n - 1 {
        AllInWindow(block, t, t + 1);
      } else {
        NoneInWindow(block, t, t + 1);
      }
    }
  }

  lemma {:induction false} BlocksInOrder(n: nat, k: nat)
    ensures Nondecreasing(Blocks(n, k)) && |Blocks(n, k)| == n * k
    decreases n
  {
    if n == 0 {
    } else {
      BlocksInOrder(n - 1, k);
      assert n * k == (n - 1) * k + k;
    }
  }

  function Upto(m: nat): (r: set<int>)
    ensures |r| == m && forall t :: t in r <==> 0 <= t < m
  {
    if m == 0 then {} else Upto(m - 1) + {m - 1}
  }

  lemma FewAccept(s: Stamps, limit: int, m: nat, now: int)
    requires s.members <= Upto(m) && m < limit && 0 <= now < m
    ensures Allowed(s, limit, now) && Request(s, limit, now).members <= Upto(m)
  {
    FewRemain(s, m, now);
  }

  lemma FewRemain(s: Stamps, m: nat, now: int)
    requires s.members <= Upto(m)
    ensures |Remaining(s, now)| <= m
  {
    SubsetSize(Remaining(s, now), Upto(m));
  }

  /** While fewer milliseconds than the limit have been seen, everything is accepted. */
  lemma {:induction false} AllAccepted(limit: int, stamps: seq<int>, m: nat)
    requires m < limit && forall i :: 0 <= i < |stamps| ==> 0 <= stamps[i] < m
    ensures Log(limit, stamps) == stamps && Run(limit, stamps).members <= Upto(m)
    decreases |stamps|
  {
    if stamps == [] {
    } else {
      var n := |stamps| - 1;
      AllAccepted(limit, stamps[..n], m);
      FewAccept(Run(limit, stamps[..n]), limit, m, stamps[n]);
      OneMoreLogged(limit, stamps);
    }
  }

  lemma OneMoreLogged(limit: int, stamps: seq<int>)
    requires stamps != []
    requires var n := |stamps| - 1;
             Log(limit, stamps[..n]) == stamps[..n] && Allowed(Run(limit, stamps[..n]), limit, stamps[n])
    ensures Log(limit, stamps) == stamps
  {
    assert stamps == stamps[..|stamps| - 1] + [stamps[|stamps| - 1]];
  }

  /** A run that fills a window. */
  ghost function Filling(limit: int, k: nat): seq<int> {
    if limit <= 0 then [] else if limit <= WINDOW_MS then Blocks(limit - 1, k) + [limit - 1] else Blocks(WINDOW_MS, k)
  }

  lemma BlocksFill(limit: int, n: nat, k: nat)
    requires n < limit && n <= WINDOW_MS
    ensures var blocks := Blocks(n, k);
            && Nondecreasing(blocks) && AtMostPerMs(blocks, k) && Log(limit, blocks) == blocks
            && CountIn(blocks, 0, WINDOW_MS) == n * k
  {
    BlocksInOrder(n, k);
    AllAccepted(limit, Blocks(n, k), n);
    AllInWindow(Blocks(n, k), 0, WINDOW_MS);
    forall t
      ensures CountAt(Blocks(n, k), t) <= k
    {
      BlocksPerMs(n, k, t);
    }
  }

  lemma AcceptedAfterBlocks(limit: int, k: nat)
    requires 0 < limit <= WINDOW_MS
    ensures var stamps := Blocks(limit - 1, k) + [limit - 1];
            Log(limit, stamps) == stamps
  {
    var n := limit - 1;
    var blocks, stamps := Blocks(n, k), Blocks(n, k) + [n];
    AllAccepted(limit, blocks, n);
    FewRemain(Run(limit, blocks), n, n);
    assert stamps[..|stamps| - 1] == blocks && stamps[|stamps| - 1] == n;
  }

  /** In the millisecond after the blocks one more request is accepted. */
  lemma OneMoreFills(limit: int, k: nat)
    requires 0 < limit <= WINDOW_MS && k >= 1
    ensures var stamps := Blocks(limit - 1, k) + [limit - 1];
            && Nondecreasing(stamps) && AtMostPerMs(stamps, k) && Log(limit, stamps) == stamps
            && CountIn(stamps, 0, WINDOW_MS) == (limit - 1) * k + 1
  {
    var n := limit - 1;
    var blocks, stamps := Blocks(n, k), Blocks(n, k) + [n];
    BlocksFill(limit, n, k);
    AcceptedAfterBlocks(limit, k);
    CountAppend(blocks, n, 0, WINDOW_MS);
    OneMorePerMs(n, k);
  }

  lemma OneMorePerMs(n: nat, k: nat)
    requires k >= 1
    ensures AtMostPerMs(Blocks(n, k) + [n], k)
  {
    var stamps := Blocks(n, k) + [n];
    forall t
      ensures CountAt(stamps, t) <= k
    {
      BlocksPerMs(n, k, t);
      CountAppend(Blocks(n, k), n, t, t + 1);
    }
  }

  lemma FillingFills(limit: int, k: nat)
    requires k >= 1
    ensures var stamps := Filling(limit, k);
            && Nondecreasing(stamps) && AtMostPerMs(stamps, k)
            && InWindow(limit, stamps, 0) == Capacity(limit, k)
  {
    if limit > WINDOW_MS {
      BlocksFill(limit, WINDOW_MS, k);
    } else if limit > 0 {
      OneMoreFills(limit, k);
    }
  }

  /** The bound b holds over all runs with at most k requests in a millisecond exactly when it admits the capacity. */
  lemma CapacityIsExact(limit: int, k: nat, b: int)
    requires k >= 1
    ensures (forall stamps, lo :: Nondecreasing(stamps) && AtMostPerMs(stamps, k) ==>
                                    InWindow(limit, stamps, lo) <= b)
            <==> Capacity(limit, k) <= b
  {
    FillingFills(limit, k);
    if Capacity(limit, k) <= b {
      forall stamps, lo | Nondecreasing(stamps) && AtMostPerMs(stamps, k)
        ensures InWindow(limit, stamps, lo) <= b
      {
        WindowHoldsCapacity(limit, stamps, k, lo);
      }
    } else {
      assert InWindow(limit, Filling(limit, k), 0) > b;
    }
  }

  lemma {:induction false} OnePerMs(stamps: seq<int>, t: int)
    requires Increasing(stamps)
    ensures CountAt(stamps, t) <= 1
    decreases |stamps|
  {
    if stamps == [] {
    } else {
      var n := |stamps| - 1;
      OnePerMs(stamps[..n], t);
      if stamps[n] == t {
        NoneInWindow(stamps[..n], t, t + 1);
      }
    }
  }

  /** With distinct stamps no window, wherever it starts, holds more accepted requests than the limit. */
  lemma WindowNeverOverfull(limit: int, stamps: seq<int>, lo: int)
    requires Increasing(stamps)
    ensures WithinLimit(limit, stamps, lo)
  {
    forall t
      ensures CountAt(stamps, t) <= 1
    {
      OnePerMs(stamps, t);
    }
    WindowHoldsCapacity(limit, stamps, 1, lo);
  }

  /** The key of a client expires two minutes after its last accepted request. */
  lemma {:induction false} DeadlineFollowsLast(limit: int, stamps: seq<int>)
    ensures var log := Log(limit, stamps);
            Run(limit, stamps).deadline == if log == [] then 0 else log[|log| - 1] + 120_000
    decreases |stamps|
  {
    if stamps == [] {
    } else {
      DeadlineFollowsLast(limit, stamps[..|stamps| - 1]);
    }
  }

  /** A request is refused exactly when the window that ends with it already holds the limit. */
  lemma RefusedOnlyWhenFull(limit: int, earlier: seq<int>, now: int)
    requires Increasing(earlier + [now])
    ensures !Allowed(Run(limit, earlier), limit, now) <==>
            CountIn(Log(limit, earlier), now - WINDOW_MS + 1, now) >= limit
  {
    var all := earlier + [now];
    assert forall i :: 0 <= i < |earlier| ==> earlier[i] == all[i] && all[i] < all[|earlier|];
    assert Increasing(earlier);
    LogIsOrdered(limit, earlier);
    RemainingIsWindow(limit, earlier, now);
    CountOfDistinct(Log(limit, earlier), now - WINDOW_MS + 1, now);
    assert Between(Log(limit, earlier), now - WINDOW_MS + 1, now) == Remaining(Run(limit, earlier), now);
  }

  /** Over all runs, requests that share a millisecond included, the limit itself bounds a window only up to 1. */
  lemma SharedMillisecond(limit: int)
    ensures (forall stamps, lo :: Nondecreasing(stamps) ==> WithinLimit(limit, stamps, lo)) <==> limit <= 1
  {
    if limit <= 1 {
      forall stamps, lo | Nondecreasing(stamps)
        ensures WithinLimit(limit, stamps, lo)
      {
        NoMoreThanAll(stamps);
        WindowHoldsCapacity(limit, stamps, |stamps| + 1, lo);
      }
    } else {
      var burst := seq(limit + 1, _ => 0);
      AllAccepted(limit, burst, 1);
      AllInWindow(burst, 0, WINDOW_MS);
      assert Nondecreasing(burst) && !WithinLimit(limit, burst, 0);
    }
  }

  lemma NoMoreThanAll(stamps: seq<int>)
    ensures AtMostPerMs(stamps, |stamps| + 1)
  {
    forall t
      ensures CountAt(stamps, t) <= |stamps| + 1
    {
      CountAtMost(stamps, t, t + 1);
    }
  }

  lemma {:induction false} CountAtMost(log: seq<int>, lo: int, hi: int)
    ensures CountIn(log, lo, hi) <= |log|
    decreases |log|
  {
    if log == [] {
    } else {
      CountAtMost(log[..|log| - 1], lo, hi);
    }
  }

  // ---- The limiter ----

  class RateLimiter {
    const callsPerMinute: int
    var keys: map<string, Stamps>

    constructor (callsPerMinute: int)
      ensures this.callsPerMinute == callsPerMinute && keys == map[]
    {
      this.callsPerMinute := callsPerMinute;
      keys := map[];
    }

    ghost function Of(client: string): Stamps
      reads this
    {
      if client in keys then keys[client] else Stamps({}, 0)
    }

    method Check(client: string, now: int) returns (allowed: bool)
      modifies this
      ensures allowed == Allowed(old(Of(client)), callsPerMinute, now)
      ensures Of(client) == Request(old(Of(client)), callsPerMinute, now)
      ensures forall other :: other != client ==> Of(other) == old(Of(other))
    {
      var entry := if client in keys then keys[client] else Stamps({}, 0);
      if now >= entry.deadline {
        entry := entry.(members := {});
      }
      entry := entry.(members := set t | t in entry.members && t > now - WINDOW_MS);
      keys := keys[client := entry];
      var count := |entry.members|;
      if count >= callsPerMinute {
        return false;
      }
      entry := entry.(members := entry.members + {now});
      entry := entry.(deadline := now + EXPIRE_MS);
      keys := keys[client := entry];
      return true;
    }
  }
}
