/** Small types and list facts shared by the protocol modules. */
module Common {

  datatype Option<+T> = None | Some(value: T)

  const U32_MAX: int := 0xFFFF_FFFF

  type u32 = x: int | 0 <= x <= U32_MAX

  type byte = x: int | 0 <= x < 256

  function Max(a: int, b: int): int {
    if a >= b then a else b
  }

  function Min(a: int, b: int): int {
    if a <= b then a else b
  }

  function Pow2(n: nat): (p: nat)
    ensures p >= 1
  {
    if n == 0 then 1 else 2 * Pow2(n - 1)
  }

  lemma MultipleBounds(n: int, d: int)
    requires n > 0
    ensures d >= 1 ==> n * d >= n
    ensures d <= -1 ==> n * d <= -n
  {
  }

  lemma QuotientIs(x: nat, n: nat, q: nat, r: nat)
    requires n > 0 && r < n && x == n * q + r
    ensures x / n == q
  {
    var d := x / n - q;
    assert x == n * (x / n) + x % n;
    assert n * d == r - x % n;
    MultipleBounds(n, d);
  }

  lemma Divided(x: nat, n: nat)
    requires n > 0
    ensures x == n * (x / n) + x % n && 0 <= x % n < n && x / n >= 0
  {
  }

  lemma TimesSum(n: nat, m: nat, h: nat, b: nat)
    ensures n * (m * h + b) == (n * m) * h + n * b
  {
    assert n * (m * h + b) == n * (m * h) + n * b;
  }

  lemma DigitFits(n: nat, m: nat, b: nat, r: nat)
    requires b < m && r < n
    ensures n * b + r < n * m
  {
    var rest := m - 1 - b;
    assert n * m == n * (b + 1 + rest);
    assert n * (b + 1 + rest) == n * b + n + n * rest;
    assert n * rest >= 0;
  }

  /** Dividing twice is dividing by the product. */
  lemma DivideTwice(x: nat, n: nat, m: nat)
    requires n > 0 && m > 0
    ensures n * m > 0 && x / (n * m) == (x / n) / m
  {
    Divided(x, n);
    Divided(x / n, m);
    var h, b, r := (x / n) / m, (x / n) % m, x % n;
    TimesSum(n, m, h, b);
    DigitFits(n, m, b, r);
    QuotientIs(x, n * m, h, n * b + r);
  }

  function Lookup<K, V>(m: map<K, V>, k: K): Option<V> {
    if k in m then Some(m[k]) else None
  }

  ghost predicate Distinct<T>(s: seq<T>) {
    forall i, j :: 0 <= i < j < |s| ==> s[i] != s[j]
  }

  /** Pigeonhole: a list without repetitions drawn from a finite set is no longer than the set. */
  lemma {:induction false} DistinctFits<T>(s: seq<T>, pool: set<T>)
    requires Distinct(s)
    requires forall x :: x in s ==> x in pool
    ensures |s| <= |pool|
    decreases |s|
  {
    if s == [] {
    } else {
      var x := s[0];
      assert s[1..] == [] || x !in s[1..];
      DistinctFits(s[1..], pool - {x});
      assert |pool - {x}| == |pool| - 1;
    }
  }

  lemma {:induction false} SubsetSize<T>(a: set<T>, b: set<T>)
    requires a <= b
    ensures |a| <= |b|
    decreases |a|
  {
    if a == {} {
    } else {
      var x :| x in a;
      SubsetSize(a - {x}, b - {x});
      assert |a - {x}| == |a| - 1 && |b - {x}| == |b| - 1;
    }
  }

  // ---- Histories ----

  /** What holds at the start, and with each step after it, holds at the end. */
  lemma {:induction false} Persists(holds: nat -> bool, start: nat, end: nat)
    requires start <= end && holds(start)
    requires forall k: nat :: start <= k < end && holds(k) ==> holds(k + 1)
    ensures holds(end)
    decreases end
  {
    if start == end {
    } else {
      Persists(holds, start, end - 1);
    }
  }

  /** The event at i does something that none after it undoes. */
  ghost predicate Lasts<T>(events: seq<T>, does: T -> bool, undoes: T -> bool, i: nat) {
    i < |events| && does(events[i]) && forall j :: i < j < |events| ==> !undoes(events[j])
  }

  ghost predicate LastsSomewhere<T>(events: seq<T>, does: T -> bool, undoes: T -> bool) {
    exists i: nat :: Lasts(events, does, undoes, i)
  }

  lemma LastsOneMore<T>(events: seq<T>, e: T, does: T -> bool, undoes: T -> bool)
    ensures LastsSomewhere(events + [e], does, undoes) <==>
            does(e) || (LastsSomewhere(events, does, undoes) && !undoes(e))
  {
    var all := events + [e];
    assert all[|events|] == e && forall i :: 0 <= i < |events| ==> all[i] == events[i];
    if does(e) {
      assert Lasts(all, does, undoes, |events|);
    }
    if i: nat :| Lasts(events, does, undoes, i) {
      assert !undoes(e) ==> Lasts(all, does, undoes, i);
    }
    if i: nat :| Lasts(all, does, undoes, i) {
      assert i < |events| ==> Lasts(events, does, undoes, i) && !undoes(all[|events|]);
    }
  }
}
