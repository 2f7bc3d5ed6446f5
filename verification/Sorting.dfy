/** Stable sorting by an integer key, and filtering, as the sources' library calls provide them. */
module Sorting {

  ghost predicate SortedBy<T>(s: seq<T>, key: T -> int) {
    forall i, j :: 0 <= i < j < |s| ==> key(s[i]) <= key(s[j])
  }

  // ---- Filtering ----

  function Keep<T>(s: seq<T>, f: T -> bool): (r: seq<T>)
    ensures |r| <= |s|
  {
    if s == [] then [] else Keep(s[..|s| - 1], f) + (if f(s[|s| - 1]) then [s[|s| - 1]] else [])
  }

  lemma {:induction false} KeepMembers<T>(s: seq<T>, f: T -> bool, x: T)
    ensures x in Keep(s, f) <==> x in s && f(x)
    decreases |s|
  {
    if s == [] {
    } else {
      KeepMembers(s[..|s| - 1], f, x);
      assert s == s[..|s| - 1] + [s[|s| - 1]];
    }
  }

  lemma {:induction false} KeepAppend<T>(a: seq<T>, b: seq<T>, f: T -> bool)
    ensures Keep(a + b, f) == Keep(a, f) + Keep(b, f)
    decreases |b|
  {
    if b == [] {
      assert a + b == a;
    } else {
      var n := |b| - 1;
      KeepAppend(a, b[..n], f);
      assert (a + b)[..|a + b| - 1] == a + b[..n];
    }
  }

  lemma KeepOne<T>(x: T, f: T -> bool)
    ensures Keep([x], f) == if f(x) then [x] else []
  {
  }

  /** A relation between earlier and later elements survives filtering. */
  lemma {:induction false} KeepPairs<T(!new)>(s: seq<T>, f: T -> bool, rel: (T, T) -> bool)
    requires forall i, j :: 0 <= i < j < |s| ==> rel(s[i], s[j])
    ensures forall i, j :: 0 <= i < j < |Keep(s, f)| ==> rel(Keep(s, f)[i], Keep(s, f)[j])
    decreases |s|
  {
    if s == [] {
    } else {
      var front, last := s[..|s| - 1], s[|s| - 1];
      KeepPairs(front, f, rel);
      forall i | 0 <= i < |Keep(front, f)|
        ensures rel(Keep(front, f)[i], last)
      {
        var x := Keep(front, f)[i];
        KeepMembers(front, f, x);
        var j :| 0 <= j < |front| && front[j] == x;
        assert s[j] == x;
      }
    }
  }

  // ---- Sorting ----

  /** Places x behind every element whose key does not exceed its own. */
  function InsertBehind<T>(s: seq<T>, x: T, key: T -> int): (r: seq<T>)
    ensures |r| == |s| + 1
  {
    if s == [] || key(s[|s| - 1]) <= key(x) then s + [x]
    else InsertBehind(s[..|s| - 1], x, key) + [s[|s| - 1]]
  }

  function StableSort<T>(s: seq<T>, key: T -> int): (r: seq<T>)
    ensures |r| == |s|
  {
    if s == [] then [] else InsertBehind(StableSort(s[..|s| - 1], key), s[|s| - 1], key)
  }

  lemma {:induction false} InsertPermutes<T>(s: seq<T>, x: T, key: T -> int)
    ensures multiset(InsertBehind(s, x, key)) == multiset(s) + multiset{x}
    decreases |s|
  {
    if s == [] || key(s[|s| - 1]) <= key(x) {
    } else {
      InsertPermutes(s[..|s| - 1], x, key);
      assert s == s[..|s| - 1] + [s[|s| - 1]];
    }
  }

  lemma {:induction false} InsertSorts<T>(s: seq<T>, x: T, key: T -> int)
    requires SortedBy(s, key)
    ensures SortedBy(InsertBehind(s, x, key), key)
    ensures forall i :: 0 <= i <= |s| ==> key(InsertBehind(s, x, key)[i]) <= key(x) ||
                                          (s != [] && key(InsertBehind(s, x, key)[i]) <= key(s[|s| - 1]))
    decreases |s|
  {
    if s == [] || key(s[|s| - 1]) <= key(x) {
    } else {
      InsertSorts(s[..|s| - 1], x, key);
    }
  }

  lemma {:induction false} SortSorts<T>(s: seq<T>, key: T -> int)
    ensures SortedBy(StableSort(s, key), key)
    ensures multiset(StableSort(s, key)) == multiset(s)
    decreases |s|
  {
    if s == [] {
    } else {
      SortSorts(s[..|s| - 1], key);
      InsertSorts(StableSort(s[..|s| - 1], key), s[|s| - 1], key);
      InsertPermutes(StableSort(s[..|s| - 1], key), s[|s| - 1], key);
      assert s == s[..|s| - 1] + [s[|s| - 1]];
    }
  }

  lemma SortMembers<T>(s: seq<T>, key: T -> int, x: T)
    ensures x in StableSort(s, key) <==> x in s
  {
    SortSorts(s, key);
    assert x in s <==> x in multiset(s);
    assert x in StableSort(s, key) <==> x in multiset(StableSort(s, key));
  }

  lemma SwapIfOneEmpty<T>(a: seq<T>, b: seq<T>, c: seq<T>)
    requires b == [] || c == []
    ensures (a + c) + b == (a + b) + c
  {
  }

  lemma {:induction false} InsertStable<T(!new)>(s: seq<T>, x: T, key: T -> int, f: T -> bool, k: int)
    requires forall y :: f(y) ==> key(y) == k
    ensures Keep(InsertBehind(s, x, key), f) == Keep(s, f) + Keep([x], f)
    decreases |s|
  {
    if s == [] || key(s[|s| - 1]) <= key(x) {
      KeepAppend(s, [x], f);
    } else {
      var front, last := s[..|s| - 1], s[|s| - 1];
      InsertStable(front, x, key, f, k);
      KeepOne(last, f);
      KeepOne(x, f);
      KeepAppend(InsertBehind(front, x, key), [last], f);
      SwapIfOneEmpty(Keep(front, f), Keep([last], f), Keep([x], f));
    }
  }

  /** Elements that share a key keep their order: filtering them out before or after sorting is the same. */
  lemma {:induction false} SortIsStable<T(!new)>(s: seq<T>, key: T -> int, f: T -> bool, k: int)
    requires forall y :: f(y) ==> key(y) == k
    ensures Keep(StableSort(s, key), f) == Keep(s, f)
    decreases |s|
  {
    if s == [] {
    } else {
      var front, last := s[..|s| - 1], s[|s| - 1];
      SortIsStable(front, key, f, k);
      InsertStable(StableSort(front, key), last, key, f, k);
      KeepOne(last, f);
    }
  }

  // ---- Counting ----

  function Map<T, U>(s: seq<T>, f: T -> U): (r: seq<U>)
    ensures |r| == |s| && forall i :: 0 <= i < |s| ==> r[i] == f(s[i])
  {
    seq(|s|, i requires 0 <= i < |s| => f(s[i]))
  }

  lemma WithoutAt<T>(s: seq<T>, j: nat)
    requires j < |s|
    ensures multiset(s[..j] + s[j + 1..]) == multiset(s) - multiset{s[j]}
  {
    assert s == s[..j] + [s[j]] + s[j + 1..];
  }

  lemma MapAppend<T, U>(a: seq<T>, b: seq<T>, f: T -> U)
    ensures Map(a + b, f) == Map(a, f) + Map(b, f)
  {
  }

  lemma MapWithout<T, U>(s: seq<T>, j: nat, f: T -> U)
    requires j < |s|
    ensures multiset(Map(s, f)) == multiset(Map(s[..j] + s[j + 1..], f)) + multiset{f(s[j])}
  {
    var a, b := s[..j], s[j + 1..];
    assert s == (a + [s[j]]) + b;
    MapAppend(a + [s[j]], b, f);
    MapAppend(a, [s[j]], f);
    MapAppend(a, b, f);
    assert Map([s[j]], f) == [f(s[j])];
  }

  lemma SameWithout<T>(a: seq<T>, i: nat, b: seq<T>, j: nat)
    requires i < |a| && j < |b| && a[i] == b[j] && multiset(a) == multiset(b)
    ensures multiset(a[..i] + a[i + 1..]) == multiset(b[..j] + b[j + 1..])
  {
    WithoutAt(a, i);
    WithoutAt(b, j);
  }

  /** The image of a list as a multiset depends on the list as a multiset only. */
  lemma {:induction false} MapPermutes<T, U>(a: seq<T>, b: seq<T>, f: T -> U)
    requires multiset(a) == multiset(b)
    ensures multiset(Map(a, f)) == multiset(Map(b, f))
    decreases |a|
  {
    SameSize(a, b);
    if a == [] {
    } else {
      assert a[0] in multiset(b);
      var j :| 0 <= j < |b| && b[j] == a[0];
      SameWithout(a, 0, b, j);
      MapWithout(a, 0, f);
      MapWithout(b, j, f);
      MapPermutes(a[..0] + a[1..], b[..j] + b[j + 1..], f);
    }
  }

  lemma SameSize<T>(a: seq<T>, b: seq<T>)
    requires multiset(a) == multiset(b)
    ensures |a| == |b|
  {
    assert |multiset(a)| == |a| && |multiset(b)| == |b|;
  }

  lemma {:induction false} KeepCount<T>(s: seq<T>, f: T -> bool, x: T)
    ensures multiset(Keep(s, f))[x] == if f(x) then multiset(s)[x] else 0
    decreases |s|
  {
    if s == [] {
    } else {
      KeepCount(s[..|s| - 1], f, x);
      assert s == s[..|s| - 1] + [s[|s| - 1]];
    }
  }

  /** Of a list that satisfies f up to some place and not behind it, f keeps that part. */
  lemma {:induction false} KeepFront<T>(s: seq<T>, f: T -> bool, n: nat)
    requires n <= |s| && forall i :: 0 <= i < |s| ==> (f(s[i]) <==> i < n)
    ensures Keep(s, f) == s[..n]
    decreases |s|
  {
    if s == [] {
    } else if n == |s| {
      KeepFront(s[..n - 1], f, n - 1);
      assert s[..n] == s && s[..n - 1][..n - 1] == s[..n - 1];
    } else {
      KeepFront(s[..|s| - 1], f, n);
      assert s[..|s| - 1][..n] == s[..n];
    }
  }

  // ---- Permutations of lists without repetitions ----

  ghost predicate DistinctOn<T, U>(s: seq<T>, f: T -> U) {
    forall i, j :: 0 <= i < j < |s| ==> f(s[i]) != f(s[j])
  }

  lemma TwiceInMultiset<T>(s: seq<T>, i: nat, j: nat)
    requires i < j < |s| && s[i] == s[j]
    ensures multiset(s)[s[i]] >= 2
  {
    assert s == s[..j] + [s[j]] + s[j + 1..];
    assert s[..j][i] == s[i] && s[i] in multiset(s[..j]);
  }

  lemma OnceInMultiset<T, U>(s: seq<T>, f: T -> U, i: nat)
    requires i < |s| && DistinctOn(s, f)
    ensures multiset(s)[s[i]] == 1
  {
    assert s == s[..i] + [s[i]] + s[i + 1..];
    assert s[i] !in s[..i] && s[i] !in s[i + 1..];
    assert s[i] !in multiset(s[..i]) && s[i] !in multiset(s[i + 1..]);
  }

  lemma DistinctPermutes<T, U>(a: seq<T>, b: seq<T>, f: T -> U)
    requires DistinctOn(a, f) && multiset(a) == multiset(b)
    ensures DistinctOn(b, f)
  {
    forall i, j | 0 <= i < j < |b|
      ensures f(b[i]) != f(b[j])
    {
      assert b[i] in multiset(b) && b[j] in multiset(b);
      var x :| 0 <= x < |a| && a[x] == b[i];
      var y :| 0 <= y < |a| && a[y] == b[j];
      if x == y {
        TwiceInMultiset(b, i, j);
        OnceInMultiset(a, f, x);
      }
    }
  }
}
