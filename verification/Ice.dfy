/** ICE candidate priorities, pair priorities, and the ordered check list (RFC 8445, sections 5.1.2.1 and 6.1.2.3). */
module Ice {
  import opened Common
  import opened Sorting

  const TWO_31: int := 0x8000_0000
  const TWO_32: int := 0x1_0000_0000
  const TWO_64: int := 0x1_0000_0000_0000_0000

  type u16 = x: int | 0 <= x < 0x1_0000

  datatype CandidateType = Host | Srflx | Prflx | Relay

  datatype Address = V4(text: string) | V6(text: string)

  datatype Candidate = Candidate(kind: CandidateType, addr: Address, foundation: string, priority: u32)

  datatype PairState = Frozen | Waiting | InProgress | Succeeded | Failed

  datatype Pair = Pair(local: Candidate, remote: Candidate, state: PairState)

  // ---- Candidate priority ----

  function TypePreference(kind: CandidateType): u32 {
    match kind
    case Host => 126
    case Srflx => 100
    case Prflx => 110
    case Relay => 0
  }

  function CandidatePriority(kind: CandidateType, localPref: u16): (p: u32)
    ensures p < TWO_31
  {
    TypePreference(kind) * 0x100_0000 + localPref * 0x100 + 255
  }

  /** Candidates are ordered by type first and local preference second, and different ones never tie. */
  lemma CandidatesOrderByType(a: CandidateType, p: u16, b: CandidateType, q: u16)
    ensures CandidatePriority(a, p) < CandidatePriority(b, q) <==>
            TypePreference(a) < TypePreference(b) || (a == b && p < q)
    ensures CandidatePriority(a, p) == CandidatePriority(b, q) <==> a == b && p == q
  {
  }

  /** Host candidates rank first, then peer reflexive, server reflexive and relayed ones, whatever their preferences. */
  lemma HostsRankFirst(p: u16, q: u16, r: u16, s: u16)
    ensures CandidatePriority(Host, p) > CandidatePriority(Prflx, q)
    ensures CandidatePriority(Prflx, q) > CandidatePriority(Srflx, r)
    ensures CandidatePriority(Srflx, r) > CandidatePriority(Relay, s)
  {
  }

  /** The three fields of a candidate priority: 8 bits of type, 16 bits of preference, 8 bits of component 1. */
  lemma PriorityFields(kind: CandidateType, localPref: u16)
    ensures var p := CandidatePriority(kind, localPref);
            && p % 0x100 == 256 - 1 && (p / 0x100) % 0x1_0000 == localPref
            && p / 0x100_0000 == match kind case Host => 126 case Prflx => 110 case Srflx => 100 case Relay => 0
  {
    var t := TypePreference(kind);
    assert CandidatePriority(kind, localPref) / 0x100 == t * 0x1_0000 + localPref;
  }

  // ---- Pair priority ----

  /** The part of the formula that does not see which side is which. */
  function Base(l: u32, r: u32): (b: int)
    ensures b % 2 == 0
  {
    Min(l, r) * TWO_32 + 2 * Max(l, r)
  }

  /** The value before it is stored in 64 bits. */
  function ExactPriority(l: u32, r: u32): int {
    Base(l, r) + if l > r then 1 else 0
  }

  function PairPriority(l: u32, r: u32): (p: int)
    ensures 0 <= p < TWO_64
  {
    ExactPriority(l, r) % TWO_64
  }

  /** Sixty-four bits are enough exactly when the two priorities are not both the largest u32. */
  lemma OverflowsExactly(l: u32, r: u32)
    ensures ExactPriority(l, r) >= TWO_64 <==> l == U32_MAX && r == U32_MAX
  {
  }

  predicate Before(l: u32, r: u32, l': u32, r': u32) {
    Min(l, r) < Min(l', r') ||
    (Min(l, r) == Min(l', r') && (Max(l, r) < Max(l', r') || (Max(l, r) == Max(l', r') && l <= r && l' > r')))
  }

  ghost predicate OrdersLexicographically(bound: u32) {
    forall l: u32, r: u32, l': u32, r': u32 ::
      l <= bound && r <= bound && l' <= bound && r' <= bound ==>
        (PairPriority(l, r) < PairPriority(l', r') <==> Before(l, r, l', r'))
  }

  /** Pair priorities order by minimum, then maximum, then side, exactly for priorities up to 2^31. */
  lemma LexicographicUpTo(bound: u32)
    ensures OrdersLexicographically(bound) <==> bound <= TWO_31
  {
    if bound <= TWO_31 {
      forall l: u32, r: u32, l': u32, r': u32 | l <= bound && r <= bound && l' <= bound && r' <= bound
        ensures PairPriority(l, r) < PairPriority(l', r') <==> Before(l, r, l', r')
      {
        Lexicographic(l, r, l', r');
      }
    } else {
      var big: u32 := TWO_31 + 1;
      assert PairPriority(0, big) == PairPriority(1, 1);
      assert Before(0, big, 1, 1);
    }
  }

  lemma Lexicographic(l: u32, r: u32, l': u32, r': u32)
    requires l <= TWO_31 && r <= TWO_31 && l' <= TWO_31 && r' <= TWO_31
    ensures PairPriority(l, r) < PairPriority(l', r') <==> Before(l, r, l', r')
  {
    NoWrap(l, r);
    NoWrap(l', r');
    Numbers(Min(l, r), Max(l, r), if l > r then 1 else 0, Min(l', r'), Max(l', r'), if l' > r' then 1 else 0);
  }

  lemma NoWrap(l: u32, r: u32)
    requires l < U32_MAX
    ensures PairPriority(l, r) == Min(l, r) * TWO_32 + 2 * Max(l, r) + if l > r then 1 else 0
  {
  }

  lemma Numbers(n: int, x: int, b: int, n': int, x': int, b': int)
    requires 0 <= n <= x <= TWO_31 && 0 <= n' <= x' <= TWO_31 && 0 <= b <= 1 && 0 <= b' <= 1
    ensures n * TWO_32 + 2 * x + b < n' * TWO_32 + 2 * x' + b' <==>
            n < n' || (n == n' && (x < x' || (x == x' && b < b')))
  {
  }

  /**
   * The two agents see a pair with the sides exchanged. They order two pairs alike exactly when the pairs differ
   * in (minimum, maximum) or have the same side on top.
   */
  lemma MirrorKeepsOrderExactly(l: u32, r: u32, l': u32, r': u32)
    requires l <= TWO_31 && r <= TWO_31 && l' <= TWO_31 && r' <= TWO_31
    ensures (PairPriority(l, r) < PairPriority(l', r') <==> PairPriority(r, l) < PairPriority(r', l')) <==>
            Min(l, r) != Min(l', r') || Max(l, r) != Max(l', r') || l == l'
  {
    Lexicographic(l, r, l', r');
    Lexicographic(r, l, r', l');
  }

  // ---- The check list ----

  predicate SameFamily(a: Address, b: Address) {
    a.V4? == b.V4?
  }

  function PairsWith(l: Candidate, remote: seq<Candidate>): seq<Pair> {
    if remote == [] then []
    else
      var r := remote[|remote| - 1];
      PairsWith(l, remote[..|remote| - 1]) + (if SameFamily(l.addr, r.addr) then [Pair(l, r, Frozen)] else [])
  }

  function AllPairs(local: seq<Candidate>, remote: seq<Candidate>): seq<Pair> {
    if local == [] then []
    else AllPairs(local[..|local| - 1], remote) + PairsWith(local[|local| - 1], remote)
  }

  function Descending(): Pair -> int {
    (p: Pair) => -PairPriority(p.local.priority, p.remote.priority)
  }

  function Unfrozen(pairs: seq<Pair>, n: nat): (r: seq<Pair>)
    ensures |r| == |pairs|
  {
    seq(|pairs|, i requires 0 <= i < |pairs| => if i < n then pairs[i].(state := Waiting) else pairs[i])
  }

  function Sorted(local: seq<Candidate>, remote: seq<Candidate>): seq<Pair> {
    StableSort(AllPairs(local, remote), Descending())
  }

  function CheckList(local: seq<Candidate>, remote: seq<Candidate>): seq<Pair> {
    var sorted := Sorted(local, remote);
    Unfrozen(sorted, Min(|sorted|, 5))
  }

  lemma {:induction false} PairsWithMembers(l: Candidate, remote: seq<Candidate>, p: Pair)
    ensures p in PairsWith(l, remote) <==>
            p.local == l && p.remote in remote && p.state == Frozen && SameFamily(l.addr, p.remote.addr)
    decreases |remote|
  {
    if remote == [] {
    } else {
      var front, last := remote[..|remote| - 1], remote[|remote| - 1];
      PairsWithMembers(l, front, p);
      assert remote == front + [last];
    }
  }

  lemma {:induction false} AllPairsMembers(local: seq<Candidate>, remote: seq<Candidate>, p: Pair)
    ensures p in AllPairs(local, remote) <==>
            p.local in local && p.remote in remote && p.state == Frozen && SameFamily(p.local.addr, p.remote.addr)
    decreases |local|
  {
    if local == [] {
    } else {
      var front, last := local[..|local| - 1], local[|local| - 1];
      AllPairsMembers(front, remote, p);
      PairsWithMembers(last, remote, p);
      assert local == front + [last];
    }
  }

  function OfFamily(cs: seq<Candidate>, a: Address): nat {
    if cs == [] then 0 else OfFamily(cs[..|cs| - 1], a) + if SameFamily(cs[|cs| - 1].addr, a) then 1 else 0
  }

  function PairCount(local: seq<Candidate>, remote: seq<Candidate>): nat {
    if local == [] then 0
    else PairCount(local[..|local| - 1], remote) + OfFamily(remote, local[|local| - 1].addr)
  }

  /** One more remote candidate adds one pair for every local candidate of its family. */
  lemma {:induction false} PairCountAddRemote(local: seq<Candidate>, remote: seq<Candidate>)
    requires remote != []
    ensures PairCount(local, remote) ==
            PairCount(local, remote[..|remote| - 1]) + OfFamily(local, remote[|remote| - 1].addr)
    decreases |local|
  {
    if local == [] {
    } else {
      PairCountAddRemote(local[..|local| - 1], remote);
    }
  }

  /** Both agents form the same number of pairs. */
  lemma {:induction false} PairCountIsSymmetric(local: seq<Candidate>, remote: seq<Candidate>)
    ensures PairCount(local, remote) == PairCount(remote, local)
    decreases |local|
  {
    if local == [] {
      NoPairs(remote);
    } else {
      PairCountIsSymmetric(local[..|local| - 1], remote);
      PairCountAddRemote(remote, local);
    }
  }

  lemma {:induction false} NoPairs(local: seq<Candidate>)
    ensures PairCount(local, []) == 0
    decreases |local|
  {
    if local == [] {
    } else {
      NoPairs(local[..|local| - 1]);
    }
  }

  lemma {:induction false} PairsWithCount(l: Candidate, remote: seq<Candidate>)
    ensures |PairsWith(l, remote)| == OfFamily(remote, l.addr)
    decreases |remote|
  {
    if remote == [] {
    } else {
      PairsWithCount(l, remote[..|remote| - 1]);
    }
  }

  lemma {:induction false} AllPairsCount(local: seq<Candidate>, remote: seq<Candidate>)
    ensures |AllPairs(local, remote)| == PairCount(local, remote)
    decreases |local|
  {
    if local == [] {
    } else {
      AllPairsCount(local[..|local| - 1], remote);
      PairsWithCount(local[|local| - 1], remote);
    }
  }

  function Refrozen(list: seq<Pair>): seq<Pair> {
    seq(|list|, i requires 0 <= i < |list| => list[i].(state := Frozen))
  }

  lemma CheckListIsSorted(ls: seq<Candidate>, rs: seq<Candidate>)
    ensures Refrozen(CheckList(ls, rs)) == Sorted(ls, rs)
  {
    forall i | 0 <= i < |Sorted(ls, rs)|
      ensures Sorted(ls, rs)[i].state == Frozen
    {
      SortMembers(AllPairs(ls, rs), Descending(), Sorted(ls, rs)[i]);
      AllPairsMembers(ls, rs, Sorted(ls, rs)[i]);
    }
  }

  lemma {:induction false} PairsWithTimes(l: Candidate, remote: seq<Candidate>, p: Pair)
    requires p.state == Frozen
    ensures multiset(PairsWith(l, remote))[p] ==
            if p.local == l && l.addr.V4? == p.remote.addr.V4? then multiset(remote)[p.remote] else 0
    decreases |remote|
  {
    if remote == [] {
    } else {
      PairsWithTimes(l, remote[..|remote| - 1], p);
      assert remote == remote[..|remote| - 1] + [remote[|remote| - 1]];
    }
  }

  lemma {:induction false} AllPairsTimes(local: seq<Candidate>, remote: seq<Candidate>, p: Pair)
    requires p.state == Frozen
    ensures multiset(AllPairs(local, remote))[p] ==
            if p.local.addr.V4? == p.remote.addr.V4? then multiset(local)[p.local] * multiset(remote)[p.remote] else 0
    decreases |local|
  {
    if local == [] {
    } else {
      var front, last := local[..|local| - 1], local[|local| - 1];
      AllPairsTimes(front, remote, p);
      PairsWithTimes(last, remote, p);
      CountLast(local, p.local);
      OneMoreTimes(multiset(front)[p.local], multiset(remote)[p.remote]);
      CountBoth(AllPairs(front, remote), PairsWith(last, remote), p);
    }
  }

  lemma CountLast(cs: seq<Candidate>, c: Candidate)
    requires cs != []
    ensures multiset(cs)[c] == multiset(cs[..|cs| - 1])[c] + if cs[|cs| - 1] == c then 1 else 0
  {
    assert cs == cs[..|cs| - 1] + [cs[|cs| - 1]];
  }

  lemma CountBoth(a: seq<Pair>, b: seq<Pair>, p: Pair)
    ensures multiset(a + b)[p] == multiset(a)[p] + multiset(b)[p]
  {
  }

  lemma OneMoreTimes(n: nat, k: nat)
    ensures (n + 1) * k == n * k + k
  {
  }

  /** Each combination of one address family stands in the check list as often as its candidates occur, and no other. */
  lemma CombinedExactly(local: seq<Candidate>, remote: seq<Candidate>, p: Pair)
    requires p.state == Frozen
    ensures multiset(Refrozen(CheckList(local, remote)))[p] ==
            if p.local.addr.V4? == p.remote.addr.V4? then multiset(local)[p.local] * multiset(remote)[p.remote] else 0
  {
    CheckListIsOrdered(local, remote);
    AllPairsTimes(local, remote, p);
  }

  /**
   * The check list holds every compatible combination as often as it occurs, by falling pair priority, and its
   * first min(5, n) pairs, and only they, are waiting.
   */
  lemma CheckListIsOrdered(local: seq<Candidate>, remote: seq<Candidate>)
    ensures var list := CheckList(local, remote);
            && |list| == PairCount(local, remote)
            && SortedBy(list, Descending())
            && (forall i :: 0 <= i < |list| ==> list[i].state == (if i < 5 then Waiting else Frozen))
            && multiset(Refrozen(list)) == multiset(AllPairs(local, remote))
  {
    var sorted, list := Sorted(local, remote), CheckList(local, remote);
    AllPairsCount(local, remote);
    SortSorts(AllPairs(local, remote), Descending());
    CheckListIsSorted(local, remote);
    forall i | 0 <= i < |list|
      ensures list[i].state == (if i < 5 then Waiting else Frozen) && Descending()(list[i]) == Descending()(sorted[i])
    {
      assert Refrozen(list)[i] == sorted[i];
    }
  }

  ghost predicate Mirrors(p: Pair, q: Pair) {
    p.local == q.remote && p.remote == q.local
  }

  ghost predicate HasMirror(p: Pair, list: seq<Pair>) {
    exists j :: 0 <= j < |list| && Mirrors(p, list[j])
  }

  /** The part of the stored pair priority on which both agents agree. */
  function KeyOf(l: u32, r: u32): int {
    Base(l, r) % TWO_64
  }

  predicate SameMinMax(l: u32, r: u32, l': u32, r': u32) {
    Min(l, r) == Min(l', r') && Max(l, r) == Max(l', r')
  }

  ghost predicate KeysTellApart(bound: u32) {
    forall l: u32, r: u32, l': u32, r': u32 ::
      l <= bound && r <= bound && l' <= bound && r' <= bound && KeyOf(l, r) == KeyOf(l', r') ==>
        SameMinMax(l, r, l', r')
  }

  /** The shared part tells (minimum, maximum) apart exactly for priorities up to 2^31. */
  lemma KeysTellApartUpTo(bound: u32)
    ensures KeysTellApart(bound) <==> bound <= TWO_31
  {
    if bound <= TWO_31 {
      forall l: u32, r: u32, l': u32, r': u32 |
        l <= bound && r <= bound && l' <= bound && r' <= bound && KeyOf(l, r) == KeyOf(l', r')
        ensures SameMinMax(l, r, l', r')
      {
        KeyTellsApart(l, r, l', r');
      }
    } else {
      LargeKeysCoincide();
    }
  }

  lemma KeyTellsApart(l: u32, r: u32, l': u32, r': u32)
    requires l <= TWO_31 && r <= TWO_31 && l' <= TWO_31 && r' <= TWO_31 && KeyOf(l, r) == KeyOf(l', r')
    ensures SameMinMax(l, r, l', r')
  {
    KeyFits(l, r);
    KeyFits(l', r');
    Numbers(Min(l, r), Max(l, r), 0, Min(l', r'), Max(l', r'), 0);
    Numbers(Min(l', r'), Max(l', r'), 0, Min(l, r), Max(l, r), 0);
  }

  lemma KeyFits(l: u32, r: u32)
    requires l < U32_MAX
    ensures KeyOf(l, r) == Min(l, r) * TWO_32 + 2 * Max(l, r)
  {
  }

  lemma LargeKeysCoincide()
    ensures KeyOf(0, TWO_31 + 1) == KeyOf(1, 1) && !SameMinMax(0, TWO_31 + 1, 1, 1)
  {
  }

  /** What decides the order of a pair for both agents. */
  function SharedKey(p: Pair): int {
    KeyOf(p.local.priority, p.remote.priority)
  }

  /** Pairs with different shared keys stand in the same order in both lists. */
  ghost predicate SameOrder(a: seq<Pair>, b: seq<Pair>) {
    forall i, j, k, l | 0 <= i < j < |a| && 0 <= k < |b| && 0 <= l < |b| ::
      Mirrors(a[i], b[k]) && Mirrors(a[j], b[l]) && SharedKey(a[i]) != SharedKey(a[j]) ==> k < l
  }

  predicate Tied(p: Pair, q: Pair) {
    SameMinMax(p.local.priority, p.remote.priority, q.local.priority, q.remote.priority)
  }

  /** Pairs that differ in (minimum, maximum) stand in the same order in both lists. */
  ghost predicate SameOrderByMinMax(a: seq<Pair>, b: seq<Pair>) {
    forall i, j, k, l | 0 <= i < j < |a| && 0 <= k < |b| && 0 <= l < |b| ::
      Mirrors(a[i], b[k]) && Mirrors(a[j], b[l]) && !Tied(a[i], a[j]) ==> k < l
  }

  /** CandidatePriority stays below 2^31; candidates from elsewhere may not. */
  ghost predicate PrioritiesUpTo(cs: seq<Candidate>, bound: int) {
    forall c :: c in cs ==> c.priority <= bound
  }

  /**
   * Two agents with mirrored candidate lists: the lists have equal length, every pair of one is a mirrored pair of
   * the other, and pairs with different shared keys stand in the same order in both. For candidates of priorities
   * up to 2^31, and so for all computed ones, these are the pairs that differ in (minimum, maximum).
   */
  lemma MirroredAgentsAgree(ls: seq<Candidate>, rs: seq<Candidate>)
    ensures var a, b := CheckList(ls, rs), CheckList(rs, ls);
            && |a| == |b|
            && (forall p :: p in a ==> HasMirror(p, b))
            && SameOrder(a, b)
            && (PrioritiesUpTo(ls, TWO_31) && PrioritiesUpTo(rs, TWO_31) ==> SameOrderByMinMax(a, b))
  {
    CheckListIsOrdered(ls, rs);
    CheckListIsOrdered(rs, ls);
    PairCountIsSymmetric(ls, rs);
    forall p | p in CheckList(ls, rs)
      ensures HasMirror(p, CheckList(rs, ls))
    {
      var i :| 0 <= i < |CheckList(ls, rs)| && CheckList(ls, rs)[i] == p;
      MirrorExists(ls, rs, i);
    }
    SortedListsAgree(CheckList(ls, rs), CheckList(rs, ls));
    if PrioritiesUpTo(ls, TWO_31) && PrioritiesUpTo(rs, TWO_31) {
      SmallPrioritiesAgree(ls, rs);
    }
  }

  lemma SmallPrioritiesAgree(ls: seq<Candidate>, rs: seq<Candidate>)
    requires PrioritiesUpTo(ls, TWO_31) && PrioritiesUpTo(rs, TWO_31)
    requires SameOrder(CheckList(ls, rs), CheckList(rs, ls))
    ensures SameOrderByMinMax(CheckList(ls, rs), CheckList(rs, ls))
  {
    var a := CheckList(ls, rs);
    KeysTellApartUpTo(TWO_31);
    forall i | 0 <= i < |a|
      ensures a[i].local.priority <= TWO_31 && a[i].remote.priority <= TWO_31
    {
      CheckListMembers(ls, rs, i);
    }
  }

  lemma CheckListMembers(ls: seq<Candidate>, rs: seq<Candidate>, i: nat)
    requires i < |CheckList(ls, rs)|
    ensures CheckList(ls, rs)[i].local in ls && CheckList(ls, rs)[i].remote in rs
  {
    var sorted := StableSort(AllPairs(ls, rs), Descending());
    SortMembers(AllPairs(ls, rs), Descending(), sorted[i]);
    AllPairsMembers(ls, rs, sorted[i]);
  }

  lemma SortedListsAgree(a: seq<Pair>, b: seq<Pair>)
    requires SortedBy(a, Descending()) && SortedBy(b, Descending())
    ensures SameOrder(a, b)
  {
    forall i, j, k, l | 0 <= i < j < |a| && 0 <= k < |b| && 0 <= l < |b| &&
                        Mirrors(a[i], b[k]) && Mirrors(a[j], b[l]) && SharedKey(a[i]) != SharedKey(a[j])
      ensures k < l
    {
      assert Descending()(a[i]) <= Descending()(a[j]);
      MirrorOrder(a[i], a[j], b[k], b[l]);
      assert k != l && !(Descending()(b[l]) <= Descending()(b[k]));
    }
  }

  lemma MirrorOrder(p: Pair, q: Pair, p': Pair, q': Pair)
    requires Mirrors(p, p') && Mirrors(q, q') && Descending()(p) <= Descending()(q)
    requires SharedKey(p) != SharedKey(q)
    ensures Descending()(p') < Descending()(q')
  {
    Parity(p.local.priority, p.remote.priority);
    Parity(p.remote.priority, p.local.priority);
    Parity(q.local.priority, q.remote.priority);
    Parity(q.remote.priority, q.local.priority);
    EvenGap(SharedKey(p), SharedKey(q));
  }

  lemma EvenGap(x: int, y: int)
    requires x % 2 == 0 && y % 2 == 0 && x != y
    ensures x >= y + 2 || y >= x + 2
  {
  }

  /** The last bit never carries. */
  lemma Parity(l: u32, r: u32)
    ensures PairPriority(l, r) == Base(l, r) % TWO_64 + (if l > r then 1 else 0)
    ensures (Base(l, r) % TWO_64) % 2 == 0
    ensures Base(l, r) == Base(r, l)
  {
  }

  lemma MirrorExists(ls: seq<Candidate>, rs: seq<Candidate>, i: nat)
    requires i < |CheckList(ls, rs)|
    ensures HasMirror(CheckList(ls, rs)[i], CheckList(rs, ls))
  {
    var p := CheckList(ls, rs)[i].(state := Frozen);
    var q := Pair(p.remote, p.local, Frozen);
    var sortedA, sortedB := StableSort(AllPairs(ls, rs), Descending()), StableSort(AllPairs(rs, ls), Descending());
    SortMembers(AllPairs(ls, rs), Descending(), sortedA[i]);
    AllPairsMembers(ls, rs, sortedA[i]);
    AllPairsMembers(rs, ls, q);
    SortMembers(AllPairs(rs, ls), Descending(), q);
    var j :| 0 <= j < |sortedB| && sortedB[j] == q;
    assert Mirrors(CheckList(ls, rs)[i], CheckList(rs, ls)[j]);
  }

  // ---- Mirrored pairs, counted ----

  function Mirror(): Pair -> Pair {
    (p: Pair) => Pair(p.remote, p.local, p.state)
  }

  lemma {:induction false} NoPairsAtAll(local: seq<Candidate>)
    ensures AllPairs(local, []) == []
    decreases |local|
  {
    if local == [] {
    } else {
      NoPairsAtAll(local[..|local| - 1]);
    }
  }

  /** One more remote candidate adds the mirrored pairs it would form with the local ones. */
  lemma {:induction false} AllPairsAddRemote(local: seq<Candidate>, remote: seq<Candidate>)
    requires remote != []
    ensures multiset(AllPairs(local, remote)) ==
            multiset(AllPairs(local, remote[..|remote| - 1])) +
            multiset(Map(PairsWith(remote[|remote| - 1], local), Mirror()))
    decreases |local|
  {
    if local == [] {
    } else {
      var front, l, r := local[..|local| - 1], local[|local| - 1], remote[|remote| - 1];
      AllPairsAddRemote(front, remote);
      assert local == front + [l];
      OnePairMore(l, r, front);
      assert AllPairs(local, remote) == AllPairs(front, remote) + PairsWith(l, remote);
    }
  }

  lemma OnePairMore(l: Candidate, r: Candidate, front: seq<Candidate>)
    ensures var more := if SameFamily(l.addr, r.addr) then [Pair(l, r, Frozen)] else [];
            Map(PairsWith(r, front + [l]), Mirror()) == Map(PairsWith(r, front), Mirror()) + more
  {
    assert (front + [l])[..|front|] == front;
    MapAppend(PairsWith(r, front), if SameFamily(r.addr, l.addr) then [Pair(r, l, Frozen)] else [], Mirror());
  }

  /** The combinations of one agent, mirrored, are those of the other, each as often. */
  lemma {:induction false} AllPairsMirror(ls: seq<Candidate>, rs: seq<Candidate>)
    ensures multiset(Map(AllPairs(ls, rs), Mirror())) == multiset(AllPairs(rs, ls))
    decreases |ls|
  {
    if ls == [] {
      NoPairsAtAll(rs);
    } else {
      var n := |ls| - 1;
      AllPairsMirror(ls[..n], rs);
      AllPairsAddRemote(rs, ls);
      MapAppend(AllPairs(ls[..n], rs), PairsWith(ls[n], rs), Mirror());
    }
  }

  lemma SortedMirror(ls: seq<Candidate>, rs: seq<Candidate>)
    ensures multiset(Map(Sorted(ls, rs), Mirror())) == multiset(Sorted(rs, ls))
    ensures SortedBy(Sorted(ls, rs), Descending()) && |Sorted(ls, rs)| == |Sorted(rs, ls)|
  {
    SortSorts(AllPairs(ls, rs), Descending());
    SortSorts(AllPairs(rs, ls), Descending());
    MapPermutes(Sorted(ls, rs), AllPairs(ls, rs), Mirror());
    AllPairsMirror(ls, rs);
    SameSize(Sorted(rs, ls), Map(Sorted(ls, rs), Mirror()));
  }

  /** The two check lists hold mirrored pairs, each as often. */
  lemma CheckListsMirror(ls: seq<Candidate>, rs: seq<Candidate>)
    ensures multiset(Map(Refrozen(CheckList(ls, rs)), Mirror())) == multiset(Refrozen(CheckList(rs, ls)))
  {
    CheckListIsSorted(ls, rs);
    CheckListIsSorted(rs, ls);
    SortedMirror(ls, rs);
  }

  function AtLeast(key: int): Pair -> bool {
    (p: Pair) => SharedKey(p) >= key
  }

  /** A higher pair priority never goes with a smaller shared key. */
  lemma KeysFall(s: seq<Pair>, i: nat, j: nat)
    requires SortedBy(s, Descending()) && i <= j < |s|
    ensures SharedKey(s[i]) >= SharedKey(s[j])
  {
    assert i < j ==> Descending()(s[i]) <= Descending()(s[j]);
    Parity(s[i].local.priority, s[i].remote.priority);
    Parity(s[j].local.priority, s[j].remote.priority);
    if SharedKey(s[i]) != SharedKey(s[j]) {
      EvenGap(SharedKey(s[i]), SharedKey(s[j]));
    }
  }

  /** In a sorted list the pairs of at least some shared key come first. */
  lemma KeysFirst(s: seq<Pair>, key: int)
    requires SortedBy(s, Descending())
    ensures Keep(s, AtLeast(key)) == s[..|Keep(s, AtLeast(key))|]
  {
    var n := 0;
    while n < |s| && AtLeast(key)(s[n])
      invariant n <= |s| && forall i :: 0 <= i < n ==> AtLeast(key)(s[i])
    {
      n := n + 1;
    }
    forall i | 0 <= i < |s|
      ensures AtLeast(key)(s[i]) <==> i < n
    {
      if i >= n {
        KeysFall(s, n, i);
      }
    }
    KeepFront(s, AtLeast(key), n);
  }

  lemma KeyIsShared(p: Pair)
    ensures SharedKey(Mirror()(p)) == SharedKey(p)
  {
    Parity(p.local.priority, p.remote.priority);
  }

  /** Filtering by shared key and mirroring commute. */
  lemma {:induction false} KeepMirror(s: seq<Pair>, key: int)
    ensures Map(Keep(s, AtLeast(key)), Mirror()) == Keep(Map(s, Mirror()), AtLeast(key))
    decreases |s|
  {
    if s == [] {
    } else {
      var front, last := s[..|s| - 1], s[|s| - 1];
      KeepMirror(front, key);
      KeyIsShared(last);
      assert Map(s, Mirror())[..|s| - 1] == Map(front, Mirror());
      MapAppend(Keep(front, AtLeast(key)), if AtLeast(key)(last) then [last] else [], Mirror());
    }
  }

  lemma KeepPermutes(a: seq<Pair>, b: seq<Pair>, f: Pair -> bool)
    requires multiset(a) == multiset(b)
    ensures multiset(Keep(a, f)) == multiset(Keep(b, f)) && |Keep(a, f)| == |Keep(b, f)|
  {
    forall x
      ensures multiset(Keep(a, f))[x] == multiset(Keep(b, f))[x]
    {
      KeepCount(a, f, x);
      KeepCount(b, f, x);
    }
    assert multiset(Keep(a, f)) == multiset(Keep(b, f));
    SameSize(Keep(a, f), Keep(b, f));
  }

  /** A cut between two shared keys cuts mirrored lists in the same place. */
  lemma CutsMirror(a: seq<Pair>, b: seq<Pair>, n: nat)
    requires SortedBy(a, Descending()) && SortedBy(b, Descending()) && multiset(Map(a, Mirror())) == multiset(b)
    requires 0 < n < |a| && SharedKey(a[n - 1]) != SharedKey(a[n])
    ensures n <= |b| && multiset(Map(a[..n], Mirror())) == multiset(b[..n])
  {
    var key := SharedKey(a[n - 1]);
    forall i | 0 <= i < |a|
      ensures AtLeast(key)(a[i]) <==> i < n
    {
      KeysFall(a, n - 1, n);
      if i < n {
        KeysFall(a, i, n - 1);
      } else {
        KeysFall(a, n, i);
      }
    }
    KeepFront(a, AtLeast(key), n);
    KeepMirror(a, key);
    KeepPermutes(Map(a, Mirror()), b, AtLeast(key));
    KeysFirst(b, key);
  }

  function Woken(): Pair -> Pair {
    (p: Pair) => p.(state := Waiting)
  }

  /** The pairs that are waiting at first. */
  function WaitingPairs(list: seq<Pair>): seq<Pair> {
    Keep(list, IsWaiting())
  }

  function IsWaiting(): Pair -> bool {
    (p: Pair) => p.state == Waiting
  }

  lemma WaitingAreFirst(ls: seq<Candidate>, rs: seq<Candidate>)
    ensures WaitingPairs(CheckList(ls, rs)) == Map(Sorted(ls, rs)[..Min(5, |Sorted(ls, rs)|)], Woken())
  {
    var sorted, n := Sorted(ls, rs), Min(5, |Sorted(ls, rs)|);
    forall i | 0 <= i < |sorted|
      ensures sorted[i].state == Frozen
    {
      SortMembers(AllPairs(ls, rs), Descending(), sorted[i]);
      AllPairsMembers(ls, rs, sorted[i]);
    }
    UnfrozenAreWaiting(sorted, n);
  }

  lemma UnfrozenAreWaiting(sorted: seq<Pair>, n: nat)
    requires n <= |sorted| && forall i :: 0 <= i < |sorted| ==> sorted[i].state == Frozen
    ensures WaitingPairs(Unfrozen(sorted, n)) == Map(sorted[..n], Woken())
  {
    var list := Unfrozen(sorted, n);
    forall i | 0 <= i < |list|
      ensures IsWaiting()(list[i]) <==> i < n
    {
    }
    KeepFront(list, IsWaiting(), n);
    forall i | 0 <= i < n
      ensures list[..n][i] == Map(sorted[..n], Woken())[i]
    {
      assert list[i] == sorted[i].(state := Waiting);
    }
  }

  lemma WokenMirror(s: seq<Pair>)
    ensures Map(Map(s, Woken()), Mirror()) == Map(Map(s, Mirror()), Woken())
  {
  }

  /** The shared key separates the fifth pair from the sixth, if there is a sixth. */
  predicate ClearCut(list: seq<Pair>) {
    |list| > 5 ==> SharedKey(list[4]) != SharedKey(list[5])
  }

  /** Two agents with mirrored candidates unfreeze mirrored pairs, each as often, when the cut is clear. */
  lemma MirroredAgentsStartAlike(ls: seq<Candidate>, rs: seq<Candidate>)
    requires ClearCut(CheckList(ls, rs))
    ensures multiset(Map(WaitingPairs(CheckList(ls, rs)), Mirror())) == multiset(WaitingPairs(CheckList(rs, ls)))
  {
    var a, b := Sorted(ls, rs), Sorted(rs, ls);
    SortedMirror(ls, rs);
    SortedMirror(rs, ls);
    var n := Min(5, |a|);
    if |a| > 5 {
      CutsMirror(a, b, 5);
    } else {
      assert a[..n] == a && b[..n] == b;
    }
    WaitingAreFirst(ls, rs);
    WaitingAreFirst(rs, ls);
    WokenMirror(a[..n]);
    MapPermutes(Map(a[..n], Mirror()), b[..n], Woken());
  }

  /** For priorities up to 2^31 the cut is clear when the fifth and the sixth pair differ in (minimum, maximum). */
  lemma CutIsClear(ls: seq<Candidate>, rs: seq<Candidate>)
    requires PrioritiesUpTo(ls, TWO_31) && PrioritiesUpTo(rs, TWO_31)
    requires |CheckList(ls, rs)| > 5 ==> !Tied(CheckList(ls, rs)[4], CheckList(ls, rs)[5])
    ensures ClearCut(CheckList(ls, rs))
  {
    var list := CheckList(ls, rs);
    if |list| > 5 && SharedKey(list[4]) == SharedKey(list[5]) {
      CheckListMembers(ls, rs, 4);
      CheckListMembers(ls, rs, 5);
      KeyTellsApart(list[4].local.priority, list[4].remote.priority, list[5].local.priority, list[5].remote.priority);
    }
  }

  class IceAgent {
    var localCandidates: seq<Candidate>
    var remoteCandidates: seq<Candidate>
    var pairs: seq<Pair>

    constructor (local: seq<Candidate>)
      ensures localCandidates == local && remoteCandidates == [] && pairs == []
    {
      localCandidates, remoteCandidates, pairs := local, [], [];
    }

    method SetRemoteCandidates(candidates: seq<Candidate>)
      modifies this
      ensures localCandidates == old(localCandidates) && remoteCandidates == candidates
      ensures pairs == CheckList(localCandidates, candidates)
    {
      remoteCandidates := candidates;
      FormCandidatePairs();
    }

    method FormCandidatePairs()
      modifies this`pairs
      ensures pairs == CheckList(localCandidates, remoteCandidates)
    {
      var formed: seq<Pair> := [];
      for i := 0 to |localCandidates|
        invariant formed == AllPairs(localCandidates[..i], remoteCandidates)
      {
        assert localCandidates[..i + 1][..i] == localCandidates[..i];
        var l := localCandidates[i];
        ghost var before := formed;
        for j := 0 to |remoteCandidates|
          invariant formed == before + PairsWith(l, remoteCandidates[..j])
        {
          assert remoteCandidates[..j + 1][..j] == remoteCandidates[..j];
          var r := remoteCandidates[j];
          if l.addr.V4? == r.addr.V4? {
            formed := formed + [Pair(l, r, Frozen)];
          }
        }
        assert remoteCandidates[..|remoteCandidates|] == remoteCandidates;
      }
      assert localCandidates[..|localCandidates|] == localCandidates;
      formed := StableSort(formed, Descending());
      ghost var sorted := formed;
      var unfreezeCount := Min(|formed|, 5);
      for i := 0 to unfreezeCount
        invariant |formed| == |sorted|
        invariant formed == Unfrozen(sorted, i)
      {
        formed := formed[i := formed[i].(state := Waiting)];
      }
      pairs := formed;
    }
  }
}
