/**
 * The Kademlia routing table: 160-bit identifiers as 20 bytes, the XOR metric, 160 buckets of at most 20 peers,
 * and the search for the peers closest to a target.
 */
module Kademlia {
  import opened Common
  import opened Sorting

  const ID_BYTES: nat := 20
  const BUCKETS: nat := 160
  const K: nat := 20

  type KademliaId = s: seq<byte> | |s| == 20 witness seq(20, _ => 0)

  // ---- Exclusive or, on naturals ----

  /** The exclusive or of the lowest bits. */
  function XorBit(a: nat, b: nat): nat {
    if a % 2 == b % 2 then 0 else 1
  }

  function Xor(a: nat, b: nat): (x: nat)
    decreases a + b
  {
    if a == 0 && b == 0 then 0 else 2 * Xor(a / 2, b / 2) + XorBit(a, b)
  }

  lemma {:induction false} XorCommutes(a: nat, b: nat)
    ensures Xor(a, b) == Xor(b, a)
    decreases a + b
  {
    if a == 0 && b == 0 {
    } else {
      XorCommutes(a / 2, b / 2);
    }
  }

  lemma XorOfDigits(x: nat, y: nat, h: nat, k: nat, b: nat, c: nat)
    requires x == 2 * h + b && y == 2 * k + c && b < 2 && c < 2
    ensures Xor(x, y) == 2 * Xor(h, k) + if b == c then 0 else 1
  {
  }

  lemma {:induction false} XorAssociates(a: nat, b: nat, c: nat)
    ensures Xor(Xor(a, b), c) == Xor(a, Xor(b, c))
    decreases a + b + c
  {
    if a == 0 && b == 0 && c == 0 {
      assert Xor(0, 0) == 0;
    } else {
      var p, q, r := a / 2, b / 2, c / 2;
      var i, j, k := a % 2, b % 2, c % 2;
      XorAssociates(p, q, r);
      XorOfDigits(a, b, p, q, i, j);
      XorOfDigits(b, c, q, r, j, k);
      XorOfDigits(Xor(a, b), c, Xor(p, q), r, if i == j then 0 else 1, k);
      XorOfDigits(a, Xor(b, c), p, Xor(q, r), i, if j == k then 0 else 1);
    }
  }

  lemma {:induction false} XorZero(a: nat)
    ensures Xor(a, 0) == a && Xor(a, a) == 0
    decreases a
  {
    if a == 0 {
    } else {
      XorZero(a / 2);
    }
  }

  lemma {:induction false} XorBelowSum(a: nat, b: nat)
    ensures Xor(a, b) <= a + b
    decreases a + b
  {
    if a == 0 && b == 0 {
    } else {
      XorBelowSum(a / 2, b / 2);
    }
  }

  lemma {:induction false} XorFits(a: nat, b: nat, bits: nat)
    requires a < Pow2(bits) && b < Pow2(bits)
    ensures Xor(a, b) < Pow2(bits)
    decreases bits
  {
    if bits > 0 {
      XorFits(a / 2, b / 2, bits - 1);
    } else {
      XorZero(0);
    }
  }

  function Shift(a: nat, bits: nat): nat {
    if bits == 0 then a else 2 * Shift(a, bits - 1)
  }

  /** Low and high parts do not mix. */
  lemma {:induction false} XorParts(a: nat, b: nat, c: nat, d: nat, bits: nat)
    requires c < Pow2(bits) && d < Pow2(bits)
    ensures Xor(Shift(a, bits) + c, Shift(b, bits) + d) == Shift(Xor(a, b), bits) + Xor(c, d)
    decreases bits
  {
    if bits == 0 {
      XorZero(0);
    } else {
      XorParts(a, b, c / 2, d / 2, bits - 1);
      XorPartsStep(Shift(a, bits - 1), Shift(b, bits - 1), Shift(Xor(a, b), bits - 1), c, d);
    }
  }

  lemma ShiftByte(a: nat)
    ensures Shift(a, 8) == a * 256
  {
    assert Shift(a, 0) == a;
    assert Shift(a, 2) == 2 * Shift(a, 1) == 4 * Shift(a, 0);
    assert Shift(a, 4) == 4 * Shift(a, 2);
    assert Shift(a, 6) == 4 * Shift(a, 4);
    assert Shift(a, 8) == 4 * Shift(a, 6);
  }

  lemma XorPartsStep(ap: nat, bp: nat, xp: nat, c: nat, d: nat)
    requires Xor(ap + c / 2, bp + d / 2) == xp + Xor(c / 2, d / 2)
    ensures Xor(2 * ap + c, 2 * bp + d) == 2 * xp + Xor(c, d)
  {
    XorOfDigits(2 * ap + c, 2 * bp + d, ap + c / 2, bp + d / 2, c % 2, d % 2);
    XorOfDigits(c, d, c / 2, d / 2, c % 2, d % 2);
  }

  // ---- Identifiers as numbers ----

  /** The big-endian value of a byte string. */
  function Value(s: seq<byte>): nat {
    if s == [] then 0 else Value(s[..|s| - 1]) * 256 + s[|s| - 1]
  }

  function Distance(a: seq<byte>, b: seq<byte>): (d: seq<byte>)
    requires |a| == |b|
    ensures |d| == |a|
  {
    seq(|a|, i requires 0 <= i < |a| => XorByte(a[i], b[i]))
  }

  function XorByte(a: byte, b: byte): byte {
    assert Pow2(8) == 256;
    XorFits(a, b, 8);
    Xor(a, b)
  }

  /** The byte-wise distance is the exclusive or of the two identifiers read as numbers. */
  lemma {:induction false} DistanceIsXor(a: seq<byte>, b: seq<byte>)
    requires |a| == |b|
    ensures Value(Distance(a, b)) == Xor(Value(a), Value(b))
    decreases |a|
  {
    if a == [] {
      XorZero(0);
    } else {
      var n := |a| - 1;
      DistanceIsXor(a[..n], b[..n]);
      assert Distance(a, b)[..n] == Distance(a[..n], b[..n]);
      assert Pow2(8) == 256;
      XorParts(Value(a[..n]), Value(b[..n]), a[n], b[n], 8);
      ShiftByte(Value(a[..n]));
      ShiftByte(Value(b[..n]));
      ShiftByte(Xor(Value(a[..n]), Value(b[..n])));
    }
  }

  lemma SameDigits(x: nat, d: byte, y: nat, e: byte)
    requires 256 * x + d == 256 * y + e
    ensures x == y && d == e
  {
  }

  lemma {:induction false} ValueIsInjective(a: seq<byte>, b: seq<byte>)
    requires |a| == |b| && Value(a) == Value(b)
    ensures a == b
    decreases |a|
  {
    if a == [] {
    } else {
      var n := |a| - 1;
      SameDigits(Value(a[..n]), a[n], Value(b[..n]), b[n]);
      ValueIsInjective(a[..n], b[..n]);
      assert a == a[..n] + [a[n]] && b == b[..n] + [b[n]];
    }
  }

  ghost function Dist(a: KademliaId, b: KademliaId): nat {
    Value(Distance(a, b))
  }

  /** The XOR distance is symmetric, zero only between equal identifiers, and obeys the triangle inequality. */
  lemma DistanceIsMetric(a: KademliaId, b: KademliaId, c: KademliaId)
    ensures Dist(a, b) == Dist(b, a)
    ensures Dist(a, b) == 0 <==> a == b
    ensures Dist(a, c) <= Dist(a, b) + Dist(b, c)
  {
    DistanceIsXor(a, b);
    DistanceIsXor(b, a);
    DistanceIsXor(b, c);
    DistanceIsXor(a, c);
    XorCommutes(Value(a), Value(b));
    XorThrough(Value(a), Value(b), Value(c));
    XorBelowSum(Xor(Value(a), Value(b)), Xor(Value(b), Value(c)));
    DistanceZero(a, b);
  }

  lemma DistanceZero(a: KademliaId, b: KademliaId)
    ensures Dist(a, b) == 0 <==> a == b
  {
    DistanceIsXor(a, b);
    XorZero(Value(a));
    if Dist(a, b) == 0 {
      XorCancels(Value(a), Value(b));
      XorZero(Value(b));
      XorCommutes(0, Value(b));
      ValueIsInjective(a, b);
    }
  }

  lemma XorThrough(x: nat, y: nat, z: nat)
    ensures Xor(Xor(x, y), Xor(y, z)) == Xor(x, z)
  {
    XorAssociates(x, y, Xor(y, z));
    XorAssociates(y, y, z);
    XorZero(y);
    XorZero(z);
    XorCommutes(0, z);
  }

  lemma XorCancels(x: nat, y: nat)
    ensures Xor(Xor(x, y), y) == x
  {
    XorAssociates(x, y, y);
    XorZero(y);
    XorZero(x);
  }

  /** Unidirectionality: for a given point and distance there is only one identifier. */
  lemma DistanceIsUnidirectional(a: KademliaId, b: KademliaId, c: KademliaId)
    requires Dist(a, b) == Dist(a, c)
    ensures b == c
  {
    DistanceIsXor(a, b);
    DistanceIsXor(a, c);
    XorCommutes(Value(a), Value(b));
    XorCommutes(Value(a), Value(c));
    XorCancels(Value(b), Value(a));
    XorCancels(Value(c), Value(a));
    ValueIsInjective(b, c);
  }

  /** Bit by bit, an exclusive or. */
  lemma {:induction false} XorBits(a: nat, b: nat, j: nat)
    ensures (Xor(a, b) / Pow2(j)) % 2 == 0 <==> (a / Pow2(j)) % 2 == (b / Pow2(j)) % 2
    decreases j
  {
    if j == 0 {
      assert Pow2(0) == 1;
    } else {
      XorBits(a / 2, b / 2, j - 1);
      DivideTwice(a, 2, Pow2(j - 1));
      DivideTwice(b, 2, Pow2(j - 1));
      DivideTwice(Xor(a, b), 2, Pow2(j - 1));
      assert Xor(a, b) / 2 == Xor(a / 2, b / 2);
    }
  }

  // ---- Buckets ----

  function LeadingZeros(b: byte): (z: nat)
    requires b != 0
    ensures z < 8 && Pow2(7 - z) <= b < Pow2(8 - z)
  {
    assert Pow2(8) == 256 && Pow2(7) == 128 && Pow2(6) == 64 && Pow2(5) == 32 && Pow2(4) == 16;
    assert Pow2(3) == 8 && Pow2(2) == 4 && Pow2(1) == 2 && Pow2(0) == 1;
    if b >= 128 then 0 else if b >= 64 then 1 else if b >= 32 then 2 else if b >= 16 then 3
    else if b >= 8 then 4 else if b >= 4 then 5 else if b >= 2 then 6 else 7
  }

  /** The number of leading zero bits of a byte string, counting from its byte i on; 0 when there is no set bit. */
  function FirstBit(d: seq<byte>, i: nat): nat
    requires i <= |d|
    decreases |d| - i
  {
    if i == |d| then 0
    else if d[i] != 0 then Min(i * 8 + LeadingZeros(d[i]), BUCKETS - 1)
    else FirstBit(d, i + 1)
  }

  function BucketIndex(ours: KademliaId, peer: KademliaId): nat {
    FirstBit(Distance(ours, peer), 0)
  }

  lemma PowPlusByte(n: nat)
    ensures Pow2(n + 8) == 256 * Pow2(n)
  {
    assert Pow2(n + 2) == 4 * Pow2(n);
    assert Pow2(n + 4) == 4 * Pow2(n + 2);
    assert Pow2(n + 6) == 4 * Pow2(n + 4);
    assert Pow2(n + 8) == 4 * Pow2(n + 6);
  }

  /** A string of n bytes after a leading byte that lies between two powers of two. */
  lemma {:induction false} ValueRange(d: seq<byte>, z: nat)
    requires |d| > 0 && z < 8 && Pow2(7 - z) <= d[0] < Pow2(8 - z)
    ensures Pow2(8 * |d| - 1 - z) <= Value(d) < Pow2(8 * |d| - z)
    decreases |d|
  {
    var n := |d| - 1;
    if n == 0 {
      assert d[..0] == [] && Value(d) == d[0];
    } else {
      ValueRange(d[..n], z);
      assert d[..n][0] == d[0];
      PowPlusByte(8 * n - 1 - z);
      PowPlusByte(8 * n - z);
    }
  }

  lemma {:induction false} ValueSkipsZeros(d: seq<byte>, i: nat)
    requires i <= |d| && forall j :: 0 <= j < i ==> d[j] == 0
    ensures Value(d) == Value(d[i..])
    decreases |d|
  {
    if i < |d| {
      var n := |d| - 1;
      ValueSkipsZeros(d[..n], i);
      assert d[i..][..|d[i..]| - 1] == d[..n][i..];
    } else if i > 0 {
      ValueSkipsZeros(d[..i - 1], i - 1);
      assert d[..i - 1][i - 1..] == [] && d[i..] == [];
    }
  }

  lemma {:induction false} FirstBitRange(d: seq<byte>, i: nat)
    requires |d| == ID_BYTES && i <= |d| && (forall j :: 0 <= j < i ==> d[j] == 0)
    requires Value(d) != 0
    ensures FirstBit(d, i) < BUCKETS
    ensures Pow2(BUCKETS - 1 - FirstBit(d, i)) <= Value(d) < Pow2(BUCKETS - FirstBit(d, i))
    decreases |d| - i
  {
    ValueSkipsZeros(d, i);
    if i == |d| {
    } else if d[i] != 0 {
      ValueRange(d[i..], LeadingZeros(d[i]));
    } else {
      FirstBitRange(d, i + 1);
    }
  }

  /** Bucket i holds exactly the XOR distances in [2^(159-i), 2^(160-i)). */
  lemma BucketIsDistanceRange(ours: KademliaId, peer: KademliaId, i: nat)
    requires ours != peer && i < BUCKETS
    ensures BucketIndex(ours, peer) < BUCKETS
    ensures BucketIndex(ours, peer) == i <==> Pow2(BUCKETS - 1 - i) <= Dist(ours, peer) < Pow2(BUCKETS - i)
  {
    DistanceIsMetric(ours, peer, ours);
    FirstBitRange(Distance(ours, peer), 0);
    var k := BucketIndex(ours, peer);
    if i < k {
      PowMonotone(BUCKETS - k, BUCKETS - 1 - i);
    } else if k < i {
      PowMonotone(BUCKETS - i, BUCKETS - 1 - k);
    }
  }

  lemma {:induction false} PowMonotone(m: nat, n: nat)
    requires m <= n
    ensures Pow2(m) <= Pow2(n)
    decreases n
  {
    if m >= n {
    } else {
      PowMonotone(m, n - 1);
    }
  }

  /** Our own identifier would land in bucket 0, among the farthest peers. */
  lemma OwnIdInBucketZero(ours: KademliaId)
    ensures BucketIndex(ours, ours) == 0 && Dist(ours, ours) < Pow2(BUCKETS - 1)
  {
    var d := Distance(ours, ours);
    forall i | 0 <= i < |d|
      ensures d[i] == 0
    {
      XorZero(ours[i]);
    }
    NoBit(d, 0);
    DistanceIsMetric(ours, ours, ours);
  }

  lemma {:induction false} NoBit(d: seq<byte>, i: nat)
    requires i <= |d| && forall j :: 0 <= j < |d| ==> d[j] == 0
    ensures FirstBit(d, i) == 0
    decreases |d| - i
  {
    if i >= |d| {
    } else {
      NoBit(d, i + 1);
    }
  }

  // ---- The table ----

  datatype Peer = Peer(id: KademliaId, addr: string, lastSeen: nat)

  datatype Bucket = Bucket(peers: seq<Peer>, lastUpdated: nat)

  type Table = seq<Bucket>

  function Position(peers: seq<Peer>, id: KademliaId): (i: nat)
    ensures i <= |peers|
    ensures i < |peers| ==> peers[i].id == id
    ensures forall j :: 0 <= j < i ==> peers[j].id != id
  {
    if peers == [] || peers[0].id == id then 0 else 1 + Position(peers[1..], id)
  }

  function Offer(b: Bucket, p: Peer, now: nat): Bucket {
    var i := Position(b.peers, p.id);
    if i < |b.peers| then Bucket(b.peers[i := b.peers[i].(lastSeen := now)], now)
    else if |b.peers| < K then Bucket(b.peers + [p], now)
    else Bucket(b.peers, now)
  }

  function Empty(now: nat): (t: Table)
    ensures |t| == BUCKETS
  {
    seq(BUCKETS, _ => Bucket([], now))
  }

  function Add(ours: KademliaId, t: Table, p: Peer, now: nat): (t': Table)
    requires |t| == BUCKETS
    ensures |t'| == BUCKETS
  {
    var i := BucketIndex(ours, p.id);
    if i < |t| then t[i := Offer(t[i], p, now)] else t
  }

  function IdOf(): Peer -> KademliaId {
    (p: Peer) => p.id
  }

  ghost predicate DistinctIds(peers: seq<Peer>) {
    DistinctOn(peers, IdOf())
  }

  ghost predicate BucketOk(ours: KademliaId, i: nat, b: Bucket) {
    && |b.peers| <= K
    && DistinctIds(b.peers)
    && forall j :: 0 <= j < |b.peers| ==> b.peers[j].id != ours && BucketIndex(ours, b.peers[j].id) == i
  }

  ghost predicate TableOk(ours: KademliaId, t: Table) {
    |t| == BUCKETS && forall i :: 0 <= i < |t| ==> BucketOk(ours, i, t[i])
  }

  /** A run offers peers one after the other, each at some time. */
  function Run(ours: KademliaId, start: nat, offers: seq<(Peer, nat)>): (t: Table)
    ensures |t| == BUCKETS
  {
    if offers == [] then Empty(start)
    else
      var n := |offers| - 1;
      Add(ours, Run(ours, start, offers[..n]), offers[n].0, offers[n].1)
  }

  lemma OfferOk(ours: KademliaId, b: Bucket, p: Peer, now: nat)
    requires p.id != ours && BucketOk(ours, BucketIndex(ours, p.id), b)
    ensures BucketOk(ours, BucketIndex(ours, p.id), Offer(b, p, now))
  {
    var i, ps := Position(b.peers, p.id), Offer(b, p, now).peers;
    if i < |b.peers| {
      assert forall j :: 0 <= j < |ps| ==> IdOf()(ps[j]) == IdOf()(b.peers[j]);
    }
  }

  /**
   * In every run that offers no peer with our own identifier, every bucket holds at most 20 peers, all of its
   * own distance range, and no identifier occurs twice in the whole table.
   */
  lemma {:induction false} RunsAreOk(ours: KademliaId, start: nat, offers: seq<(Peer, nat)>)
    requires forall k :: 0 <= k < |offers| ==> offers[k].0.id != ours
    ensures TableOk(ours, Run(ours, start, offers))
    decreases |offers|
  {
    if offers == [] {
    } else {
      var n := |offers| - 1;
      RunsAreOk(ours, start, offers[..n]);
      var t, p := Run(ours, start, offers[..n]), offers[n].0;
      if BucketIndex(ours, p.id) < BUCKETS {
        OfferOk(ours, t[BucketIndex(ours, p.id)], p, offers[n].1);
      }
    }
  }

  // ---- What a bucket holds ----

  lemma IndexInRange(ours: KademliaId, peer: KademliaId)
    ensures BucketIndex(ours, peer) < BUCKETS
  {
    if ours == peer {
      OwnIdInBucketZero(ours);
    } else {
      BucketIsDistanceRange(ours, peer, 0);
    }
  }

  function Ids(peers: seq<Peer>): (ids: seq<KademliaId>)
    ensures |ids| == |peers|
  {
    seq(|peers|, j requires 0 <= j < |peers| => peers[j].id)
  }

  function Noted(ids: seq<KademliaId>, id: KademliaId): seq<KademliaId> {
    if id in ids then ids else ids + [id]
  }

  /** The identifiers of bucket i that were offered, each once, in the order in which they were first offered. */
  function Offered(ours: KademliaId, offers: seq<(Peer, nat)>, i: nat): seq<KademliaId> {
    if offers == [] then []
    else
      var earlier, id := Offered(ours, offers[..|offers| - 1], i), offers[|offers| - 1].0.id;
      if BucketIndex(ours, id) == i then Noted(earlier, id) else earlier
  }

  function FirstK(ids: seq<KademliaId>): seq<KademliaId> {
    ids[..Min(K, |ids|)]
  }

  lemma OfferNotes(b: Bucket, p: Peer, now: nat, ids: seq<KademliaId>)
    requires Ids(b.peers) == FirstK(ids)
    ensures Ids(Offer(b, p, now).peers) == FirstK(Noted(ids, p.id))
  {
    var i := Position(b.peers, p.id);
    if i < |b.peers| {
      assert Ids(b.peers)[i] == p.id && p.id in ids;
    } else {
      assert p.id !in FirstK(ids) by {
        assert forall j :: 0 <= j < |b.peers| ==> Ids(b.peers)[j] != p.id;
      }
      if p.id in ids {
        assert FirstK(ids) == ids || |ids| > K;
      } else {
        assert Ids(b.peers + [p]) == Ids(b.peers) + [p.id];
      }
    }
  }

  /** In every run bucket i holds the first 20 offered identifiers of its range, in the order of their first offers. */
  lemma {:induction false} BucketHoldsFirstOffered(ours: KademliaId, start: nat, offers: seq<(Peer, nat)>, i: nat)
    requires i < BUCKETS
    ensures var held, offered := Run(ours, start, offers)[i].peers, Offered(ours, offers, i);
            Ids(held) == FirstK(offered) && |held| == Min(20, |offered|)
    decreases |offers|
  {
    if offers == [] {
    } else {
      var n := |offers| - 1;
      BucketHoldsFirstOffered(ours, start, offers[..n], i);
      IndexInRange(ours, offers[n].0.id);
      OfferNotes(Run(ours, start, offers[..n])[i], offers[n].0, offers[n].1, Offered(ours, offers[..n], i));
    }
  }

  ghost predicate WasOffered(offers: seq<(Peer, nat)>, id: KademliaId) {
    exists k :: 0 <= k < |offers| && offers[k].0.id == id
  }

  /** x was offered for the first time before y was. */
  ghost predicate OfferedBefore(offers: seq<(Peer, nat)>, x: KademliaId, y: KademliaId) {
    exists k :: 0 <= k < |offers| && offers[k].0.id == x && forall j :: 0 <= j <= k ==> offers[j].0.id != y
  }

  lemma OfferedOneMore(front: seq<(Peer, nat)>, last: (Peer, nat), id: KademliaId)
    ensures WasOffered(front + [last], id) <==> WasOffered(front, id) || last.0.id == id
  {
    var offers := front + [last];
    assert offers[|front|] == last && forall k :: 0 <= k < |front| ==> offers[k] == front[k];
  }

  lemma {:induction false} OfferedIsComplete(ours: KademliaId, offers: seq<(Peer, nat)>, i: nat, id: KademliaId)
    ensures id in Offered(ours, offers, i) <==> BucketIndex(ours, id) == i && WasOffered(offers, id)
    decreases |offers|
  {
    if offers == [] {
    } else {
      var n := |offers| - 1;
      OfferedIsComplete(ours, offers[..n], i, id);
      OfferedOneMore(offers[..n], offers[n], id);
      assert offers == offers[..n] + [offers[n]];
    }
  }

  lemma StillBefore(front: seq<(Peer, nat)>, last: (Peer, nat), x: KademliaId, y: KademliaId)
    requires OfferedBefore(front, x, y) || (WasOffered(front, x) && !WasOffered(front, y))
    ensures OfferedBefore(front + [last], x, y)
  {
    var offers := front + [last];
    var k :| 0 <= k < |front| && front[k].0.id == x && forall j :: 0 <= j <= k ==> front[j].0.id != y;
    assert forall j :: 0 <= j < |front| ==> offers[j] == front[j];
    assert offers[k].0.id == x;
  }

  lemma {:induction false} OfferedOrder(ours: KademliaId, offers: seq<(Peer, nat)>, i: nat, a: nat, b: nat)
    requires a < b < |Offered(ours, offers, i)|
    ensures var ids := Offered(ours, offers, i); ids[a] != ids[b] && OfferedBefore(offers, ids[a], ids[b])
    decreases |offers|
  {
    if offers == [] {
    } else {
      var n := |offers| - 1;
      var front, earlier, ids := offers[..n], Offered(ours, offers[..n], i), Offered(ours, offers, i);
      assert offers == front + [offers[n]];
      if b < |earlier| {
        OfferedOrder(ours, front, i, a, b);
      } else {
        OfferedIsComplete(ours, front, i, ids[a]);
        OfferedIsComplete(ours, front, i, ids[b]);
        assert ids[a] in earlier && ids[b] !in earlier;
      }
      StillBefore(front, offers[n], ids[a], ids[b]);
    }
  }

  /** The list of offered identifiers is complete, without repetition, and in the order of first offers. */
  lemma OfferedInOrder(ours: KademliaId, offers: seq<(Peer, nat)>, i: nat)
    ensures var ids := Offered(ours, offers, i);
            && (forall id :: id in ids <==> BucketIndex(ours, id) == i && WasOffered(offers, id))
            && (forall a, b :: 0 <= a < b < |ids| ==> ids[a] != ids[b] && OfferedBefore(offers, ids[a], ids[b]))
  {
    var ids := Offered(ours, offers, i);
    forall id
      ensures id in ids <==> BucketIndex(ours, id) == i && WasOffered(offers, id)
    {
      OfferedIsComplete(ours, offers, i, id);
    }
    forall a, b | 0 <= a < b < |ids|
      ensures ids[a] != ids[b] && OfferedBefore(offers, ids[a], ids[b])
    {
      OfferedOrder(ours, offers, i, a, b);
    }
  }

  /** A peer as it was first offered, last seen when it was last offered again. */
  function Remembered(offers: seq<(Peer, nat)>, id: KademliaId): Option<Peer> {
    if offers == [] then None
    else
      var before, (p, now) := Remembered(offers[..|offers| - 1], id), offers[|offers| - 1];
      if p.id != id then before
      else if before.None? then Some(p)
      else Some(before.value.(lastSeen := now))
  }

  /** When a peer was last offered to bucket i, taken or not; the start if none was. */
  function LastOffer(ours: KademliaId, start: nat, offers: seq<(Peer, nat)>, i: nat): nat {
    if offers == [] then start
    else
      var (p, now) := offers[|offers| - 1];
      if BucketIndex(ours, p.id) == i then now else LastOffer(ours, start, offers[..|offers| - 1], i)
  }

  /** In every run a bucket bears the time of the last offer to it, also when it was full. */
  lemma {:induction false} BucketsAreStamped(ours: KademliaId, start: nat, offers: seq<(Peer, nat)>, i: nat)
    requires i < BUCKETS
    ensures Run(ours, start, offers)[i].lastUpdated == LastOffer(ours, start, offers, i)
    decreases |offers|
  {
    if offers == [] {
    } else {
      BucketsAreStamped(ours, start, offers[..|offers| - 1], i);
    }
  }

  lemma {:induction false} RememberedIfOffered(offers: seq<(Peer, nat)>, id: KademliaId)
    ensures Remembered(offers, id).Some? <==> WasOffered(offers, id)
    decreases |offers|
  {
    if offers == [] {
    } else {
      var n := |offers| - 1;
      RememberedIfOffered(offers[..n], id);
      OfferedOneMore(offers[..n], offers[n], id);
      assert offers == offers[..n] + [offers[n]];
    }
  }

  /** An identifier that a bucket with room does not hold was never offered. */
  lemma RoomMeansUnknown(ours: KademliaId, start: nat, offers: seq<(Peer, nat)>, id: KademliaId)
    requires BucketIndex(ours, id) < BUCKETS
    requires var peers := Run(ours, start, offers)[BucketIndex(ours, id)].peers;
             |peers| < K && Position(peers, id) == |peers|
    ensures Remembered(offers, id) == None
  {
    var i := BucketIndex(ours, id);
    var peers := Run(ours, start, offers)[i].peers;
    BucketHoldsFirstOffered(ours, start, offers, i);
    assert Ids(peers) == Offered(ours, offers, i);
    assert forall j :: 0 <= j < |peers| ==> Ids(peers)[j] != id;
    OfferedIsComplete(ours, offers, i, id);
    RememberedIfOffered(offers, id);
  }

  lemma OfferMembers(b: Bucket, p: Peer, now: nat, x: Peer)
    requires DistinctIds(b.peers) && x in Offer(b, p, now).peers
    ensures x.id != p.id ==> x in b.peers
    ensures x.id == p.id ==> (exists y :: y in b.peers && y.id == p.id && x == y.(lastSeen := now)) ||
                             (x == p && |b.peers| < K && Position(b.peers, p.id) == |b.peers|)
  {
    var i, ps := Position(b.peers, p.id), Offer(b, p, now).peers;
    var j :| 0 <= j < |ps| && ps[j] == x;
    if i < |b.peers| {
      assert j != i ==> x == b.peers[j] && IdOf()(b.peers[j]) != IdOf()(b.peers[i]);
      assert j == i ==> b.peers[i] in b.peers && x == b.peers[i].(lastSeen := now);
    } else if j < |b.peers| {
      assert x == b.peers[j];
    }
  }

  /** In every run a held peer has the address it was first offered with, and was last seen when it was last offered. */
  lemma {:induction false} PeersAreRemembered(ours: KademliaId, start: nat, offers: seq<(Peer, nat)>, i: nat, x: Peer)
    requires forall k :: 0 <= k < |offers| ==> offers[k].0.id != ours
    requires i < BUCKETS && x in Run(ours, start, offers)[i].peers
    ensures Remembered(offers, x.id) == Some(x)
    decreases |offers|
  {
    if offers == [] {
    } else {
      var n := |offers| - 1;
      var t, p, now := Run(ours, start, offers[..n]), offers[n].0, offers[n].1;
      RunsAreOk(ours, start, offers);
      RunsAreOk(ours, start, offers[..n]);
      assert BucketOk(ours, i, Run(ours, start, offers)[i]) && BucketOk(ours, i, t[i]);
      IndexInRange(ours, p.id);
      if BucketIndex(ours, p.id) != i {
        PeersAreRemembered(ours, start, offers[..n], i, x);
      } else {
        OfferMembers(t[i], p, now, x);
        if x.id != p.id {
          PeersAreRemembered(ours, start, offers[..n], i, x);
        } else if y :| y in t[i].peers && y.id == p.id && x == y.(lastSeen := now) {
          PeersAreRemembered(ours, start, offers[..n], i, y);
        } else {
          RoomMeansUnknown(ours, start, offers[..n], x.id);
        }
      }
    }
  }

  lemma NoIdTwice(ours: KademliaId, t: Table, i: nat, j: nat, k: nat, l: nat)
    requires TableOk(ours, t) && i < |t| && k < |t| && j < |t[i].peers| && l < |t[k].peers|
    requires t[i].peers[j].id == t[k].peers[l].id
    ensures i == k && j == l
    ensures Pow2(BUCKETS - 1 - i) <= Dist(ours, t[i].peers[j].id) < Pow2(BUCKETS - i)
  {
    assert BucketOk(ours, i, t[i]) && BucketOk(ours, k, t[k]);
    BucketIsDistanceRange(ours, t[i].peers[j].id, i);
  }

  // ---- The closest peers ----

  function AllPeers(t: Table): seq<Peer> {
    if t == [] then [] else AllPeers(t[..|t| - 1]) + t[|t| - 1].peers
  }

  lemma {:induction false} AllPeersAreTheBuckets(t: Table, p: Peer)
    ensures p in AllPeers(t) <==> exists i :: 0 <= i < |t| && p in t[i].peers
    decreases |t|
  {
    if t == [] {
    } else {
      var n := |t| - 1;
      AllPeersAreTheBuckets(t[..n], p);
      if p in t[n].peers {
        assert t[n] == t[n] && 0 <= n < |t|;
      }
      if p in AllPeers(t[..n]) {
        var i :| 0 <= i < |t[..n]| && p in t[..n][i].peers;
        assert p in t[i].peers;
      }
      if i :| 0 <= i < |t| && p in t[i].peers {
        assert i < n ==> p in t[..n][i].peers;
      }
    }
  }

  lemma {:induction false} AllPeersDistinct(ours: KademliaId, t: Table, n: nat)
    requires TableOk(ours, t) && n <= |t|
    ensures DistinctIds(AllPeers(t[..n]))
    decreases n
  {
    if n == 0 {
    } else {
      AllPeersDistinct(ours, t, n - 1);
      assert t[..n][..n - 1] == t[..n - 1];
      var before, last := AllPeers(t[..n - 1]), t[n - 1].peers;
      assert BucketOk(ours, n - 1, t[n - 1]);
      forall a, b | 0 <= a < |before| && 0 <= b < |last|
        ensures before[a].id != last[b].id
      {
        AllPeersAreTheBuckets(t[..n - 1], before[a]);
        var i :| 0 <= i < n - 1 && before[a] in t[..n - 1][i].peers;
        assert BucketOk(ours, i, t[i]) && before[a] in t[i].peers;
      }
    }
  }

  /** The sort key of find_closest: the first 64 bits of the distance. */
  function TruncatedKey(target: KademliaId): Peer -> int {
    (p: Peer) => Value(Distance(p.id, target)[..8])
  }

  function Closest(t: Table, target: KademliaId, count: nat): (r: seq<Peer>) {
    var sorted := StableSort(AllPeers(t), TruncatedKey(target));
    if count < |sorted| then sorted[..count] else sorted
  }

  lemma {:induction false} PrefixDecides(a: seq<byte>, b: seq<byte>, n: nat)
    requires |a| == |b| && n <= |a| && Value(a) < Value(b)
    ensures Value(a[..n]) <= Value(b[..n])
    decreases |a|
  {
    if n == |a| {
      assert a[..n] == a && b[..n] == b;
    } else {
      var m := |a| - 1;
      assert a[..m][..n] == a[..n] && b[..m][..n] == b[..n];
      if Value(a[..m]) < Value(b[..m]) {
        PrefixDecides(a[..m], b[..m], n);
      } else {
        assert Value(a[..m]) == Value(b[..m]);
        ValueIsInjective(a[..m], b[..m]);
      }
    }
  }

  // The key is the distance without its last 96 bits

  lemma {:induction false} PrefixIsQuotient(d: seq<byte>, n: nat)
    requires n <= |d|
    ensures Value(d[..n]) == Value(d) / Pow2(8 * (|d| - n))
    decreases |d|
  {
    if n == |d| {
      assert d[..n] == d;
    } else {
      var m := |d| - 1;
      PrefixIsQuotient(d[..m], n);
      assert d[..m][..n] == d[..n];
      PowPlusByte(8 * (m - n));
      DivideTwice(Value(d), 256, Pow2(8 * (m - n)));
      assert Value(d) / 256 == Value(d[..m]);
    }
  }

  function WithoutLow(d: nat, bits: nat): int {
    d / Pow2(bits)
  }

  /** The first 64 of the 160 bits of a distance. */
  function High64(d: nat): int {
    WithoutLow(d, 96)
  }

  lemma KeyIsHigh64(p: Peer, target: KademliaId)
    ensures TruncatedKey(target)(p) == High64(Dist(p.id, target))
  {
    KeyIsPrefix(p, target, 12);
  }

  lemma KeyIsPrefix(p: Peer, target: KademliaId, n: nat)
    requires n == 12
    ensures TruncatedKey(target)(p) == WithoutLow(Dist(p.id, target), 8 * n)
  {
    PrefixIsQuotient(Distance(p.id, target), 8);
  }

  ghost predicate InTable(t: Table, p: Peer) {
    exists i :: 0 <= i < |t| && p in t[i].peers
  }

  function PeerCount(t: Table): nat {
    if t == [] then 0 else PeerCount(t[..|t| - 1]) + |t[|t| - 1].peers|
  }

  lemma {:induction false} AllPeersCount(t: Table)
    ensures |AllPeers(t)| == PeerCount(t)
    decreases |t|
  {
    if t == [] {
    } else {
      AllPeersCount(t[..|t| - 1]);
    }
  }

  /**
   * find_closest returns min(count, total) peers of the table, no identifier twice, by rising distance as far as its
   * first 64 bits tell; no peer that is left out is closer by these, and one that is closer at all ties by them.
   */
  lemma ClosestIsClosest(ours: KademliaId, t: Table, target: KademliaId, count: nat)
    requires TableOk(ours, t)
    ensures var r := Closest(t, target, count);
            && |r| == Min(count, PeerCount(t))
            && DistinctIds(r)
            && (forall p :: p in r ==> InTable(t, p))
            && (forall i, j :: 0 <= i < j < |r| ==> High64(Dist(r[i].id, target)) <= High64(Dist(r[j].id, target)))
            && forall p, q :: InTable(t, p) && p !in r && q in r ==>
                 && High64(Dist(q.id, target)) <= High64(Dist(p.id, target))
                 && (Dist(p.id, target) < Dist(q.id, target) ==>
                       High64(Dist(p.id, target)) == High64(Dist(q.id, target)))
  {
    var all, key, r := AllPeers(t), TruncatedKey(target), Closest(t, target, count);
    AllPeersCount(t);
    ClosestIsDistinct(ours, t, target, count);
    forall p | p in r
      ensures InTable(t, p)
    {
      SortMembers(all, key, p);
      AllPeersAreTheBuckets(t, p);
    }
    forall i, j | 0 <= i < j < |r|
      ensures High64(Dist(r[i].id, target)) <= High64(Dist(r[j].id, target))
    {
      KeyIsHigh64(r[i], target);
      KeyIsHigh64(r[j], target);
      assert key(r[i]) <= key(r[j]);
    }
    forall p, q | InTable(t, p) && p !in r && q in r
      ensures High64(Dist(q.id, target)) <= High64(Dist(p.id, target))
      ensures Dist(p.id, target) < Dist(q.id, target) ==>
                High64(Dist(p.id, target)) == High64(Dist(q.id, target))
    {
      AllPeersAreTheBuckets(t, p);
      KeyIsHigh64(p, target);
      KeyIsHigh64(q, target);
      OmittedIsNotCloser(t, target, count, p, q);
    }
  }

  lemma ClosestIsDistinct(ours: KademliaId, t: Table, target: KademliaId, count: nat)
    requires TableOk(ours, t)
    ensures SortedBy(Closest(t, target, count), TruncatedKey(target)) && DistinctIds(Closest(t, target, count))
  {
    var all, key := AllPeers(t), TruncatedKey(target);
    var sorted := StableSort(all, key);
    SortSorts(all, key);
    assert t[..|t|] == t;
    AllPeersDistinct(ours, t, |t|);
    DistinctPermutes(all, sorted, IdOf());
    PrefixKeeps(sorted, key, count);
  }

  lemma PrefixKeeps(s: seq<Peer>, key: Peer -> int, n: nat)
    requires SortedBy(s, key) && DistinctIds(s)
    ensures n <= |s| ==> SortedBy(s[..n], key) && DistinctIds(s[..n])
  {
  }

  lemma OmittedIsNotCloser(t: Table, target: KademliaId, count: nat, p: Peer, q: Peer)
    requires p in AllPeers(t) && p !in Closest(t, target, count) && q in Closest(t, target, count)
    ensures var key := TruncatedKey(target);
            key(q) <= key(p) && (Dist(p.id, target) < Dist(q.id, target) ==> key(p) == key(q))
  {
    var all, key := AllPeers(t), TruncatedKey(target);
    var sorted, r := StableSort(all, key), Closest(t, target, count);
    SortSorts(all, key);
    SortMembers(all, key, p);
    var i :| 0 <= i < |sorted| && sorted[i] == p;
    var j :| 0 <= j < |r| && r[j] == q;
    assert i >= |r| && sorted[j] == q;
    assert key(sorted[j]) <= key(sorted[i]);
    if Dist(p.id, target) < Dist(q.id, target) {
      PrefixDecides(Distance(p.id, target), Distance(q.id, target), 8);
    }
  }

  // ---- The objects ----

  method XorDistance(a: KademliaId, b: KademliaId) returns (result: array<byte>)
    ensures fresh(result) && result[..] == Distance(a, b)
  {
    result := new byte[20](_ => 0);
    for i := 0 to 20
      invariant forall j :: 0 <= j < i ==> result[j] == XorByte(a[j], b[j])
    {
      result[i] := XorByte(a[i], b[i]);
    }
    assert result[..] == Distance(a, b);
  }

  method FindBucketIndex(ours: KademliaId, peer: KademliaId) returns (index: nat)
    ensures index == BucketIndex(ours, peer)
  {
    var distance := XorDistance(ours, peer);
    for i := 0 to distance.Length
      invariant FirstBit(distance[..], i) == FirstBit(distance[..], 0)
    {
      if distance[i] != 0 {
        return Min(i * 8 + LeadingZeros(distance[i]), BUCKETS - 1);
      }
    }
    return 0;
  }

  class KademliaDht {
    const ourId: KademliaId
    const buckets: array<Bucket>

    ghost predicate Valid() {
      buckets.Length == BUCKETS
    }

    constructor (ourId: KademliaId, now: nat)
      ensures this.ourId == ourId && Valid() && fresh(buckets)
      ensures buckets[..] == Empty(now)
    {
      this.ourId := ourId;
      buckets := new Bucket[BUCKETS](_ => Bucket([], now));
    }

    method AddPeer(peer: Peer, now: nat)
      requires Valid()
      modifies buckets
      ensures buckets[..] == Add(ourId, old(buckets[..]), peer, now)
    {
      var index := FindBucketIndex(ourId, peer.id);
      IndexInRange(ourId, peer.id);
      var bucket := buckets[index];
      var i := 0;
      while i < |bucket.peers| && bucket.peers[i].id != peer.id
        invariant i <= Position(bucket.peers, peer.id)
      {
        i := i + 1;
      }
      if i < |bucket.peers| {
        buckets[index] := Bucket(bucket.peers[i := bucket.peers[i].(lastSeen := now)], now);
      } else if |bucket.peers| < K {
        buckets[index] := Bucket(bucket.peers + [peer], now);
      } else {
        buckets[index] := Bucket(bucket.peers, now);
      }
      assert i == Position(bucket.peers, peer.id);
    }

    method FindClosest(target: KademliaId, count: nat) returns (found: seq<Peer>)
      ensures found == Closest(buckets[..], target, count)
    {
      var all := [];
      for i := 0 to buckets.Length
        invariant all == AllPeers(buckets[..i])
      {
        assert buckets[..i + 1][..i] == buckets[..i];
        all := all + buckets[i].peers;
      }
      assert buckets[..buckets.Length] == buckets[..];
      found := StableSort(all, TruncatedKey(target));
      if count < |found| {
        found := found[..count];
      }
    }
  }
}
