/**
 * The Noise IK handshake with symbolic cryptography: a Diffie-Hellman result is a base point multiplied by a bag of
 * secrets, and HMAC, SHA-256 and ChaCha20-Poly1305 are free constructors, so two values are equal only when they
 * were built the same way. Fresh secrets and nonces are parameters.
 */
module Noise {
  import opened Common

  type Secret = nat

  // ---- Terms ----

  datatype Term =
    | ProtocolName
    | Zero
    | Tag(value: nat)
    | Data(payload: string)
    | NonceBytes(nonce: nat)
    | Generator
    | Mul(base: Term, scalars: multiset<Secret>)
    | Alias(form: nat, point: Term)
    | LowOrder(index: nat)
    | Concat(left: Term, right: Term)
    | Hash(input: Term)
    | Hmac(key: Term, message: Term)
    | Sealed(sealKey: Term, sealNonce: nat, plain: Term)

  /** Terms that are 32 bytes long, and so can be read as a public key. */
  predicate Is32(t: Term) {
    t.ProtocolName? || t.Zero? || t.Generator? || t.Mul? || t.Alias? || t.LowOrder? || t.Hash? || t.Hmac?
  }

  function Public(secret: Secret): Term {
    Mul(Generator, multiset{secret})
  }

  /** What X25519 makes of a string: nothing but the neutral element, or a multiple of an independent point. */
  datatype Point = Neutral | Multiple(base: Term, scalars: multiset<Secret>)

  /**
   * Every 32-byte string is accepted as a public key. Several strings stand for one point (the top bit is masked, a
   * coordinate need not be reduced, a component of small order is cancelled): Alias. The strings of small order,
   * zero among them, all lead to zero. A string that is no multiple of another point is a point of its own.
   */
  function PointOf(t: Term): Point {
    match t
    case Zero => Neutral
    case LowOrder(_) => Neutral
    case Alias(_, u) => PointOf(u)
    case Mul(b, k) => (match PointOf(b) case Neutral => Neutral case Multiple(c, j) => Multiple(c, j + k))
    case _ => Multiple(t, multiset{})
  }

  predicate SamePoint(t: Term, u: Term) {
    PointOf(t) == PointOf(u)
  }

  /** X25519. The result is not checked for being zero. */
  function Dh(own: Secret, point: Term): Term {
    Times(own, PointOf(point))
  }

  function Times(own: Secret, point: Point): Term {
    match point
    case Neutral => Zero
    case Multiple(b, k) => Mul(b, k + multiset{own})
  }

  lemma DhOfPublic(own: Secret, other: Secret)
    ensures PointOf(Public(other)) == Multiple(Generator, multiset{other})
    ensures Dh(own, Public(other)) == Mul(Generator, multiset{own, other}) == Dh(other, Public(own))
  {
    assert PointOf(Generator) == Multiple(Generator, multiset{});
    assert multiset{} + multiset{other} == multiset{other} && multiset{} + multiset{own} == multiset{own};
    assert multiset{other} + multiset{own} == multiset{own, other} == multiset{own} + multiset{other};
  }

  function MixKey(ck: Term, input: Term): Term {
    Hmac(ck, input)
  }

  function MixHash(h: Term, data: Term): Term {
    Hash(Concat(h, data))
  }

  function Split(ck: Term): (Term, Term) {
    var k1 := Hmac(ck, Tag(1));
    (k1, Hmac(ck, Concat(k1, Tag(2))))
  }

  function Open(key: Term, nonce: nat, body: Term): Option<Term> {
    if body.Sealed? && body.sealKey == key && body.sealNonce == nonce then Some(body.plain) else None
  }

  // ---- Messages, errors, state ----

  datatype Error = InvalidState | DecryptionFailed

  datatype Result<+T> = Ok(value: T) | Err(error: Error)

  /** The first message: anything shorter than 60 bytes, or an ephemeral key, a nonce and a sealed body. */
  datatype Opening = ShortOpening | Opening(ephemeral: Term, nonce: nat, body: Term)

  /** The reply: anything shorter than 32 bytes, or an ephemeral key. */
  datatype Reply = ShortReply | Reply(ephemeral: Term)

  datatype Phase = Init | InitiatorSent | ResponderSent | Established

  /** The send key and the receive key. */
  datatype Keys = Keys(send: Term, recv: Term)

  datatype Handshake = Handshake(phase: Phase, own: Secret, peerStatic: Term, ephemeral: Option<Secret>,
                                 peerEphemeral: Term, ck: Term, h: Term)

  function Start(own: Secret, peerStatic: Term): Handshake {
    Handshake(Init, own, peerStatic, None, Zero, ProtocolName, Hash(ProtocolName))
  }

  // ---- The four messages as functions of the state ----

  function BuildOpening(s: Handshake, e: Secret, nonce: nat): (Handshake, Result<Opening>) {
    if s.phase != Init then (s, Err(InvalidState))
    else
      var ck := MixKey(s.ck, Dh(e, s.peerStatic));
      var body := Sealed(ck, nonce, Public(s.own));
      var h := MixHash(MixHash(s.h, Public(e)), Concat(NonceBytes(nonce), body));
      (s.(phase := InitiatorSent, ephemeral := Some(e), ck := MixKey(ck, Dh(s.own, s.peerStatic)), h := h),
       Ok(Opening(Public(e), nonce, body)))
  }

  function ReadOpening(s: Handshake, m: Opening): (Handshake, Result<Term>) {
    if s.phase != Init || m.ShortOpening? then (s, Err(InvalidState))
    else
      var ck := MixKey(s.ck, Dh(s.own, m.ephemeral));
      var h := MixHash(MixHash(s.h, m.ephemeral), Concat(NonceBytes(m.nonce), m.body));
      var s' := s.(peerEphemeral := m.ephemeral, ck := ck, h := h);
      match Open(ck, m.nonce, m.body)
      case None => (s', Err(DecryptionFailed))
      case Some(key) =>
        if !Is32(key) then (s', Err(DecryptionFailed))
        else (s'.(phase := ResponderSent, peerStatic := key, ck := MixKey(ck, Dh(s.own, key))), Ok(key))
  }

  function BuildReply(s: Handshake, e: Secret): (Handshake, Result<(Reply, Keys)>) {
    if s.phase != ResponderSent then (s, Err(InvalidState))
    else
      var ck := MixKey(MixKey(s.ck, Dh(e, s.peerEphemeral)), Dh(e, s.peerStatic));
      var (k1, k2) := Split(ck);
      (s.(phase := Established, ck := ck, h := MixHash(s.h, Public(e))), Ok((Reply(Public(e)), Keys(k2, k1))))
  }

  function ReadReply(s: Handshake, m: Reply): (Handshake, Result<Keys>) {
    if s.phase != InitiatorSent || m.ShortReply? || s.ephemeral.None? then (s, Err(InvalidState))
    else
      var ck := MixKey(MixKey(s.ck, Dh(s.ephemeral.value, m.ephemeral)), Dh(s.own, m.ephemeral));
      var (k1, k2) := Split(ck);
      (s.(phase := Established, ck := ck, h := MixHash(s.h, m.ephemeral)), Ok(Keys(k1, k2)))
  }

  /** transport_keys(): the same order for both roles. */
  function TransportKeys(s: Handshake): Option<Keys> {
    if s.phase == Established then
      var (k1, k2) := Split(s.ck);
      Some(Keys(k1, k2))
    else None
  }

  // ---- Agreement ----

  /** The chaining key the IK pattern prescribes: es, ss, ee and se mixed in this order. */
  function IkChain(si: Secret, sr: Secret, ei: Secret, er: Secret): Term {
    Hmac(Hmac(Hmac(Hmac(ProtocolName, Dh(ei, Public(sr))), Dh(si, Public(sr))), Dh(ei, Public(er))), Dh(si, Public(er)))
  }

  /** The transcript of both messages in the order they travel. */
  function IkTranscript(ei: Term, nonce: nat, body: Term, er: Term): Term {
    Hash(Concat(Hash(Concat(Hash(Concat(Hash(ProtocolName), ei)), Concat(NonceBytes(nonce), body))), er))
  }

  lemma HonestOpening(si: Secret, sr: Secret, ei: Secret, nonce: nat)
    ensures var (i1, m1) := BuildOpening(Start(si, Public(sr)), ei, nonce);
            m1.Ok? &&
            var (r1, who) := ReadOpening(Start(sr, Zero), m1.value);
            && who == Ok(Public(si)) && m1.value.Opening? && m1.value.ephemeral == Public(ei)
            && i1.phase == InitiatorSent && i1.ephemeral == Some(ei) && i1.own == si && i1.peerStatic == Public(sr)
            && r1.phase == ResponderSent && r1.peerEphemeral == Public(ei) && r1.peerStatic == Public(si)
            && i1.ck == r1.ck == Hmac(Hmac(ProtocolName, Dh(ei, Public(sr))), Dh(si, Public(sr)))
            && i1.h == r1.h ==
               Hash(Concat(Hash(Concat(Hash(ProtocolName), Public(ei))), Concat(NonceBytes(nonce), m1.value.body)))
  {
    DhOfPublic(ei, sr);
    DhOfPublic(si, sr);
  }

  /**
   * An honest run: both sides finish, the responder learns the true initiator key, each side sends with the
   * key the other receives with, the two directions differ, and key and transcript are those of the pattern.
   */
  lemma HonestRun(si: Secret, sr: Secret, ei: Secret, er: Secret, nonce: nat)
    ensures var (i1, m1) := BuildOpening(Start(si, Public(sr)), ei, nonce);
            m1.Ok? &&
            var (r1, who) := ReadOpening(Start(sr, Zero), m1.value);
            who == Ok(Public(si)) &&
            var (r2, m2) := BuildReply(r1, er);
            m2.Ok? &&
            var (i2, ki) := ReadReply(i1, m2.value.0);
            && ki.Ok? && i2.phase == Established && r2.phase == Established
            && ki.value.send == m2.value.1.recv && ki.value.recv == m2.value.1.send
            && ki.value.send != ki.value.recv
            && ki.value.send == Hmac(i2.ck, Tag(1)) && ki.value.recv == Hmac(i2.ck, Concat(ki.value.send, Tag(2)))
            && i2.h == r2.h == IkTranscript(Public(ei), nonce, m1.value.body, Public(er))
            && i2.ck == r2.ck == IkChain(si, sr, ei, er)
            && i2.peerStatic == Public(sr) && r2.peerStatic == Public(si)
  {
    HonestOpening(si, sr, ei, nonce);
    DhOfPublic(ei, er);
    DhOfPublic(si, er);
  }

  lemma SplitDiffers(ck: Term)
    ensures Split(ck).0 != Split(ck).1
  {
  }

  /** A message meant for another static key is rejected, and only such a message. */
  lemma OnlyTheAddresseeAccepts(si: Secret, intended: Secret, sr: Secret, ei: Secret, nonce: nat)
    ensures var m := BuildOpening(Start(si, Public(intended)), ei, nonce).1.value;
            var r := ReadOpening(Start(sr, Zero), m).1;
            && (r == Ok(Public(si)) <==> sr == intended)
            && (r == Err(DecryptionFailed) <==> sr != intended)
  {
    DhOfPublic(ei, intended);
    DhOfPublic(ei, sr);
    if sr != intended && sr != ei {
      assert multiset{ei, intended}[sr] == 0;
    } else if sr != intended {
      assert multiset{ei, intended}[sr] == 1 && multiset{ei, sr}[sr] == 2;
    }
  }

  /**
   * What two sides end up with: the initiator's secrets, the key it holds for its peer and the reply it read; the
   * responder's secrets, the static key it decrypted and the ephemeral key it read.
   */
  datatype Meeting = Meeting(si: Secret, ei: Secret, peer: Term, reply: Term,
                             sr: Secret, er: Secret, who: Term, opening: Term)

  /** Each side knows the other's true static key and received the other's true ephemeral key, in any spelling. */
  predicate SamePeers(d: Meeting) {
    SamePoint(d.peer, Public(d.sr)) && SamePoint(d.who, Public(d.si)) &&
    SamePoint(d.opening, Public(d.ei)) && SamePoint(d.reply, Public(d.er))
  }

  /**
   * Every delivered point is the true one multiplied by whatever the peer key is beside the responder's own secret;
   * or none but points of small order were delivered, and the peer key is of small order, too.
   */
  predicate Aligned(d: Meeting) {
    match PointOf(d.peer)
    case Neutral => PointOf(d.who).Neutral? && PointOf(d.opening).Neutral? && PointOf(d.reply).Neutral?
    case Multiple(b, k) =>
      var rest := k - multiset{d.sr};
      && d.sr in k
      && PointOf(d.opening) == Multiple(b, rest + multiset{d.ei})
      && PointOf(d.who) == Multiple(b, rest + multiset{d.si})
      && PointOf(d.reply) == Multiple(b, rest + multiset{d.er})
  }

  /** es, ss, ee and se agree. */
  predicate FourAgree(d: Meeting) {
    Dh(d.ei, d.peer) == Dh(d.sr, d.opening) && Dh(d.si, d.peer) == Dh(d.sr, d.who) &&
    Dh(d.ei, d.reply) == Dh(d.er, d.opening) && Dh(d.si, d.reply) == Dh(d.er, d.who)
  }

  /** Two bags that become equal by one more element each, and these differ, overlap. */
  lemma OneMoreEach(j: multiset<Secret>, a: Secret, k: multiset<Secret>, b: Secret)
    ensures j + multiset{a} == k + multiset{b} && a != b ==> b in j && k == j - multiset{b} + multiset{a}
    ensures b in j && k == j - multiset{b} + multiset{a} ==> j + multiset{a} == k + multiset{b}
  {
    if j + multiset{a} == k + multiset{b} && a != b {
      assert (j + multiset{a})[b] == (k + multiset{b})[b];
      assert k == (k + multiset{b}) - multiset{b};
    }
    if b in j && k == j - multiset{b} + multiset{a} {
      assert j == (j - multiset{b}) + multiset{b};
    }
  }

  lemma SwapOne(rest: multiset<Secret>, a: Secret, b: Secret, x: multiset<Secret>)
    ensures rest + multiset{a} + multiset{b} == x + multiset{a} <==> x == rest + multiset{b}
    ensures rest + multiset{a} + multiset{b} == rest + multiset{b} + multiset{a}
  {
    if rest + multiset{a} + multiset{b} == x + multiset{a} {
      assert x == (x + multiset{a}) - multiset{a};
      assert rest + multiset{b} == (rest + multiset{a} + multiset{b}) - multiset{a};
    }
  }

  lemma BagsAgreeExactly(k: multiset<Secret>, e: multiset<Secret>, x: multiset<Secret>, q: multiset<Secret>,
                         si: Secret, ei: Secret, sr: Secret, er: Secret)
    requires ei != sr
    ensures && k + multiset{ei} == e + multiset{sr} && k + multiset{si} == x + multiset{sr}
            && q + multiset{ei} == e + multiset{er} && q + multiset{si} == x + multiset{er}
            <==> sr in k && e == k - multiset{sr} + multiset{ei} && x == k - multiset{sr} + multiset{si}
                 && q == k - multiset{sr} + multiset{er}
  {
    OneMoreEach(k, ei, e, sr);
    if sr in k && e == k - multiset{sr} + multiset{ei} {
      var rest := k - multiset{sr};
      assert k == rest + multiset{sr};
      SwapOne(rest, sr, si, x);
      SwapOne(rest, er, ei, q);
      SwapOne(rest, er, si, x);
      SwapOne(rest, si, er, q);
    }
  }

  lemma PointsAgreeExactly(k: Point, e: Point, x: Point, q: Point, si: Secret, ei: Secret, sr: Secret, er: Secret)
    requires ei != sr
    ensures && Times(ei, k) == Times(sr, e) && Times(si, k) == Times(sr, x)
            && Times(ei, q) == Times(er, e) && Times(si, q) == Times(er, x)
            <==> match k
                 case Neutral => x.Neutral? && e.Neutral? && q.Neutral?
                 case Multiple(b, j) =>
                   && sr in j
                   && e == Multiple(b, j - multiset{sr} + multiset{ei})
                   && x == Multiple(b, j - multiset{sr} + multiset{si})
                   && q == Multiple(b, j - multiset{sr} + multiset{er})
  {
    if k.Multiple? && e.Multiple? && x.Multiple? && q.Multiple? {
      BagsAgreeExactly(k.scalars, e.scalars, x.scalars, q.scalars, si, ei, sr, er);
    }
  }

  lemma FourAgreeExactly(d: Meeting)
    requires d.ei != d.sr
    ensures FourAgree(d) <==> Aligned(d)
  {
    PointsAgreeExactly(PointOf(d.peer), PointOf(d.opening), PointOf(d.who), PointOf(d.reply), d.si, d.ei, d.sr, d.er);
  }

  lemma PublicPoint(x: Secret)
    ensures PointOf(Public(x)) == Multiple(Generator, multiset{x})
  {
    DhOfPublic(x, x);
  }

  lemma NothingBeside(x: Secret, y: Secret)
    ensures multiset{x} - multiset{x} + multiset{y} == multiset{y}
  {
  }

  lemma TruePeerAligns(d: Meeting)
    requires SamePoint(d.peer, Public(d.sr))
    ensures Aligned(d) <==> SamePeers(d)
  {
    PublicPoint(d.sr);
    PublicPoint(d.si);
    PublicPoint(d.ei);
    PublicPoint(d.er);
    NothingBeside(d.sr, d.si);
    NothingBeside(d.sr, d.ei);
    NothingBeside(d.sr, d.er);
  }

  /** Some secret belongs to the key, in whatever spelling. */
  ghost predicate Genuine(key: Term) {
    exists x: Secret :: SamePoint(key, Public(x))
  }

  lemma GenuineKeysAlign(d: Meeting)
    requires Genuine(d.peer) && Aligned(d)
    ensures SamePoint(d.peer, Public(d.sr))
  {
    var x: Secret :| SamePoint(d.peer, Public(x));
    PublicPoint(x);
    assert d.sr in multiset{x};
  }

  /**
   * Whatever is delivered to either side, the two sides hold equal keys exactly when the delivered points are
   * aligned; they belong to the true peers exactly when, besides, the initiator's peer key is the responder's; and
   * an initiator that started from any genuine public key cannot be led to equal keys with the wrong peer. Only
   * freshness of the initiator's ephemeral secret is assumed.
   */
  lemma EqualKeysMeanTheSamePeers(si: Secret, peer: Term, ei: Secret, nonce: nat, reply: Reply,
                                  sr: Secret, opening: Opening, er: Secret)
    requires ei != sr
    requires ReadReply(BuildOpening(Start(si, peer), ei, nonce).0, reply).1.Ok?
    requires ReadOpening(Start(sr, Zero), opening).1.Ok?
    ensures var ki := ReadReply(BuildOpening(Start(si, peer), ei, nonce).0, reply).1.value;
            var (r1, who) := ReadOpening(Start(sr, Zero), opening);
            var kr := BuildReply(r1, er).1.value.1;
            var equal := ki.send == kr.recv && ki.recv == kr.send;
            var d := Meeting(si, ei, peer, reply.ephemeral, sr, er, who.value, opening.ephemeral);
            && (equal <==> Aligned(d))
            && (SamePeers(d) <==> equal && SamePoint(peer, Public(sr)))
            && (Genuine(peer) ==> (equal <==> SamePeers(d)))
  {
    var who := ReadOpening(Start(sr, Zero), opening).1.value;
    var d := Meeting(si, ei, peer, reply.ephemeral, sr, er, who, opening.ephemeral);
    FourAgreeExactly(d);
    if SamePoint(peer, Public(sr)) {
      TruePeerAligns(d);
    } else if Genuine(peer) && Aligned(d) {
      GenuineKeysAlign(d);
    }
  }

  /** Zero keys throughout: both sides finish with equal keys whatever their secrets are. */
  lemma ZeroKeysAgree(si: Secret, ei: Secret, nonce: nat, n: nat, sr: Secret, er: Secret)
    ensures var opening := Opening(Zero, n, Sealed(Hmac(ProtocolName, Zero), n, Zero));
            var ki := ReadReply(BuildOpening(Start(si, Zero), ei, nonce).0, Reply(Zero)).1;
            var (r1, who) := ReadOpening(Start(sr, Zero), opening);
            && ki.Ok? && who == Ok(Zero)
            && var kr := BuildReply(r1, er).1.value.1;
               && ki.value.send == kr.recv && ki.value.recv == kr.send
               && !SamePoint(Zero, Public(sr)) && !SamePoint(who.value, Public(si))
  {
    PublicPoint(sr);
    PublicPoint(si);
  }

  /** An honest reply in another spelling: the keys agree, the transcripts do not. */
  lemma RespelledReplyAgrees(si: Secret, sr: Secret, ei: Secret, er: Secret, nonce: nat, form: nat)
    ensures var (i1, m1) := BuildOpening(Start(si, Public(sr)), ei, nonce);
            m1.Ok? &&
            var (r1, who) := ReadOpening(Start(sr, Zero), m1.value);
            who.Ok? &&
            var (r2, m2) := BuildReply(r1, er);
            m2.Ok? &&
            var (i2, ki) := ReadReply(i1, Reply(Alias(form, m2.value.0.ephemeral)));
            && ki.Ok? && ki.value.send == m2.value.1.recv && ki.value.recv == m2.value.1.send
            && i2.h != r2.h
  {
    HonestRun(si, sr, ei, er, nonce);
  }

  // ---- Who can be named, and who can follow ----

  /**
   * Acceptance authenticates nobody: an opening is accepted for a key exactly when it is 32 bytes long and sealed under
   * the result of es, and that result takes the sender's own ephemeral secret and the responder's public key only.
   */
  lemma AcceptanceNamesAnyone(sr: Secret, m: Opening, named: Term)
    ensures ReadOpening(Start(sr, Zero), m).1 == Ok(named) <==>
            m.Opening? && Is32(named) && m.body == Sealed(Hmac(ProtocolName, Dh(sr, m.ephemeral)), m.nonce, named)
    ensures forall e: Secret :: Dh(sr, Public(e)) == Dh(e, Public(sr))
  {
    forall e: Secret
      ensures Dh(sr, Public(e)) == Dh(e, Public(sr))
    {
      DhOfPublic(sr, e);
    }
  }

  /** How an outsider may compute a term from what is published and from the secrets it knows. */
  datatype Recipe =
    | Given(t: Term)
    | Joined(left: Recipe, right: Recipe)
    | LeftOf(whole: Recipe)
    | RightOf(whole: Recipe)
    | Hashed(input: Recipe)
    | Keyed(key: Recipe, message: Recipe)
    | Locked(key: Recipe, nonce: nat, plain: Recipe)
    | Unlocked(key: Recipe, body: Recipe)
    | Multiplied(secret: Secret, point: Recipe)
    | Respelled(form: nat, point: Recipe)

  /** Anyone has the constants, every public key, static or ephemeral, and every sealed public key. */
  predicate Published(t: Term) {
    match t
    case ProtocolName | Zero | Tag(_) | Data(_) | NonceBytes(_) | Generator | LowOrder(_) => true
    case Mul(b, k) => b == Generator && |k| == 1
    case Sealed(_, _, p) => p.Mul? && p.base == Generator && |p.scalars| == 1
    case _ => false
  }

  function Make(known: set<Secret>, r: Recipe): Option<Term> {
    match r
    case Given(t) => if Published(t) then Some(t) else None
    case Joined(a, b) =>
      var x, y := Make(known, a), Make(known, b);
      if x.Some? && y.Some? then Some(Concat(x.value, y.value)) else None
    case LeftOf(a) =>
      var x := Make(known, a);
      if x.Some? && x.value.Concat? then Some(x.value.left) else None
    case RightOf(a) =>
      var x := Make(known, a);
      if x.Some? && x.value.Concat? then Some(x.value.right) else None
    case Hashed(a) =>
      var x := Make(known, a);
      if x.Some? then Some(Hash(x.value)) else None
    case Keyed(a, b) =>
      var x, y := Make(known, a), Make(known, b);
      if x.Some? && y.Some? then Some(Hmac(x.value, y.value)) else None
    case Locked(a, n, b) =>
      var x, y := Make(known, a), Make(known, b);
      if x.Some? && y.Some? then Some(Sealed(x.value, n, y.value)) else None
    case Unlocked(a, b) =>
      var x, y := Make(known, a), Make(known, b);
      if x.Some? && y.Some? && y.value.Sealed? then Open(x.value, y.value.sealNonce, y.value) else None
    case Multiplied(s, a) =>
      var x := Make(known, a);
      if s in known && x.Some? then Some(Dh(s, x.value)) else None
    case Respelled(form, a) =>
      var x := Make(known, a);
      if x.Some? then Some(Alias(form, x.value)) else None
  }

  ghost predicate Derivable(known: set<Secret>, t: Term) {
    exists r :: Make(known, r) == Some(t)
  }

  /** Of the secrets in the bag at most one, and that once, is unknown. */
  ghost predicate OneUnknown(known: set<Secret>, k: multiset<Secret>) {
    && (forall x, y :: x in k && y in k && x != y ==> x in known || y in known)
    && (forall x :: x in k && k[x] > 1 ==> x in known)
  }

  /** No point in the term, outside of sealing keys, needs two unknown secrets. */
  ghost predicate Tame(known: set<Secret>, t: Term) {
    match t
    case Concat(l, r) => Tame(known, l) && Tame(known, r)
    case Hash(i) => Tame(known, i)
    case Hmac(k, m) => Tame(known, k) && Tame(known, m)
    case Sealed(_, _, p) => Tame(known, p)
    case Alias(_, u) => Tame(known, u)
    case Mul(b, _) => Tame(known, b) && (PointOf(t).Multiple? ==> OneUnknown(known, PointOf(t).scalars))
    case _ => true
  }

  lemma {:induction false} TamePoint(known: set<Secret>, t: Term)
    requires Tame(known, t) && PointOf(t).Multiple?
    ensures var p := PointOf(t);
            Tame(known, p.base) && OneUnknown(known, p.scalars) && PointOf(p.base) == Multiple(p.base, multiset{})
  {
    match t {
      case Alias(_, u) => TamePoint(known, u);
      case Mul(b, _) => TamePoint(known, b);
      case _ =>
    }
  }

  lemma DhIsTame(known: set<Secret>, s: Secret, t: Term)
    requires s in known && Tame(known, t)
    ensures Tame(known, Dh(s, t))
  {
    if PointOf(t).Multiple? {
      TamePoint(known, t);
      var k := PointOf(t).scalars;
      assert multiset{} + (k + multiset{s}) == k + multiset{s};
    }
  }

  lemma PublishedIsTame(known: set<Secret>, t: Term)
    requires Published(t)
    ensures Tame(known, t)
  {
    if t.Mul? {
      SingleIsTame(known, t);
    } else if t.Sealed? {
      SingleIsTame(known, t.plain);
    }
  }

  lemma SingleIsTame(known: set<Secret>, t: Term)
    requires t.Mul? && t.base == Generator && |t.scalars| == 1
    ensures Tame(known, t)
  {
    var x :| x in t.scalars;
    assert |t.scalars - multiset{x}| == 0;
    assert t.scalars == (t.scalars - multiset{x}) + multiset{x} == multiset{x};
    PublicPoint(x);
  }

  /** Whatever an outsider computes is tame. */
  lemma {:induction false} MadeIsTame(known: set<Secret>, r: Recipe)
    requires Make(known, r).Some?
    ensures Tame(known, Make(known, r).value)
  {
    match r {
      case Given(t) => PublishedIsTame(known, t);
      case Joined(a, b) => MadeIsTame(known, a); MadeIsTame(known, b);
      case LeftOf(a) => MadeIsTame(known, a);
      case RightOf(a) => MadeIsTame(known, a);
      case Hashed(a) => MadeIsTame(known, a);
      case Keyed(a, b) => MadeIsTame(known, a); MadeIsTame(known, b);
      case Locked(_, _, b) => MadeIsTame(known, b);
      case Unlocked(_, b) => MadeIsTame(known, b);
      case Multiplied(s, a) => MadeIsTame(known, a); DhIsTame(known, s, Make(known, a).value);
      case Respelled(_, a) => MadeIsTame(known, a);
    }
  }

  /** The chaining key of the responder after it replied. */
  function ResponderChain(sr: Secret, er: Secret, ephemeral: Term, named: Term): Term {
    Hmac(Hmac(Hmac(Hmac(ProtocolName, Dh(sr, ephemeral)), Dh(sr, named)), Dh(er, ephemeral)), Dh(er, named))
  }

  lemma TamePair(known: set<Secret>, s: Secret, v: Secret, named: Term)
    requires SamePoint(named, Public(v)) && Tame(known, Dh(s, named))
    ensures v in known || s in known
  {
    PublicPoint(v);
    var k := multiset{v} + multiset{s};
    assert Dh(s, named) == Mul(Generator, k);
    assert PointOf(Mul(Generator, k)) == Multiple(Generator, multiset{} + k) && multiset{} + k == k;
    assert v in k && s in k && (v == s ==> k[v] == 2);
  }

  /** A key split off the responder's chain takes the named secret, or both secrets of the responder. */
  lemma OnlyTheNamedFollow(known: set<Secret>, sr: Secret, er: Secret, ephemeral: Term, named: Term, v: Secret,
                           input: Term)
    requires SamePoint(named, Public(v))
    requires Derivable(known, Hmac(ResponderChain(sr, er, ephemeral, named), input))
    ensures v in known || (sr in known && er in known)
  {
    var r :| Make(known, r) == Some(Hmac(ResponderChain(sr, er, ephemeral, named), input));
    MadeIsTame(known, r);
    var es := Hmac(ProtocolName, Dh(sr, ephemeral));
    var ss := Hmac(es, Dh(sr, named));
    var ee := Hmac(ss, Dh(er, ephemeral));
    assert Tame(known, Hmac(ee, Dh(er, named)));
    assert Tame(known, ee) && Tame(known, Dh(er, named));
    assert Tame(known, ss);
    assert Tame(known, Dh(sr, named));
    TamePair(known, sr, v, named);
    TamePair(known, er, v, named);
  }

  /** One more input is mixed into a chaining key. */
  lemma MixIsMade(known: set<Secret>, ck: Recipe, input: Recipe, t: Term, u: Term)
    requires Make(known, ck) == Some(t) && Make(known, input) == Some(u)
    ensures Make(known, Keyed(ck, input)) == Some(Hmac(t, u))
  {
  }

  lemma ChainOf(known: set<Secret>, es: Recipe, ss: Recipe, ee: Recipe, se: Recipe) returns (r: Recipe)
    requires Make(known, es).Some? && Make(known, ss).Some? && Make(known, ee).Some? && Make(known, se).Some?
    ensures Make(known, r) ==
            Some(Hmac(Hmac(Hmac(Hmac(ProtocolName, Make(known, es).value), Make(known, ss).value),
                           Make(known, ee).value), Make(known, se).value))
  {
    var name := Given(ProtocolName);
    assert Make(known, name) == Some(ProtocolName);
    MixIsMade(known, name, es, ProtocolName, Make(known, es).value);
    var one := Keyed(name, es);
    MixIsMade(known, one, ss, Make(known, one).value, Make(known, ss).value);
    var two := Keyed(one, ss);
    MixIsMade(known, two, ee, Make(known, two).value, Make(known, ee).value);
    var three := Keyed(two, ee);
    MixIsMade(known, three, se, Make(known, three).value, Make(known, se).value);
    r := Keyed(three, se);
  }

  lemma PublicIsGiven(known: set<Secret>, s: Secret, x: Secret)
    requires s in known
    ensures Make(known, Multiplied(s, Given(Public(x)))) == Some(Dh(s, Public(x)))
    ensures Dh(s, Public(x)) == Dh(x, Public(s))
  {
    DhOfPublic(s, x);
    assert |multiset{x}| == 1;
    assert Make(known, Given(Public(x))) == Some(Public(x));
  }

  /** Who knows the ephemeral secret and the named one, or both of the responder's, can compute the chain. */
  lemma ChainIsMade(known: set<Secret>, sr: Secret, er: Secret, e: Secret, named: Term, v: Secret) returns (r: Recipe)
    requires e in known && SamePoint(named, Public(v)) && (v in known || (sr in known && er in known))
    ensures Make(known, r) == Some(ResponderChain(sr, er, Public(e), named))
  {
    PublicIsGiven(known, e, sr);
    PublicIsGiven(known, e, er);
    assert Dh(sr, named) == Dh(sr, Public(v)) && Dh(er, named) == Dh(er, Public(v));
    var es, ee := Multiplied(e, Given(Public(sr))), Multiplied(e, Given(Public(er)));
    if v in known {
      PublicIsGiven(known, v, sr);
      PublicIsGiven(known, v, er);
      r := ChainOf(known, es, Multiplied(v, Given(Public(sr))), ee, Multiplied(v, Given(Public(er))));
    } else {
      PublicIsGiven(known, sr, v);
      PublicIsGiven(known, er, v);
      r := ChainOf(known, es, Multiplied(sr, Given(Public(v))), ee, Multiplied(er, Given(Public(v))));
    }
  }

  lemma SplitIsMade(known: set<Secret>, ck: Term, r: Recipe)
    requires Make(known, r) == Some(ck)
    ensures Derivable(known, Split(ck).0) && Derivable(known, Split(ck).1)
  {
    var first := Keyed(r, Given(Tag(1)));
    assert Make(known, Given(Tag(1))) == Some(Tag(1)) && Make(known, Given(Tag(2))) == Some(Tag(2));
    assert Make(known, first) == Some(Split(ck).0);
    assert Make(known, Joined(first, Given(Tag(2)))) == Some(Concat(Split(ck).0, Tag(2)));
    assert Make(known, Keyed(r, Joined(first, Given(Tag(2))))) == Some(Split(ck).1);
  }

  /**
   * The keys authenticate whom the opening only names: of all who know the opening's ephemeral secret, exactly those
   * can compute a key of the responder who know the named static secret, or both the static and the ephemeral secret
   * of the responder itself.
   */
  lemma KeysReachExactly(known: set<Secret>, sr: Secret, er: Secret, e: Secret, nonce: nat, body: Term, v: Secret)
    requires e in known
    requires ReadOpening(Start(sr, Zero), Opening(Public(e), nonce, body)).1.Ok?
    requires SamePoint(ReadOpening(Start(sr, Zero), Opening(Public(e), nonce, body)).1.value, Public(v))
    ensures var r1 := ReadOpening(Start(sr, Zero), Opening(Public(e), nonce, body)).0;
            var kr := BuildReply(r1, er).1.value.1;
            && (Derivable(known, kr.recv) <==> v in known || (sr in known && er in known))
            && (Derivable(known, kr.send) <==> v in known || (sr in known && er in known))
  {
    var (r1, who) := ReadOpening(Start(sr, Zero), Opening(Public(e), nonce, body));
    var kr := BuildReply(r1, er).1.value.1;
    var ck := ResponderChain(sr, er, Public(e), who.value);
    assert kr == Keys(Split(ck).1, Split(ck).0);
    if v in known || (sr in known && er in known) {
      var r := ChainIsMade(known, sr, er, e, who.value, v);
      SplitIsMade(known, ck, r);
    } else {
      if Derivable(known, kr.recv) {
        OnlyTheNamedFollow(known, sr, er, Public(e), who.value, v, Tag(1));
      }
      if Derivable(known, kr.send) {
        OnlyTheNamedFollow(known, sr, er, Public(e), who.value, v, Concat(Split(ck).0, Tag(2)));
      }
    }
  }

  /** transport_keys() agrees with the keys the finishing call returned for the initiator, never for the responder. */
  lemma TransportKeysFitTheInitiatorOnly(i: Handshake, reply: Reply, r: Handshake, er: Secret)
    requires ReadReply(i, reply).1.Ok? && BuildReply(r, er).1.Ok?
    ensures TransportKeys(ReadReply(i, reply).0) == Some(ReadReply(i, reply).1.value)
    ensures TransportKeys(BuildReply(r, er).0) ==
            Some(Keys(BuildReply(r, er).1.value.1.recv, BuildReply(r, er).1.value.1.send))
    ensures TransportKeys(BuildReply(r, er).0) != Some(BuildReply(r, er).1.value.1)
  {
  }

  // ---- A responder that is offered several openings ----

  /** The responder's state after it was offered a list of openings, whatever became of each. */
  function Offer(s: Handshake, ms: seq<Opening>): Handshake {
    if ms == [] then s else ReadOpening(Offer(s, ms[..|ms| - 1]), ms[|ms| - 1]).0
  }

  ghost predicate AllShort(ms: seq<Opening>) {
    forall i :: 0 <= i < |ms| ==> ms[i].ShortOpening?
  }

  lemma {:induction false} OfferedState(sr: Secret, ms: seq<Opening>)
    ensures var s := Offer(Start(sr, Zero), ms);
            && s.own == sr
            && (AllShort(ms) ==> s == Start(sr, Zero))
            && (!AllShort(ms) ==> s.phase != Init || s.ck != ProtocolName)
    decreases |ms|
  {
    if ms == [] {
    } else {
      var n := |ms| - 1;
      OfferedState(sr, ms[..n]);
      var s := Offer(Start(sr, Zero), ms[..n]);
      assert AllShort(ms) <==> AllShort(ms[..n]) && ms[n].ShortOpening?;
      if ms[n].Opening? && s.phase == Init {
        assert ReadOpening(s, ms[n]).0.ck.Hmac?;
      }
    }
  }

  /**
   * An honest opening is accepted after earlier offers exactly when all of those were too short to be read: a
   * rejected opening of full length has already changed the chaining key.
   */
  lemma RetryAfterRejection(si: Secret, sr: Secret, ei: Secret, nonce: nat, earlier: seq<Opening>)
    ensures var m := BuildOpening(Start(si, Public(sr)), ei, nonce).1.value;
            ReadOpening(Offer(Start(sr, Zero), earlier), m).1.Ok? <==> AllShort(earlier)
  {
    OfferedState(sr, earlier);
    if AllShort(earlier) {
      OnlyTheAddresseeAccepts(si, sr, sr, ei, nonce);
    } else {
      SpoiltChainRejects(Offer(Start(sr, Zero), earlier), si, sr, ei, nonce);
    }
  }

  lemma SpoiltChainRejects(s: Handshake, si: Secret, sr: Secret, ei: Secret, nonce: nat)
    requires s.phase != Init || s.ck != ProtocolName
    ensures ReadOpening(s, BuildOpening(Start(si, Public(sr)), ei, nonce).1.value).1.Err?
  {
    var key := BuildOpening(Start(si, Public(sr)), ei, nonce).1.value.body.sealKey;
    assert key.key == ProtocolName;
  }

  // ---- The calls of one object, in any order ----

  datatype Call =
    | DoOpen(e: Secret, nonce: nat)
    | DoReadOpening(opening: Opening)
    | DoReply(e: Secret)
    | DoReadReply(reply: Reply)

  /** The state after a call, and whether it succeeded. */
  function Called(s: Handshake, c: Call): (Handshake, bool) {
    match c
    case DoOpen(e, n) => var r := BuildOpening(s, e, n); (r.0, r.1.Ok?)
    case DoReadOpening(m) => var r := ReadOpening(s, m); (r.0, r.1.Ok?)
    case DoReply(e) => var r := BuildReply(s, e); (r.0, r.1.Ok?)
    case DoReadReply(m) => var r := ReadReply(s, m); (r.0, r.1.Ok?)
  }

  function AfterCalls(s: Handshake, cs: seq<Call>): Handshake {
    if cs == [] then s else Called(AfterCalls(s, cs[..|cs| - 1]), cs[|cs| - 1]).0
  }

  /** The calls that succeeded, in order. */
  function Succeeded(s: Handshake, cs: seq<Call>): seq<Call> {
    if cs == [] then []
    else
      var front, last := cs[..|cs| - 1], cs[|cs| - 1];
      Succeeded(s, front) + if Called(AfterCalls(s, front), last).1 then [last] else []
  }

  /** Each phase admits one kind of call, and for the readers a message of sufficient length that opens to a key. */
  lemma CallSucceedsExactly(s: Handshake, c: Call)
    ensures Called(s, c).1 <==>
            match c
            case DoOpen(_, _) => s.phase == Init
            case DoReadOpening(m) =>
              s.phase == Init && m.Opening? && m.body.Sealed? && Is32(m.body.plain) &&
              m.body == Sealed(Hmac(s.ck, Dh(s.own, m.ephemeral)), m.nonce, m.body.plain)
            case DoReply(_) => s.phase == ResponderSent
            case DoReadReply(m) => s.phase == InitiatorSent && m.Reply? && s.ephemeral.Some?
  {
  }

  /** The successful calls so far and the phase they lead to. */
  /** Only an opening read in full can fail to decrypt; any other failure is a wrong phase or a short message. */
  lemma ErrorsTellWhy(s: Handshake, e: Secret, nonce: nat, opening: Opening, reply: Reply)
    ensures ReadOpening(s, opening).1 == Err(DecryptionFailed) <==>
            && s.phase == Init && opening.Opening?
            && var key := Hmac(s.ck, Dh(s.own, opening.ephemeral));
               forall x :: Is32(x) ==> opening.body != Sealed(key, opening.nonce, x)
    ensures s.phase != Init || opening.ShortOpening? ==> ReadOpening(s, opening).1 == Err(InvalidState)
    ensures BuildOpening(s, e, nonce).1.Err? ==> BuildOpening(s, e, nonce).1 == Err(InvalidState)
    ensures BuildReply(s, e).1.Err? ==> BuildReply(s, e).1 == Err(InvalidState)
    ensures ReadReply(s, reply).1.Err? ==> ReadReply(s, reply).1 == Err(InvalidState)
  {
    if s.phase == Init && opening.Opening? {
      var key := Hmac(s.ck, Dh(s.own, opening.ephemeral));
      if opening.body.Sealed? {
        assert opening.body == Sealed(opening.body.sealKey, opening.body.sealNonce, opening.body.plain);
      }
    }
  }

  ghost predicate InOrder(done: seq<Call>, phase: Phase) {
    match phase
    case Init => done == []
    case InitiatorSent => |done| == 1 && done[0].DoOpen?
    case ResponderSent => |done| == 1 && done[0].DoReadOpening?
    case Established =>
      |done| == 2 && ((done[0].DoOpen? && done[1].DoReadReply?) || (done[0].DoReadOpening? && done[1].DoReply?))
  }

  /** Whatever is called on one object in whatever order, what succeeds is one role's two calls in their order. */
  lemma {:induction false} CallsSucceedInOrder(own: Secret, peer: Term, cs: seq<Call>)
    ensures InOrder(Succeeded(Start(own, peer), cs), AfterCalls(Start(own, peer), cs).phase)
    decreases |cs|
  {
    if cs == [] {
    } else {
      var front, last := cs[..|cs| - 1], cs[|cs| - 1];
      CallsSucceedInOrder(own, peer, front);
      var s, done := AfterCalls(Start(own, peer), front), Succeeded(Start(own, peer), front);
      assert done + [] == done;
      CallMovesPhase(s, last);
    }
  }

  lemma CallMovesPhase(s: Handshake, c: Call)
    ensures var (t, ok) := Called(s, c);
            && (!ok ==> t.phase == s.phase)
            && (ok ==> t.phase == match c
                                  case DoOpen(_, _) => InitiatorSent
                                  case DoReadOpening(_) => ResponderSent
                                  case _ => Established)
  {
  }

  /** A failed call leaves no trace, except that a full opening that was rejected has changed key, hash and peer. */
  lemma FailureLeaves(s: Handshake, c: Call)
    requires !Called(s, c).1
    ensures var t := Called(s, c).0;
            if c.DoReadOpening? && c.opening.Opening? && s.phase == Init then
              t == s.(peerEphemeral := c.opening.ephemeral,
                      ck := Hmac(s.ck, Dh(s.own, c.opening.ephemeral)),
                      h := Hash(Concat(Hash(Concat(s.h, c.opening.ephemeral)),
                                       Concat(NonceBytes(c.opening.nonce), c.opening.body))))
            else t == s
  {
  }

  // ---- Transport ----

  const NONCES: nat := 0x1_0000_0000_0000_0000

  type u64 = x: int | 0 <= x < NONCES

  datatype Packet = ShortPacket | Packet(nonce: nat, body: Term)

  /** The packets of a stream of plaintexts sealed from a given counter on; the counter is a u64 that wraps. */
  function Stream(key: Term, first: nat, plains: seq<Term>): (ps: seq<Packet>)
    ensures |ps| == |plains|
    ensures forall i :: 0 <= i < |ps| ==>
                          ps[i] == Packet((first + i) % NONCES, Sealed(key, (first + i) % NONCES, plains[i]))
  {
    if plains == [] then []
    else
      var n := |plains| - 1;
      Stream(key, first, plains[..n]) + [Packet((first + n) % NONCES, Sealed(key, (first + n) % NONCES, plains[n]))]
  }

  function Decrypted(key: Term, p: Packet): Option<Term> {
    match p
    case ShortPacket => None
    case Packet(nonce, body) => Open(key, nonce, body)
  }

  /** A packet opens exactly when it was sealed under this key and the very nonce it carries. */
  lemma DecryptsExactly(key: Term, p: Packet, plain: Term)
    ensures Decrypted(key, p) == Some(plain) <==> p.Packet? && p.body == Sealed(key, p.nonce, plain)
  {
  }

  /** After an honest handshake every packet opens to its plaintext at the other end, in any order, and nowhere else. */
  lemma TransportRoundTrip(si: Secret, sr: Secret, ei: Secret, er: Secret, nonce: nat, plains: seq<Term>, i: nat)
    requires i < |plains|
    ensures var (i1, m1) := BuildOpening(Start(si, Public(sr)), ei, nonce);
            var (r1, who) := ReadOpening(Start(sr, Zero), m1.value);
            r1.phase == ResponderSent &&
            var (r2, m2) := BuildReply(r1, er);
            i1.phase == InitiatorSent && i1.ephemeral.Some? &&
            var ki := ReadReply(i1, m2.value.0).1.value;
            var kr := m2.value.1;
            && Decrypted(kr.recv, Stream(ki.send, 0, plains)[i]) == Some(plains[i])
            && Decrypted(ki.recv, Stream(kr.send, 0, plains)[i]) == Some(plains[i])
            && Decrypted(ki.recv, Stream(ki.send, 0, plains)[i]) == None
            && Decrypted(kr.recv, Stream(kr.send, 0, plains)[i]) == None
  {
    HonestRun(si, sr, ei, er, nonce);
  }

  lemma ResiduesDiffer(a: nat, b: nat)
    requires 0 < b - a < NONCES
    ensures a % NONCES != b % NONCES
  {
  }

  ghost predicate FreshNonces(ps: seq<Packet>)
    requires forall i :: 0 <= i < |ps| ==> ps[i].Packet?
  {
    forall i, j :: 0 <= i < j < |ps| ==> ps[i].nonce != ps[j].nonce
  }

  /** No nonce is used twice under one key, exactly as long as at most 2^64 packets are sealed. */
  lemma NoncesAreFresh(key: Term, first: u64, plains: seq<Term>)
    ensures FreshNonces(Stream(key, first, plains)) <==> |plains| <= 0x1_0000_0000_0000_0000
  {
    var ps := Stream(key, first, plains);
    if |plains| > NONCES {
      assert ps[0].nonce == (first + 0) % NONCES && ps[NONCES].nonce == (first + NONCES) % NONCES;
      assert (first + NONCES) % NONCES == first % NONCES;
    } else {
      forall i, j | 0 <= i < j < |plains|
        ensures ps[i].nonce != ps[j].nonce
      {
        ResiduesDiffer(first + i, first + j);
      }
    }
  }

  // ---- The objects ----

  class NoiseTransportKey {
    const key: Term
    var nonce: u64

    constructor (key: Term)
      ensures this.key == key && nonce == 0
    {
      this.key := key;
      nonce := 0;
    }

    method Encrypt(plaintext: Term) returns (p: Packet)
      modifies this
      ensures p == Stream(key, old(nonce), [plaintext])[0] == Packet(old(nonce), Sealed(key, old(nonce), plaintext))
      ensures nonce == (old(nonce) + 1) % NONCES
    {
      var n := nonce;
      nonce := (nonce + 1) % NONCES;
      p := Packet(n, Sealed(key, n, plaintext));
    }

    method Decrypt(data: Packet) returns (plaintext: Option<Term>)
      ensures plaintext == Decrypted(key, data)
      ensures plaintext.Some? ==> data.Packet? && data.body == Sealed(key, data.nonce, plaintext.value)
    {
      if data.ShortPacket? {
        return None;
      }
      return Open(key, data.nonce, data.body);
    }
  }

  class NoiseIKHandshake {
    var phase: Phase
    const own: Secret
    var peerStatic: Term
    var ephemeral: Option<Secret>
    var peerEphemeral: Term
    var chainingKey: Term
    var handshakeHash: Term

    ghost function View(): Handshake
      reads this
    {
      Handshake(phase, own, peerStatic, ephemeral, peerEphemeral, chainingKey, handshakeHash)
    }

    constructor Initiator(own: Secret, peerStatic: Term)
      ensures View() == Start(own, peerStatic)
    {
      phase := Init;
      this.own := own;
      this.peerStatic := peerStatic;
      ephemeral := None;
      peerEphemeral := Zero;
      chainingKey := ProtocolName;
      handshakeHash := Hash(ProtocolName);
    }

    constructor Responder(own: Secret)
      ensures View() == Start(own, Zero)
    {
      phase := Init;
      this.own := own;
      peerStatic := Zero;
      ephemeral := None;
      peerEphemeral := Zero;
      chainingKey := ProtocolName;
      handshakeHash := Hash(ProtocolName);
    }

    method BuildInitiatorMessage(e: Secret, nonce: nat) returns (r: Result<Opening>)
      modifies this
      ensures (View(), r) == BuildOpening(old(View()), e, nonce)
    {
      if phase != Init {
        return Err(InvalidState);
      }
      ephemeral := Some(e);
      handshakeHash := Hash(Concat(handshakeHash, Public(e)));
      chainingKey := Hmac(chainingKey, Dh(e, peerStatic));
      var body := Sealed(chainingKey, nonce, Public(own));
      handshakeHash := Hash(Concat(handshakeHash, Concat(NonceBytes(nonce), body)));
      chainingKey := Hmac(chainingKey, Dh(own, peerStatic));
      phase := InitiatorSent;
      return Ok(Opening(Public(e), nonce, body));
    }

    method ProcessInitiatorMessage(message: Opening) returns (r: Result<Term>)
      modifies this
      ensures (View(), r) == ReadOpening(old(View()), message)
    {
      if phase != Init {
        return Err(InvalidState);
      }
      if message.ShortOpening? {
        return Err(InvalidState);
      }
      handshakeHash := Hash(Concat(handshakeHash, message.ephemeral));
      chainingKey := Hmac(chainingKey, Dh(own, message.ephemeral));
      peerEphemeral := message.ephemeral;
      handshakeHash := Hash(Concat(handshakeHash, Concat(NonceBytes(message.nonce), message.body)));
      var plain := Open(chainingKey, message.nonce, message.body);
      if plain.None? {
        return Err(DecryptionFailed);
      }
      if !Is32(plain.value) {
        return Err(DecryptionFailed);
      }
      peerStatic := plain.value;
      chainingKey := Hmac(chainingKey, Dh(own, peerStatic));
      phase := ResponderSent;
      return Ok(peerStatic);
    }

    method BuildResponderMessage(e: Secret) returns (r: Result<(Reply, Keys)>)
      modifies this
      ensures (View(), r) == BuildReply(old(View()), e)
    {
      if phase != ResponderSent {
        return Err(InvalidState);
      }
      handshakeHash := Hash(Concat(handshakeHash, Public(e)));
      chainingKey := Hmac(chainingKey, Dh(e, peerEphemeral));
      chainingKey := Hmac(chainingKey, Dh(e, peerStatic));
      phase := Established;
      var (sendKey, recvKey) := Split(chainingKey);
      return Ok((Reply(Public(e)), Keys(recvKey, sendKey)));
    }

    method ProcessResponderMessage(response: Reply) returns (r: Result<Keys>)
      modifies this
      ensures (View(), r) == ReadReply(old(View()), response)
    {
      if phase != InitiatorSent {
        return Err(InvalidState);
      }
      if response.ShortReply? {
        return Err(InvalidState);
      }
      if ephemeral.None? {
        return Err(InvalidState);
      }
      handshakeHash := Hash(Concat(handshakeHash, response.ephemeral));
      chainingKey := Hmac(chainingKey, Dh(ephemeral.value, response.ephemeral));
      chainingKey := Hmac(chainingKey, Dh(own, response.ephemeral));
      phase := Established;
      var (sendKey, recvKey) := Split(chainingKey);
      return Ok(Keys(sendKey, recvKey));
    }
  }

  /** A complete conversation between two objects: one plaintext each way arrives. */
  method Converse(si: Secret, sr: Secret, ei: Secret, er: Secret, nonce: nat, ping: Term, pong: Term)
    returns (atResponder: Option<Term>, atInitiator: Option<Term>, who: Result<Term>)
    ensures who == Ok(Public(si)) && atResponder == Some(ping) && atInitiator == Some(pong)
  {
    HonestRun(si, sr, ei, er, nonce);
    var i := new NoiseIKHandshake.Initiator(si, Public(sr));
    var r := new NoiseIKHandshake.Responder(sr);
    var opening := i.BuildInitiatorMessage(ei, nonce);
    who := r.ProcessInitiatorMessage(opening.value);
    var reply := r.BuildResponderMessage(er);
    var keys := i.ProcessResponderMessage(reply.value.0);
    var toResponder := new NoiseTransportKey(keys.value.send);
    var fromInitiator := new NoiseTransportKey(reply.value.1.recv);
    var toInitiator := new NoiseTransportKey(reply.value.1.send);
    var fromResponder := new NoiseTransportKey(keys.value.recv);
    var p := toResponder.Encrypt(ping);
    atResponder := fromInitiator.Decrypt(p);
    var q := toInitiator.Encrypt(pong);
    atInitiator := fromResponder.Decrypt(q);
  }
}
