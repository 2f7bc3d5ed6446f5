/** The mesh resolver: authoritative records for *.mesh names, behind a cache with a fixed lifetime. */
module MeshDnsResolver {
  import opened Common

  type Ip = nat
  type Time = nat

  const SUFFIX: string := ".mesh"

  /** Five minutes in nanoseconds. */
  const CACHE_TTL: Time := 300_000_000_000

  datatype Record = Record(fqdn: string, ip: Ip, ttl: u32, addedAt: Time)

  datatype CacheEntry = CacheEntry(ip: Ip, expiresAt: Time)

  datatype State = State(records: map<string, Record>, cache: map<string, CacheEntry>)

  predicate IsMesh(hostname: string) {
    |hostname| >= |SUFFIX| && hostname[|hostname| - |SUFFIX|..] == SUFFIX
  }

  function Fqdn(hostname: string): (f: string)
    ensures IsMesh(f)
  {
    if IsMesh(hostname) then hostname else hostname + SUFFIX
  }

  /**
   * The calls of the resolver. Resolve reads the clock twice: at now for the cache, and at later when it stores
   * the answer; upstream is what the forwarders say about a name outside the mesh.
   */
  datatype Op =
    | Register(hostname: string, ip: Ip, ttl: u32, now: Time)
    | Unregister(hostname: string, now: Time)
    | Resolve(hostname: string, upstream: Option<Ip>, now: Time, later: Time)
    | ClearCache(now: Time)
  {
    function End(): Time {
      if Resolve? then later else now
    }
  }

  predicate Live(s: State, hostname: string, now: Time) {
    hostname in s.cache && s.cache[hostname].expiresAt > now
  }

  function Authoritative(s: State, hostname: string): Option<Ip> {
    if hostname in s.records then Some(s.records[hostname].ip) else None
  }

  function Fetched(s: State, hostname: string, upstream: Option<Ip>): Option<Ip> {
    if IsMesh(hostname) then Authoritative(s, hostname) else upstream
  }

  function Answer(s: State, hostname: string, upstream: Option<Ip>, now: Time): Option<Ip> {
    if Live(s, hostname, now) then Some(s.cache[hostname].ip) else Fetched(s, hostname, upstream)
  }

  function Apply(s: State, op: Op): State {
    match op
    case Register(h, ip, ttl, now) => s.(records := s.records[Fqdn(h) := Record(Fqdn(h), ip, ttl, now)])
    case Unregister(h, _) => s.(records := s.records - {Fqdn(h)})
    case Resolve(h, upstream, now, later) =>
      var fetched := Fetched(s, h, upstream);
      if Live(s, h, now) || fetched.None? then s
      else s.(cache := s.cache[h := CacheEntry(fetched.value, later + CACHE_TTL)])
    case ClearCache(_) => s.(cache := map[])
  }

  function Run(ops: seq<Op>): State {
    if ops == [] then State(map[], map[]) else Apply(Run(ops[..|ops| - 1]), ops[|ops| - 1])
  }

  /** The clock never runs backwards. */
  ghost predicate Ordered(ops: seq<Op>) {
    && (forall i :: 0 <= i < |ops| && ops[i].Resolve? ==> ops[i].now <= ops[i].later)
    && (forall i, j :: 0 <= i < j < |ops| ==> ops[i].End() <= ops[j].now)
  }

  /** Call j fetched ip for the name: from the records in force at that moment, or upstream for a name elsewhere. */
  ghost predicate FetchedAt(ops: seq<Op>, j: int, hostname: string, ip: Ip) {
    0 <= j < |ops| && ops[j].Resolve? && ops[j].hostname == hostname &&
    if IsMesh(hostname) then Authoritative(Run(ops[..j]), hostname) == Some(ip) else ops[j].upstream == Some(ip)
  }

  ghost predicate NoClear(ops: seq<Op>, j: int, i: int) {
    forall k :: 0 <= j < k < i <= |ops| ==> !ops[k].ClearCache?
  }

  /** Call j put this entry into the cache, and the cache was not cleared since. */
  ghost predicate Origin(ops: seq<Op>, j: int, hostname: string, entry: CacheEntry) {
    FetchedAt(ops, j, hostname, entry.ip) && NoClear(ops, j, |ops|) && entry.expiresAt == ops[j].later + CACHE_TTL
  }

  lemma OriginStays(ops: seq<Op>, j: int, hostname: string, entry: CacheEntry)
    requires ops != [] && Origin(ops[..|ops| - 1], j, hostname, entry) && !ops[|ops| - 1].ClearCache?
    ensures Origin(ops, j, hostname, entry)
  {
    var before := ops[..|ops| - 1];
    assert before[..j] == ops[..j];
    forall k | j < k < |ops|
      ensures !ops[k].ClearCache?
    {
      assert k < |before| ==> ops[k] == before[k];
    }
  }

  /** Every cached answer was fetched by an earlier call, after the last clearing. */
  lemma {:induction false} CacheOrigin(ops: seq<Op>, hostname: string) returns (j: int)
    requires hostname in Run(ops).cache
    ensures Origin(ops, j, hostname, Run(ops).cache[hostname])
    decreases |ops|
  {
    var n := |ops| - 1;
    var s := Run(ops[..n]);
    if hostname in s.cache && s.cache[hostname] == Run(ops).cache[hostname] {
      j := CacheOrigin(ops[..n], hostname);
      OriginStays(ops, j, hostname, s.cache[hostname]);
    } else {
      j := n;
    }
  }

  /**
   * Bounded staleness: an address returned for a name was fetched less than 300 seconds before the call, with no
   * clearing since: from the records for a mesh name, from upstream for any other. None means that the records have no
   * such name now, or that upstream has no answer.
   */
  lemma BoundedStaleness(ops: seq<Op>, i: nat)
    requires Ordered(ops) && i < |ops| && ops[i].Resolve?
    ensures var h := ops[i].hostname;
            var answer := Answer(Run(ops[..i]), h, ops[i].upstream, ops[i].now);
            && (answer.Some? ==> exists j :: 0 <= j <= i && FetchedAt(ops, j, h, answer.value) && NoClear(ops, j, i) &&
                                             ops[i].now < ops[j].later + CACHE_TTL)
            && (answer.None? ==> if IsMesh(h) then Authoritative(Run(ops[..i]), h) == None else ops[i].upstream == None)
  {
    var h := ops[i].hostname;
    var before := ops[..i];
    var s := Run(before);
    var answer := Answer(s, h, ops[i].upstream, ops[i].now);
    if Live(s, h, ops[i].now) {
      var j := CacheOrigin(before, h);
      OriginInRun(ops, i, j, h, s.cache[h]);
    } else if answer.Some? {
      assert FetchedAt(ops, i, h, answer.value) && NoClear(ops, i, i);
    }
  }

  lemma OriginInRun(ops: seq<Op>, i: nat, j: int, hostname: string, entry: CacheEntry)
    requires i <= |ops| && Origin(ops[..i], j, hostname, entry)
    ensures 0 <= j < i && FetchedAt(ops, j, hostname, entry.ip) && NoClear(ops, j, i)
    ensures entry.expiresAt == ops[j].later + CACHE_TTL
  {
    assert ops[..i][..j] == ops[..j];
    forall k | j < k < i
      ensures !ops[k].ClearCache?
    {
      assert ops[..i][k] == ops[k];
    }
  }

  lemma EntryMade(s: State, op: Op, ip: Ip)
    requires op.Resolve? && !Live(s, op.hostname, op.now) && Fetched(s, op.hostname, op.upstream) == Some(ip)
    ensures Lookup(Apply(s, op).cache, op.hostname) == Some(CacheEntry(ip, op.later + CACHE_TTL))
  {
  }

  predicate Spares(op: Op, entry: CacheEntry) {
    !op.ClearCache? && (op.Resolve? ==> op.now < entry.expiresAt)
  }

  lemma EntryKept(s: State, op: Op, hostname: string, entry: CacheEntry)
    requires Lookup(s.cache, hostname) == Some(entry) && Spares(op, entry)
    ensures Lookup(Apply(s, op).cache, hostname) == Some(entry)
  {
  }

  lemma EntryStaysOneMore(ops: seq<Op>, hostname: string, entry: CacheEntry)
    requires ops != [] && Lookup(Run(ops[..|ops| - 1]).cache, hostname) == Some(entry) && Spares(ops[|ops| - 1], entry)
    ensures Lookup(Run(ops).cache, hostname) == Some(entry)
  {
    EntryKept(Run(ops[..|ops| - 1]), ops[|ops| - 1], hostname, entry);
  }

  function CachedAt(ops: seq<Op>, hostname: string, entry: CacheEntry): nat -> bool {
    (k: nat) => k <= |ops| && Lookup(Run(ops[..k]).cache, hostname) == Some(entry)
  }

  lemma EntryStaysAt(ops: seq<Op>, k: nat, hostname: string, entry: CacheEntry)
    requires k < |ops| && CachedAt(ops, hostname, entry)(k) && Spares(ops[k], entry)
    ensures CachedAt(ops, hostname, entry)(k + 1)
  {
    assert ops[..k + 1][..k] == ops[..k];
    EntryStaysOneMore(ops[..k + 1], hostname, entry);
  }

  /** A fetched answer, from the records or from upstream, is repeated for 300 seconds unless the cache is cleared. */
  lemma AnswersStand(ops: seq<Op>, j: nat, i: nat, ip: Ip)
    requires Ordered(ops) && j < i < |ops| && ops[i].Resolve?
    requires FetchedAt(ops, j, ops[i].hostname, ip) && NoClear(ops, j, i)
    requires !Live(Run(ops[..j]), ops[j].hostname, ops[j].now) && ops[i].now < ops[j].later + 300_000_000_000
    ensures Answer(Run(ops[..i]), ops[i].hostname, ops[i].upstream, ops[i].now) == Some(ip)
  {
    var entry := CacheEntry(ip, ops[j].later + CACHE_TTL);
    var cached := CachedAt(ops, ops[i].hostname, entry);
    EntryMade(Run(ops[..j]), ops[j], ip);
    assert ops[..j + 1][..j] == ops[..j];
    assert cached(j + 1);
    forall k: nat | j < k < i && cached(k)
      ensures cached(k + 1)
    {
      assert !ops[k].ClearCache? && ops[k].End() <= ops[i].now;
      EntryStaysAt(ops, k, ops[i].hostname, entry);
    }
    Persists(cached, j + 1, i);
    assert cached(i);
  }

  // ---- The records ----

  /** A record is found under the name it was registered with, the suffix added unless it is there already. */
  lemma FqdnExactly(hostname: string)
    ensures var f := Fqdn(hostname);
            && |f| >= 5 && f[|f| - 5..] == ".mesh"
            && (f == hostname || f == hostname + ".mesh")
            && (f == hostname <==> |hostname| >= 5 && hostname[|hostname| - 5..] == ".mesh")
  {
    if !IsMesh(hostname) {
      var f := hostname + SUFFIX;
      assert f[|f| - 5..] == SUFFIX;
    }
  }

  function Registers(f: string, ip: Ip): Op -> bool {
    (op: Op) => op.Register? && op.ip == ip && Fqdn(op.hostname) == f
  }

  function Touching(f: string): Op -> bool {
    (op: Op) => Touches(op, f)
  }

  lemma RecordStep(s: State, op: Op, f: string, ip: Ip)
    ensures Authoritative(Apply(s, op), f) == Some(ip) <==>
            Registers(f, ip)(op) || (Authoritative(s, f) == Some(ip) && !Touching(f)(op))
  {
  }

  /** The records answer with the address of the last registration of the name, unless it was taken back since. */
  lemma {:induction false} RecordIsLastRegistration(ops: seq<Op>, f: string, ip: Ip)
    ensures Authoritative(Run(ops), f) == Some(ip) <==> LastsSomewhere(ops, Registers(f, ip), Touching(f))
    decreases |ops|
  {
    if ops == [] {
    } else {
      var front, last := ops[..|ops| - 1], ops[|ops| - 1];
      RecordIsLastRegistration(front, f, ip);
      RecordStep(Run(front), last, f, ip);
      LastsOneMore(front, last, Registers(f, ip), Touching(f));
      assert ops == front + [last];
    }
  }

  predicate Touches(op: Op, hostname: string) {
    (op.Register? || op.Unregister?) && Fqdn(op.hostname) == hostname
  }

  lemma UntouchedByOne(s: State, op: Op, hostname: string)
    requires !Touches(op, hostname)
    ensures Authoritative(Apply(s, op), hostname) == Authoritative(s, hostname)
  {
  }

  lemma {:induction false} UntouchedRecord(ops: seq<Op>, j: nat, i: nat, hostname: string)
    requires j <= i <= |ops| && forall k :: j <= k < i ==> !Touches(ops[k], hostname)
    ensures Authoritative(Run(ops[..i]), hostname) == Authoritative(Run(ops[..j]), hostname)
    decreases i
  {
    if j == i {
    } else {
      assert ops[..i][..i - 1] == ops[..i - 1];
      UntouchedRecord(ops, j, i - 1, hostname);
      UntouchedByOne(Run(ops[..i - 1]), ops[i - 1], hostname);
    }
  }

  /** A mesh answer that differs from the records now can only follow a change of that very name after the fetch. */
  lemma StaleOnlyAfterAChange(ops: seq<Op>, i: nat)
    requires Ordered(ops) && i < |ops| && ops[i].Resolve? && IsMesh(ops[i].hostname)
    requires var h := ops[i].hostname;
             Answer(Run(ops[..i]), h, ops[i].upstream, ops[i].now) != Authoritative(Run(ops[..i]), h)
    ensures exists j, k :: 0 <= j < k < i && ops[j].Resolve? && ops[j].hostname == ops[i].hostname &&
                           Touches(ops[k], ops[i].hostname) && ops[i].now < ops[j].later + CACHE_TTL
  {
    var h, before := ops[i].hostname, ops[..i];
    var s := Run(before);
    var j := CacheOrigin(before, h);
    OriginInRun(ops, i, j, h, s.cache[h]);
    if forall k :: j <= k < i ==> !Touches(ops[k], h) {
      UntouchedRecord(ops, j, i, h);
    }
    var k :| j <= k < i && Touches(ops[k], h);
    assert k != j;
  }

  /** An unregistered name may still be answered, for just under five minutes. */
  lemma StaleAnswer(h: string, ip: Ip, t: Time)
    requires IsMesh(h)
    ensures var ops := [Register(h, ip, 0, t), Resolve(h, None, t, t), Unregister(h, t)];
            && Ordered(ops)
            && forall now :: t <= now ==>
                 Answer(Run(ops), h, None, now) == (if now < t + CACHE_TTL then Some(ip) else None)
  {
    var ops := [Register(h, ip, 0, t), Resolve(h, None, t, t), Unregister(h, t)];
    assert ops[..2][..1][..0] == [] && ops[..2][..1] == [ops[0]] && ops[..2] == [ops[0], ops[1]];
    var s1 := Run(ops[..2][..1]);
    assert Run(ops[..2][..1][..0]) == State(map[], map[]) && ops[..2][..1][0] == ops[0];
    assert s1 == Apply(State(map[], map[]), ops[0]) && Authoritative(s1, h) == Some(ip);
    var s2 := Run(ops[..2]);
    assert s2 == Apply(s1, ops[1]) && s2.cache[h] == CacheEntry(ip, t + CACHE_TTL);
    assert Run(ops) == Apply(s2, ops[2]);
  }

  class MeshDns {
    var records: map<string, Record>
    var cache: map<string, CacheEntry>

    ghost function View(): State
      reads this
    {
      State(records, cache)
    }

    constructor ()
      ensures View() == Run([])
    {
      records, cache := map[], map[];
    }

    method Register(hostname: string, ip: Ip, ttl: u32, now: Time)
      modifies this
      ensures View() == Apply(old(View()), Op.Register(hostname, ip, ttl, now))
      ensures var f := if IsMesh(hostname) then hostname else hostname + ".mesh";
              records == old(records)[f := Record(f, ip, ttl, now)] && cache == old(cache)
    {
      var fqdn := if IsMesh(hostname) then hostname else hostname + SUFFIX;
      records := records[fqdn := Record(fqdn, ip, ttl, now)];
    }

    method Unregister(hostname: string, now: Time)
      modifies this
      ensures View() == Apply(old(View()), Op.Unregister(hostname, now))
      ensures records == old(records) - {if IsMesh(hostname) then hostname else hostname + ".mesh"}
      ensures cache == old(cache)
    {
      var fqdn := if IsMesh(hostname) then hostname else hostname + SUFFIX;
      records := records - {fqdn};
    }

    method Resolve(hostname: string, upstream: Option<Ip>, now: Time, later: Time) returns (result: Option<Ip>)
      modifies this
      ensures View() == Apply(old(View()), Op.Resolve(hostname, upstream, now, later))
      ensures result == Answer(old(View()), hostname, upstream, now)
      ensures records == old(records)
      ensures hostname !in old(cache) && !IsMesh(hostname) ==> result == upstream
      ensures hostname !in old(cache) && IsMesh(hostname) ==>
                result == if hostname in records then Some(records[hostname].ip) else None
    {
      if hostname in cache {
        var entry := cache[hostname];
        if entry.expiresAt > now {
          return Some(entry.ip);
        }
      }
      if IsMesh(hostname) {
        result := if hostname in records then Some(records[hostname].ip) else None;
      } else {
        result := upstream;
      }
      if result.Some? {
        cache := cache[hostname := CacheEntry(result.value, later + CACHE_TTL)];
      }
    }

    method ClearCache(now: Time)
      modifies this
      ensures View() == Apply(old(View()), Op.ClearCache(now))
    {
      cache := map[];
    }
  }
}
