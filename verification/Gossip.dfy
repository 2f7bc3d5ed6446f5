/** SWIM-style membership: a map of members merged by incarnation, changed by messages and by the failure detector. */
module Gossip {
  import opened Common

  type Id = string

  datatype MemberState = Alive | Suspect | Dead | Left

  /** The local time stamp last_changed is left out; the metadata travel with a member. */
  datatype Member = Member(id: Id, addr: string, state: MemberState, incarnation: nat, metadata: map<string, string>)

  datatype Message =
    | Ping(seqNum: nat, target: Id)
    | Ack(seqNum: nat, source: Id)
    | IndirectPing(seqNum: nat, target: Id, requester: Id)
    | MembershipUpdate(members: seq<Member>)
    | TopologyChange(linkId: string)
    | RelayElection(region: string)

  datatype State = State(ours: Id, members: map<Id, Member>, incarnation: nat)

  datatype Event =
    | Join(addr: string)
    | Add(member: Member)
    | Receive(message: Message)
    | MarkSuspect(id: Id)
    | MarkDead(id: Id)

  // ---- Effects ----

  /** A report about a member is taken when the member is unknown or the report is newer. */
  function Merge(members: map<Id, Member>, m: Member): map<Id, Member> {
    if m.id in members && m.incarnation <= members[m.id].incarnation then members else members[m.id := m]
  }

  function SetState(members: map<Id, Member>, id: Id, state: MemberState): map<Id, Member> {
    if id in members then members[id := members[id].(state := state)] else members
  }

  function Report(s: State, m: Member): State {
    if m.id != s.ours then s.(members := Merge(s.members, m))
    else if m.state == Dead then s.(incarnation := s.incarnation + 1)
    else s
  }

  function Reports(s: State, ms: seq<Member>): State {
    if ms == [] then s else Report(Reports(s, ms[..|ms| - 1]), ms[|ms| - 1])
  }

  function Apply(s: State, e: Event): State {
    match e
    case Join(addr) => s.(members := s.members[s.ours := Member(s.ours, addr, Alive, 0, map[])])
    case Add(m) => s.(members := Merge(s.members, m))
    case Receive(Ack(_, source)) => s.(members := SetState(s.members, source, Alive))
    case Receive(MembershipUpdate(ms)) => Reports(s, ms)
    case Receive(_) => s
    case MarkSuspect(id) => s.(members := SetState(s.members, id, Suspect))
    case MarkDead(id) => s.(members := SetState(s.members, id, Dead))
  }

  function Run(s: State, events: seq<Event>): State {
    if events == [] then s else Apply(Run(s, events[..|events| - 1]), events[|events| - 1])
  }

  // ---- The merge is a join ----

  function Held(s: State, d: Id): Option<nat> {
    if d in s.members then Some(s.members[d].incarnation) else None
  }

  ghost function HeldSet(s: State, d: Id): set<nat> {
    if d in s.members then {s.members[d].incarnation} else {}
  }

  /** The incarnations an event reports for a device. */
  ghost function Heard(e: Event, d: Id): set<nat> {
    match e
    case Add(m) => if m.id == d then {m.incarnation} else {}
    case Receive(MembershipUpdate(ms)) => set m | m in ms && m.id == d :: m.incarnation
    case _ => {}
  }

  ghost function HeardIn(events: seq<Event>, d: Id): set<nat> {
    if events == [] then {} else HeardIn(events[..|events| - 1], d) + Heard(events[|events| - 1], d)
  }

  ghost predicate IsMax(pool: set<nat>, m: Option<nat>) {
    match m
    case None => pool == {}
    case Some(x) => x in pool && forall y :: y in pool ==> y <= x
  }

  lemma HeardOneMore(ms: seq<Member>, m: Member, d: Id)
    ensures Heard(Receive(MembershipUpdate(ms + [m])), d) ==
            Heard(Receive(MembershipUpdate(ms)), d) + if m.id == d then {m.incarnation} else {}
  {
  }

  lemma ReportJoin(s: State, m: Member, d: Id)
    requires d != s.ours
    ensures Report(s, m).ours == s.ours
    ensures IsMax(HeldSet(s, d) + (if m.id == d then {m.incarnation} else {}), Held(Report(s, m), d))
  {
  }

  lemma {:induction false} ReportsJoin(s: State, ms: seq<Member>, d: Id)
    requires d != s.ours
    ensures Reports(s, ms).ours == s.ours
    ensures IsMax(HeldSet(s, d) + Heard(Receive(MembershipUpdate(ms)), d), Held(Reports(s, ms), d))
    decreases |ms|
  {
    var heard := Heard(Receive(MembershipUpdate(ms)), d);
    if ms == [] {
      assert heard == {};
    } else {
      var front, last := ms[..|ms| - 1], ms[|ms| - 1];
      var earlier, now := Heard(Receive(MembershipUpdate(front)), d), if last.id == d then {last.incarnation} else {};
      var t := Reports(s, front);
      ReportsJoin(s, front, d);
      ReportJoin(t, last, d);
      MaxOfUnion(HeldSet(s, d) + earlier, Held(t, d), now, HeldSet(t, d), Held(Reports(s, ms), d));
      assert ms == front + [last];
      HeardOneMore(front, last, d);
      assert HeldSet(s, d) + heard == HeldSet(s, d) + earlier + now;
    }
  }

  lemma ApplyJoin(s: State, e: Event, d: Id)
    requires d != s.ours
    ensures Apply(s, e).ours == s.ours
    ensures IsMax(HeldSet(s, d) + Heard(e, d), Held(Apply(s, e), d))
  {
    if e.Receive? && e.message.MembershipUpdate? {
      ReportsJoin(s, e.message.members, d);
    }
  }

  /**
   * After any events the incarnation held for another device is the maximum of the one held at the start and of
   * all that were ever reported; suspicion, death marks and acknowledgements in between change nothing.
   */
  lemma {:induction false} RunJoin(s: State, events: seq<Event>, d: Id)
    requires d != s.ours
    ensures Run(s, events).ours == s.ours
    ensures IsMax(HeldSet(s, d) + HeardIn(events, d), Held(Run(s, events), d))
    decreases |events|
  {
    if events == [] {
    } else {
      var before, last := events[..|events| - 1], events[|events| - 1];
      RunJoin(s, before, d);
      ApplyJoin(Run(s, before), last, d);
      var pool, held := HeldSet(s, d) + HeardIn(before, d), HeldSet(Run(s, before), d);
      assert HeldSet(s, d) + HeardIn(events, d) == pool + Heard(last, d);
      MaxOfUnion(pool, Held(Run(s, before), d), Heard(last, d), held, Held(Run(s, events), d));
    }
  }

  lemma MaxOfUnion(pool: set<nat>, m: Option<nat>, more: set<nat>, held: set<nat>, r: Option<nat>)
    requires IsMax(pool, m) && held == (if m.Some? then {m.value} else {}) && IsMax(held + more, r)
    ensures IsMax(pool + more, r)
  {
  }

  /** Order, batching and repetition of the reports do not matter. */
  lemma OnlyTheReportsMatter(s: State, a: seq<Event>, b: seq<Event>, d: Id)
    requires d != s.ours && HeardIn(a, d) == HeardIn(b, d)
    ensures Held(Run(s, a), d) == Held(Run(s, b), d)
  {
    RunJoin(s, a, d);
    RunJoin(s, b, d);
  }

  /** Members are stored under their own names. */
  ghost predicate Keyed(s: State) {
    forall d :: d in s.members ==> s.members[d].id == d
  }

  lemma {:induction false} ReportsKeyed(s: State, ms: seq<Member>)
    requires Keyed(s)
    ensures Keyed(Reports(s, ms))
    decreases |ms|
  {
    if ms == [] {
    } else {
      ReportsKeyed(s, ms[..|ms| - 1]);
    }
  }

  lemma {:induction false} RunKeyed(s: State, events: seq<Event>)
    requires Keyed(s)
    ensures Keyed(Run(s, events))
    decreases |events|
  {
    if events == [] {
    } else {
      var before, last := events[..|events| - 1], events[|events| - 1];
      RunKeyed(s, before);
      if last.Receive? && last.message.MembershipUpdate? {
        ReportsKeyed(Run(s, before), last.message.members);
      }
    }
  }

  /** ms lists the members of s in some order. */
  ghost predicate Snapshot(s: State, ms: seq<Member>) {
    && (forall m :: m in ms ==> exists d :: d in s.members && s.members[d] == m)
    && (forall d :: d in s.members ==> s.members[d] in ms)
  }

  /** Anti-entropy: two nodes that exchange their snapshots agree on the incarnation of every third device. */
  lemma ExchangedSnapshotsAgree(a: State, b: State, fromA: seq<Member>, fromB: seq<Member>, d: Id)
    requires Keyed(a) && Keyed(b) && Snapshot(a, fromA) && Snapshot(b, fromB)
    requires d != a.ours && d != b.ours
    ensures Held(Apply(a, Receive(MembershipUpdate(fromB))), d) == Held(Apply(b, Receive(MembershipUpdate(fromA))), d)
  {
    ReportsJoin(a, fromB, d);
    ReportsJoin(b, fromA, d);
    SnapshotHeard(a, fromA, d);
    SnapshotHeard(b, fromB, d);
  }

  lemma SnapshotHeard(s: State, ms: seq<Member>, d: Id)
    requires Keyed(s) && Snapshot(s, ms)
    ensures Heard(Receive(MembershipUpdate(ms)), d) == HeldSet(s, d)
  {
  }

  /**
   * The rest of the record depends on the order: two reports about one device commute exactly when they are equal,
   * or have different incarnations, or neither is newer than what is held.
   */
  lemma ReportsCommuteExactly(s: State, m: Member, n: Member)
    requires m.id == n.id && m.id != s.ours
    ensures Reports(s, [m, n]).members == Reports(s, [n, m]).members <==>
            m == n || m.incarnation != n.incarnation ||
            (m.id in s.members && m.incarnation <= s.members[m.id].incarnation)
  {
    TwoReports(s, m, n);
    TwoReports(s, n, m);
    MergeTwice(s.members, m, n);
    MergeTwice(s.members, n, m);
  }

  /** Of two reports the newer one stays, the first one when they are equally new. */
  lemma MergeTwice(members: map<Id, Member>, m: Member, n: Member)
    requires m.id == n.id
    ensures var newest := if n.incarnation > m.incarnation then n else m;
            Merge(Merge(members, m), n) ==
            if m.id in members && newest.incarnation <= members[m.id].incarnation then members
            else members[m.id := newest]
  {
  }

  lemma TwoReports(s: State, m: Member, n: Member)
    requires m.id != s.ours && n.id != s.ours
    ensures Reports(s, [m, n]).members == Merge(Merge(s.members, m), n)
  {
    assert [m, n][..1] == [m] && [m][..0] == [];
    assert Reports(s, []) == s;
    assert Reports(s, [m]) == Report(s, m);
  }

  /** Our own incarnation counts the rumours of our death. */
  function RumoursIn(ours: Id, ms: seq<Member>): nat {
    if ms == [] then 0
    else RumoursIn(ours, ms[..|ms| - 1]) + (if ms[|ms| - 1].id == ours && ms[|ms| - 1].state == Dead then 1 else 0)
  }

  function Rumours(ours: Id, events: seq<Event>): nat {
    if events == [] then 0
    else
      var last := events[|events| - 1];
      Rumours(ours, events[..|events| - 1]) +
      (if last.Receive? && last.message.MembershipUpdate? then RumoursIn(ours, last.message.members) else 0)
  }

  lemma {:induction false} ReportsCount(s: State, ms: seq<Member>)
    ensures Reports(s, ms).ours == s.ours && Reports(s, ms).incarnation == s.incarnation + RumoursIn(s.ours, ms)
    decreases |ms|
  {
    if ms == [] {
    } else {
      ReportsCount(s, ms[..|ms| - 1]);
    }
  }

  lemma {:induction false} IncarnationCountsRumours(s: State, events: seq<Event>)
    ensures Run(s, events).ours == s.ours
    ensures Run(s, events).incarnation == s.incarnation + Rumours(s.ours, events)
    decreases |events|
  {
    if events == [] {
    } else {
      var before, last := events[..|events| - 1], events[|events| - 1];
      IncarnationCountsRumours(s, before);
      if last.Receive? && last.message.MembershipUpdate? {
        ReportsCount(Run(s, before), last.message.members);
      }
    }
  }

  // ---- What is held about a member ----

  /** The state that an event marks d with: an acknowledgement of its own, a suspicion, or a death mark. */
  function Mark(e: Event, d: Id): Option<MemberState> {
    match e
    case Receive(Ack(_, source)) => if source == d then Some(Alive) else None
    case MarkSuspect(id) => if id == d then Some(Suspect) else None
    case MarkDead(id) => if id == d then Some(Dead) else None
    case _ => None
  }

  function LastMark(events: seq<Event>, d: Id, initial: MemberState): MemberState {
    if events == [] then initial
    else
      var mark := Mark(events[|events| - 1], d);
      if mark.Some? then mark.value else LastMark(events[..|events| - 1], d, initial)
  }

  /** While nothing newer is reported about a member, its record stands, and its state is the last mark it was given. */
  lemma {:induction false} StateIsLastMark(s: State, events: seq<Event>, d: Id)
    requires d != s.ours && d in s.members
    requires forall x :: x in HeardIn(events, d) ==> x <= s.members[d].incarnation
    ensures Run(s, events).ours == s.ours
    ensures Lookup(Run(s, events).members, d) ==
            Some(s.members[d].(state := LastMark(events, d, s.members[d].state)))
    decreases |events|
  {
    if events == [] {
    } else {
      var before, last := events[..|events| - 1], events[|events| - 1];
      assert HeardIn(events, d) == HeardIn(before, d) + Heard(last, d);
      StateIsLastMark(s, before, d);
      if last.Receive? && last.message.MembershipUpdate? {
        var ms := last.message.members;
        forall m | m in ms && m.id == d
          ensures m.incarnation <= s.members[d].incarnation
        {
          assert m.incarnation in Heard(last, d);
        }
        OldReportsChangeNothing(Run(s, before), ms, d);
      } else if last.Add? && last.member.id == d {
        assert last.member.incarnation in Heard(last, d);
      }
    }
  }

  ghost predicate ReportOf(e: Event, m: Member) {
    e == Add(m) || (e.Receive? && e.message.MembershipUpdate? && m in e.message.members)
  }

  /** Two records that agree on everything but the state. */
  predicate SameRecord(m: Member, n: Member) {
    m.(state := Alive) == n.(state := Alive)
  }

  ghost predicate ComesFrom(s: State, events: seq<Event>, held: Member) {
    || (held.id in s.members && SameRecord(held, s.members[held.id]))
    || exists i, m :: 0 <= i < |events| && ReportOf(events[i], m) && SameRecord(held, m)
  }

  lemma ComesFromLonger(s: State, events: seq<Event>, e: Event, held: Member)
    ensures ComesFrom(s, events, held) ==> ComesFrom(s, events + [e], held)
    ensures (exists m :: ReportOf(e, m) && SameRecord(held, m)) ==> ComesFrom(s, events + [e], held)
  {
    var all := events + [e];
    assert all[|events|] == e && forall i :: 0 <= i < |events| ==> all[i] == events[i];
    if i, m :| 0 <= i < |events| && ReportOf(events[i], m) && SameRecord(held, m) {
      assert ReportOf(all[i], m);
    }
  }

  lemma {:induction false} ReportsInvent(s: State, ms: seq<Member>, d: Id)
    requires Keyed(s) && d != s.ours && d in Reports(s, ms).members
    ensures Reports(s, ms).ours == s.ours
    ensures (d in s.members && Reports(s, ms).members[d] == s.members[d]) || Reports(s, ms).members[d] in ms
    decreases |ms|
  {
    if ms == [] {
    } else {
      var front, last := ms[..|ms| - 1], ms[|ms| - 1];
      ReportsCount(s, front);
      if d in Reports(s, front).members {
        ReportsInvent(s, front, d);
      }
    }
  }

  /** No record is invented: address, metadata and incarnation are those held at the start or of one report. */
  lemma {:induction false} RecordsAreReported(s: State, events: seq<Event>, d: Id)
    requires Keyed(s) && d != s.ours && d in Run(s, events).members
    ensures Run(s, events).ours == s.ours && ComesFrom(s, events, Run(s, events).members[d])
    decreases |events|
  {
    RunKeyed(s, events);
    if events == [] {
    } else {
      var before, last := events[..|events| - 1], events[|events| - 1];
      var t, held := Run(s, before), Run(s, events).members[d];
      assert events == before + [last];
      IncarnationCountsRumours(s, before);
      RunKeyed(s, before);
      if d in t.members {
        RecordsAreReported(s, before, d);
      }
      if last.Receive? && last.message.MembershipUpdate? {
        ReportsInvent(t, last.message.members, d);
        assert held in last.message.members ==> ReportOf(last, held) && SameRecord(held, held);
      } else if last.Add? {
        assert ReportOf(last, last.member);
        assert held == last.member || (d in t.members && held == t.members[d]);
        assert SameRecord(last.member, last.member);
      } else {
        assert d in t.members && SameRecord(held, t.members[d]);
        SameComesFrom(s, before, t.members[d], held);
      }
      ComesFromLonger(s, before, last, held);
    }
  }

  lemma SameComesFrom(s: State, events: seq<Event>, m: Member, n: Member)
    requires SameRecord(m, n) && ComesFrom(s, events, m)
    ensures ComesFrom(s, events, n)
  {
    assert m.id == n.id;
    if i, x :| 0 <= i < |events| && ReportOf(events[i], x) && SameRecord(m, x) {
      assert SameRecord(n, x);
    }
  }

  // ---- What becomes of a rumour of our death ----

  ghost predicate NoOwnAdd(ours: Id, events: seq<Event>) {
    forall i :: 0 <= i < |events| && events[i].Add? ==> events[i].member.id != ours
  }

  ghost predicate OwnAtZero(s: State) {
    s.ours in s.members ==> s.members[s.ours].incarnation == 0
  }

  lemma {:induction false} ReportsLeaveOwnEntry(s: State, ms: seq<Member>)
    ensures Reports(s, ms).ours == s.ours
    ensures Lookup(Reports(s, ms).members, s.ours) == Lookup(s.members, s.ours)
    decreases |ms|
  {
    if ms == [] {
    } else {
      ReportsLeaveOwnEntry(s, ms[..|ms| - 1]);
    }
  }

  /** The counter is raised by rumours; the entry that is published never is. */
  lemma {:induction false} OwnEntryStaysAtZero(s: State, events: seq<Event>)
    requires OwnAtZero(s) && NoOwnAdd(s.ours, events)
    ensures Run(s, events).ours == s.ours && OwnAtZero(Run(s, events))
    decreases |events|
  {
    if events == [] {
    } else {
      var before, last := events[..|events| - 1], events[|events| - 1];
      OwnEntryStaysAtZero(s, before);
      if last.Receive? && last.message.MembershipUpdate? {
        ReportsLeaveOwnEntry(Run(s, before), last.message.members);
      }
    }
  }

  /** The incarnations that count for our own entry: those added under our name since the last join, and its 0. */
  ghost function OwnPool(s: State, events: seq<Event>): set<nat> {
    if events == [] then HeldSet(s, s.ours)
    else
      var before, last := OwnPool(s, events[..|events| - 1]), events[|events| - 1];
      if last.Join? then {0}
      else if last.Add? && last.member.id == s.ours then before + {last.member.incarnation}
      else before
  }

  /** In every run our own entry has the largest of them; no message changes it. */
  lemma {:induction false} OwnEntryIsNewestAdded(s: State, events: seq<Event>)
    ensures Run(s, events).ours == s.ours
    ensures IsMax(OwnPool(s, events), Held(Run(s, events), s.ours))
    decreases |events|
  {
    if events == [] {
    } else {
      var before, last := events[..|events| - 1], events[|events| - 1];
      OwnEntryIsNewestAdded(s, before);
      if last.Receive? && last.message.MembershipUpdate? {
        ReportsLeaveOwnEntry(Run(s, before), last.message.members);
      }
    }
  }

  lemma {:induction false} OldReportsChangeNothing(b: State, ms: seq<Member>, d: Id)
    requires d in b.members && forall m :: m in ms && m.id == d ==> m.incarnation <= b.members[d].incarnation
    ensures Reports(b, ms).ours == b.ours && Lookup(Reports(b, ms).members, d) == Some(b.members[d])
    decreases |ms|
  {
    if ms == [] {
    } else {
      OldReportsChangeNothing(b, ms[..|ms| - 1], d);
      assert ms[|ms| - 1] in ms;
    }
  }

  /** ms is what a may publish at some point of a run from a on. */
  ghost predicate PublishedBy(a: State, ms: seq<Member>) {
    exists events :: NoOwnAdd(a.ours, events) && Snapshot(Run(a, events), ms)
  }

  lemma PublishedAtZero(a: State, ms: seq<Member>, m: Member)
    requires Keyed(a) && OwnAtZero(a) && PublishedBy(a, ms) && m in ms && m.id == a.ours
    ensures m.incarnation == 0
  {
    var events :| NoOwnAdd(a.ours, events) && Snapshot(Run(a, events), ms);
    OwnEntryStaysAtZero(a, events);
    RunKeyed(a, events);
  }

  function Updates(batches: seq<seq<Member>>): (events: seq<Event>)
    ensures |events| == |batches|
  {
    seq(|batches|, i requires 0 <= i < |batches| => Receive(MembershipUpdate(batches[i])))
  }

  /**
   * Whatever we publish, now or after any events, and however often: a node that already holds us keeps the entry it
   * has. In particular it keeps us dead, although we have counted the rumour.
   */
  lemma {:induction false} RumourIsNeverRefuted(a: State, b: State, batches: seq<seq<Member>>)
    requires Keyed(a) && OwnAtZero(a) && a.ours in b.members
    requires forall i :: 0 <= i < |batches| ==> PublishedBy(a, batches[i])
    ensures Lookup(Run(b, Updates(batches)).members, a.ours) == Some(b.members[a.ours])
    decreases |batches|
  {
    if batches == [] {
    } else {
      var n := |batches| - 1;
      RumourIsNeverRefuted(a, b, batches[..n]);
      assert Updates(batches)[..n] == Updates(batches[..n]);
      forall m | m in batches[n] && m.id == a.ours
        ensures m.incarnation == 0
      {
        PublishedAtZero(a, batches[n], m);
      }
      OldReportsChangeNothing(Run(b, Updates(batches[..n])), batches[n], a.ours);
    }
  }

  // ---- The protocol object ----

  function Response(s: State, m: Message): Option<Message> {
    match m
    case Ping(n, target) => if target == s.ours then Some(Ack(n, s.ours)) else None
    case IndirectPing(n, target, _) => if target != s.ours then Some(Ping(n, target)) else None
    case _ => None
  }

  class GossipProtocol {
    const ourId: Id
    const ourAddr: string
    var members: map<Id, Member>
    var incarnation: nat

    ghost function View(): State
      reads this
    {
      State(ourId, members, incarnation)
    }

    constructor (ourId: Id, ourAddr: string)
      ensures View() == State(ourId, map[], 0) && this.ourAddr == ourAddr
    {
      this.ourId, this.ourAddr := ourId, ourAddr;
      members, incarnation := map[], 0;
    }

    method Join()
      modifies this
      ensures View() == Apply(old(View()), Event.Join(ourAddr))
      ensures members == old(members)[ourId := Member(ourId, ourAddr, Alive, 0, map[])]
      ensures incarnation == old(incarnation)
    {
      members := members[ourId := Member(ourId, ourAddr, Alive, 0, map[])];
    }

    method AddMember(member: Member)
      modifies this
      ensures View() == Apply(old(View()), Add(member))
      ensures var held := Lookup(old(members), member.id);
              members == if held.None? || member.incarnation > held.value.incarnation
                         then old(members)[member.id := member] else old(members)
      ensures incarnation == old(incarnation)
    {
      if member.id in members {
        if member.incarnation > members[member.id].incarnation {
          members := members[member.id := member];
        }
      } else {
        members := members[member.id := member];
      }
    }

    method ProcessMessage(message: Message) returns (response: Option<Message>)
      modifies this
      ensures View() == Apply(old(View()), Receive(message))
      ensures response == Response(old(View()), message)
      ensures message.Ping? ==> response == if message.target == ourId then Some(Ack(message.seqNum, ourId)) else None
      ensures message.IndirectPing? ==>
                response == if message.target != ourId then Some(Ping(message.seqNum, message.target)) else None
      ensures !message.Ping? && !message.IndirectPing? ==> response == None
      ensures !message.Ack? && !message.MembershipUpdate? ==> members == old(members) && incarnation == old(incarnation)
    {
      match message {
        case Ping(n, target) =>
          if target == ourId {
            return Some(Ack(n, ourId));
          }
        case Ack(_, source) =>
          if source in members {
            members := members[source := members[source].(state := Alive)];
          }
        case IndirectPing(n, target, _) =>
          if target != ourId {
            return Some(Ping(n, target));
          }
        case MembershipUpdate(newMembers) =>
          for i := 0 to |newMembers|
            invariant View() == Reports(old(View()), newMembers[..i])
          {
            assert newMembers[..i + 1][..i] == newMembers[..i];
            var member := newMembers[i];
            if member.id == ourId {
              if member.state == Dead {
                incarnation := incarnation + 1;
              }
            } else if member.id in members {
              if member.incarnation > members[member.id].incarnation {
                members := members[member.id := member];
              }
            } else {
              members := members[member.id := member];
            }
          }
          assert newMembers[..|newMembers|] == newMembers;
        case _ =>
      }
      return None;
    }

    method BuildMembershipUpdate() returns (snapshot: seq<Member>)
      ensures Snapshot(View(), snapshot) && |snapshot| == |members|
    {
      snapshot := [];
      var todo := members.Keys;
      while todo != {}
        invariant todo <= members.Keys && |snapshot| + |todo| == |members|
        invariant forall m :: m in snapshot ==> exists d :: d in members && members[d] == m
        invariant forall d :: d in members && d !in todo ==> members[d] in snapshot
      {
        var d :| d in todo;
        todo := todo - {d};
        snapshot := snapshot + [members[d]];
      }
    }

    method MarkSuspect(id: Id)
      modifies this
      ensures View() == Apply(old(View()), Event.MarkSuspect(id))
      ensures id in old(members) ==> members == old(members)[id := old(members)[id].(state := Suspect)]
      ensures (id !in old(members) ==> members == old(members)) && incarnation == old(incarnation)
    {
      if id in members {
        members := members[id := members[id].(state := Suspect)];
      }
    }

    method MarkDead(id: Id)
      modifies this
      ensures View() == Apply(old(View()), Event.MarkDead(id))
      ensures id in old(members) ==> members == old(members)[id := old(members)[id].(state := Dead)]
      ensures (id !in old(members) ==> members == old(members)) && incarnation == old(incarnation)
    {
      if id in members {
        members := members[id := members[id].(state := Dead)];
      }
    }
  }
}
