/**
 * The overlay address allocator: a forward and a reverse map, a cursor that scans the hosts of 100.64.0.0/10
 * cyclically, and the one-time load from the database. Access checks and database rows are parameters.
 */
module Ipam {
  import opened Common
  import opened Sorting

  type Device = string
  type Ip = nat

  /** The hosts of 100.64.0.0/10 in order: all addresses but the first and the last. */
  const FIRST_HOST: Ip := 0x6440_0001
  const HOSTS: nat := 0x3F_FFFE

  datatype Lease = Lease(ip: Ip, assignedAt: string)

  datatype Row = Row(device: Device, ip: Ip, assignedAt: string)

  datatype State = State(leases: map<Device, Lease>, byIp: map<Ip, Device>, next: nat, loaded: bool)

  /** The outcome of the identity checks that precede every operation. */
  datatype Access = BadId | NotOwner | Granted

  datatype Reply = Leased(lease: Lease) | Released(ip: Ip) | NotFound | BadRequest | Forbidden | Exhausted

  /** What the database answers when it is asked; None when the query fails. */
  type Rows = Option<seq<Row>>

  datatype Op =
    | Allocate(device: Device, access: Access, rows: Rows, now: string)
    | Release(device: Device, access: Access, rows: Rows)

  function Host(i: nat): Ip {
    FIRST_HOST + i
  }

  predicate IsHost(ip: Ip) {
    FIRST_HOST <= ip < FIRST_HOST + HOSTS
  }

  // ---- Loading ----

  function LoadRows(s: State, rows: seq<Row>): State {
    if rows == [] then s.(next := 0)
    else
      var t, row := LoadRows(s, rows[..|rows| - 1]), rows[|rows| - 1];
      var idx := row.ip - FIRST_HOST;
      t.(leases := t.leases[row.device := Lease(row.ip, row.assignedAt)],
         byIp := t.byIp[row.ip := row.device],
         next := if IsHost(row.ip) && idx >= t.next then idx + 1 else t.next)
  }

  function Load(s: State, rows: Rows): State {
    if s.loaded then s
    else if rows.None? then s.(loaded := true)
    else LoadRows(s, rows.value).(loaded := true)
  }

  // ---- Scanning ----

  function Used(s: State): set<Ip> {
    set d | d in s.leases :: s.leases[d].ip
  }

  /** At most budget hosts from the cursor on; the first one that is not in use. */
  function Scan(used: set<Ip>, cursor: nat, budget: nat): (Option<Ip>, nat)
    decreases budget
  {
    if budget == 0 then (None, cursor)
    else
      var idx := cursor % HOSTS;
      var candidate := Host(idx);
      if candidate !in used then (Some(candidate), (idx + 1) % HOSTS)
      else Scan(used, (idx + 1) % HOSTS, budget - 1)
  }

  function Apply(s: State, op: Op): (State, Reply) {
    if op.access.BadId? then (s, BadRequest)
    else if op.access.NotOwner? then (s, Forbidden)
    else
      var t := Load(s, op.rows);
      match op
      case Allocate(d, _, _, now) =>
        if d in t.leases then (t, Leased(t.leases[d]))
        else
          var (ip, next) := Scan(Used(t), t.next, HOSTS);
          if ip.None? then (t.(next := next), Exhausted)
          else
            var lease := Lease(ip.value, now);
            (t.(leases := t.leases[d := lease], byIp := t.byIp[ip.value := d], next := next), Leased(lease))
      case Release(d, _, _) =>
        if d in t.leases then
          var ip := t.leases[d].ip;
          (t.(leases := t.leases - {d}, byIp := t.byIp - {ip}), Released(ip))
        else (t, NotFound)
  }

  function Run(ops: seq<Op>): State {
    if ops == [] then State(map[], map[], 0, false) else Apply(Run(ops[..|ops| - 1]), ops[|ops| - 1]).0
  }

  // ---- The scan visits every host once ----

  function NextCursor(cursor: nat): nat {
    (cursor % HOSTS + 1) % HOSTS
  }

  /** The host tried k steps behind the cursor. */
  function Candidate(cursor: nat, k: nat): Ip {
    Host((cursor + k) % HOSTS)
  }

  ghost predicate Busy(used: set<Ip>, cursor: nat, k: nat) {
    Candidate(cursor, k) in used
  }

  /** The scan stops at its first free host, k steps on, and leaves the cursor behind it. */
  ghost predicate StopsAt(used: set<Ip>, cursor: nat, k: nat, ip: Ip, next: nat) {
    && ip == Candidate(cursor, k) && ip !in used && next == (cursor + k + 1) % HOSTS
    && forall j | 0 <= j < k :: Busy(used, cursor, j)
  }

  /** The first free host among budget ones, or none. */
  ghost predicate ScanResult(used: set<Ip>, cursor: nat, budget: nat, ip: Option<Ip>, next: nat) {
    match ip
    case None => forall k | 0 <= k < budget :: Busy(used, cursor, k)
    case Some(h) => exists k | 0 <= k < budget :: StopsAt(used, cursor, k, h, next)
  }

  lemma CandidateShifts(cursor: nat, k: nat)
    ensures Candidate(NextCursor(cursor), k) == Candidate(cursor, k + 1)
    ensures (NextCursor(cursor) + k) % HOSTS == (cursor + k + 1) % HOSTS
  {
  }

  lemma {:induction false} ScanFinds(used: set<Ip>, cursor: nat, budget: nat)
    ensures var (ip, next) := Scan(used, cursor, budget);
            ScanResult(used, cursor, budget, ip, next)
    decreases budget
  {
    if budget == 0 {
    } else {
      assert Candidate(cursor, 0) == Host(cursor % HOSTS);
      if !Busy(used, cursor, 0) {
        assert StopsAt(used, cursor, 0, Candidate(cursor, 0), (cursor + 0 + 1) % HOSTS);
        CandidateShifts(cursor, 0);
      } else {
        ScanFinds(used, NextCursor(cursor), budget - 1);
        ScanShifts(used, cursor, budget);
      }
    }
  }

  lemma ScanShifts(used: set<Ip>, cursor: nat, budget: nat)
    requires budget > 0 && Busy(used, cursor, 0)
    requires var (ip, next) := Scan(used, NextCursor(cursor), budget - 1);
             ScanResult(used, NextCursor(cursor), budget - 1, ip, next)
    ensures var (ip, next) := Scan(used, NextCursor(cursor), budget - 1);
            ScanResult(used, cursor, budget, ip, next)
  {
    var later := NextCursor(cursor);
    var (ip, next) := Scan(used, later, budget - 1);
    if ip.None? {
      forall k | 0 <= k < budget
        ensures Busy(used, cursor, k)
      {
        BusyShifts(used, cursor, k);
      }
    } else {
      var k :| 0 <= k < budget - 1 && StopsAt(used, later, k, ip.value, next);
      CandidateShifts(cursor, k);
      CandidateShifts(cursor, k + 1);
      forall j | 0 <= j < k + 1
        ensures Busy(used, cursor, j)
      {
        BusyShifts(used, cursor, j);
      }
      assert StopsAt(used, cursor, k + 1, ip.value, next);
    }
  }

  lemma BusyShifts(used: set<Ip>, cursor: nat, k: nat)
    ensures k > 0 ==> (Busy(used, cursor, k) <==> Busy(used, NextCursor(cursor), k - 1))
  {
  }

  /** Every host is tried once, and only once, within one round. */
  lemma EveryHostIsTried(cursor: nat, h: Ip) returns (k: nat)
    requires IsHost(h)
    ensures k < HOSTS && Candidate(cursor, k) == h
    ensures forall j :: 0 <= j < HOSTS && Candidate(cursor, j) == h ==> j == k
  {
    var i, c := h - FIRST_HOST, cursor % HOSTS;
    k := if i >= c then i - c else i + HOSTS - c;
    forall j | 0 <= j < HOSTS
      ensures Candidate(cursor, j) == h ==> j == k
    {
      assert (cursor + j) % HOSTS == (c + j) % HOSTS;
    }
    assert (cursor + k) % HOSTS == (c + k) % HOSTS;
  }

  /** A full scan fails exactly when every host of the pool is in use; otherwise it finds a free host. */
  lemma FullScan(used: set<Ip>, cursor: nat)
    ensures var ip := Scan(used, cursor, HOSTS).0;
            && (ip.None? <==> forall h :: IsHost(h) ==> h in used)
            && (ip.Some? ==> IsHost(ip.value) && ip.value !in used)
  {
    ScanFinds(used, cursor, HOSTS);
    var (ip, next) := Scan(used, cursor, HOSTS);
    if ip.None? {
      forall h | IsHost(h)
        ensures h in used
      {
        var k := EveryHostIsTried(cursor, h);
        assert Busy(used, cursor, k);
      }
    } else {
      var k :| 0 <= k < HOSTS && StopsAt(used, cursor, k, ip.value, next);
      assert IsHost(ip.value);
    }
  }

  lemma {:induction false} FailedScanCursor(used: set<Ip>, cursor: nat, budget: nat)
    requires budget > 0 && Scan(used, cursor, budget).0.None?
    ensures Scan(used, cursor, budget).1 == (cursor + budget) % HOSTS
    decreases budget
  {
    CandidateShifts(cursor, budget - 1);
    if budget == 1 {
    } else {
      FailedScanCursor(used, NextCursor(cursor), budget - 1);
    }
  }

  lemma FailedScanReturns(used: set<Ip>, cursor: nat)
    requires Scan(used, cursor, HOSTS).0.None?
    ensures Scan(used, cursor, HOSTS).1 == cursor % HOSTS
  {
    var budget := HOSTS;
    FailedScanCursor(used, cursor, budget);
    FullRound(cursor);
  }

  lemma FullRound(cursor: nat)
    ensures (cursor + HOSTS) % HOSTS == cursor % HOSTS
  {
  }

  /** The pool is 100.64.0.0/10 without its first and its last address. */
  lemma HostsAreTheBlock(ip: Ip)
    ensures IsHost(ip) <==>
            && ip / 0x40_0000 == (100 * 0x100_0000 + 64 * 0x1_0000) / 0x40_0000
            && 0 < ip % 0x40_0000 < 0x40_0000 - 1
  {
  }

  // ---- The maps ----

  /** The two maps are inverse to each other, and empty before the load. */
  ghost predicate Consistent(s: State) {
    && (forall d :: d in s.leases ==> s.leases[d].ip in s.byIp && s.byIp[s.leases[d].ip] == d)
    && (forall ip :: ip in s.byIp ==> s.byIp[ip] in s.leases && s.leases[s.byIp[ip]].ip == ip)
    && (!s.loaded ==> s.leases == map[] && s.byIp == map[])
  }

  /** The table's keys: a device has one row, and an address has one row. */
  ghost predicate UniqueRows(rows: seq<Row>) {
    forall i, j :: 0 <= i < j < |rows| ==> rows[i].device != rows[j].device && rows[i].ip != rows[j].ip
  }

  ghost predicate RowsOk(rows: Rows) {
    rows.Some? ==> UniqueRows(rows.value)
  }

  ghost predicate HasRow(rows: seq<Row>, d: Device, ip: Ip) {
    exists i :: 0 <= i < |rows| && rows[i].device == d && rows[i].ip == ip
  }

  lemma HasRowAppend(rows: seq<Row>, d: Device, ip: Ip)
    requires rows != []
    ensures var n := |rows| - 1;
            HasRow(rows, d, ip) <==> HasRow(rows[..n], d, ip) || (rows[n].device == d && rows[n].ip == ip)
  {
  }

  /** Each row becomes the lease it describes. */
  lemma {:induction false} LoadedLeases(s: State, rows: seq<Row>, i: nat)
    requires UniqueRows(rows) && i < |rows|
    ensures Lookup(LoadRows(s, rows).leases, rows[i].device) == Some(Lease(rows[i].ip, rows[i].assignedAt))
    decreases |rows|
  {
    var n := |rows| - 1;
    if i == n {
    } else {
      LoadedLeases(s, rows[..n], i);
      assert rows[i].device != rows[n].device;
    }
  }

  /** The cursor is right behind the host of a row. */
  ghost predicate BehindSomeRow(rows: seq<Row>, next: nat) {
    exists i :: 0 <= i < |rows| && IsHost(rows[i].ip) && next == rows[i].ip - FIRST_HOST + 1
  }

  /** Loading starts the cursor at the first host, or right behind a loaded one. */
  lemma {:induction false} CursorBehindRow(s: State, rows: seq<Row>)
    ensures var t := LoadRows(s, rows);
            t.next == 0 || BehindSomeRow(rows, t.next)
    decreases |rows|
  {
    if rows == [] {
    } else {
      var n := |rows| - 1;
      var t, u := LoadRows(s, rows[..n]), LoadRows(s, rows);
      CursorBehindRow(s, rows[..n]);
      if u.next == t.next && t.next != 0 {
        var i :| 0 <= i < n && IsHost(rows[..n][i].ip) && t.next == rows[..n][i].ip - FIRST_HOST + 1;
        assert IsHost(rows[i].ip) && u.next == rows[i].ip - FIRST_HOST + 1;
      } else if u.next != t.next {
        assert IsHost(rows[n].ip) && u.next == rows[n].ip - FIRST_HOST + 1;
      }
    }
  }

  /** The table is asked once: whatever the first query answered, a failure included, later answers are ignored. */
  lemma LoadedOnce(s: State, first: Rows, later: Rows)
    ensures Load(s, first).loaded && Load(Load(s, first), later) == Load(s, first)
    ensures first.None? ==> Load(s, first).leases == s.leases && Load(s, first).byIp == s.byIp
    ensures first.None? ==> Load(s, first).next == s.next
  {
    if !s.loaded && first.Some? {
      LoadRowsKeepsFlag(s, first.value);
    }
  }

  lemma {:induction false} LoadRowsKeepsFlag(s: State, rows: seq<Row>)
    ensures LoadRows(s, rows).loaded == s.loaded
    decreases |rows|
  {
    if rows == [] {
    } else {
      LoadRowsKeepsFlag(s, rows[..|rows| - 1]);
    }
  }

  /** Loading yields exactly the rows of the table, and puts the cursor behind every loaded host. */
  lemma {:induction false} LoadedRows(s: State, rows: seq<Row>, d: Device, ip: Ip)
    requires s.leases == map[] && s.byIp == map[] && UniqueRows(rows)
    ensures var t := LoadRows(s, rows);
            && (HasRow(rows, d, ip) <==> d in t.leases && t.leases[d].ip == ip)
            && (HasRow(rows, d, ip) <==> ip in t.byIp && t.byIp[ip] == d)
            && (HasRow(rows, d, ip) && IsHost(ip) ==> ip - FIRST_HOST < t.next)
    decreases |rows|
  {
    if rows == [] {
    } else {
      var n := |rows| - 1;
      LoadedRows(s, rows[..n], d, ip);
      HasRowAppend(rows, d, ip);
      if HasRow(rows[..n], d, ip) {
        var i :| 0 <= i < n && rows[..n][i].device == d && rows[..n][i].ip == ip;
        assert rows[i].device != rows[n].device && rows[i].ip != rows[n].ip;
      }
    }
  }

  lemma LoadConsistent(s: State, rows: Rows)
    requires Consistent(s) && RowsOk(rows)
    ensures Consistent(Load(s, rows)) && Load(s, rows).loaded
  {
    if !s.loaded && rows.Some? {
      var t := LoadRows(s, rows.value);
      forall d | d in t.leases
        ensures t.leases[d].ip in t.byIp && t.byIp[t.leases[d].ip] == d
      {
        LoadedRows(s, rows.value, d, t.leases[d].ip);
      }
      forall ip | ip in t.byIp
        ensures t.byIp[ip] in t.leases && t.leases[t.byIp[ip]].ip == ip
      {
        LoadedRows(s, rows.value, t.byIp[ip], ip);
      }
    }
  }

  lemma ApplyConsistent(s: State, op: Op)
    requires Consistent(s) && RowsOk(op.rows)
    ensures Consistent(Apply(s, op).0)
  {
    var t := Load(s, op.rows);
    LoadConsistent(s, op.rows);
    if op.Allocate? && op.access.Granted? && op.device !in t.leases {
      FullScan(Used(t), t.next);
      var ip := Scan(Used(t), t.next, HOSTS).0;
      if ip.Some? {
        UsedIsHeld(t, ip.value);
      }
    }
  }

  lemma UsedIsHeld(s: State, ip: Ip)
    requires Consistent(s)
    ensures ip in Used(s) <==> ip in s.byIp
  {
  }

  ghost predicate OpsOk(ops: seq<Op>) {
    forall i :: 0 <= i < |ops| ==> RowsOk(ops[i].rows)
  }

  /** In every run the forward and the reverse map are inverse to each other. */
  lemma {:induction false} RunsAreConsistent(ops: seq<Op>)
    requires OpsOk(ops)
    ensures Consistent(Run(ops))
    decreases |ops|
  {
    if ops == [] {
    } else {
      RunsAreConsistent(ops[..|ops| - 1]);
      ApplyConsistent(Run(ops[..|ops| - 1]), ops[|ops| - 1]);
    }
  }

  /** In every run no two devices hold the same address. */
  lemma NoSharedAddress(ops: seq<Op>, d: Device, e: Device)
    requires OpsOk(ops) && d in Run(ops).leases && e in Run(ops).leases
    requires Run(ops).leases[d].ip == Run(ops).leases[e].ip
    ensures d == e
  {
    RunsAreConsistent(ops);
    assert Run(ops).byIp[Run(ops).leases[d].ip] == d;
  }

  /**
   * A granted allocation in any reachable state: the address was the device's own or free before, every other
   * device keeps its lease, and the pool is reported exhausted exactly when every host is in use by someone.
   */
  lemma AllocationIsSafe(ops: seq<Op>, d: Device, rows: Rows, now: string)
    requires OpsOk(ops) && RowsOk(rows)
    ensures var s := Load(Run(ops), rows);
            var (t, reply) := Apply(Run(ops), Allocate(d, Granted, rows, now));
            && (reply == Exhausted <==> d !in s.leases && forall h :: IsHost(h) ==> h in s.byIp)
            && (reply != Exhausted ==> reply.Leased? && Lookup(t.leases, d) == Some(reply.lease))
            && (reply.Leased? && d !in s.leases ==> IsHost(reply.lease.ip) && reply.lease.ip !in s.byIp)
            && (reply.Leased? && d !in s.leases ==> reply.lease.assignedAt == now)
            && (d in s.leases ==> t == s)
            && (forall e :: e != d ==> Lookup(t.leases, e) == Lookup(s.leases, e))
  {
    RunsAreConsistent(ops);
    LoadConsistent(Run(ops), rows);
    var s := Load(Run(ops), rows);
    FullScan(Used(s), s.next);
    forall h
      ensures h in Used(s) <==> h in s.byIp
    {
      UsedIsHeld(s, h);
    }
  }

  /** Asking again returns the same lease and changes nothing; releasing makes exactly that address free again. */
  lemma AllocateAgainAndRelease(ops: seq<Op>, d: Device, rows: Rows, now: string, later: string)
    requires OpsOk(ops) && RowsOk(rows)
    requires Apply(Run(ops), Allocate(d, Granted, rows, now)).1.Leased?
    ensures var (t, reply) := Apply(Run(ops), Allocate(d, Granted, rows, now));
            && Apply(t, Allocate(d, Granted, rows, later)) == (t, reply)
            && var (u, released) := Apply(t, Release(d, Granted, rows));
               && released == Released(reply.lease.ip)
               && u.leases == t.leases - {d} && u.byIp == t.byIp - {reply.lease.ip} && u.next == t.next
               && reply.lease.ip !in Used(u)
  {
    var op := Allocate(d, Granted, rows, now);
    RunsAreConsistent(ops);
    ApplyConsistent(Run(ops), op);
    LoadConsistent(Run(ops), rows);
    var t := Apply(Run(ops), op).0;
    var u := Apply(t, Release(d, Granted, rows)).0;
    ApplyConsistent(t, Release(d, Granted, rows));
    UsedIsHeld(u, t.leases[d].ip);
  }

  /** A new lease is the first free host from the cursor on, and the cursor moves behind it. */
  lemma NewLeaseIsFirstFree(ops: seq<Op>, d: Device, rows: Rows, now: string)
    requires d !in Load(Run(ops), rows).leases && Apply(Run(ops), Allocate(d, Granted, rows, now)).1.Leased?
    ensures var s := Load(Run(ops), rows);
            var (t, reply) := Apply(Run(ops), Allocate(d, Granted, rows, now));
            exists k | 0 <= k < HOSTS :: StopsAt(Used(s), s.next, k, reply.lease.ip, t.next)
  {
    var s := Load(Run(ops), rows);
    ScanFinds(Used(s), s.next, HOSTS);
  }

  /** Reporting exhaustion changes nothing: the cursor comes round to the host it started from. */
  lemma ExhaustionLeavesNoTrace(ops: seq<Op>, d: Device, rows: Rows, now: string)
    requires Apply(Run(ops), Allocate(d, Granted, rows, now)).1 == Exhausted
    ensures var s := Load(Run(ops), rows);
            Apply(Run(ops), Allocate(d, Granted, rows, now)).0 == s.(next := s.next % HOSTS)
  {
    var s := Load(Run(ops), rows);
    FailedScanReturns(Used(s), s.next);
  }

  /** In any reachable state a release frees the device's own address, if it has one, and touches nothing else. */
  lemma ReleaseIsExact(ops: seq<Op>, d: Device, rows: Rows)
    requires OpsOk(ops) && RowsOk(rows)
    ensures var s := Load(Run(ops), rows);
            var (t, reply) := Apply(Run(ops), Release(d, Granted, rows));
            && (d !in s.leases ==> reply == NotFound && t == s)
            && (d in s.leases ==> reply == Released(s.leases[d].ip) && d !in t.leases && s.leases[d].ip !in t.byIp)
            && (forall e :: e != d ==> Lookup(t.leases, e) == Lookup(s.leases, e))
            && (forall h :: Lookup(s.byIp, h) != Some(d) ==> Lookup(t.byIp, h) == Lookup(s.byIp, h))
            && t.next == s.next
  {
    RunsAreConsistent(ops);
    LoadConsistent(Run(ops), rows);
  }

  function IsGranted(): Op -> bool {
    (op: Op) => op.access.Granted?
  }

  /** A refused call tells why and changes nothing: a run is the run of its granted calls. */
  lemma {:induction false} RefusalsLeaveNoTrace(ops: seq<Op>, op: Op)
    ensures Run(ops) == Run(Keep(ops, IsGranted()))
    ensures !op.access.Granted? ==>
              Apply(Run(ops), op) == (Run(ops), if op.access == BadId then BadRequest else Forbidden)
    decreases |ops|
  {
    if ops == [] {
    } else {
      var front, last := ops[..|ops| - 1], ops[|ops| - 1];
      RefusalsLeaveNoTrace(front, last);
      var kept := Keep(front, IsGranted());
      if last.access.Granted? {
        assert (kept + [last])[..|kept|] == kept;
      } else {
        assert kept + [] == kept;
      }
    }
  }

  // ---- The service ----

  class IpamService {
    var leases: map<Device, Lease>
    var byIp: map<Ip, Device>
    var nextHostIdx: nat
    var dbLoaded: bool

    ghost function View(): State
      reads this
    {
      State(leases, byIp, nextHostIdx, dbLoaded)
    }

    constructor ()
      ensures View() == Run([])
    {
      leases, byIp, nextHostIdx, dbLoaded := map[], map[], 0, false;
    }

    method LoadFromDb(rows: Rows)
      modifies this
      ensures View() == Load(old(View()), rows)
    {
      if dbLoaded {
        return;
      }
      if rows.Some? {
        var maxIdx := 0;
        for i := 0 to |rows.value|
          invariant dbLoaded == old(dbLoaded)
          invariant View().(next := maxIdx) == LoadRows(old(View()), rows.value[..i])
        {
          assert rows.value[..i + 1][..i] == rows.value[..i];
          var row := rows.value[i];
          leases := leases[row.device := Lease(row.ip, row.assignedAt)];
          byIp := byIp[row.ip := row.device];
          if IsHost(row.ip) {
            var idx := row.ip - FIRST_HOST;
            if idx >= maxIdx {
              maxIdx := idx + 1;
            }
          }
        }
        assert rows.value[..|rows.value|] == rows.value;
        nextHostIdx := maxIdx;
      }
      dbLoaded := true;
    }

    method GetNextAvailableIp() returns (ip: Option<Ip>)
      modifies this`nextHostIdx
      ensures (ip, nextHostIdx) == Scan(Used(old(View())), old(nextHostIdx), HOSTS)
    {
      var used := set d | d in leases :: leases[d].ip;
      for i := 0 to HOSTS
        invariant Scan(used, nextHostIdx, HOSTS - i) == Scan(used, old(nextHostIdx), HOSTS)
      {
        var idx := nextHostIdx % HOSTS;
        var candidate := Host(idx);
        nextHostIdx := (idx + 1) % HOSTS;
        if candidate !in used {
          return Some(candidate);
        }
      }
      return None;
    }

    method AllocateIp(device: Device, access: Access, rows: Rows, now: string) returns (reply: Reply)
      modifies this
      ensures (View(), reply) == Apply(old(View()), Allocate(device, access, rows, now))
      ensures access == BadId ==> reply == BadRequest && View() == old(View())
      ensures access == NotOwner ==> reply == Forbidden && View() == old(View())
    {
      if access.BadId? {
        return BadRequest;
      }
      if access.NotOwner? {
        return Forbidden;
      }
      LoadFromDb(rows);
      if device in leases {
        return Leased(leases[device]);
      }
      var ip := GetNextAvailableIp();
      if ip.None? {
        return Exhausted;
      }
      leases := leases[device := Lease(ip.value, now)];
      byIp := byIp[ip.value := device];
      return Leased(Lease(ip.value, now));
    }

    method ReleaseIp(device: Device, access: Access, rows: Rows) returns (reply: Reply)
      modifies this
      ensures (View(), reply) == Apply(old(View()), Release(device, access, rows))
      ensures access == BadId ==> reply == BadRequest && View() == old(View())
      ensures access == NotOwner ==> reply == Forbidden && View() == old(View())
    {
      if access.BadId? {
        return BadRequest;
      }
      if access.NotOwner? {
        return Forbidden;
      }
      LoadFromDb(rows);
      if device in leases {
        var ip := leases[device].ip;
        leases := leases - {device};
        byIp := byIp - {ip};
        return Released(ip);
      }
      return NotFound;
    }
  }
}
