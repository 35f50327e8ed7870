/**
 Particular schedules: running a handler's sections back to back gives the atomic handler, and two schedules
 after which a live client has lost its route and its place in the pool.
 */
module ServerSchedules {
  import opened Words
  import opened Messages
  import opened ServerState
  import opened ServerLocks
  import opened ServerAtomic

  /** n sections of thread t. */
  function Sections(t: ThreadId, n: nat): (actions: seq<Action>)
    ensures |actions| == n
  {
    seq(n, _ => Continue(t))
  }

  lemma {:induction false} ExecAppend(sys: System, cfg: Config, a: seq<Action>, b: seq<Action>)
    requires cfg.Valid()
    ensures Exec(sys, cfg, a + b) == Exec(Exec(sys, cfg, a), cfg, b)
    decreases |a|
  {
    if a == [] {
      assert a + b == b;
    } else {
      assert (a + b)[1..] == a[1..] + b;
      if Enabled(sys, cfg, a[0]) {
        ExecAppend(Fire(sys, cfg, a[0]), cfg, a[1..], b);
      } else {
        ExecAppend(sys, cfg, a[1..], b);
      }
    }
  }

  lemma ExecFirst(sys: System, cfg: Config, act: Action, rest: seq<Action>)
    requires cfg.Valid() && Enabled(sys, cfg, act)
    ensures Exec(sys, cfg, [act] + rest) == Exec(Fire(sys, cfg, act), cfg, rest)
  {
    assert ([act] + rest)[1..] == rest;
  }

  lemma ExecSection(sys: System, cfg: Config, t: ThreadId, n: nat)
    requires cfg.Valid() && t in sys.pcs && n > 0
    ensures Exec(sys, cfg, Sections(t, n)) == Exec(FireNext(sys, cfg, t), cfg, Sections(t, n - 1))
  {
    ExecFirst(sys, cfg, Continue(t), Sections(t, n - 1));
    assert Sections(t, n) == [Continue(t)] + Sections(t, n - 1);
  }

  lemma {:induction false} ExecIdle(sys: System, cfg: Config, t: ThreadId, n: nat)
    requires cfg.Valid() && t !in sys.pcs
    ensures Exec(sys, cfg, Sections(t, n)) == sys
  {
    if n > 0 {
      assert Sections(t, n)[1..] == Sections(t, n - 1);
      ExecIdle(sys, cfg, t, n - 1);
    }
  }

  // ----- a heartbeat from each of its sections on -----

  /** The heartbeat of thread t is over and has left the tables as s. */
  function Done(sys: System, t: ThreadId, s: State): System {
    System(s, None, sys.pcs - {t})
  }

  lemma FromTouch(sys: System, cfg: Config, t: ThreadId, n: nat)
    requires cfg.Valid() && t in sys.pcs && sys.pcs[t].HbTouch? && n >= 1
    ensures var pc := sys.pcs[t];
            Exec(sys, cfg, Sections(t, n)) == Done(sys, t, Touch(sys.s, pc.c, pc.from, pc.hb.path, pc.now))
  {
    ExecSection(sys, cfg, t, n);
    ExecIdle(FireNext(sys, cfg, t), cfg, t, n - 1);
  }

  lemma FromPool(sys: System, cfg: Config, t: ThreadId, n: nat)
    requires cfg.Valid() && t in sys.pcs && sys.pcs[t].HbPool? && n >= 2
    ensures var pc := sys.pcs[t];
            Exec(sys, cfg, Sections(t, n))
            == Done(sys, t, Touch(PoolSection(sys.s, pc.c, pc.ip), pc.c, pc.from, pc.hb.path, pc.now))
  {
    ExecSection(sys, cfg, t, n);
    FromTouch(FireNext(sys, cfg, t), cfg, t, n - 1);
  }

  lemma FromRoute(sys: System, cfg: Config, t: ThreadId, n: nat)
    requires cfg.Valid() && t in sys.pcs && sys.pcs[t].HbRoute? && n >= 3
    ensures var pc := sys.pcs[t];
            Exec(sys, cfg, Sections(t, n))
            == Done(sys, t, Touch(PoolSection(RouteSection(sys.s, pc.c, pc.ip), pc.c, pc.ip), pc.c, pc.from,
                                  pc.hb.path, pc.now))
  {
    ExecSection(sys, cfg, t, n);
    FromPool(FireNext(sys, cfg, t), cfg, t, n - 1);
  }

  lemma FromInsert(sys: System, cfg: Config, t: ThreadId, n: nat)
    requires cfg.Valid() && t in sys.pcs && sys.pcs[t].HbInsert? && n >= 4
    ensures var pc := sys.pcs[t];
            Exec(sys, cfg, Sections(t, n))
            == Done(sys, t, Touch(Enter(sys.s, pc.c, pc.ip, pc.prefixLen, pc.hb.deviceName, pc.now), pc.c, pc.from,
                                  pc.hb.path, pc.now))
  {
    ExecSection(sys, cfg, t, n);
    var sys' := FireNext(sys, cfg, t);
    if sys.pcs[t].ip == 0 {
      FromTouch(sys', cfg, t, n - 1);
    } else {
      FromRoute(sys', cfg, t, n - 1);
    }
  }

  /** The rest of a heartbeat whose address is (ip, prefixLen), with the tables as s. */
  function EnterAndTouch(s: State, c: ClientId, ip: Ip, prefixLen: u8, hb: Heartbeat, from: Endpoint,
                         now: Time): State {
    Touch(Enter(s, c, ip, prefixLen, hb.deviceName, now), c, from, hb.path, now)
  }

  lemma FromAllocate(sys: System, cfg: Config, t: ThreadId, n: nat)
    requires cfg.Valid() && t in sys.pcs && sys.pcs[t].HbAllocate? && n >= 5
    ensures var pc := sys.pcs[t];
            var (s', ip) := AllocateSection(sys.s, cfg, pc.c);
            Exec(sys, cfg, Sections(t, n))
            == Done(sys, t, if ip.Some? then EnterAndTouch(s', pc.c, ip.value, cfg.prefixLen, pc.hb, pc.from, pc.now)
                            else EnterAndTouch(s', pc.c, 0, pc.hb.prefixLen, pc.hb, pc.from, pc.now))
  {
    ExecSection(sys, cfg, t, n);
    FromInsert(FireNext(sys, cfg, t), cfg, t, n - 1);
  }

  lemma FromPoolCheck(sys: System, cfg: Config, t: ThreadId, n: nat)
    requires cfg.Valid() && t in sys.pcs && sys.pcs[t].HbPoolCheck? && n >= 6
    requires var pc := sys.pcs[t]; pc.hb.virtualIp != 0 && !SessionConflict(sys.s, cfg, pc.c, pc.hb.virtualIp)
    ensures var pc := sys.pcs[t];
            var (s', ip, prefixLen) := AssignIp(sys.s, cfg, pc.c, pc.hb);
            Exec(sys, cfg, Sections(t, n))
            == Done(sys, t, EnterAndTouch(s', pc.c, ip, prefixLen, pc.hb, pc.from, pc.now))
  {
    ExecSection(sys, cfg, t, n);
    var sys' := FireNext(sys, cfg, t);
    if PoolConflict(sys.s, sys.pcs[t].c, sys.pcs[t].hb.virtualIp) {
      FromAllocate(sys', cfg, t, n - 1);
    } else {
      FromInsert(sys', cfg, t, n - 1);
    }
  }

  /** An uninterrupted heartbeat, among whatever else is in progress, is the atomic heartbeat. */
  lemma HeartbeatIsASchedule(sys: System, cfg: Config, t: ThreadId, c: ClientId, hb: Heartbeat, from: Endpoint,
                             now: Time)
    requires cfg.Valid() && sys.lock.None? && t !in sys.pcs && c != 0
    ensures Exec(sys, cfg, [StartHeartbeat(t, c, hb, from, now)] + Sections(t, 6))
            == sys.(s := RunHeartbeat(sys.s, cfg, c, hb, from, now))
  {
    var start := StartHeartbeat(t, c, hb, from, now);
    ExecFirst(sys, cfg, start, Sections(t, 6));
    var sys' := FireHeartbeat(sys, cfg, t, c, hb, from, now);
    assert sys'.pcs - {t} == sys.pcs;
    match sys'.pcs[t]
    case HbTouch(_, _, _, _) => FromTouch(sys', cfg, t, 6);
    case HbAllocate(_, _, _, _) => FromAllocate(sys', cfg, t, 6);
    case HbPoolCheck(_, _, _, _) => FromPoolCheck(sys', cfg, t, 6);
  }

  // ----- a delete -----

  lemma FromDelUnroute(sys: System, cfg: Config, t: ThreadId)
    requires cfg.Valid() && t in sys.pcs && sys.pcs[t].DelUnroute?
    ensures var pc := sys.pcs[t];
            Exec(sys, cfg, Sections(t, 3))
            == sys.(s := ForgetSection(ResetSection(UnrouteSection(sys.s, pc.ip), pc.c), pc.c), pcs := sys.pcs - {t})
  {
    ExecSection(sys, cfg, t, 3);
    var s1 := FireNext(sys, cfg, t);
    ExecSection(s1, cfg, t, 2);
    var s2 := FireNext(s1, cfg, t);
    ExecSection(s2, cfg, t, 1);
    ExecIdle(FireNext(s2, cfg, t), cfg, t, 0);
  }

  /** An uninterrupted delete is the atomic delete. */
  lemma DeleteIsASchedule(sys: System, cfg: Config, t: ThreadId, c: ClientId)
    requires cfg.Valid() && sys.lock.None? && t !in sys.pcs
    ensures Exec(sys, cfg, [StartDelete(t, c)] + Sections(t, 3)) == sys.(s := RunDelete(sys.s, c).0)
  {
    ExecFirst(sys, cfg, StartDelete(t, c), Sections(t, 3));
    if c in sys.s.sessions {
      var sys' := FireDelete(sys, t, c);
      assert sys'.pcs - {t} == sys.pcs;
      FromDelUnroute(sys', cfg, t);
    } else {
      ExecIdle(sys, cfg, t, 3);
    }
  }

  // ----- a cleanup -----

  lemma {:induction false} FromClUnroute(sys: System, cfg: Config, t: ThreadId)
    requires cfg.Valid() && t in sys.pcs && sys.pcs[t].ClUnroute?
    ensures Exec(sys, cfg, Sections(t, 3 * |sys.pcs[t].todo| + 1))
            == sys.(s := AfterSweep(sys.s, sys.pcs[t].todo, sys.pcs[t].now), pcs := sys.pcs - {t})
    decreases |sys.pcs[t].todo|
  {
    var n := 3 * |sys.pcs[t].todo| + 1;
    ExecSection(sys, cfg, t, n);
    var s1 := FireNext(sys, cfg, t);
    if sys.pcs[t].todo == [] {
      ExecIdle(s1, cfg, t, 0);
    } else {
      ExecSection(s1, cfg, t, n - 1);
      var s2 := FireNext(s1, cfg, t);
      ExecSection(s2, cfg, t, n - 2);
      var s3 := FireNext(s2, cfg, t);
      FromClUnroute(s3, cfg, t);
      assert s3.pcs - {t} == sys.pcs - {t};
    }
  }

  lemma TodoSets(s: State, cfg: Config, order: seq<ClientId>, now: Time)
    requires IsOrderOf(order, TimedOutSessions(s, cfg, now))
    requires forall c :: c in order ==> c in s.sessions
    ensures var gone := TimedOutSessions(s, cfg, now);
            && First(Todo(s, order)) == gone
            && Second(Todo(s, order)) == set c | c in gone && c in s.sessions :: s.sessions[c].ip
  {
    var todo := Todo(s, order);
    var gone := TimedOutSessions(s, cfg, now);
    forall c | c in gone
      ensures (c, s.sessions[c].ip) in todo
    {
      assert c in (set d | d in order);
      var i :| 0 <= i < |order| && order[i] == c;
      assert todo[i] == (c, s.sessions[c].ip);
    }
    forall p | p in todo
      ensures p.0 in gone && p.1 == s.sessions[p.0].ip
    {
      assert p.0 in order;
      assert p.0 in (set d | d in order);
    }
  }

  /** The atomic cleanup is the sweep followed by its sections in any order. */
  lemma CleanupInOrder(s: State, cfg: Config, order: seq<ClientId>, now: Time)
    requires IsOrderOf(order, TimedOutSessions(s, cfg, now))
    requires forall c :: c in order ==> c in s.sessions
    ensures RunCleanup(s, cfg, now) == AfterSweep(SweepSection(s, cfg, now), Todo(s, order), now)
  {
    AfterSweepAll(SweepSection(s, cfg, now), Todo(s, order), now);
    TodoSets(s, cfg, order, now);
  }

  lemma OrderInSessions(s: State, cfg: Config, order: seq<ClientId>, now: Time)
    requires IsOrderOf(order, TimedOutSessions(s, cfg, now))
    ensures forall c :: c in order ==> c in s.sessions
  {
    assert forall c :: c in order ==> c in (set d | d in order);
    assert forall c :: c in order ==> c in TimedOutSessions(s, cfg, now);
  }

  /** A cleanup whose sessions section has run and whose other sections have not. */
  function Swept(sys: System, cfg: Config, t: ThreadId, order: seq<ClientId>, now: Time): System
    requires forall c :: c in order ==> c in sys.s.sessions
  {
    sys.(s := SweepSection(sys.s, cfg, now), pcs := sys.pcs[t := ClUnroute(Todo(sys.s, order), now)])
  }

  lemma CleanupStarts(sys: System, cfg: Config, t: ThreadId, order: seq<ClientId>, now: Time, rest: seq<Action>)
    requires cfg.Valid() && sys.lock.None? && t !in sys.pcs
    requires IsOrderOf(order, TimedOutSessions(sys.s, cfg, now))
    requires forall c :: c in order ==> c in sys.s.sessions
    ensures Exec(sys, cfg, [StartCleanup(t, order, now)] + rest) == Exec(Swept(sys, cfg, t, order, now), cfg, rest)
  {
    ExecFirst(sys, cfg, StartCleanup(t, order, now), rest);
  }

  /** A cleanup overtaken, after its sessions section, by calls that come to rest before it goes on. */
  lemma OvertakenCleanup(sys: System, cfg: Config, t: ThreadId, others: seq<Action>, s': State,
                         todo: seq<(ClientId, Ip)>, now: Time)
    requires cfg.Valid() && t in sys.pcs && sys.pcs[t] == ClUnroute(todo, now)
    requires Exec(sys, cfg, others) == sys.(s := s')
    ensures Exec(sys, cfg, others + Sections(t, 3 * |todo| + 1))
            == System(AfterSweep(s', todo, now), sys.lock, sys.pcs - {t})
  {
    ExecAppend(sys, cfg, others, Sections(t, 3 * |todo| + 1));
    FromClUnroute(sys.(s := s'), cfg, t);
  }

  lemma SweptPcs(sys: System, cfg: Config, t: ThreadId, order: seq<ClientId>, now: Time)
    requires t !in sys.pcs && forall c :: c in order ==> c in sys.s.sessions
    ensures var s1 := Swept(sys, cfg, t, order, now);
            && t in s1.pcs && s1.pcs[t] == ClUnroute(Todo(sys.s, order), now)
            && s1.pcs - {t} == sys.pcs && s1.lock == sys.lock
  {
  }

  /** A whole cleanup, overtaken by other calls in the same way. */
  lemma OvertakenFromStart(sys: System, cfg: Config, t: ThreadId, order: seq<ClientId>, now: Time, others: seq<Action>,
                           s': State)
    requires cfg.Valid() && sys.lock.None? && t !in sys.pcs
    requires IsOrderOf(order, TimedOutSessions(sys.s, cfg, now))
    requires forall c :: c in order ==> c in sys.s.sessions
    requires var s1 := Swept(sys, cfg, t, order, now); Exec(s1, cfg, others) == s1.(s := s')
    ensures Exec(sys, cfg, [StartCleanup(t, order, now)] + (others + Sections(t, 3 * |order| + 1)))
            == System(AfterSweep(s', Todo(sys.s, order), now), sys.lock, sys.pcs)
  {
    SweptPcs(sys, cfg, t, order, now);
    CleanupStarts(sys, cfg, t, order, now, others + Sections(t, 3 * |order| + 1));
    OvertakenCleanup(Swept(sys, cfg, t, order, now), cfg, t, others, s', Todo(sys.s, order), now);
  }

  /** An uninterrupted cleanup, whatever order it visits the sessions in, is the atomic cleanup. */
  lemma CleanupIsASchedule(sys: System, cfg: Config, t: ThreadId, order: seq<ClientId>, now: Time)
    requires cfg.Valid() && sys.lock.None? && t !in sys.pcs
    requires IsOrderOf(order, TimedOutSessions(sys.s, cfg, now))
    ensures Exec(sys, cfg, [StartCleanup(t, order, now)] + Sections(t, 3 * |order| + 1))
            == sys.(s := RunCleanup(sys.s, cfg, now))
  {
    OrderInSessions(sys.s, cfg, order, now);
    OvertakenFromStart(sys, cfg, t, order, now, [], SweepSection(sys.s, cfg, now));
    assert [] + Sections(t, 3 * |order| + 1) == Sections(t, 3 * |order| + 1);
    CleanupInOrder(sys.s, cfg, order, now);
  }

  // ----- races -----

  /** No call is in progress. */
  ghost predicate Quiet(sys: System) {
    sys.lock.None? && sys.pcs == map[]
  }

  /** A heartbeat of a client without a session that asks for an address nobody else claims. */
  lemma ReturningClient(s: State, cfg: Config, c: ClientId, hb: Heartbeat, from: Endpoint, now: Time)
    requires cfg.Valid() && c !in s.sessions && hb.virtualIp != 0 && FreeFor(s, cfg, c, hb.virtualIp)
    ensures var s' := RunHeartbeat(s, cfg, c, hb, from, now);
            && Live(s', c, hb.virtualIp) && s'.sessions[c].lastSeen == now
            && s'.routes == s.routes[hb.virtualIp := c]
            && c in s'.pool
  {
  }

  /**
   Client d may take the address of client c once c's session is gone: d is c, or d has no session and the address is
   not the one that the pool keeps for c.
   */
  ghost predicate MayTake(s: State, c: ClientId, d: ClientId, ip: Ip) {
    Live(s, c, ip) && ip != 0 && (d == c || (d !in s.sessions && (c in s.pool ==> s.pool[c] != ip)))
  }

  /** So it comes about: a client comes back with a request for an address other than the one the pool keeps for it. */
  lemma RequestOverridesPool(s: State, cfg: Config, c: ClientId, hb: Heartbeat, from: Endpoint, now: Time, d: ClientId)
    requires cfg.Valid() && c !in s.sessions && hb.virtualIp != 0 && FreeFor(s, cfg, c, hb.virtualIp)
    requires c in s.pool && s.pool[c] != hb.virtualIp && d != c && d !in s.sessions
    ensures var s' := RunHeartbeat(s, cfg, c, hb, from, now);
            s'.pool == s.pool && MayTake(s', c, d, hb.virtualIp)
  {
    ReturningClient(s, cfg, c, hb, from, now);
  }

  lemma TakenAddressIsFree(s: State, s': State, cfg: Config, c: ClientId, d: ClientId, ip: Ip)
    requires UniqueIps(s, cfg) && MayTake(s, c, d, ip) && s'.pool == s.pool
    requires forall e :: e in s'.sessions ==> e in s.sessions && e != c && s'.sessions[e].ip == s.sessions[e].ip
    ensures d !in s'.sessions && FreeFor(s', cfg, d, ip)
  {
  }

  /** A delete of client c that is overtaken by a heartbeat of client d before it reaches the routes. */
  function DeleteRace(c: ClientId, d: ClientId, hb: Heartbeat, from: Endpoint, now: Time): seq<Action> {
    [StartDelete(0, c)] + (([StartHeartbeat(1, d, hb, from, now)] + Sections(1, 6)) + Sections(0, 3))
  }

  /**
   A delete can cut off a client: the one that it deletes, if that has come back in the meantime, or another one that
   has taken the deleted client's address. From every quiet state in which client d may take c's address a schedule
   ends quiet, with d live but unrouted, and unpooled if it is c itself.
   */
  lemma LiveWithoutRoute(sys: System, cfg: Config, c: ClientId, d: ClientId, hb: Heartbeat, from: Endpoint, now: Time)
    requires cfg.Valid() && Safe(sys, cfg) && Quiet(sys) && d != 0 && MayTake(sys.s, c, d, hb.virtualIp)
    ensures var sys' := Exec(sys, cfg, DeleteRace(c, d, hb, from, now));
            && Quiet(sys')
            && Live(sys'.s, d, hb.virtualIp) && sys'.s.sessions[d].lastSeen == now
            && hb.virtualIp !in sys'.s.routes
            && (d == c ==> c !in sys'.s.pool)
  {
    var beat := [StartHeartbeat(1, d, hb, from, now)] + Sections(1, 6);
    ExecFirst(sys, cfg, StartDelete(0, c), beat + Sections(0, 3));
    var s1 := FireDelete(sys, 0, c);
    ExecAppend(s1, cfg, beat, Sections(0, 3));
    HeartbeatIsASchedule(s1, cfg, 1, d, hb, from, now);
    TakenAddressIsFree(sys.s, s1.s, cfg, c, d, hb.virtualIp);
    ReturningClient(s1.s, cfg, d, hb, from, now);
    FromDelUnroute(Exec(s1, cfg, beat), cfg, 0);
  }

  /** A cleanup that times out client c alone and is overtaken by a heartbeat of client d. */
  function CleanupRace(c: ClientId, d: ClientId, hb: Heartbeat, from: Endpoint, now: Time): seq<Action> {
    [StartCleanup(0, [c], now)] + (([StartHeartbeat(1, d, hb, from, now)] + Sections(1, 6)) + Sections(0, 4))
  }

  lemma SingleOrder(s: State, cfg: Config, c: ClientId, ip: Ip, now: Time)
    requires Live(s, c, ip) && TimedOutSessions(s, cfg, now) == {c}
    ensures IsOrderOf([c], TimedOutSessions(s, cfg, now))
    ensures forall d :: d in [c] ==> d in s.sessions
    ensures Todo(s, [c]) == [(c, ip)]
  {
    assert (set d | d in [c]) == {c};
  }

  lemma CleanupRaceResult(sys: System, cfg: Config, c: ClientId, d: ClientId, hb: Heartbeat, from: Endpoint, now: Time)
    requires cfg.Valid() && Quiet(sys) && d != 0 && Live(sys.s, c, hb.virtualIp)
    requires TimedOutSessions(sys.s, cfg, now) == {c}
    ensures var s' := RunHeartbeat(SweepSection(sys.s, cfg, now), cfg, d, hb, from, now);
            Exec(sys, cfg, CleanupRace(c, d, hb, from, now)) == sys.(s := AfterSweep(s', [(c, hb.virtualIp)], now))
  {
    SingleOrder(sys.s, cfg, c, hb.virtualIp, now);
    var s1 := Swept(sys, cfg, 0, [c], now);
    var s' := RunHeartbeat(s1.s, cfg, d, hb, from, now);
    HeartbeatIsASchedule(s1, cfg, 1, d, hb, from, now);
    OvertakenFromStart(sys, cfg, 0, [c], now, [StartHeartbeat(1, d, hb, from, now)] + Sections(1, 6), s');
  }

  /**
   So can a cleanup: from every quiet state where one client c times out and d may take its address, a schedule ends
   quiet, with d live but unrouted, and due to lose its pool entry if it is c itself.
   */
  lemma LiveMarkedForExpiry(sys: System, cfg: Config, c: ClientId, d: ClientId, hb: Heartbeat, from: Endpoint,
                            now: Time)
    requires cfg.Valid() && Safe(sys, cfg) && Quiet(sys) && d != 0 && MayTake(sys.s, c, d, hb.virtualIp)
    requires TimedOutSessions(sys.s, cfg, now) == {c}
    ensures var sys' := Exec(sys, cfg, CleanupRace(c, d, hb, from, now));
            && Quiet(sys')
            && Live(sys'.s, d, hb.virtualIp)
            && hb.virtualIp !in sys'.s.routes
            && (d == c ==> forall later :: later - now > 300 * SECOND ==> c !in ExpireSection(sys'.s, later).pool)
  {
    CleanupRaceResult(sys, cfg, c, d, hb, from, now);
    OvertakenSweep(sys.s, cfg, c, d, hb, from, now);
    SweptOneByOne(RunHeartbeat(SweepSection(sys.s, cfg, now), cfg, d, hb, from, now), c, hb.virtualIp, now);
  }

  lemma OvertakenSweep(s: State, cfg: Config, c: ClientId, d: ClientId, hb: Heartbeat, from: Endpoint, now: Time)
    requires cfg.Valid() && UniqueIps(s, cfg) && MayTake(s, c, d, hb.virtualIp)
    requires TimedOutSessions(s, cfg, now) == {c}
    ensures var s' := RunHeartbeat(SweepSection(s, cfg, now), cfg, d, hb, from, now);
            Live(s', d, hb.virtualIp) && d in s'.pool
  {
    TakenAddressIsFree(s, SweepSection(s, cfg, now), cfg, c, d, hb.virtualIp);
    ReturningClient(SweepSection(s, cfg, now), cfg, d, hb, from, now);
  }

  lemma SweptOneByOne(s: State, c: ClientId, ip: Ip, now: Time)
    ensures var s' := AfterSweep(s, [(c, ip)], now);
            && s'.sessions == s.sessions && s'.routes == s.routes - {ip}
            && (c in s.pool ==> c in s'.expiry && s'.expiry[c] == now)
  {
    var s1 := SweepOne(s, c, ip, now);
    assert [(c, ip)][1..] == [];
    assert AfterSweep(s, [(c, ip)], now) == ExpireSection(s1, now);
  }
}
