/**
 The server's tables under its separate locks.

 Threads run critical sections in any interleaving.  A heartbeat of a client without a session holds the
 sessions lock from its first section to its last; cleanup and delete release it before they touch the
 routes, the dedup windows and the pool.
 */
module ServerLocks {
  import opened Words
  import opened Messages
  import opened ServerState

  type ThreadId = nat

  /** Where a thread is: the section it runs next, with the values it carries. */
  datatype Pc =
    | HbPoolCheck(c: ClientId, hb: Heartbeat, from: Endpoint, now: Time)
    | HbAllocate(c: ClientId, hb: Heartbeat, from: Endpoint, now: Time)
    | HbInsert(c: ClientId, ip: Ip, prefixLen: u8, hb: Heartbeat, from: Endpoint, now: Time)
    | HbRoute(c: ClientId, ip: Ip, hb: Heartbeat, from: Endpoint, now: Time)
    | HbPool(c: ClientId, ip: Ip, hb: Heartbeat, from: Endpoint, now: Time)
    | HbTouch(c: ClientId, hb: Heartbeat, from: Endpoint, now: Time)
    | DelUnroute(c: ClientId, ip: Ip)
    | DelReset(c: ClientId)
    | DelForget(c: ClientId)
    | ClUnroute(todo: seq<(ClientId, Ip)>, now: Time)
    | ClReset(todo: seq<(ClientId, Ip)>, now: Time)
    | ClMark(todo: seq<(ClientId, Ip)>, now: Time)

  /** The tables, the owner of the sessions lock, and the running threads. */
  datatype System = System(s: State, lock: Option<ThreadId>, pcs: map<ThreadId, Pc>)

  /** What the scheduler picks: a new call, or the next section of a running one. */
  datatype Action =
    | StartHeartbeat(t: ThreadId, c: ClientId, hb: Heartbeat, from: Endpoint, now: Time)
    | StartDelete(t: ThreadId, c: ClientId)
    | StartCleanup(t: ThreadId, order: seq<ClientId>, now: Time)
    | DataDedup(c: ClientId, number: u32)
    | DataSeen(c: ClientId, from: Endpoint, now: Time)
    | Continue(t: ThreadId)

  function Goto(sys: System, s: State, t: ThreadId, pc: Pc): System {
    sys.(s := s, pcs := sys.pcs[t := pc])
  }

  function Finish(sys: System, s: State, t: ThreadId): System {
    sys.(s := s, pcs := sys.pcs - {t})
  }

  /** The first section of a heartbeat, with the sessions lock taken. */
  function FireHeartbeat(sys: System, cfg: Config, t: ThreadId, c: ClientId, hb: Heartbeat, from: Endpoint,
                         now: Time): System {
    var locked := sys.(lock := Some(t));
    if c in sys.s.sessions then
      var s' := InsertSession(sys.s, c, RefreshSession(sys.s.sessions[c], hb.deviceName, now));
      Goto(locked, s', t, HbTouch(c, hb, from, now))
    else if hb.virtualIp == 0 || SessionConflict(sys.s, cfg, c, hb.virtualIp) then
      Goto(locked, sys.s, t, HbAllocate(c, hb, from, now))
    else
      Goto(locked, sys.s, t, HbPoolCheck(c, hb, from, now))
  }

  function FireDelete(sys: System, t: ThreadId, c: ClientId): System {
    if c in sys.s.sessions then
      Goto(sys, RemoveSessions(sys.s, {c}), t, DelUnroute(c, sys.s.sessions[c].ip))
    else sys
  }

  /** The removed sessions with their addresses, in the order the map iteration visited them. */
  function Todo(s: State, order: seq<ClientId>): (todo: seq<(ClientId, Ip)>)
    requires forall c :: c in order ==> c in s.sessions
    ensures |todo| == |order|
  {
    seq(|order|, i requires 0 <= i < |order| => (order[i], s.sessions[order[i]].ip))
  }

  predicate IsOrderOf(order: seq<ClientId>, gone: set<ClientId>) {
    && (set c | c in order) == gone
    && (forall i, j :: 0 <= i < j < |order| ==> order[i] != order[j])
  }

  function FireCleanup(sys: System, cfg: Config, t: ThreadId, order: seq<ClientId>, now: Time): System {
    var gone := TimedOutSessions(sys.s, cfg, now);
    if IsOrderOf(order, gone) then
      assert forall c :: c in order ==> c in (set d | d in order) && c in gone;
      Goto(sys, SweepSection(sys.s, cfg, now), t, ClUnroute(Todo(sys.s, order), now))
    else sys
  }

  /** True of a thread inside a heartbeat. */
  predicate HoldsLock(pc: Pc) {
    pc.HbPoolCheck? || pc.HbAllocate? || pc.HbInsert? || pc.HbRoute? || pc.HbPool? || pc.HbTouch?
  }

  /** The next section of a heartbeat. */
  function HeartbeatNext(sys: System, cfg: Config, t: ThreadId): System
    requires cfg.Valid() && t in sys.pcs && HoldsLock(sys.pcs[t])
  {
    var s := sys.s;
    match sys.pcs[t]
    case HbPoolCheck(c, hb, from, now) =>
      if PoolConflict(s, c, hb.virtualIp) then Goto(sys, s, t, HbAllocate(c, hb, from, now))
      else Goto(sys, s, t, HbInsert(c, hb.virtualIp, hb.prefixLen, hb, from, now))
    case HbAllocate(c, hb, from, now) =>
      var (s', ip) := AllocateSection(s, cfg, c);
      Goto(sys, s', t, if ip.Some? then HbInsert(c, ip.value, cfg.prefixLen, hb, from, now)
                       else HbInsert(c, 0, hb.prefixLen, hb, from, now))
    case HbInsert(c, ip, prefixLen, hb, from, now) =>
      var s' := InsertSession(s, c, NewSession(ip, prefixLen, hb.deviceName, now));
      Goto(sys, s', t, if ip == 0 then HbTouch(c, hb, from, now) else HbRoute(c, ip, hb, from, now))
    case HbRoute(c, ip, hb, from, now) =>
      Goto(sys, RouteSection(s, c, ip), t, HbPool(c, ip, hb, from, now))
    case HbPool(c, ip, hb, from, now) =>
      Goto(sys, PoolSection(s, c, ip), t, HbTouch(c, hb, from, now))
    case HbTouch(c, hb, from, now) =>
      var s' := if c in s.sessions then InsertSession(s, c, TouchSession(s.sessions[c], from, hb.path, now)) else s;
      Finish(sys.(lock := None), s', t)
  }

  /** The next section of a delete or a cleanup. */
  function RemovalNext(sys: System, t: ThreadId): System
    requires t in sys.pcs && !HoldsLock(sys.pcs[t])
  {
    var s := sys.s;
    match sys.pcs[t]
    case DelUnroute(c, ip) => Goto(sys, UnrouteSection(s, ip), t, DelReset(c))
    case DelReset(c) => Goto(sys, ResetSection(s, c), t, DelForget(c))
    case DelForget(c) => Finish(sys, ForgetSection(s, c), t)
    case ClUnroute(todo, now) =>
      if todo == [] then Finish(sys, ExpireSection(s, now), t)
      else Goto(sys, UnrouteSection(s, todo[0].1), t, ClReset(todo, now))
    case ClReset(todo, now) =>
      Goto(sys, if todo == [] then s else ResetSection(s, todo[0].0), t, ClMark(todo, now))
    case ClMark(todo, now) =>
      if todo == [] then Goto(sys, s, t, ClUnroute([], now))
      else Goto(sys, MarkSection(s, todo[0].0, now), t, ClUnroute(todo[1..], now))
  }

  /** The next section of thread t. */
  function FireNext(sys: System, cfg: Config, t: ThreadId): System
    requires cfg.Valid() && t in sys.pcs
  {
    if HoldsLock(sys.pcs[t]) then HeartbeatNext(sys, cfg, t) else RemovalNext(sys, t)
  }

  /** True if the scheduler may pick the action: new calls use fresh threads and wait for the sessions lock. */
  predicate Enabled(sys: System, cfg: Config, act: Action) {
    match act
    case StartHeartbeat(t, c, _, _, _) => t !in sys.pcs && sys.lock.None? && c != 0
    case StartDelete(t, _) => t !in sys.pcs && sys.lock.None?
    case StartCleanup(t, _, _) => t !in sys.pcs && sys.lock.None?
    case DataDedup(c, _) => WindowFits(sys.s, cfg, c)
    case DataSeen(c, _, _) => sys.lock.None? && c in sys.s.sessions
    case Continue(t) => t in sys.pcs
  }

  function Fire(sys: System, cfg: Config, act: Action): System
    requires cfg.Valid() && Enabled(sys, cfg, act)
  {
    match act
    case StartHeartbeat(t, c, hb, from, now) => FireHeartbeat(sys, cfg, t, c, hb, from, now)
    case StartDelete(t, c) => FireDelete(sys, t, c)
    case StartCleanup(t, order, now) => FireCleanup(sys, cfg, t, order, now)
    case DataDedup(c, number) => sys.(s := DedupSection(sys.s, cfg, c, number).0)
    case DataSeen(c, from, now) => sys.(s := SeenSection(sys.s, c, from, now))
    case Continue(t) => FireNext(sys, cfg, t)
  }

  // ----- the invariant -----

  /** What a heartbeat knows between two of its sections. */
  ghost predicate Knows(s: State, cfg: Config, pc: Pc) {
    match pc
    case HbPoolCheck(c, hb, _, _) =>
      && c !in s.sessions && hb.virtualIp != 0 && hb.virtualIp != cfg.serverIp
      && forall d :: d in s.sessions ==> s.sessions[d].ip != hb.virtualIp
    case HbAllocate(c, _, _, _) => c !in s.sessions
    case HbInsert(c, ip, _, _, _, _) => c !in s.sessions && (ip != 0 ==> FreeFor(s, cfg, c, ip))
    case HbRoute(c, ip, _, _, _) => c in s.sessions && s.sessions[c].ip == ip && ip != 0
    case HbPool(c, ip, _, _, _) => c in s.sessions && s.sessions[c].ip == ip && ip != 0
    case HbTouch(c, _, _, _) => c in s.sessions
    case _ => true
  }

  /** The sessions lock is held by exactly the thread that is inside a heartbeat. */
  ghost predicate LockOk(sys: System) {
    && (forall t :: t in sys.pcs && HoldsLock(sys.pcs[t]) ==> sys.lock == Some(t))
    && (sys.lock.Some? ==> sys.lock.value in sys.pcs && HoldsLock(sys.pcs[sys.lock.value]))
  }

  ghost predicate Safe(sys: System, cfg: Config) {
    && LockOk(sys)
    && WindowsOk(sys.s, cfg)
    && UniqueIps(sys.s, cfg)
    && forall t :: t in sys.pcs ==> Knows(sys.s, cfg, sys.pcs[t])
  }

  /** The clients whose route removal thread t has still to carry out. */
  ghost predicate Removing(pc: Pc, c: ClientId, ip: Ip) {
    match pc
    case DelUnroute(d, i) => d == c && i == ip
    case ClUnroute(todo, _) => (c, ip) in todo
    case ClReset(todo, _) => todo != [] && (c, ip) in todo[1..]
    case ClMark(todo, _) => todo != [] && (c, ip) in todo[1..]
    case _ => false
  }

  ghost predicate RemovalPending(sys: System, c: ClientId, ip: Ip) {
    exists t :: t in sys.pcs && Removing(sys.pcs[t], c, ip)
  }

  /** Every route leads to a client that holds the address, or is about to be removed. */
  ghost predicate RoutesSound(sys: System) {
    forall ip :: ip in sys.s.routes ==>
      Live(sys.s, sys.s.routes[ip], ip) || RemovalPending(sys, sys.s.routes[ip], ip)
  }

  // ----- every section keeps the invariant -----

  lemma ShrinkingKeepsKnowledge(s: State, s': State, cfg: Config, pc: Pc)
    requires Knows(s, cfg, pc) && Shrinks(s, s')
    ensures Knows(s', cfg, pc)
  {
  }

  lemma ShrinkingIsSafe(sys: System, cfg: Config, t: ThreadId, sys': System)
    requires Safe(sys, cfg) && t in sys.pcs && !HoldsLock(sys.pcs[t])
    requires Shrinks(sys.s, sys'.s) && WindowsOk(sys'.s, cfg) && sys'.lock == sys.lock
    requires sys'.pcs == sys.pcs - {t}
             || (t in sys'.pcs && !HoldsLock(sys'.pcs[t]) && sys'.pcs == sys.pcs[t := sys'.pcs[t]])
    ensures Safe(sys', cfg)
  {
    ShrinkingKeepsUnique(sys.s, sys'.s, cfg);
    forall u | u in sys'.pcs
      ensures Knows(sys'.s, cfg, sys'.pcs[u])
    {
      if u != t {
        ShrinkingKeepsKnowledge(sys.s, sys'.s, cfg, sys.pcs[u]);
      }
    }
  }

  /** The thread inside a heartbeat may do as it likes with the tables, as long as it keeps them in order. */
  lemma HolderIsSafe(sys: System, cfg: Config, t: ThreadId, sys': System)
    requires Safe(sys, cfg) && sys.lock == Some(t) && t in sys.pcs
    requires UniqueIps(sys'.s, cfg) && WindowsOk(sys'.s, cfg)
    requires || (sys'.lock == None && sys'.pcs == sys.pcs - {t})
             || (sys'.lock == Some(t) && t in sys'.pcs && HoldsLock(sys'.pcs[t]) && Knows(sys'.s, cfg, sys'.pcs[t])
                 && sys'.pcs == sys.pcs[t := sys'.pcs[t]])
    ensures Safe(sys', cfg)
  {
    forall u | u in sys.pcs && u != t
      ensures !HoldsLock(sys.pcs[u])
    {
    }
  }

  /** With the sessions lock free no thread is inside a heartbeat, and a new thread may take it. */
  lemma StarterIsSafe(sys: System, cfg: Config, t: ThreadId, sys': System)
    requires Safe(sys, cfg) && sys.lock.None? && t !in sys.pcs
    requires UniqueIps(sys'.s, cfg) && WindowsOk(sys'.s, cfg)
    requires t in sys'.pcs && Knows(sys'.s, cfg, sys'.pcs[t]) && sys'.pcs == sys.pcs[t := sys'.pcs[t]]
    requires sys'.lock == if HoldsLock(sys'.pcs[t]) then Some(t) else None
    ensures Safe(sys', cfg)
  {
    forall u | u in sys.pcs
      ensures !HoldsLock(sys.pcs[u])
    {
    }
  }

  lemma PoolCheckIsSafe(sys: System, cfg: Config, t: ThreadId)
    requires cfg.Valid() && Safe(sys, cfg) && t in sys.pcs && sys.pcs[t].HbPoolCheck?
    ensures Safe(FireNext(sys, cfg, t), cfg)
  {
    HolderIsSafe(sys, cfg, t, FireNext(sys, cfg, t));
  }

  lemma AllocateIsSafe(sys: System, cfg: Config, t: ThreadId)
    requires cfg.Valid() && Safe(sys, cfg) && t in sys.pcs && sys.pcs[t].HbAllocate?
    ensures Safe(FireNext(sys, cfg, t), cfg)
  {
    AllocationIsFree(sys.s, cfg, sys.pcs[t].c);
    HolderIsSafe(sys, cfg, t, FireNext(sys, cfg, t));
  }

  lemma InsertIsSafe(sys: System, cfg: Config, t: ThreadId)
    requires cfg.Valid() && Safe(sys, cfg) && t in sys.pcs && sys.pcs[t].HbInsert?
    ensures Safe(FireNext(sys, cfg, t), cfg)
  {
    HolderIsSafe(sys, cfg, t, FireNext(sys, cfg, t));
  }

  lemma RegisterIsSafe(sys: System, cfg: Config, t: ThreadId)
    requires cfg.Valid() && Safe(sys, cfg) && t in sys.pcs && (sys.pcs[t].HbRoute? || sys.pcs[t].HbPool?)
    ensures Safe(FireNext(sys, cfg, t), cfg)
  {
    var pc := sys.pcs[t];
    if pc.HbPool? && pc.c !in sys.s.pool {
      PooledIsUnique(sys.s, PoolSection(sys.s, pc.c, pc.ip), cfg, pc.c, pc.ip);
    }
    HolderIsSafe(sys, cfg, t, FireNext(sys, cfg, t));
  }

  lemma TouchIsSafe(sys: System, cfg: Config, t: ThreadId)
    requires cfg.Valid() && Safe(sys, cfg) && t in sys.pcs && sys.pcs[t].HbTouch?
    ensures Safe(FireNext(sys, cfg, t), cfg)
  {
    var sys' := FireNext(sys, cfg, t);
    SameIpsKeepsUnique(sys.s, sys'.s, cfg);
    HolderIsSafe(sys, cfg, t, sys');
  }

  lemma ForgettingShrinks(s: State, c: ClientId, now: Time)
    ensures Shrinks(s, ForgetSection(s, c)) && Shrinks(s, ExpireSection(s, now))
  {
  }

  lemma RemovalShrinks(sys: System, t: ThreadId)
    requires t in sys.pcs && !HoldsLock(sys.pcs[t])
    ensures Shrinks(sys.s, RemovalNext(sys, t).s)
  {
    if sys.pcs[t].DelForget? {
      ForgettingShrinks(sys.s, sys.pcs[t].c, 0);
    } else if sys.pcs[t].ClUnroute? {
      ForgettingShrinks(sys.s, 0, sys.pcs[t].now);
    }
  }

  lemma RemovalKeepsWindows(sys: System, cfg: Config, t: ThreadId)
    requires WindowsOk(sys.s, cfg) && t in sys.pcs && !HoldsLock(sys.pcs[t])
    ensures WindowsOk(RemovalNext(sys, t).s, cfg)
  {
  }

  lemma RemovalMoves(sys: System, t: ThreadId)
    requires t in sys.pcs && !HoldsLock(sys.pcs[t])
    ensures var sys' := RemovalNext(sys, t);
            && sys'.lock == sys.lock
            && (sys'.pcs == sys.pcs - {t}
                || (t in sys'.pcs && !HoldsLock(sys'.pcs[t]) && sys'.pcs == sys.pcs[t := sys'.pcs[t]]))
  {
  }

  lemma RemovalIsSafe(sys: System, cfg: Config, t: ThreadId)
    requires Safe(sys, cfg) && t in sys.pcs && !HoldsLock(sys.pcs[t])
    ensures Safe(RemovalNext(sys, t), cfg)
  {
    RemovalShrinks(sys, t);
    RemovalKeepsWindows(sys, cfg, t);
    RemovalMoves(sys, t);
    ShrinkingIsSafe(sys, cfg, t, RemovalNext(sys, t));
  }

  lemma NextIsSafe(sys: System, cfg: Config, t: ThreadId)
    requires cfg.Valid() && Safe(sys, cfg) && t in sys.pcs
    ensures Safe(FireNext(sys, cfg, t), cfg)
  {
    match sys.pcs[t]
    case HbPoolCheck(_, _, _, _) => PoolCheckIsSafe(sys, cfg, t);
    case HbAllocate(_, _, _, _) => AllocateIsSafe(sys, cfg, t);
    case HbInsert(_, _, _, _, _, _) => InsertIsSafe(sys, cfg, t);
    case HbRoute(_, _, _, _, _) => RegisterIsSafe(sys, cfg, t);
    case HbPool(_, _, _, _, _) => RegisterIsSafe(sys, cfg, t);
    case HbTouch(_, _, _, _) => TouchIsSafe(sys, cfg, t);
    case _ => RemovalIsSafe(sys, cfg, t);
  }

  lemma RefreshKeepsIps(s: State, c: ClientId, deviceName: seq<u8>, now: Time)
    requires c in s.sessions
    ensures SameIps(s, InsertSession(s, c, RefreshSession(s.sessions[c], deviceName, now)))
  {
  }

  lemma StartHeartbeatMoves(sys: System, cfg: Config, t: ThreadId, c: ClientId, hb: Heartbeat, from: Endpoint,
                            now: Time)
    requires Safe(sys, cfg) && sys.lock.None? && t !in sys.pcs
    ensures var sys' := FireHeartbeat(sys, cfg, t, c, hb, from, now);
            && SameIps(sys.s, sys'.s) && sys'.s.windows == sys.s.windows
            && sys'.lock == Some(t)
            && t in sys'.pcs && sys'.pcs == sys.pcs[t := sys'.pcs[t]]
            && HoldsLock(sys'.pcs[t]) && Knows(sys'.s, cfg, sys'.pcs[t])
  {
    if c in sys.s.sessions {
      RefreshKeepsIps(sys.s, c, hb.deviceName, now);
    }
  }

  lemma StartHeartbeatIsSafe(sys: System, cfg: Config, t: ThreadId, c: ClientId, hb: Heartbeat, from: Endpoint,
                             now: Time)
    requires Safe(sys, cfg) && sys.lock.None? && t !in sys.pcs
    ensures Safe(FireHeartbeat(sys, cfg, t, c, hb, from, now), cfg)
  {
    var sys' := FireHeartbeat(sys, cfg, t, c, hb, from, now);
    StartHeartbeatMoves(sys, cfg, t, c, hb, from, now);
    SameIpsKeepsUnique(sys.s, sys'.s, cfg);
    StarterIsSafe(sys, cfg, t, sys');
  }

  lemma StartDeleteIsSafe(sys: System, cfg: Config, t: ThreadId, c: ClientId)
    requires Safe(sys, cfg) && sys.lock.None? && t !in sys.pcs
    ensures Safe(FireDelete(sys, t, c), cfg)
  {
    if c in sys.s.sessions {
      var sys' := FireDelete(sys, t, c);
      FewerSessionsKeepsUnique(sys.s, sys'.s, cfg);
      StarterIsSafe(sys, cfg, t, sys');
    }
  }

  lemma StartCleanupIsSafe(sys: System, cfg: Config, t: ThreadId, order: seq<ClientId>, now: Time)
    requires Safe(sys, cfg) && sys.lock.None? && t !in sys.pcs
    ensures Safe(FireCleanup(sys, cfg, t, order, now), cfg)
  {
    var sys' := FireCleanup(sys, cfg, t, order, now);
    if IsOrderOf(order, TimedOutSessions(sys.s, cfg, now)) {
      FewerSessionsKeepsUnique(sys.s, sys'.s, cfg);
      StarterIsSafe(sys, cfg, t, sys');
    }
  }

  lemma DataIsSafe(sys: System, cfg: Config, s': State)
    requires Safe(sys, cfg) && SameIps(sys.s, s') && WindowsOk(s', cfg)
    requires sys.lock.None? || s'.sessions == sys.s.sessions
    ensures Safe(sys.(s := s'), cfg)
  {
    SameIpsKeepsUnique(sys.s, s', cfg);
    forall t | t in sys.pcs
      ensures Knows(s', cfg, sys.pcs[t])
    {
      assert Knows(sys.s, cfg, sys.pcs[t]);
      assert sys.lock.None? ==> !HoldsLock(sys.pcs[t]);
    }
  }

  lemma DedupKeepsWindows(s: State, cfg: Config, c: ClientId, number: u32)
    requires cfg.Valid() && WindowsOk(s, cfg)
    ensures WindowsOk(DedupSection(s, cfg, c, number).0, cfg)
  {
  }

  /** Every section, in every interleaving, keeps addresses unique. */
  lemma FireIsSafe(sys: System, cfg: Config, act: Action)
    requires cfg.Valid() && Safe(sys, cfg) && Enabled(sys, cfg, act)
    ensures Safe(Fire(sys, cfg, act), cfg)
  {
    match act
    case StartHeartbeat(t, c, hb, from, now) => StartHeartbeatIsSafe(sys, cfg, t, c, hb, from, now);
    case StartDelete(t, c) => StartDeleteIsSafe(sys, cfg, t, c);
    case StartCleanup(t, order, now) => StartCleanupIsSafe(sys, cfg, t, order, now);
    case DataDedup(c, number) =>
      DedupKeepsWindows(sys.s, cfg, c, number);
      DataIsSafe(sys, cfg, DedupSection(sys.s, cfg, c, number).0);
    case DataSeen(c, from, now) => DataIsSafe(sys, cfg, SeenSection(sys.s, c, from, now));
    case Continue(t) => NextIsSafe(sys, cfg, t);
  }

  // ----- schedules -----

  /** The state after a schedule; actions that are not enabled are skipped. */
  function Exec(sys: System, cfg: Config, actions: seq<Action>): System
    requires cfg.Valid()
    decreases |actions|
  {
    if actions == [] then sys
    else if Enabled(sys, cfg, actions[0]) then Exec(Fire(sys, cfg, actions[0]), cfg, actions[1..])
    else Exec(sys, cfg, actions[1..])
  }
}
