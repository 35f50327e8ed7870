/** What the routes and the address pool promise when sections of different threads interleave. */
module ServerLockRoutes {
  import opened Messages
  import opened ServerState
  import opened ServerLocks

  // ----- soundness: it survives every interleaving -----

  /** A step keeps the routes sound if it only adds routes to live clients and forgets no pending removal. */
  lemma SoundAfter(sys: System, sys': System)
    requires RoutesSound(sys)
    requires forall ip :: ip in sys'.s.routes ==>
               || Live(sys'.s, sys'.s.routes[ip], ip)
               || (ip in sys.s.routes && sys'.s.routes[ip] == sys.s.routes[ip])
    requires forall c, ip :: ip in sys'.s.routes && Live(sys.s, c, ip) ==>
               Live(sys'.s, c, ip) || RemovalPending(sys', c, ip)
    requires forall c, ip :: ip in sys'.s.routes && RemovalPending(sys, c, ip) ==> RemovalPending(sys', c, ip)
    ensures RoutesSound(sys')
  {
  }

  lemma PendingKept(sys: System, sys': System, t: ThreadId, c: ClientId, ip: Ip)
    requires RemovalPending(sys, c, ip)
    requires forall u :: u in sys.pcs && u != t ==> u in sys'.pcs && sys'.pcs[u] == sys.pcs[u]
    requires t in sys.pcs && Removing(sys.pcs[t], c, ip) ==> t in sys'.pcs && Removing(sys'.pcs[t], c, ip)
    ensures RemovalPending(sys', c, ip)
  {
    var u :| u in sys.pcs && Removing(sys.pcs[u], c, ip);
    assert u in sys'.pcs && Removing(sys'.pcs[u], c, ip);
  }

  /** A removal gives up the pending route removals it carries out, and no others. */
  lemma RemovalCarriesOut(sys: System, t: ThreadId, c: ClientId, ip: Ip)
    requires t in sys.pcs && !HoldsLock(sys.pcs[t]) && Removing(sys.pcs[t], c, ip)
    requires ip in RemovalNext(sys, t).s.routes
    ensures t in RemovalNext(sys, t).pcs && Removing(RemovalNext(sys, t).pcs[t], c, ip)
  {
  }

  lemma RemovalShrinksRoutes(sys: System, t: ThreadId)
    requires t in sys.pcs && !HoldsLock(sys.pcs[t])
    ensures RemovalNext(sys, t).s.sessions == sys.s.sessions
    ensures forall ip :: ip in RemovalNext(sys, t).s.routes ==>
              ip in sys.s.routes && RemovalNext(sys, t).s.routes[ip] == sys.s.routes[ip]
  {
    RemovalEffect(sys, t);
  }

  lemma RemovalIsSound(sys: System, t: ThreadId)
    requires RoutesSound(sys) && t in sys.pcs && !HoldsLock(sys.pcs[t])
    ensures RoutesSound(RemovalNext(sys, t))
  {
    var sys' := RemovalNext(sys, t);
    RemovalMoves(sys, t);
    RemovalShrinksRoutes(sys, t);
    forall c, ip | ip in sys'.s.routes && RemovalPending(sys, c, ip)
      ensures RemovalPending(sys', c, ip)
    {
      if Removing(sys.pcs[t], c, ip) {
        RemovalCarriesOut(sys, t, c, ip);
      }
      PendingKept(sys, sys', t, c, ip);
    }
    SoundAfter(sys, sys');
  }

  lemma HeartbeatIsSound(sys: System, cfg: Config, t: ThreadId)
    requires cfg.Valid() && Safe(sys, cfg) && RoutesSound(sys) && t in sys.pcs && HoldsLock(sys.pcs[t])
    ensures RoutesSound(HeartbeatNext(sys, cfg, t))
  {
    var sys' := HeartbeatNext(sys, cfg, t);
    HeartbeatKeepsLives(sys, cfg, t);
    forall c, ip | RemovalPending(sys, c, ip)
      ensures RemovalPending(sys', c, ip)
    {
      PendingKept(sys, sys', t, c, ip);
    }
    SoundAfter(sys, sys');
  }

  lemma HeartbeatKeepsLives(sys: System, cfg: Config, t: ThreadId)
    requires cfg.Valid() && Safe(sys, cfg) && t in sys.pcs && HoldsLock(sys.pcs[t])
    ensures var sys' := HeartbeatNext(sys, cfg, t);
            && (forall c, ip :: Live(sys.s, c, ip) ==> Live(sys'.s, c, ip))
            && (forall ip :: ip in sys'.s.routes ==>
                  Live(sys'.s, sys'.s.routes[ip], ip) || (ip in sys.s.routes && sys'.s.routes[ip] == sys.s.routes[ip]))
            && (forall u :: u in sys.pcs && u != t ==> u in sys'.pcs && sys'.pcs[u] == sys.pcs[u])
  {
  }

  lemma StartIsSound(sys: System, t: ThreadId, sys': System)
    requires RoutesSound(sys) && t !in sys.pcs && sys'.s.routes == sys.s.routes
    requires t in sys'.pcs && sys'.pcs == sys.pcs[t := sys'.pcs[t]]
    requires forall c, ip :: Live(sys.s, c, ip) ==> Live(sys'.s, c, ip) || Removing(sys'.pcs[t], c, ip)
    ensures RoutesSound(sys')
  {
    forall c, ip | RemovalPending(sys, c, ip)
      ensures RemovalPending(sys', c, ip)
    {
      PendingKept(sys, sys', t, c, ip);
    }
    SoundAfter(sys, sys');
  }

  lemma CleanupListsAll(sys: System, cfg: Config, t: ThreadId, order: seq<ClientId>, now: Time, c: ClientId, ip: Ip)
    requires IsOrderOf(order, TimedOutSessions(sys.s, cfg, now)) && Live(sys.s, c, ip)
    ensures var sys' := FireCleanup(sys, cfg, t, order, now);
            Live(sys'.s, c, ip) || Removing(sys'.pcs[t], c, ip)
  {
    if c in TimedOutSessions(sys.s, cfg, now) {
      assert c in (set d | d in order);
      var i :| 0 <= i < |order| && order[i] == c;
      assert forall d :: d in order ==> d in TimedOutSessions(sys.s, cfg, now) by {
        assert forall d :: d in order ==> d in (set e | e in order);
      }
      assert Todo(sys.s, order)[i] == (c, ip);
    }
  }

  /** Every section, in every interleaving, keeps the routes sound. */
  lemma FireIsSound(sys: System, cfg: Config, act: Action)
    requires cfg.Valid() && Safe(sys, cfg) && RoutesSound(sys) && Enabled(sys, cfg, act)
    ensures RoutesSound(Fire(sys, cfg, act))
  {
    match act
    case StartHeartbeat(t, c, hb, from, now) =>
      StartIsSound(sys, t, FireHeartbeat(sys, cfg, t, c, hb, from, now));
    case StartDelete(t, c) =>
      if c in sys.s.sessions {
        StartIsSound(sys, t, FireDelete(sys, t, c));
      }
    case StartCleanup(t, order, now) =>
      if IsOrderOf(order, TimedOutSessions(sys.s, cfg, now)) {
        var sys' := FireCleanup(sys, cfg, t, order, now);
        forall c, ip | Live(sys.s, c, ip)
          ensures Live(sys'.s, c, ip) || Removing(sys'.pcs[t], c, ip)
        {
          CleanupListsAll(sys, cfg, t, order, now, c, ip);
        }
        StartIsSound(sys, t, sys');
      }
    case DataDedup(c, number) =>
      DataIsSound(sys, DedupSection(sys.s, cfg, c, number).0);
    case DataSeen(c, from, now) =>
      DataIsSound(sys, SeenSection(sys.s, c, from, now));
    case Continue(t) =>
      if HoldsLock(sys.pcs[t]) {
        HeartbeatIsSound(sys, cfg, t);
      } else {
        RemovalIsSound(sys, t);
      }
  }

  lemma DataIsSound(sys: System, s': State)
    requires RoutesSound(sys) && s'.routes == sys.s.routes
    requires forall c, ip :: Live(sys.s, c, ip) ==> Live(s', c, ip)
    ensures RoutesSound(sys.(s := s'))
  {
    forall c, ip | RemovalPending(sys, c, ip)
      ensures RemovalPending(sys.(s := s'), c, ip)
    {
      var u :| u in sys.pcs && Removing(sys.pcs[u], c, ip);
      assert u in sys.(s := s').pcs;
    }
    SoundAfter(sys, sys.(s := s'));
  }

  /**
   In every state of every interleaving of heartbeats, deletes, cleanups and data packets, no address belongs to
   two clients, and every route leads to a client that holds the address or is about to lose it.
   */
  lemma {:induction false} EveryScheduleIsSafe(sys: System, cfg: Config, actions: seq<Action>)
    requires cfg.Valid() && Safe(sys, cfg) && RoutesSound(sys)
    ensures UniqueIps(Exec(sys, cfg, actions).s, cfg) && RoutesSound(Exec(sys, cfg, actions))
    ensures Safe(Exec(sys, cfg, actions), cfg)
    decreases |actions|
  {
    if actions != [] {
      if Enabled(sys, cfg, actions[0]) {
        FireIsSafe(sys, cfg, actions[0]);
        FireIsSound(sys, cfg, actions[0]);
        EveryScheduleIsSafe(Fire(sys, cfg, actions[0]), cfg, actions[1..]);
      } else {
        EveryScheduleIsSafe(sys, cfg, actions[1..]);
      }
    }
  }

  /** A server that has just loaded a pool file without conflicts is in such a state. */
  lemma FreshServerIsSafe(pool: map<ClientId, Ip>, cfg: Config)
    requires cfg.Valid()
    requires forall c :: c in pool ==> pool[c] != 0 && pool[c] != cfg.serverIp
    requires forall c, d :: c in pool && d in pool && c != d ==> pool[c] != pool[d]
    ensures Safe(System(State(map[], map[], pool, map[], map[]), None, map[]), cfg)
    ensures RoutesSound(System(State(map[], map[], pool, map[], map[]), None, map[]))
  {
  }

  // ----- completeness: exactly one kind of step breaks it -----

  /** A heartbeat of client c has inserted its session and has still to enter its route. */
  ghost predicate Routing(sys: System, c: ClientId) {
    exists t :: t in sys.pcs && sys.pcs[t].HbRoute? && sys.pcs[t].c == c
  }

  /** A heartbeat of client c has inserted its session and has still to enter it into the pool. */
  ghost predicate Registering(sys: System, c: ClientId) {
    exists t :: t in sys.pcs && (sys.pcs[t].HbRoute? || sys.pcs[t].HbPool?) && sys.pcs[t].c == c
  }

  /** Every live client is routed, once its registration has entered the route. */
  ghost predicate RoutesComplete(sys: System) {
    forall c :: c in sys.s.sessions && sys.s.sessions[c].ip != 0 && !Routing(sys, c) ==>
      sys.s.sessions[c].ip in sys.s.routes && sys.s.routes[sys.s.sessions[c].ip] == c
  }

  /** Every live client has its pool entry and no expiry, once its registration has entered the pool. */
  ghost predicate PoolComplete(sys: System) {
    forall c :: c in sys.s.sessions && sys.s.sessions[c].ip != 0 && !Registering(sys, c) ==>
      c in sys.s.pool && c !in sys.s.expiry
  }

  /** The address whose route the thread removes next. */
  function UnroutedNext(pc: Pc): Option<Ip> {
    match pc
    case DelUnroute(_, ip) => Some(ip)
    case ClUnroute(todo, _) => if todo == [] then None else Some(todo[0].1)
    case _ => None
  }

  /**
   The step removes the route of a client that holds the address: one that has come back since its removal began, or one
   that has taken the address of a removed client.
   */
  ghost predicate Unroutes(sys: System, act: Action) {
    && act.Continue?
    && act.t in sys.pcs
    && UnroutedNext(sys.pcs[act.t]).Some?
    && exists c :: Live(sys.s, c, UnroutedNext(sys.pcs[act.t]).value)
         && UnroutedNext(sys.pcs[act.t]).value != 0 && !Routing(sys, c)
  }

  function ForgottenNext(pc: Pc): Option<ClientId> {
    match pc
    case DelForget(c) => Some(c)
    case ClMark(todo, _) => if todo == [] then None else Some(todo[0].0)
    case _ => None
  }

  /** The step forgets or marks for expiry the pool entry of a client that has come back. */
  ghost predicate Forgets(sys: System, act: Action) {
    && act.Continue?
    && act.t in sys.pcs
    && ForgottenNext(sys.pcs[act.t]).Some?
    && var c := ForgottenNext(sys.pcs[act.t]).value;
       c in sys.s.sessions && sys.s.sessions[c].ip != 0 && !Registering(sys, c)
  }

  lemma OnlyTheHolderRoutes(sys: System, cfg: Config, t: ThreadId, c: ClientId)
    requires Safe(sys, cfg) && t in sys.pcs && HoldsLock(sys.pcs[t])
    ensures Routing(sys, c) <==> sys.pcs[t].HbRoute? && sys.pcs[t].c == c
    ensures Registering(sys, c) <==> (sys.pcs[t].HbRoute? || sys.pcs[t].HbPool?) && sys.pcs[t].c == c
  {
    forall u | u in sys.pcs && HoldsLock(sys.pcs[u])
      ensures u == t
    {
      assert sys.lock == Some(u) && sys.lock == Some(t);
    }
  }

  lemma HeartbeatKeepsRoutesComplete(sys: System, cfg: Config, t: ThreadId)
    requires cfg.Valid() && Safe(sys, cfg) && t in sys.pcs && HoldsLock(sys.pcs[t]) && RoutesComplete(sys)
    ensures RoutesComplete(HeartbeatNext(sys, cfg, t))
  {
    var sys' := HeartbeatNext(sys, cfg, t);
    forall c: ClientId
      ensures Routing(sys, c) <==> sys.pcs[t].HbRoute? && sys.pcs[t].c == c
    {
      OnlyTheHolderRoutes(sys, cfg, t, c);
    }
    assert t in sys'.pcs ==> (sys'.pcs[t].HbRoute? ==> Routing(sys', sys'.pcs[t].c));
  }

  lemma HeartbeatKeepsPoolComplete(sys: System, cfg: Config, t: ThreadId)
    requires cfg.Valid() && Safe(sys, cfg) && t in sys.pcs && HoldsLock(sys.pcs[t]) && PoolComplete(sys)
    ensures PoolComplete(HeartbeatNext(sys, cfg, t))
  {
    var sys' := HeartbeatNext(sys, cfg, t);
    forall c: ClientId
      ensures Registering(sys, c) <==> (sys.pcs[t].HbRoute? || sys.pcs[t].HbPool?) && sys.pcs[t].c == c
    {
      OnlyTheHolderRoutes(sys, cfg, t, c);
    }
    assert t in sys'.pcs ==> ((sys'.pcs[t].HbRoute? || sys'.pcs[t].HbPool?) ==> Registering(sys', sys'.pcs[t].c));
  }

  /** Threads other than t, and heartbeats among them, stay where they are. */
  lemma SameRouting(sys: System, sys': System, t: ThreadId, c: ClientId)
    requires forall u :: u in sys.pcs && u != t ==> u in sys'.pcs && sys'.pcs[u] == sys.pcs[u]
    requires forall u :: u in sys'.pcs && u != t ==> u in sys.pcs
    requires t in sys.pcs ==> !sys.pcs[t].HbRoute? && !sys.pcs[t].HbPool?
    requires t in sys'.pcs ==> !sys'.pcs[t].HbRoute? && !sys'.pcs[t].HbPool?
    ensures Routing(sys', c) <==> Routing(sys, c)
    ensures Registering(sys', c) <==> Registering(sys, c)
  {
    if Registering(sys, c) {
      var u :| u in sys.pcs && (sys.pcs[u].HbRoute? || sys.pcs[u].HbPool?) && sys.pcs[u].c == c;
      assert u in sys'.pcs;
    }
    if Routing(sys, c) {
      var u :| u in sys.pcs && sys.pcs[u].HbRoute? && sys.pcs[u].c == c;
      assert u in sys'.pcs;
    }
  }

  lemma RemovalKeepsSessions(sys: System, t: ThreadId)
    requires t in sys.pcs && !HoldsLock(sys.pcs[t])
    ensures RemovalNext(sys, t).s.sessions == sys.s.sessions
  {
  }

  lemma RemovalUnroutes(sys: System, t: ThreadId)
    requires t in sys.pcs && !HoldsLock(sys.pcs[t]) && UnroutedNext(sys.pcs[t]).Some?
    ensures RemovalNext(sys, t).s.routes == sys.s.routes - {UnroutedNext(sys.pcs[t]).value}
  {
  }

  lemma RemovalKeepsRoutes(sys: System, t: ThreadId)
    requires t in sys.pcs && !HoldsLock(sys.pcs[t]) && UnroutedNext(sys.pcs[t]).None?
    ensures RemovalNext(sys, t).s.routes == sys.s.routes
  {
  }

  lemma RemovalEffect(sys: System, t: ThreadId)
    requires t in sys.pcs && !HoldsLock(sys.pcs[t])
    ensures var s, s' := sys.s, RemovalNext(sys, t).s;
            && s'.sessions == s.sessions
            && s'.routes == (if UnroutedNext(sys.pcs[t]).Some? then s.routes - {UnroutedNext(sys.pcs[t]).value}
                             else s.routes)
  {
    RemovalKeepsSessions(sys, t);
    if UnroutedNext(sys.pcs[t]).Some? {
      RemovalUnroutes(sys, t);
    } else {
      RemovalKeepsRoutes(sys, t);
    }
  }

  lemma RemovalKeepsRoutesIff(sys: System, cfg: Config, t: ThreadId)
    requires Safe(sys, cfg) && RoutesComplete(sys) && t in sys.pcs && !HoldsLock(sys.pcs[t])
    ensures RoutesComplete(RemovalNext(sys, t)) <==> !Unroutes(sys, Continue(t))
  {
    var sys' := RemovalNext(sys, t);
    RemovalEffect(sys, t);
    RemovalMoves(sys, t);
    forall c: ClientId
      ensures Routing(sys', c) <==> Routing(sys, c)
    {
      SameRouting(sys, sys', t, c);
    }
  }

  lemma RemovalPoolEffect(sys: System, t: ThreadId, c: ClientId)
    requires t in sys.pcs && !HoldsLock(sys.pcs[t]) && c in sys.s.pool && c !in sys.s.expiry
    ensures var s' := RemovalNext(sys, t).s;
            (c in s'.pool && c !in s'.expiry) <==> ForgottenNext(sys.pcs[t]) != Some(c)
  {
  }

  lemma RemovalKeepsPoolIff(sys: System, cfg: Config, t: ThreadId)
    requires Safe(sys, cfg) && PoolComplete(sys) && t in sys.pcs && !HoldsLock(sys.pcs[t])
    ensures PoolComplete(RemovalNext(sys, t)) <==> !Forgets(sys, Continue(t))
  {
    var sys' := RemovalNext(sys, t);
    RemovalEffect(sys, t);
    RemovalMoves(sys, t);
    forall c: ClientId
      ensures Registering(sys', c) <==> Registering(sys, c)
    {
      SameRouting(sys, sys', t, c);
    }
    forall c | c in sys.s.sessions && sys.s.sessions[c].ip != 0 && !Registering(sys, c)
      ensures (c in sys'.s.pool && c !in sys'.s.expiry) <==> ForgottenNext(sys.pcs[t]) != Some(c)
    {
      RemovalPoolEffect(sys, t, c);
    }
  }

  /** Any other step that enters no route keeps both kinds of completeness. */
  lemma OtherKeepsComplete(sys: System, cfg: Config, t: ThreadId, sys': System)
    requires Safe(sys, cfg) && t !in sys.pcs
    requires sys'.s.routes == sys.s.routes && sys'.s.pool == sys.s.pool && sys'.s.expiry == sys.s.expiry
    requires forall c :: c in sys'.s.sessions ==> c in sys.s.sessions && sys'.s.sessions[c].ip == sys.s.sessions[c].ip
    requires sys'.pcs == sys.pcs || (t in sys'.pcs && !sys'.pcs[t].HbRoute? && !sys'.pcs[t].HbPool?
                                     && sys'.pcs == sys.pcs[t := sys'.pcs[t]])
    ensures RoutesComplete(sys) ==> RoutesComplete(sys')
    ensures PoolComplete(sys) ==> PoolComplete(sys')
  {
    forall c: ClientId
      ensures Routing(sys', c) <==> Routing(sys, c)
      ensures Registering(sys', c) <==> Registering(sys, c)
    {
      SameRouting(sys, sys', t, c);
    }
  }

  lemma NewThread(sys: System) returns (t: ThreadId)
    ensures t !in sys.pcs
  {
    t := if sys.pcs.Keys == {} then 0 else MaxOf(sys.pcs.Keys) + 1;
  }

  ghost function MaxOf(ts: set<nat>): (m: nat)
    ensures forall t :: t in ts ==> t <= m
  {
    if ts == {} then 0
    else
      var t :| t in ts;
      var m := MaxOf(ts - {t});
      assert forall u :: u in ts ==> u == t || u in ts - {t};
      if t > m then t else m
  }

  lemma StartKeepsComplete(sys: System, cfg: Config, act: Action)
    requires cfg.Valid() && Safe(sys, cfg) && Enabled(sys, cfg, act)
    requires act.StartHeartbeat? || act.StartDelete? || act.StartCleanup?
    ensures RoutesComplete(sys) ==> RoutesComplete(Fire(sys, cfg, act))
    ensures PoolComplete(sys) ==> PoolComplete(Fire(sys, cfg, act))
  {
    OtherKeepsComplete(sys, cfg, act.t, Fire(sys, cfg, act));
  }

  lemma DataKeepsComplete(sys: System, cfg: Config, act: Action)
    requires cfg.Valid() && Safe(sys, cfg) && Enabled(sys, cfg, act) && (act.DataDedup? || act.DataSeen?)
    ensures RoutesComplete(sys) ==> RoutesComplete(Fire(sys, cfg, act))
    ensures PoolComplete(sys) ==> PoolComplete(Fire(sys, cfg, act))
  {
    var t := NewThread(sys);
    OtherKeepsComplete(sys, cfg, t, Fire(sys, cfg, act));
  }

  lemma CallKeepsComplete(sys: System, cfg: Config, act: Action)
    requires cfg.Valid() && Safe(sys, cfg) && Enabled(sys, cfg, act) && !act.Continue?
    ensures RoutesComplete(sys) ==> RoutesComplete(Fire(sys, cfg, act))
    ensures PoolComplete(sys) ==> PoolComplete(Fire(sys, cfg, act))
  {
    if act.DataDedup? || act.DataSeen? {
      DataKeepsComplete(sys, cfg, act);
    } else {
      StartKeepsComplete(sys, cfg, act);
    }
  }

  /**
   Completeness of the routes is lost exactly when a pending removal takes the route of a client that
   holds the address.
   */
  lemma RoutesStayCompleteIff(sys: System, cfg: Config, act: Action)
    requires cfg.Valid() && Safe(sys, cfg) && Enabled(sys, cfg, act) && RoutesComplete(sys)
    ensures RoutesComplete(Fire(sys, cfg, act)) <==> !Unroutes(sys, act)
  {
    match act
    case Continue(t) =>
      if HoldsLock(sys.pcs[t]) {
        HeartbeatKeepsRoutesComplete(sys, cfg, t);
      } else {
        RemovalKeepsRoutesIff(sys, cfg, t);
      }
    case _ => CallKeepsComplete(sys, cfg, act);
  }

  /** Completeness of the pool is lost exactly when a pending removal forgets or marks a client that came back. */
  lemma PoolStaysCompleteIff(sys: System, cfg: Config, act: Action)
    requires cfg.Valid() && Safe(sys, cfg) && Enabled(sys, cfg, act) && PoolComplete(sys)
    ensures PoolComplete(Fire(sys, cfg, act)) <==> !Forgets(sys, act)
  {
    match act
    case Continue(t) =>
      if HoldsLock(sys.pcs[t]) {
        HeartbeatKeepsPoolComplete(sys, cfg, t);
      } else {
        RemovalKeepsPoolIff(sys, cfg, t);
      }
    case _ => CallKeepsComplete(sys, cfg, act);
  }
}
