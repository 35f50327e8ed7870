/** What the server's tables satisfy in every run of uninterrupted handlers. */
module ServerInvariants {
  import opened Words
  import opened Messages
  import opened ServerState
  import opened ServerAtomic

  datatype Event =
    | Beat(c: ClientId, hb: Heartbeat, from: Endpoint, now: Time)
    | Data(c: ClientId, number: u32, payload: seq<u8>, from: Endpoint, now: Time)
    | Clean(now: Time)
    | Kick(c: ClientId)

  /** Routes and the sessions' addresses are inverse to each other. */
  ghost predicate RoutesExact(sessions: map<ClientId, Session>, routes: map<Ip, ClientId>) {
    && (forall c :: c in sessions && sessions[c].ip != 0 ==> sessions[c].ip in routes && routes[sessions[c].ip] == c)
    && (forall ip :: ip in routes ==> ip != 0 && routes[ip] in sessions && sessions[routes[ip]].ip == ip)
  }

  /** Every session with an address is in the pool, no session awaits expiry, and only pool entries do. */
  ghost predicate PoolExact(sessions: map<ClientId, Session>, pool: map<ClientId, Ip>, expiry: map<ClientId, Time>) {
    && (forall c :: c in sessions && sessions[c].ip != 0 ==> c in pool)
    && (forall c :: c in sessions ==> c !in expiry)
    && (forall c :: c in expiry ==> c in pool)
  }

  ghost predicate Exact(s: State, cfg: Config) {
    && UniqueIps(s, cfg)
    && RoutesExact(s.sessions, s.routes)
    && PoolExact(s.sessions, s.pool, s.expiry)
    && WindowsOk(s, cfg)
  }

  function Handle(s: State, cfg: Config, e: Event): (State, Outcome)
    requires cfg.Valid() && (e.Data? ==> WindowFits(s, cfg, e.c))
  {
    match e
    case Beat(c, hb, from, now) => (HandleHeartbeat(s, cfg, c, hb, from, now).0, Dropped)
    case Data(c, number, payload, from, now) => HandleData(s, cfg, c, number, payload, from, now)
    case Clean(now) => (RunCleanup(s, cfg, now), Dropped)
    case Kick(c) => (RunDelete(s, c).0, Dropped)
  }

  // ----- every handler keeps the tables exact -----

  lemma AllocationKeepsExact(s: State, cfg: Config, c: ClientId)
    requires cfg.Valid() && Exact(s, cfg) && c !in s.sessions
    ensures var (s', ip) := AllocateSection(s, cfg, c);
            && Exact(s', cfg) && s'.sessions == s.sessions
            && (ip.Some? ==> ip.value != 0 && FreeFor(s', cfg, c, ip.value))
            && (ip.None? ==> c !in s'.pool)
  {
    AllocationIsFree(s, cfg, c);
    AllocationKeepsPool(s.sessions, s.pool, s.expiry, c, AllocationFor(s, cfg, c));
  }

  lemma AllocationKeepsPool(sessions: map<ClientId, Session>, pool: map<ClientId, Ip>, expiry: map<ClientId, Time>,
                            c: ClientId, ip: Option<Ip>)
    requires PoolExact(sessions, pool, expiry)
    ensures PoolExact(sessions, pool, expiry - {c})
    ensures ip.Some? ==> PoolExact(sessions, pool[c := ip.value], expiry)
  {
  }

  lemma AssignmentKeepsExact(s: State, cfg: Config, c: ClientId, hb: Heartbeat)
    requires cfg.Valid() && Exact(s, cfg) && c !in s.sessions
    ensures var (s', ip, _) := AssignIp(s, cfg, c, hb);
            && Exact(s', cfg) && c !in s'.sessions
            && (ip != 0 ==> FreeFor(s', cfg, c, ip))
            && (ip == 0 ==> c !in s'.expiry)
  {
    if !(hb.virtualIp != 0 && !SessionConflict(s, cfg, c, hb.virtualIp) && !PoolConflict(s, c, hb.virtualIp)) {
      AllocationKeepsExact(s, cfg, c);
    }
  }

  lemma RoutesAfterEntry(sessions: map<ClientId, Session>, routes: map<Ip, ClientId>, c: ClientId, session: Session)
    requires RoutesExact(sessions, routes) && c !in sessions
    requires forall d :: d in sessions && session.ip != 0 ==> sessions[d].ip != session.ip
    ensures RoutesExact(sessions[c := session], if session.ip == 0 then routes else routes[session.ip := c])
  {
  }

  lemma PoolAfterEntry(sessions: map<ClientId, Session>, pool: map<ClientId, Ip>, expiry: map<ClientId, Time>,
                       c: ClientId, session: Session, ip: Ip)
    requires PoolExact(sessions, pool, expiry) && c !in sessions
    ensures session.ip == 0 && c !in expiry ==> PoolExact(sessions[c := session], pool, expiry)
    ensures PoolExact(sessions[c := session], if c in pool then pool else pool[c := ip], expiry - {c})
  {
  }

  lemma UniqueAfterEntry(s: State, cfg: Config, c: ClientId, session: Session)
    requires UniqueIps(s, cfg) && c !in s.sessions && (session.ip != 0 ==> FreeFor(s, cfg, c, session.ip))
    ensures UniqueIps(InsertSession(s, c, session), cfg)
    ensures session.ip != 0 ==> FreeFor(InsertSession(s, c, session), cfg, c, session.ip)
  {
    forall d | d in s.pool && d != c
      ensures s.pool[d] != session.ip
    {
    }
  }

  lemma EntryKeepsExact(s: State, cfg: Config, c: ClientId, ip: Ip, prefixLen: u8, deviceName: seq<u8>, now: Time)
    requires cfg.Valid() && Exact(s, cfg) && c !in s.sessions
    requires ip != 0 ==> FreeFor(s, cfg, c, ip)
    requires ip == 0 ==> c !in s.expiry
    ensures Exact(Enter(s, c, ip, prefixLen, deviceName, now), cfg)
  {
    var session := NewSession(ip, prefixLen, deviceName, now);
    RoutesAfterEntry(s.sessions, s.routes, c, session);
    PoolAfterEntry(s.sessions, s.pool, s.expiry, c, session, ip);
    UniqueAfterEntry(s, cfg, c, session);
    if ip != 0 {
      PoolEntryKeepsUnique(InsertSession(s, c, session), cfg, c, ip);
    }
  }

  lemma PoolEntryKeepsUnique(s: State, cfg: Config, c: ClientId, ip: Ip)
    requires UniqueIps(s, cfg) && FreeFor(s, cfg, c, ip) && ip != 0
    ensures UniqueIps(PoolSection(RouteSection(s, c, ip), c, ip), cfg)
  {
    var s' := PoolSection(RouteSection(s, c, ip), c, ip);
    if c !in s.pool {
      PooledIsUnique(s, s', cfg, c, ip);
    }
  }

  /** A change of sessions that keeps who they are and which address they hold. */
  lemma SameSessionsKeepExact(s: State, s': State, cfg: Config)
    requires Exact(s, cfg) && SameIps(s, s')
    requires s'.routes == s.routes && s'.expiry == s.expiry && WindowsOk(s', cfg)
    ensures Exact(s', cfg)
  {
    SameIpsKeepsUnique(s, s', cfg);
  }

  lemma TouchKeepsIps(s: State, c: ClientId, from: Endpoint, path: Option<PathStats>, now: Time)
    ensures SameIps(s, Touch(s, c, from, path, now))
    ensures Touch(s, c, from, path, now) == s.(sessions := Touch(s, c, from, path, now).sessions)
  {
  }

  lemma TouchKeepsExact(s: State, cfg: Config, c: ClientId, from: Endpoint, path: Option<PathStats>, now: Time)
    requires Exact(s, cfg)
    ensures Exact(Touch(s, c, from, path, now), cfg)
  {
    TouchKeepsIps(s, c, from, path, now);
    var s' := s.(sessions := Touch(s, c, from, path, now).sessions);
    SameSessionsKeepExact(s, s', cfg);
  }

  lemma RefreshKeepsExact(s: State, cfg: Config, c: ClientId, deviceName: seq<u8>, now: Time)
    requires Exact(s, cfg) && c in s.sessions
    ensures Exact(InsertSession(s, c, RefreshSession(s.sessions[c], deviceName, now)), cfg)
  {
    SameSessionsKeepExact(s, InsertSession(s, c, RefreshSession(s.sessions[c], deviceName, now)), cfg);
  }

  lemma BeatKeepsExact(s: State, cfg: Config, c: ClientId, hb: Heartbeat, from: Endpoint, now: Time)
    requires cfg.Valid() && Exact(s, cfg)
    ensures Exact(RunHeartbeat(s, cfg, c, hb, from, now), cfg)
  {
    if c in s.sessions {
      RefreshKeepsExact(s, cfg, c, hb.deviceName, now);
      TouchKeepsExact(InsertSession(s, c, RefreshSession(s.sessions[c], hb.deviceName, now)), cfg, c, from, hb.path,
                      now);
    } else {
      var (s1, ip, prefixLen) := AssignIp(s, cfg, c, hb);
      AssignmentKeepsExact(s, cfg, c, hb);
      EntryKeepsExact(s1, cfg, c, ip, prefixLen, hb.deviceName, now);
      TouchKeepsExact(Enter(s1, c, ip, prefixLen, hb.deviceName, now), cfg, c, from, hb.path, now);
    }
  }

  /** Removing sessions together with the routes of their addresses. */
  lemma RoutesAfterRemoval(sessions: map<ClientId, Session>, routes: map<Ip, ClientId>, left: map<ClientId, Session>,
                           ips: set<Ip>)
    requires RoutesExact(sessions, routes)
    requires forall c :: c in left ==> c in sessions && left[c].ip == sessions[c].ip
                                        && (left[c].ip != 0 ==> left[c].ip !in ips)
    requires forall c :: c in sessions && c !in left ==> sessions[c].ip in ips
    ensures RoutesExact(left, routes - ips)
  {
  }

  lemma PoolAfterKick(sessions: map<ClientId, Session>, pool: map<ClientId, Ip>, expiry: map<ClientId, Time>,
                      c: ClientId)
    requires PoolExact(sessions, pool, expiry) && c in sessions
    ensures PoolExact(sessions - {c}, pool - {c}, expiry)
  {
  }

  lemma RoutesAfterKick(sessions: map<ClientId, Session>, routes: map<Ip, ClientId>, c: ClientId)
    requires RoutesExact(sessions, routes) && c in sessions
    ensures RoutesExact(sessions - {c}, routes - {sessions[c].ip})
  {
    RoutesAfterRemoval(sessions, routes, sessions - {c}, {sessions[c].ip});
  }

  lemma UniqueAfterKick(s: State, cfg: Config, c: ClientId)
    requires UniqueIps(s, cfg)
    ensures UniqueIps(s.(sessions := s.sessions - {c}, pool := s.pool - {c}), cfg)
  {
  }

  lemma KickKeepsExact(s: State, cfg: Config, c: ClientId)
    requires Exact(s, cfg)
    ensures Exact(RunDelete(s, c).0, cfg)
  {
    if c in s.sessions {
      PoolAfterKick(s.sessions, s.pool, s.expiry, c);
      RoutesAfterKick(s.sessions, s.routes, c);
      UniqueAfterKick(s, cfg, c);
      KickUnfolds(s, c);
    }
  }

  lemma KickUnfolds(s: State, c: ClientId)
    requires c in s.sessions
    ensures RunDelete(s, c).0
            == s.(sessions := s.sessions - {c}, pool := s.pool - {c})
               .(routes := s.routes - {s.sessions[c].ip}, windows := s.windows - {c})
  {
  }

  lemma SweepKeepsRoutes(s: State, cfg: Config, now: Time)
    requires Exact(s, cfg)
    ensures var gone := TimedOutSessions(s, cfg, now);
            var ips := set c | c in gone && c in s.sessions :: s.sessions[c].ip;
            RoutesExact(SweepSection(s, cfg, now).sessions, s.routes - ips)
  {
    var gone := TimedOutSessions(s, cfg, now);
    var ips := set c | c in gone && c in s.sessions :: s.sessions[c].ip;
    var left := SweepSection(s, cfg, now).sessions;
    forall c | c in left && left[c].ip != 0
      ensures left[c].ip !in ips
    {
      assert c !in gone;
    }
    RoutesAfterRemoval(s.sessions, s.routes, left, ips);
  }

  lemma SweepKeepsPool(sessions: map<ClientId, Session>, left: map<ClientId, Session>, pool: map<ClientId, Ip>,
                       expiry: map<ClientId, Time>, gone: set<ClientId>, now: Time)
    requires PoolExact(sessions, pool, expiry)
    requires forall c :: c in left ==> c in sessions && c !in gone && left[c].ip == sessions[c].ip
    ensures PoolExact(left, pool, MarkAll(expiry, pool.Keys, gone, now))
  {
  }

  lemma SweepKeepsExact(s: State, cfg: Config, now: Time)
    requires Exact(s, cfg)
    ensures var gone := TimedOutSessions(s, cfg, now);
            var ips := set c | c in gone && c in s.sessions :: s.sessions[c].ip;
            Exact(UnrouteAll(SweepSection(s, cfg, now), gone, ips, now), cfg)
  {
    var gone := TimedOutSessions(s, cfg, now);
    var ips := set c | c in gone && c in s.sessions :: s.sessions[c].ip;
    SweepKeepsUnique(s, cfg, now, UnrouteAll(SweepSection(s, cfg, now), gone, ips, now));
    SweepKeepsRoutes(s, cfg, now);
    SweepKeepsPoolExact(s, cfg, now);
  }

  lemma SweepKeepsUnique(s: State, cfg: Config, now: Time, s': State)
    requires Exact(s, cfg) && s'.sessions == SweepSection(s, cfg, now).sessions && s'.pool == s.pool
    requires forall c :: c in s'.windows ==> c in s.windows && s'.windows[c] == s.windows[c]
    ensures UniqueIps(s', cfg) && WindowsOk(s', cfg)
  {
    FewerSessionsKeepsUnique(s, s', cfg);
    forall c | c in s'.windows
      ensures WindowFits(s', cfg, c)
    {
      assert WindowFits(s, cfg, c);
    }
  }

  lemma SweepKeepsPoolExact(s: State, cfg: Config, now: Time)
    requires PoolExact(s.sessions, s.pool, s.expiry)
    ensures PoolExact(SweepSection(s, cfg, now).sessions, s.pool,
                      MarkAll(s.expiry, s.pool.Keys, TimedOutSessions(s, cfg, now), now))
  {
    SweepKeepsPool(s.sessions, SweepSection(s, cfg, now).sessions, s.pool, s.expiry, TimedOutSessions(s, cfg, now),
                   now);
  }

  lemma PoolAfterExpiry(sessions: map<ClientId, Session>, pool: map<ClientId, Ip>, expiry: map<ClientId, Time>,
                        out: set<ClientId>)
    requires PoolExact(sessions, pool, expiry) && out <= expiry.Keys
    ensures PoolExact(sessions, pool - out, expiry - out)
  {
  }

  lemma ExpiryKeepsExact(s: State, cfg: Config, now: Time)
    requires Exact(s, cfg)
    ensures Exact(ExpireSection(s, now), cfg)
  {
    PoolAfterExpiry(s.sessions, s.pool, s.expiry, Expired(s, now));
    ShrinkingKeepsUnique(s, ExpireSection(s, now), cfg);
  }

  lemma CleanKeepsExact(s: State, cfg: Config, now: Time)
    requires Exact(s, cfg)
    ensures Exact(RunCleanup(s, cfg, now), cfg)
  {
    SweepKeepsExact(s, cfg, now);
    var gone := TimedOutSessions(s, cfg, now);
    var ips := set c | c in gone && c in s.sessions :: s.sessions[c].ip;
    ExpiryKeepsExact(UnrouteAll(SweepSection(s, cfg, now), gone, ips, now), cfg, now);
  }

  lemma DedupKeepsExact(s: State, cfg: Config, c: ClientId, number: u32)
    requires cfg.Valid() && Exact(s, cfg)
    ensures Exact(DedupSection(s, cfg, c, number).0, cfg)
  {
    SameSessionsKeepExact(s, DedupSection(s, cfg, c, number).0, cfg);
  }

  lemma SeenKeepsExact(s: State, cfg: Config, c: ClientId, from: Endpoint, now: Time)
    requires Exact(s, cfg) && c in s.sessions
    ensures Exact(SeenSection(s, c, from, now), cfg)
  {
    SameSessionsKeepExact(s, SeenSection(s, c, from, now), cfg);
  }

  lemma DataKeepsExact(s: State, cfg: Config, c: ClientId, number: u32, payload: seq<u8>, from: Endpoint, now: Time)
    requires cfg.Valid() && Exact(s, cfg)
    ensures Exact(HandleData(s, cfg, c, number, payload, from, now).0, cfg)
  {
    DedupKeepsExact(s, cfg, c, number);
    var s1 := DedupSection(s, cfg, c, number).0;
    if Accepts(s1, c, payload) {
      SeenKeepsExact(s1, cfg, c, from, now);
    }
  }

  lemma HandleKeepsExact(s: State, cfg: Config, e: Event)
    requires cfg.Valid() && Exact(s, cfg)
    ensures Exact(Handle(s, cfg, e).0, cfg)
  {
    match e
    case Beat(c, hb, from, now) => BeatKeepsExact(s, cfg, c, hb, from, now);
    case Data(c, number, payload, from, now) => DataKeepsExact(s, cfg, c, number, payload, from, now);
    case Clean(now) => CleanKeepsExact(s, cfg, now);
    case Kick(c) => KickKeepsExact(s, cfg, c);
  }

  lemma BeatKeepsWindows(s: State, cfg: Config, c: ClientId, hb: Heartbeat, from: Endpoint, now: Time)
    requires cfg.Valid()
    ensures RunHeartbeat(s, cfg, c, hb, from, now).windows == s.windows
  {
    if c !in s.sessions {
      assert AssignIp(s, cfg, c, hb).0.windows == s.windows;
    }
  }

  /** Every handler keeps the dedup windows at the configured size, whatever state the other tables are in. */
  lemma HandleKeepsWindows(s: State, cfg: Config, e: Event)
    requires cfg.Valid() && WindowsOk(s, cfg)
    ensures WindowsOk(Handle(s, cfg, e).0, cfg)
  {
    match e
    case Beat(c, hb, from, now) => BeatKeepsWindows(s, cfg, c, hb, from, now);
    case Data(c, number, _, _, _) =>
      assert Handle(s, cfg, e).0.windows == DedupSection(s, cfg, c, number).0.windows;
    case Clean(now) =>
      forall c | c in RunCleanup(s, cfg, now).windows
        ensures WindowFits(s, cfg, c) && WindowFits(RunCleanup(s, cfg, now), cfg, c)
      {
      }
    case Kick(c) =>
  }

  /** The state after a run of handlers. */
  function Run(s: State, cfg: Config, events: seq<Event>): (s': State)
    requires cfg.Valid() && WindowsOk(s, cfg)
    ensures WindowsOk(s', cfg)
    decreases |events|
  {
    if events == [] then s
    else
      HandleKeepsWindows(s, cfg, events[0]);
      Run(Handle(s, cfg, events[0]).0, cfg, events[1..])
  }

  lemma {:induction false} RunOneMore(s: State, cfg: Config, events: seq<Event>, e: Event)
    requires cfg.Valid() && WindowsOk(s, cfg)
    ensures Run(s, cfg, events + [e]) == Handle(Run(s, cfg, events), cfg, e).0
    decreases |events|
  {
    if events == [] {
      assert ([] + [e])[1..] == [];
      HandleKeepsWindows(s, cfg, e);
    } else {
      assert (events + [e])[1..] == events[1..] + [e];
      HandleKeepsWindows(s, cfg, events[0]);
      RunOneMore(Handle(s, cfg, events[0]).0, cfg, events[1..], e);
    }
  }

  /** In every run the route table is the inverse of the sessions' addresses, and the pool tables match them. */
  lemma {:induction false} EveryRunIsExact(s: State, cfg: Config, events: seq<Event>)
    requires cfg.Valid() && Exact(s, cfg)
    ensures Exact(Run(s, cfg, events), cfg)
    decreases |events|
  {
    if events != [] {
      HandleKeepsExact(s, cfg, events[0]);
      EveryRunIsExact(Handle(s, cfg, events[0]).0, cfg, events[1..]);
    }
  }

  /** The two directions of exactness as one statement about a single address. */
  lemma RouteIffHeld(s: State, cfg: Config, ip: Ip, c: ClientId)
    requires Exact(s, cfg) && ip != 0
    ensures ip in s.routes && s.routes[ip] == c <==> Live(s, c, ip)
  {
  }

  // ----- allocation never fails while the subnet has room -----

  lemma {:induction false} ValuesAtMostKeys<K, V>(m: map<K, V>)
    ensures |m.Values| <= |m|
    decreases |m|
  {
    if m.Keys == {} {
      assert m.Values == {};
    } else {
      var k :| k in m;
      var m' := m - {k};
      assert m.Keys == m'.Keys + {k};
      ValuesAtMostKeys(m');
      assert m.Values == m'.Values + {m[k]};
    }
  }

  lemma SessionIpsAtMostSessions(sessions: map<ClientId, Session>)
    ensures |SessionIps(sessions)| <= |sessions|
  {
    var ips := map c | c in sessions :: sessions[c].ip;
    assert ips.Keys == sessions.Keys;
    assert SessionIps(sessions) == ips.Values;
    ValuesAtMostKeys(ips);
  }

  lemma UnionAtMostSum<T>(a: set<T>, b: set<T>)
    ensures |a + b| <= |a| + |b|
  {
    assert a + b == a + (b - a);
    assert |b - a| <= |b| by {
      SubsetAtMost(b - a, b);
    }
  }

  lemma {:induction false} SubsetAtMost<T>(a: set<T>, b: set<T>)
    requires a <= b
    ensures |a| <= |b|
    decreases |a|
  {
    if a != {} {
      var x :| x in a;
      SubsetAtMost(a - {x}, b - {x});
    }
  }

  /** A new client gets an address as long as pool, sessions and the server leave one of the subnet's hosts. */
  lemma AllocationSucceeds(s: State, cfg: Config, c: ClientId)
    requires cfg.Valid() && c !in s.pool && cfg.subnet.Some?
    requires |s.pool| + |s.sessions| + 1 < HostCount(cfg.subnet.value)
    ensures AllocationFor(s, cfg, c).Some?
  {
    UsedAtMost(s, cfg);
    RoomLeft(UsedIps(s, cfg), cfg.subnet.value);
  }

  lemma RoomLeft(used: set<Ip>, subnet: Subnet)
    requires subnet.Valid() && |used| < HostCount(subnet)
    ensures LowestFree(used, subnet).Some?
  {
    LowestFreeIsCorrect(used, subnet);
  }

  lemma UsedAtMost(s: State, cfg: Config)
    ensures |UsedIps(s, cfg)| <= |s.pool| + |s.sessions| + 1
  {
    ValuesAtMostKeys(s.pool);
    SessionIpsAtMostSessions(s.sessions);
    UnionAtMostSum(s.pool.Values, SessionIps(s.sessions));
    UnionAtMostSum(s.pool.Values + SessionIps(s.sessions), {cfg.serverIp});
  }
}
