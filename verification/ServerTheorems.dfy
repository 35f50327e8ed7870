/** Address stability and forwarding, over every run of uninterrupted handlers. */
module ServerTheorems {
  import opened Words
  import opened Messages
  import opened Window
  import opened ServerState
  import opened ServerAtomic
  import opened ServerInvariants

  // ----- address stability -----

  /**
   Client c has no session, and its address is kept: until the retention period after `since` is over, or for good, as
   after it has been loaded from the pool file.
   */
  ghost predicate Reserved(s: State, c: ClientId, ip: Ip, since: Option<Time>) {
    && c !in s.sessions
    && c in s.pool && s.pool[c] == ip
    && (if since.Some? then c in s.expiry && s.expiry[c] == since.value else c !in s.expiry)
  }

  /** The event is not an accepted heartbeat of client c, nor a cleanup more than 300 s after `since`. */
  predicate LeavesAlone(e: Event, cfg: Config, c: ClientId, since: Option<Time>) {
    match e
    case Beat(d, hb, _, _) => d != c || hb.teamKeyHash != cfg.teamKeyHash
    case Clean(now) => since.Some? ==> now - since.value <= 300 * SECOND
    case _ => true
  }

  lemma EntryKeepsReserved(s: State, c: ClientId, ip: Ip, since: Option<Time>, d: ClientId, entered: Ip, prefixLen: u8,
                           deviceName: seq<u8>, now: Time)
    requires Reserved(s, c, ip, since) && d != c
    ensures Reserved(Enter(s, d, entered, prefixLen, deviceName, now), c, ip, since)
  {
  }

  lemma AssignmentKeepsReserved(s: State, cfg: Config, c: ClientId, ip: Ip, since: Option<Time>, d: ClientId,
                                hb: Heartbeat)
    requires cfg.Valid() && Reserved(s, c, ip, since) && d != c
    ensures Reserved(AssignIp(s, cfg, d, hb).0, c, ip, since)
  {
  }

  lemma BeatKeepsReserved(s: State, cfg: Config, c: ClientId, ip: Ip, since: Option<Time>, d: ClientId, hb: Heartbeat,
                          from: Endpoint, now: Time)
    requires cfg.Valid() && Reserved(s, c, ip, since) && d != c
    ensures Reserved(RunHeartbeat(s, cfg, d, hb, from, now), c, ip, since)
  {
    if d !in s.sessions {
      AssignmentKeepsReserved(s, cfg, c, ip, since, d, hb);
      var (s1, entered, prefixLen) := AssignIp(s, cfg, d, hb);
      EntryKeepsReserved(s1, c, ip, since, d, entered, prefixLen, hb.deviceName, now);
    }
  }

  lemma CleanKeepsReserved(s: State, cfg: Config, c: ClientId, ip: Ip, since: Option<Time>, now: Time)
    requires Reserved(s, c, ip, since) && (since.Some? ==> now - since.value <= 300 * SECOND)
    ensures Reserved(RunCleanup(s, cfg, now), c, ip, since)
  {
    MarksAfterCleanup(s, cfg, c, now);
  }

  /** What a cleanup does to the mark of a client without a session: nothing. */
  lemma MarksAfterCleanup(s: State, cfg: Config, c: ClientId, now: Time)
    requires c !in s.sessions
    ensures var marks := MarkAll(s.expiry, s.pool.Keys, TimedOutSessions(s, cfg, now), now);
            (c in marks <==> c in s.expiry) && (c in marks ==> marks[c] == s.expiry[c])
  {
    assert c !in TimedOutSessions(s, cfg, now);
  }

  lemma DataKeepsReserved(s: State, cfg: Config, c: ClientId, ip: Ip, since: Option<Time>, d: ClientId, number: u32,
                          payload: seq<u8>, from: Endpoint, now: Time)
    requires cfg.Valid() && WindowFits(s, cfg, d) && Reserved(s, c, ip, since)
    ensures Reserved(HandleData(s, cfg, d, number, payload, from, now).0, c, ip, since)
  {
  }

  lemma KickKeepsReserved(s: State, c: ClientId, ip: Ip, since: Option<Time>, d: ClientId)
    requires Reserved(s, c, ip, since)
    ensures Reserved(RunDelete(s, d).0, c, ip, since)
  {
  }

  lemma HandleKeepsReserved(s: State, cfg: Config, c: ClientId, ip: Ip, since: Option<Time>, e: Event)
    requires cfg.Valid() && Exact(s, cfg) && Reserved(s, c, ip, since)
    requires LeavesAlone(e, cfg, c, since)
    ensures Reserved(Handle(s, cfg, e).0, c, ip, since)
  {
    match e
    case Beat(d, hb, from, now) =>
      if hb.teamKeyHash == cfg.teamKeyHash && d != 0 {
        BeatKeepsReserved(s, cfg, c, ip, since, d, hb, from, now);
      }
    case Data(d, number, payload, from, now) => DataKeepsReserved(s, cfg, c, ip, since, d, number, payload, from, now);
    case Clean(now) => CleanKeepsReserved(s, cfg, c, ip, since, now);
    case Kick(d) => KickKeepsReserved(s, c, ip, since, d);
  }

  lemma {:induction false} RunKeepsReserved(s: State, cfg: Config, c: ClientId, ip: Ip, since: Option<Time>,
                                          events: seq<Event>)
    requires cfg.Valid() && Exact(s, cfg) && Reserved(s, c, ip, since)
    requires forall e :: e in events ==> LeavesAlone(e, cfg, c, since)
    ensures Reserved(Run(s, cfg, events), c, ip, since)
    decreases |events|
  {
    if events != [] {
      assert events[0] in events;
      HandleKeepsExact(s, cfg, events[0]);
      HandleKeepsReserved(s, cfg, c, ip, since, events[0]);
      assert forall e :: e in events[1..] ==> e in events;
      RunKeepsReserved(Handle(s, cfg, events[0]).0, cfg, c, ip, since, events[1..]);
    }
  }

  /** The cleanup that removes a session reserves its pool address. */
  lemma TimeOutReserves(s: State, cfg: Config, c: ClientId, now: Time)
    requires c in TimedOutSessions(s, cfg, now) && c in s.pool
    ensures Reserved(RunCleanup(s, cfg, now), c, s.pool[c], Some(now))
  {
    var gone := TimedOutSessions(s, cfg, now);
    assert MarkAll(s.expiry, s.pool.Keys, gone, now)[c] == now;
  }

  /** A reserved address is given back to a client that asks for it or for any address. */
  lemma ReservedIsReturned(s: State, cfg: Config, c: ClientId, ip: Ip, since: Option<Time>, hb: Heartbeat,
                           from: Endpoint, now: Time)
    requires cfg.Valid() && Exact(s, cfg) && Reserved(s, c, ip, since) && (hb.virtualIp == 0 || hb.virtualIp == ip)
    ensures var s' := RunHeartbeat(s, cfg, c, hb, from, now);
            Live(s', c, ip) && c !in s'.expiry && c in s'.pool && s'.pool[c] == ip
  {
    if hb.virtualIp == ip {
      assert !SessionConflict(s, cfg, c, ip) && !PoolConflict(s, c, ip);
    }
  }

  /** Client c's pool address is c's alone, and c's next heartbeat for it, or for any address, gets it. */
  ghost predicate HeldFor(s: State, cfg: Config, c: ClientId, ip: Ip, hb: Heartbeat, from: Endpoint, now: Time)
    requires cfg.Valid()
  {
    && c in s.pool && s.pool[c] == ip
    && (forall d :: d in s.sessions ==> s.sessions[d].ip != ip)
    && (forall d :: d in s.pool && d != c ==> s.pool[d] != ip)
    && (hb.virtualIp == 0 || hb.virtualIp == ip ==>
          var s' := RunHeartbeat(s, cfg, c, hb, from, now);
          Live(s', c, ip) && c !in s'.expiry && c in s'.pool && s'.pool[c] == ip)
  }

  lemma ReservedIsHeld(s: State, cfg: Config, c: ClientId, ip: Ip, since: Option<Time>, hb: Heartbeat, from: Endpoint,
                       now: Time)
    requires cfg.Valid() && Exact(s, cfg) && Reserved(s, c, ip, since)
    ensures HeldFor(s, cfg, c, ip, hb, from, now)
  {
    ReservedIsExclusive(s, cfg, c, ip, since);
    if hb.virtualIp == 0 || hb.virtualIp == ip {
      ReservedIsReturned(s, cfg, c, ip, since, hb, from, now);
    }
  }

  /**
   After cleanup removes client c's session, c's pool address stays c's alone through the retention period of 300 s
   whatever happens to other clients, and c's next heartbeat gets it back.
   */
  lemma AddressStability(s: State, cfg: Config, c: ClientId, t0: Time, events: seq<Event>, hb: Heartbeat,
                         from: Endpoint, now: Time)
    requires cfg.Valid() && Exact(s, cfg) && c in TimedOutSessions(s, cfg, t0) && s.sessions[c].ip != 0
    requires forall e :: e in events ==> LeavesAlone(e, cfg, c, Some(t0))
    ensures c in s.pool
    ensures Exact(RunCleanup(s, cfg, t0), cfg)
    ensures HeldFor(Run(RunCleanup(s, cfg, t0), cfg, events), cfg, c, s.pool[c], hb, from, now)
  {
    CleanKeepsExact(s, cfg, t0);
    TimeOutReserves(s, cfg, c, t0);
    var s0 := RunCleanup(s, cfg, t0);
    RunKeepsReserved(s0, cfg, c, s.pool[c], Some(t0), events);
    EveryRunIsExact(s0, cfg, events);
    ReservedIsHeld(Run(s0, cfg, events), cfg, c, s.pool[c], Some(t0), hb, from, now);
  }

  /**
   The pool address of a client that has no session and does not await expiry, as when the pool has just been loaded, is
   kept for good, however long it takes until the client's next heartbeat.
   */
  lemma PooledAddressStability(s: State, cfg: Config, c: ClientId, events: seq<Event>, hb: Heartbeat, from: Endpoint,
                               now: Time)
    requires cfg.Valid() && Exact(s, cfg) && c !in s.sessions && c in s.pool && c !in s.expiry
    requires forall e :: e in events ==> LeavesAlone(e, cfg, c, None)
    ensures HeldFor(Run(s, cfg, events), cfg, c, s.pool[c], hb, from, now)
  {
    RunKeepsReserved(s, cfg, c, s.pool[c], None, events);
    EveryRunIsExact(s, cfg, events);
    ReservedIsHeld(Run(s, cfg, events), cfg, c, s.pool[c], None, hb, from, now);
  }

  lemma ReservedIsExclusive(s: State, cfg: Config, c: ClientId, ip: Ip, since: Option<Time>)
    requires Exact(s, cfg) && Reserved(s, c, ip, since)
    ensures forall d :: d in s.sessions ==> s.sessions[d].ip != ip
    ensures forall d :: d in s.pool && d != c ==> s.pool[d] != ip
  {
  }

  /** A cleanup gives up a reserved address exactly when it awaits expiry and more than 300 s have passed. */
  lemma ReleasedIffRetentionOver(s: State, cfg: Config, c: ClientId, ip: Ip, since: Option<Time>, now: Time)
    requires Exact(s, cfg) && Reserved(s, c, ip, since)
    ensures c !in RunCleanup(s, cfg, now).pool <==> since.Some? && now - since.value > 300 * SECOND
  {
    MarksAfterCleanup(s, cfg, c, now);
  }

  // ----- forwarding -----

  lemma RouteToIff(s: State, cfg: Config, dst: Ip, d: ClientId, to: set<Endpoint>)
    requires Exact(s, cfg)
    ensures RouteTo(s, dst) == Forwarded(d, to)
            <==> dst != 0 && Live(s, d, dst) && s.sessions[d].addrs != map[] && to == s.sessions[d].addrs.Keys
  {
    if dst != 0 {
      RouteIffHeld(s, cfg, dst, d);
    }
  }

  /**
   A data packet is forwarded to client d exactly when it is new, its inner source is its sender's address, its inner
   destination is not the server and is the address of d, and d has been heard from; it then goes to all of
   d's addresses.
   */
  lemma ForwardedIff(s: State, cfg: Config, c: ClientId, number: u32, payload: seq<u8>, from: Endpoint, now: Time,
                     d: ClientId, to: set<Endpoint>)
    requires cfg.Valid() && Exact(s, cfg)
    ensures HandleData(s, cfg, c, number, payload, from, now).1 == Forwarded(d, to)
            <==>
            && !RingStep(WindowOf(s.windows, c, cfg.window), number).1
            && IsIpv4(payload) && Live(s, c, SrcIp(payload))
            && DstIp(payload) != cfg.serverIp && DstIp(payload) != 0 && Live(s, d, DstIp(payload))
            && s.sessions[d].addrs != map[] && to == s.sessions[d].addrs.Keys
  {
    var (s1, dup) := DedupSection(s, cfg, c, number);
    var outcome := HandleData(s, cfg, c, number, payload, from, now).1;
    if dup || !Accepts(s1, c, payload) {
      assert outcome == Dropped;
    } else {
      RouteToIff(s, cfg, DstIp(payload), d, to);
      SeenKeepsRoute(s1, c, from, now, DstIp(payload));
      assert RouteTo(s1, DstIp(payload)) == RouteTo(s, DstIp(payload));
    }
  }

  /**
   A data packet is for the server's TUN device exactly when it is new, an IPv4 packet from its sender's address, and
   for the server's address, and there is such a device.
   */
  lemma ToTunIff(s: State, cfg: Config, c: ClientId, number: u32, payload: seq<u8>, from: Endpoint, now: Time)
    requires cfg.Valid() && WindowFits(s, cfg, c)
    ensures HandleData(s, cfg, c, number, payload, from, now).1 == ToTun
            <==>
            && !RingStep(WindowOf(s.windows, c, cfg.window), number).1
            && IsIpv4(payload) && Live(s, c, SrcIp(payload))
            && DstIp(payload) == cfg.serverIp && cfg.hasTun
  {
    var (s1, dup) := DedupSection(s, cfg, c, number);
    assert s1.sessions == s.sessions;
  }

  lemma SeenKeepsRoute(s: State, c: ClientId, from: Endpoint, now: Time, dst: Ip)
    requires c in s.sessions
    ensures RouteTo(SeenSection(s, c, from, now), dst) == RouteTo(s, dst)
  {
    SeenKeepsAddrs(s, c, from, now);
    var s' := SeenSection(s, c, from, now);
    assert forall d :: d in s.sessions ==> (s'.sessions[d].addrs == map[] <==> s'.sessions[d].addrs.Keys == {});
    assert forall d :: d in s.sessions ==> (s.sessions[d].addrs == map[] <==> s.sessions[d].addrs.Keys == {});
  }

  lemma SeenKeepsAddrs(s: State, c: ClientId, from: Endpoint, now: Time)
    requires c in s.sessions
    ensures var s' := SeenSection(s, c, from, now);
            s'.sessions.Keys == s.sessions.Keys
            && forall d :: d in s.sessions ==>
                 s'.sessions[d].addrs.Keys == s.sessions[d].addrs.Keys && s'.sessions[d].ip == s.sessions[d].ip
  {
  }
}
