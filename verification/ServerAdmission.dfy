/** Who is admitted, what an admitted client is given, and where what the server knows about clients comes from. */
module ServerAdmission {
  import opened Words
  import opened Messages
  import opened ServerState
  import opened ServerAtomic
  import opened ServerInvariants
  import opened ServerTheorems
  import opened ServerSessions

  // ----- answers -----

  /** A heartbeat with a wrong team key changes nothing, and is answered with an error and no address. */
  lemma WrongKeyIsRefused(s: State, cfg: Config, c: ClientId, hb: Heartbeat, from: Endpoint, now: Time)
    requires cfg.Valid() && hb.teamKeyHash != cfg.teamKeyHash
    ensures HandleHeartbeat(s, cfg, c, hb, from, now) == (s, Some(HeartbeatAck(0, 0, 1, 1400)))
  {
  }

  /** A heartbeat of client 0 with the right key changes nothing, and is not answered. */
  lemma ClientZeroIsIgnored(s: State, cfg: Config, hb: Heartbeat, from: Endpoint, now: Time)
    requires cfg.Valid() && hb.teamKeyHash == cfg.teamKeyHash
    ensures HandleHeartbeat(s, cfg, 0, hb, from, now) == (s, None)
  {
  }

  /**
   A heartbeat is answered positively exactly if its key is right and its client is not client 0; the answer then names
   what the client's session holds.
   */
  lemma AdmittedIff(s: State, cfg: Config, c: ClientId, hb: Heartbeat, from: Endpoint, now: Time)
    requires cfg.Valid()
    ensures var (s', ack) := HandleHeartbeat(s, cfg, c, hb, from, now);
            && (ack.Some? && ack.value.status == 0 <==> hb.teamKeyHash == cfg.teamKeyHash && c != 0)
            && (ack.Some? && ack.value.status == 0 ==>
                  && c in s'.sessions
                  && ack.value == HeartbeatAck(s'.sessions[c].ip, s'.sessions[c].prefixLen, 0, 1400))
  {
    HeartbeatEnters(s, cfg, c, hb, from, now);
  }

  /** Packets that are too short, of another version or type, or whose heartbeat cannot be read, change nothing. */
  lemma OthersAreIgnored(s: State, cfg: Config, data: seq<u8>, from: Endpoint, now: Time)
    requires cfg.Valid() && WindowsOk(s, cfg)
    requires || |data| < 8
             || data[0] / 16 != 1
             || data[0] % 16 > 1
             || (data[0] % 16 == 1 && |data| < 24)
    ensures HandlePacket(s, cfg, data, from, now) == (s, Silent)
  {
  }

  // ----- what a client is given -----

  /** The address is the server's, or that of a session, or kept in the pool. */
  ghost predicate Taken(s: State, cfg: Config, ip: Ip) {
    || ip == cfg.serverIp
    || (exists d :: d in s.sessions && s.sessions[d].ip == ip)
    || (exists d :: d in s.pool && s.pool[d] == ip)
  }

  lemma UsedIffTaken(s: State, cfg: Config, ip: Ip)
    ensures ip in UsedIps(s, cfg) <==> Taken(s, cfg, ip)
  {
    if d :| d in s.sessions && s.sessions[d].ip == ip {
      assert s.sessions[d].ip in SessionIps(s.sessions);
    }
  }

  function Broadcast(subnet: Subnet): int
    requires subnet.ones <= 32
  {
    subnet.base + Pow2(32 - subnet.ones) - 1
  }

  /** The lowest address of the subnet that is not taken, strictly between network and broadcast address. */
  ghost predicate LowestNotTaken(s: State, cfg: Config, subnet: Subnet, ip: Ip)
    requires subnet.ones <= 32
  {
    && subnet.base < ip < Broadcast(subnet)
    && !Taken(s, cfg, ip)
    && forall x: Ip :: subnet.base < x < ip ==> Taken(s, cfg, x)
  }

  ghost predicate AllTaken(s: State, cfg: Config, subnet: Subnet)
    requires subnet.ones <= 32
  {
    forall x: Ip :: subnet.base < x < Broadcast(subnet) ==> Taken(s, cfg, x)
  }

  /** What a client without a session is given, told by what it asks for and what others claim. */
  ghost predicate Given(s: State, cfg: Config, c: ClientId, hb: Heartbeat, ip: Ip, prefixLen: u8)
    requires cfg.Valid()
  {
    if hb.virtualIp != 0 && FreeFor(s, cfg, c, hb.virtualIp) then ip == hb.virtualIp && prefixLen == hb.prefixLen
    else if c in s.pool then ip == s.pool[c] && prefixLen == cfg.prefixLen
    else if cfg.subnet.None? || AllTaken(s, cfg, cfg.subnet.value) then ip == 0 && prefixLen == hb.prefixLen
    else LowestNotTaken(s, cfg, cfg.subnet.value, ip) && prefixLen == cfg.prefixLen
  }

  lemma RangeTaken(s: State, cfg: Config, lo: int, hi: int)
    requires forall x: Ip :: lo < x < hi ==> x in UsedIps(s, cfg)
    ensures forall x: Ip :: lo < x < hi ==> Taken(s, cfg, x)
  {
    forall x: Ip | lo < x < hi
      ensures Taken(s, cfg, x)
    {
      UsedIffTaken(s, cfg, x);
    }
  }

  lemma ScanFinds(s: State, cfg: Config, subnet: Subnet)
    requires subnet.Valid() && LowestFree(UsedIps(s, cfg), subnet).Some?
    ensures var ip := LowestFree(UsedIps(s, cfg), subnet).value;
            0 <= ip < TWO32 && LowestNotTaken(s, cfg, subnet, ip)
  {
    var ip := LowestFree(UsedIps(s, cfg), subnet).value;
    LowestFreeIsCorrect(UsedIps(s, cfg), subnet);
    UsedIffTaken(s, cfg, ip);
    RangeTaken(s, cfg, subnet.base, ip);
  }

  lemma ScanFails(s: State, cfg: Config, subnet: Subnet)
    requires subnet.Valid() && LowestFree(UsedIps(s, cfg), subnet).None?
    ensures AllTaken(s, cfg, subnet)
  {
    NoneFree(UsedIps(s, cfg), subnet);
    RangeTaken(s, cfg, subnet.base, Broadcast(subnet));
  }

  lemma NoneFree(used: set<Ip>, subnet: Subnet)
    requires subnet.Valid() && LowestFree(used, subnet).None?
    ensures forall x: Ip :: subnet.base < x < Broadcast(subnet) ==> x in used
  {
    LowestFreeIsCorrect(used, subnet);
  }

  lemma NotAllTaken(s: State, cfg: Config, subnet: Subnet, ip: Ip)
    requires subnet.ones <= 32 && LowestNotTaken(s, cfg, subnet, ip)
    ensures !AllTaken(s, cfg, subnet)
  {
  }

  lemma AllocationGives(s: State, cfg: Config, c: ClientId)
    requires cfg.Valid() && c !in s.pool
    ensures var ip := AllocationFor(s, cfg, c);
            if cfg.subnet.None? || AllTaken(s, cfg, cfg.subnet.value) then ip == None
            else ip.Some? && LowestNotTaken(s, cfg, cfg.subnet.value, ip.value)
  {
    if cfg.subnet.Some? {
      var ip := AllocationFor(s, cfg, c);
      if ip.Some? {
        ScanFinds(s, cfg, cfg.subnet.value);
        NotAllTaken(s, cfg, cfg.subnet.value, ip.value);
      } else {
        ScanFails(s, cfg, cfg.subnet.value);
      }
    }
  }

  lemma AssignmentGives(s: State, cfg: Config, c: ClientId, hb: Heartbeat)
    requires cfg.Valid() && c !in s.sessions
    ensures var (s', ip, prefixLen) := AssignIp(s, cfg, c, hb);
            && Given(s, cfg, c, hb, ip, prefixLen)
            && s'.sessions == s.sessions
            && (c in s.pool ==> s'.pool == s.pool)
            && (c !in s.pool ==> s'.pool == s.pool || s'.pool == s.pool[c := ip])
            && (s'.expiry == s.expiry || s'.expiry == s.expiry - {c})
            && (ip == 0 ==> c !in s.pool ==> s'.pool == s.pool)
  {
    if c !in s.pool {
      AllocationGives(s, cfg, c);
    }
    assert FreeFor(s, cfg, c, hb.virtualIp)
           <==> !SessionConflict(s, cfg, c, hb.virtualIp) && !PoolConflict(s, c, hb.virtualIp);
  }

  /**
   A new client's session has the address it asked for if nobody else claims that; else the one kept for it; else the
   lowest of the subnet that is not taken; else none.  With an address the client is in the pool, under that address
   unless another was kept for it, and does not await expiry.  Nothing else about the pool changes.
   */
  lemma NewClientIsGiven(s: State, cfg: Config, c: ClientId, hb: Heartbeat, from: Endpoint, now: Time)
    requires cfg.Valid() && Exact(s, cfg) && c !in s.sessions
    ensures var s' := RunHeartbeat(s, cfg, c, hb, from, now);
            && c in s'.sessions
            && Given(s, cfg, c, hb, s'.sessions[c].ip, s'.sessions[c].prefixLen)
            && var ip := s'.sessions[c].ip;
               && s'.pool == (if ip == 0 || c in s.pool then s.pool else s.pool[c := ip])
               && s'.expiry == (if ip == 0 then s.expiry else s.expiry - {c})
               && s'.routes == (if ip == 0 then s.routes else s.routes[ip := c])
  {
    var (s1, ip, prefixLen) := AssignIp(s, cfg, c, hb);
    AssignmentGives(s, cfg, c, hb);
    NoAddressNoExpiry(s, cfg, c, hb);
    EntryGives(s1, c, ip, prefixLen, hb.deviceName, now);
    TouchGives(Enter(s1, c, ip, prefixLen, hb.deviceName, now), c, from, hb.path, now);
  }

  lemma EntryGives(s: State, c: ClientId, ip: Ip, prefixLen: u8, deviceName: seq<u8>, now: Time)
    ensures var s' := Enter(s, c, ip, prefixLen, deviceName, now);
            && c in s'.sessions && s'.sessions[c].ip == ip && s'.sessions[c].prefixLen == prefixLen
            && s'.pool == (if ip == 0 || c in s.pool then s.pool else s.pool[c := ip])
            && s'.expiry == (if ip == 0 then s.expiry else s.expiry - {c})
            && s'.routes == (if ip == 0 then s.routes else s.routes[ip := c])
  {
  }

  lemma TouchGives(s: State, c: ClientId, from: Endpoint, path: Option<PathStats>, now: Time)
    requires c in s.sessions
    ensures var s' := Touch(s, c, from, path, now);
            && c in s'.sessions
            && s'.sessions[c].ip == s.sessions[c].ip && s'.sessions[c].prefixLen == s.sessions[c].prefixLen
            && s'.pool == s.pool && s'.expiry == s.expiry && s'.routes == s.routes
  {
  }

  /** The tables after an assignment: only the pool entry and the expiry of the client can change. */
  lemma AssignmentTables(s: State, cfg: Config, c: ClientId, hb: Heartbeat)
    requires cfg.Valid() && c !in s.sessions
    ensures var (s', ip, _) := AssignIp(s, cfg, c, hb);
            && s'.routes == s.routes
            && (s'.expiry == s.expiry || (c in s.pool && ip == s.pool[c] && s'.expiry == s.expiry - {c}))
            && (s'.pool == s.pool || (c !in s.pool && ip > 0 && s'.pool == s.pool[c := ip]))
  {
    if c !in s.pool {
      AllocationGives(s, cfg, c);
    }
  }

  lemma RemoveTwice<K, V>(m: map<K, V>, k: K)
    ensures (m - {k}) - {k} == m - {k}
  {
  }

  /** A client that gets no address has no pool entry, and so awaits no expiry. */
  lemma NoAddressNoExpiry(s: State, cfg: Config, c: ClientId, hb: Heartbeat)
    requires cfg.Valid() && Exact(s, cfg) && c !in s.sessions
    ensures var (s', ip, _) := AssignIp(s, cfg, c, hb);
            && (ip == 0 ==> s'.pool == s.pool && s'.expiry == s.expiry)
            && (ip != 0 ==> s'.expiry - {c} == s.expiry - {c})
            && (ip != 0 ==> (if c in s'.pool then s'.pool else s'.pool[c := ip])
                            == if c in s.pool then s.pool else s.pool[c := ip])
            && s'.routes == s.routes
  {
    AssignmentTables(s, cfg, c, hb);
    RemoveTwice(s.expiry, c);
  }

  /** A heartbeat of a client with a session changes neither routes nor pool. */
  lemma KnownClientKeepsTables(s: State, cfg: Config, c: ClientId, hb: Heartbeat, from: Endpoint, now: Time)
    requires cfg.Valid() && c in s.sessions
    ensures var s' := RunHeartbeat(s, cfg, c, hb, from, now);
            s'.routes == s.routes && s'.pool == s.pool && s'.expiry == s.expiry && s'.windows == s.windows
  {
  }

  // ----- deletes -----

  /** A delete finds the client exactly if it has a session; then nothing is left of it, and nothing else changes. */
  lemma DeleteIsComplete(s: State, cfg: Config, c: ClientId)
    requires Exact(s, cfg)
    ensures var (s', found) := RunDelete(s, c);
            && (found <==> c in s.sessions)
            && (!found ==> s' == s)
            && (found ==>
                  && c !in s'.sessions && c !in s'.windows && c !in s'.pool && c !in s'.expiry
                  && (forall ip :: ip in s'.routes <==> ip in s.routes && s.routes[ip] != c)
                  && (forall ip :: ip in s'.routes ==> s'.routes[ip] == s.routes[ip])
                  && s'.sessions == s.sessions - {c} && s'.windows == s.windows - {c}
                  && s'.pool == s.pool - {c} && s'.expiry == s.expiry)
  {
  }

  // ----- where it comes from -----

  /** Event i is an accepted heartbeat of client c. */
  ghost predicate AdmittedAt(cfg: Config, events: seq<Event>, i: nat, c: ClientId) {
    i < |events| && events[i].Beat? && events[i].c == c && events[i].hb.teamKeyHash == cfg.teamKeyHash && c != 0
  }

  /** Event i is an accepted heartbeat or data packet of client c from `e` at time t. */
  ghost predicate HeardBy(s: State, cfg: Config, events: seq<Event>, i: nat, c: ClientId, e: Endpoint, t: Time)
    requires cfg.Valid() && WindowsOk(s, cfg)
  {
    && i < |events|
    && match events[i]
       case Beat(d, hb, from, now) => AdmittedAt(cfg, events, i, c) && from == e && now == t
       case Data(d, number, payload, from, now) =>
         d == c && from == e && now == t && Passes(Run(s, cfg, events[..i]), cfg, c, number, payload)
       case _ => false
  }

  /**
   Client c has sent an accepted heartbeat, and one from each address of its session, which was last heard from when the
   session says.
   */
  ghost predicate SessionTraced(s: State, cfg: Config, events: seq<Event>, c: ClientId, session: Session)
    requires cfg.Valid() && WindowsOk(s, cfg)
  {
    && (exists i: nat :: AdmittedAt(cfg, events, i, c))
    && (forall e :: e in session.addrs ==>
          && (exists i: nat :: AdmittedAt(cfg, events, i, c) && events[i].from == e)
          && (exists i: nat :: HeardBy(s, cfg, events, i, c, e, session.addrs[e].lastSeen)))
  }

  lemma StillAdmitted(cfg: Config, events: seq<Event>, e: Event, i: nat, c: ClientId)
    requires AdmittedAt(cfg, events, i, c)
    ensures AdmittedAt(cfg, events + [e], i, c) && (events + [e])[i] == events[i]
  {
  }

  lemma StillHeard(s: State, cfg: Config, events: seq<Event>, e: Event, i: nat, c: ClientId, at: Endpoint, t: Time)
    requires cfg.Valid() && WindowsOk(s, cfg) && HeardBy(s, cfg, events, i, c, at, t)
    ensures HeardBy(s, cfg, events + [e], i, c, at, t)
  {
    assert (events + [e])[..i] == events[..i] && (events + [e])[i] == events[i];
  }

  lemma StillTraced(s: State, cfg: Config, events: seq<Event>, e: Event, c: ClientId, session: Session)
    requires cfg.Valid() && WindowsOk(s, cfg) && SessionTraced(s, cfg, events, c, session)
    ensures SessionTraced(s, cfg, events + [e], c, session)
  {
    var i: nat :| AdmittedAt(cfg, events, i, c);
    StillAdmitted(cfg, events, e, i, c);
    forall at | at in session.addrs
      ensures exists j: nat :: AdmittedAt(cfg, events + [e], j, c) && (events + [e])[j].from == at
      ensures exists j: nat :: HeardBy(s, cfg, events + [e], j, c, at, session.addrs[at].lastSeen)
    {
      var j: nat :| AdmittedAt(cfg, events, j, c) && events[j].from == at;
      StillAdmitted(cfg, events, e, j, c);
      var k: nat :| HeardBy(s, cfg, events, k, c, at, session.addrs[at].lastSeen);
      StillHeard(s, cfg, events, e, k, c, at, session.addrs[at].lastSeen);
    }
  }

  lemma FewerAddrsTraced(s: State, cfg: Config, events: seq<Event>, c: ClientId, session: Session, session': Session)
    requires cfg.Valid() && WindowsOk(s, cfg) && SessionTraced(s, cfg, events, c, session)
    requires forall e :: e in session'.addrs ==> e in session.addrs && session'.addrs[e] == session.addrs[e]
    ensures SessionTraced(s, cfg, events, c, session')
  {
  }

  lemma BeatIsTraced(s: State, cfg: Config, events: seq<Event>, e: Event, c: ClientId)
    requires cfg.Valid() && WindowsOk(s, cfg) && e.Beat? && e.c == c && Accepted(cfg, c, e.hb)
    requires var s1 := Run(s, cfg, events);
             c in s1.sessions ==> SessionTraced(s, cfg, events, c, s1.sessions[c])
    ensures var s2 := RunHeartbeat(Run(s, cfg, events), cfg, c, e.hb, e.from, e.now);
            c in s2.sessions && SessionTraced(s, cfg, events + [e], c, s2.sessions[c])
  {
    var s1, all := Run(s, cfg, events), events + [e];
    BeatEffect(s1, cfg, c, e.hb, e.from, e.now);
    var session := RunHeartbeat(s1, cfg, c, e.hb, e.from, e.now).sessions[c];
    assert all[|events|] == e;
    assert AdmittedAt(cfg, all, |events|, c);
    if c in s1.sessions {
      StillTraced(s, cfg, events, e, c, s1.sessions[c]);
    }
    forall at | at in session.addrs
      ensures exists i: nat :: AdmittedAt(cfg, all, i, c) && all[i].from == at
      ensures exists i: nat :: HeardBy(s, cfg, all, i, c, at, session.addrs[at].lastSeen)
    {
      if at == e.from {
        assert HeardBy(s, cfg, all, |events|, c, at, e.now);
      }
    }
  }

  lemma DataIsTraced(s: State, cfg: Config, events: seq<Event>, e: Event)
    requires cfg.Valid() && WindowsOk(s, cfg) && e.Data?
    requires var s1 := Run(s, cfg, events);
             && Passes(s1, cfg, e.c, e.number, e.payload)
             && SessionTraced(s, cfg, events, e.c, s1.sessions[e.c])
    ensures var s2 := Handle(Run(s, cfg, events), cfg, e).0;
            e.c in s2.sessions && SessionTraced(s, cfg, events + [e], e.c, s2.sessions[e.c])
  {
    var s1, all := Run(s, cfg, events), events + [e];
    DataEffect(s1, cfg, e.c, e.number, e.payload, e.from, e.now);
    StillTraced(s, cfg, events, e, e.c, s1.sessions[e.c]);
    DataIsHeard(s, cfg, events, e);
    SeenIsTraced(s, cfg, all, e.c, s1.sessions[e.c], Handle(s1, cfg, e).0.sessions[e.c], e.from, e.now, |events|);
  }

  lemma DataIsHeard(s: State, cfg: Config, events: seq<Event>, e: Event)
    requires cfg.Valid() && WindowsOk(s, cfg) && e.Data?
    requires Passes(Run(s, cfg, events), cfg, e.c, e.number, e.payload)
    ensures HeardBy(s, cfg, events + [e], |events|, e.c, e.from, e.now)
  {
    assert (events + [e])[..|events|] == events && (events + [e])[|events|] == e;
  }

  lemma SeenIsTraced(s: State, cfg: Config, events: seq<Event>, c: ClientId, session: Session, session': Session,
                     from: Endpoint, now: Time, i: nat)
    requires cfg.Valid() && WindowsOk(s, cfg) && SessionTraced(s, cfg, events, c, session)
    requires SessionSeen(session, session', from, now) && HeardBy(s, cfg, events, i, c, from, now)
    ensures SessionTraced(s, cfg, events, c, session')
  {
    forall at | at in session'.addrs
      ensures exists j: nat :: HeardBy(s, cfg, events, j, c, at, session'.addrs[at].lastSeen)
    {
      assert at in session.addrs;
      if at != from {
        assert session'.addrs[at] == session.addrs[at];
      }
    }
  }

  lemma StepIsTraced(s: State, cfg: Config, events: seq<Event>, e: Event, c: ClientId)
    requires cfg.Valid() && WindowsOk(s, cfg)
    requires var s1 := Run(s, cfg, events);
             forall d :: d in s1.sessions ==> SessionTraced(s, cfg, events, d, s1.sessions[d])
    requires c in Handle(Run(s, cfg, events), cfg, e).0.sessions
    ensures SessionTraced(s, cfg, events + [e], c, Handle(Run(s, cfg, events), cfg, e).0.sessions[c])
  {
    var s1 := Run(s, cfg, events);
    match e
    case Beat(d, hb, from, now) =>
      if Accepted(cfg, d, hb) {
        BeatEffect(s1, cfg, d, hb, from, now);
        if d == c {
          BeatIsTraced(s, cfg, events, e, c);
        } else {
          StillTraced(s, cfg, events, e, c, s1.sessions[c]);
        }
      } else {
        StillTraced(s, cfg, events, e, c, s1.sessions[c]);
      }
    case Data(d, number, payload, from, now) =>
      DataEffect(s1, cfg, d, number, payload, from, now);
      if d == c && Passes(s1, cfg, d, number, payload) {
        DataIsTraced(s, cfg, events, e);
      } else {
        StillTraced(s, cfg, events, e, c, s1.sessions[c]);
      }
    case Clean(now) =>
      KeptAddressesIff(s1, cfg, c, now);
      StillTraced(s, cfg, events, e, c, s1.sessions[c]);
      FewerAddrsTraced(s, cfg, events + [e], c, s1.sessions[c], RunCleanup(s1, cfg, now).sessions[c]);
    case Kick(d) =>
      StillTraced(s, cfg, events, e, c, s1.sessions[c]);
  }

  /**
   In every run of a server that starts without sessions, every client with a session has sent a heartbeat with the
   right key under an id other than 0, and one from each address of its session; and each of these was last heard
   from, in an accepted packet, when the session says.
   */
  lemma {:induction false} EverySessionIsTraced(s: State, cfg: Config, events: seq<Event>, c: ClientId)
    requires cfg.Valid() && WindowsOk(s, cfg) && s.sessions == map[] && c in Run(s, cfg, events).sessions
    ensures SessionTraced(s, cfg, events, c, Run(s, cfg, events).sessions[c])
    decreases |events|
  {
    if events != [] {
      var past, e := events[..|events| - 1], events[|events| - 1];
      assert events == past + [e];
      RunOneMore(s, cfg, past, e);
      var s1 := Run(s, cfg, past);
      forall d | d in s1.sessions
        ensures SessionTraced(s, cfg, past, d, s1.sessions[d])
      {
        EverySessionIsTraced(s, cfg, past, d);
      }
      StepIsTraced(s, cfg, past, e, c);
    }
  }

  /**
   In every run of a server that starts without sessions, a packet handled right after a cleanup goes only to addresses
   from which an accepted packet of its recipient came within the address timeout before the cleanup.
   */
  lemma RecipientsAreRecent(s: State, cfg: Config, events: seq<Event>, now: Time, c: ClientId, number: u32,
                            payload: seq<u8>, from: Endpoint, later: Time, d: ClientId, to: set<Endpoint>, e: Endpoint)
    requires cfg.Valid() && Exact(s, cfg) && s.sessions == map[]
    requires var s1 := RunCleanup(Run(s, cfg, events), cfg, now);
             && WindowsOk(s1, cfg)
             && HandleData(s1, cfg, c, number, payload, from, later).1 == Forwarded(d, to)
             && e in to
    ensures exists i: nat, t :: HeardBy(s, cfg, events, i, d, e, t) && now - t <= cfg.addrTimeout
  {
    var s0 := Run(s, cfg, events);
    EveryRunIsExact(s, cfg, events);
    CleanKeepsExact(s0, cfg, now);
    ForwardedIff(RunCleanup(s0, cfg, now), cfg, c, number, payload, from, later, d, to);
    KeptAddressesIff(s0, cfg, d, now);
    EverySessionIsTraced(s, cfg, events, d);
    var i: nat :| HeardBy(s, cfg, events, i, d, e, s0.sessions[d].addrs[e].lastSeen);
  }
}
