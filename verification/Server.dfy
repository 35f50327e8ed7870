/** The relay server with its tables updated in place. */
module Server {
  import opened Words
  import opened Messages
  import opened Dedup
  import opened ServerState
  import opened ServerAtomic
  import opened Wire
  import opened WireCodec

  /** A connected client. */
  class SessionRecord {
    const clientId: ClientId
    const virtualIp: Ip
    const prefixLen: u8
    var deviceName: seq<u8>
    var addrs: map<Endpoint, AddrInfo>
    var lastSeen: Time

    ghost function View(): Session
      reads this
    {
      Session(virtualIp, prefixLen, deviceName, addrs, lastSeen)
    }

    constructor (c: ClientId, ip: Ip, prefixLen: u8, deviceName: seq<u8>, now: Time)
      ensures clientId == c && View() == NewSession(ip, prefixLen, deviceName, now)
    {
      clientId, virtualIp, this.prefixLen, this.deviceName := c, ip, prefixLen, deviceName;
      addrs, lastSeen := map[], now;
    }

    /** Refreshes an existing client's session on a heartbeat. */
    method Refresh(name: seq<u8>, now: Time)
      modifies this
      ensures View() == RefreshSession(old(View()), name, now)
    {
      lastSeen := now;
      if name != [] {
        deviceName := name;
      }
    }

    /** Removes the other addresses last used by the NIC called `name`. */
    method DropStale(from: Endpoint, name: seq<u8>)
      requires name != []
      modifies this`addrs
      ensures addrs == old(addrs) - set e | e in old(addrs) && e != from && old(addrs)[e].stats.name == name
    {
      var todo := addrs.Keys;
      ghost var was := addrs;
      while todo != {}
        invariant todo <= was.Keys
        invariant addrs == was - set e | e in was && e !in todo && e != from && was[e].stats.name == name
        decreases todo
      {
        var e :| e in todo;
        if e != from && addrs[e].stats.name == name {
          addrs := addrs - {e};
        }
        todo := todo - {e};
      }
    }

    /** Records the source address of a heartbeat and the figures of its NIC. */
    method TouchAddr(from: Endpoint, path: Option<PathStats>, now: Time)
      modifies this
      ensures View() == TouchSession(old(View()), from, path, now)
    {
      var info := if from in addrs then addrs[from].(lastSeen := now) else AddrInfo(now, NO_STATS);
      match path {
        case None =>
          addrs := addrs[from := info];
        case Some(p) =>
          addrs := addrs[from := info];
          ghost var was := old(addrs);
          if p.name != [] {
            DropStale(from, p.name);
          }
          addrs := addrs[from := info.(stats := p)];
          assert addrs == TouchAddrs(was, from, path, now);
      }
    }

    /** Removes the addresses not heard from within the timeout. */
    method Prune(cfg: Config, now: Time)
      modifies this`addrs
      ensures View() == PruneAddrs(old(View()), cfg, now)
    {
      var todo := addrs.Keys;
      ghost var was := addrs;
      while todo != {}
        invariant todo <= was.Keys
        invariant addrs == map e | e in was && (e in todo || now - was[e].lastSeen <= cfg.addrTimeout) :: was[e]
        decreases todo
      {
        var e :| e in todo;
        if now - addrs[e].lastSeen > cfg.addrTimeout {
          addrs := addrs - {e};
        }
        todo := todo - {e};
      }
    }

    /** Records that a data packet came from `from`. */
    method SawData(from: Endpoint, now: Time)
      modifies this
      ensures View() == old(View()).(
                addrs := if from in old(addrs) then old(addrs)[from := old(addrs)[from].(lastSeen := now)]
                         else old(addrs),
                lastSeen := now)
    {
      if from in addrs {
        addrs := addrs[from := addrs[from].(lastSeen := now)];
      }
      lastSeen := now;
    }
  }

  class Server {
    const cfg: Config
    var sessions: map<ClientId, SessionRecord>
    var routeTable: map<Ip, ClientId>
    var ipPool: map<ClientId, Ip>
    var ipPoolExpiry: map<ClientId, Time>
    const dedup: Deduplicator

    /** The sessions as values. */
    ghost var Sessions: map<ClientId, Session>

    /** Every session is filed under its own client. */
    ghost predicate Filed(c: ClientId)
      reads this, sessions.Values
      requires c in sessions
    {
      sessions[c].clientId == c && c in Sessions && sessions[c].View() == Sessions[c]
    }

    ghost predicate SessionsValid()
      reads this, sessions.Values
    {
      Sessions.Keys == sessions.Keys && forall c :: c in sessions ==> Filed(c)
    }

    ghost predicate Valid()
      reads this, sessions.Values, dedup, dedup.Owner.Keys
    {
      && cfg.Valid()
      && SessionsValid()
      && dedup.Valid()
      && dedup.windowSize == cfg.window
      && (this as object) !in dedup.Owner
      && (forall c :: c in sessions ==> (sessions[c] as object) !in dedup.Owner)
    }

    /** The tables as values. */
    ghost function View(): State
      reads this, dedup
    {
      State(Sessions, routeTable, ipPool, ipPoolExpiry, dedup.Windows)
    }

    /** A server with the pool it has loaded. */
    constructor (cfg: Config, pool: map<ClientId, Ip>)
      requires cfg.Valid()
      ensures View() == State(map[], map[], pool, map[], map[]) && this.cfg == cfg
      ensures Valid() <==> cfg.window <= TWO32 - 64
    {
      this.cfg := cfg;
      sessions, routeTable, ipPool, ipPoolExpiry := map[], map[], pool, map[];
      Sessions := map[];
      dedup := new Deduplicator(cfg.window);
      new;
      assert dedup.windowSize == cfg.window;
    }

    // ----- address allocation -----

    /** The requested address is the server's or another session's. */
    method HasSessionConflict(c: ClientId, ip: Ip) returns (conflict: bool)
      requires SessionsValid()
      ensures conflict == SessionConflict(View(), cfg, c, ip)
    {
      if ip == cfg.serverIp {
        return true;
      }
      var todo := sessions.Keys;
      while todo != {}
        invariant todo <= sessions.Keys
        invariant forall d :: d in sessions && d !in todo && d != c ==> Sessions[d].ip != ip
        decreases todo
      {
        var d :| d in todo;
        assert Filed(d);
        if d != c && sessions[d].virtualIp == ip {
          return true;
        }
        todo := todo - {d};
      }
      return false;
    }

    /** The requested address is kept in the pool for another client. */
    method HasPoolConflict(c: ClientId, ip: Ip) returns (conflict: bool)
      ensures conflict == PoolConflict(View(), c, ip)
    {
      var todo := ipPool.Keys;
      while todo != {}
        invariant todo <= ipPool.Keys
        invariant forall d :: d in ipPool && d !in todo && d != c ==> ipPool[d] != ip
        decreases todo
      {
        var d :| d in todo;
        if d != c && ipPool[d] == ip {
          return true;
        }
        todo := todo - {d};
      }
      return false;
    }

    /** The addresses of the active sessions. */
    method CollectSessionIps() returns (ips: set<Ip>)
      requires SessionsValid()
      ensures ips == SessionIps(Sessions)
    {
      ips := {};
      var todo := sessions.Keys;
      while todo != {}
        invariant todo <= sessions.Keys
        invariant ips == set c | c in Sessions && c !in todo :: Sessions[c].ip
        decreases todo
      {
        var c :| c in todo;
        assert Filed(c);
        ips := ips + {sessions[c].virtualIp};
        todo := todo - {c};
      }
    }

    /** Every address in use: pooled, held by a session, or the server's. */
    method CollectUsed(sessionIps: set<Ip>) returns (used: set<Ip>)
      ensures used == ipPool.Values + sessionIps + {cfg.serverIp}
    {
      used := {};
      var todo := ipPool.Keys;
      while todo != {}
        invariant todo <= ipPool.Keys
        invariant used == set c | c in ipPool && c !in todo :: ipPool[c]
        decreases todo
      {
        var c :| c in todo;
        used := used + {ipPool[c]};
        todo := todo - {c};
      }
      assert used == ipPool.Values;
      used := used + sessionIps + {cfg.serverIp};
    }

    /** Scans the host addresses of the subnet upwards for one that is not in use. */
    method ScanSubnet(used: set<Ip>, subnet: Subnet) returns (ip: Option<Ip>)
      requires subnet.Valid()
      ensures ip == LowestFree(used, subnet)
    {
      SubnetFits(subnet);
      var maxHosts := MaxHosts(32 - subnet.ones);
      var offset := 1;
      while offset < maxHosts
        invariant 1 <= offset && (offset <= maxHosts || maxHosts <= 1)
        invariant maxHosts > 1 ==> LowestFree(used, subnet) == FirstFree(used, subnet.base, offset, maxHosts)
        decreases maxHosts as int - offset as int
      {
        var candidate: u32 := subnet.base + offset;
        if candidate !in used {
          return Some(candidate);
        }
        offset := offset + 1;
      }
      return None;
    }

    /** `(uint32(1) << hostBits) - 1`: a shift by 32 gives 0, and the subtraction wraps around. */
    method MaxHosts(hostBits: nat) returns (m: u32)
      requires hostBits <= 32
      ensures m == Pow2(hostBits) - 1
    {
      Pow2Of32();
      if hostBits < 32 {
        Pow2Grows(hostBits, 32);
      }
      var shifted := if hostBits == 32 then 0 else Pow2(hostBits);
      m := (shifted + TWO32 - 1) % TWO32;
    }

    /** Gives client c its pool address, or a new one, or none if the subnet is full. */
    method AllocateIp(c: ClientId, sessionIps: set<Ip>) returns (ip: Option<Ip>)
      requires cfg.Valid() && sessionIps == SessionIps(Sessions)
      modifies this`ipPool, this`ipPoolExpiry
      ensures (View(), ip) == AllocateSection(old(View()), cfg, c)
    {
      if c in ipPool {
        ipPoolExpiry := ipPoolExpiry - {c};
        return Some(ipPool[c]);
      }
      if cfg.subnet.None? {
        return None;
      }
      var used := CollectUsed(sessionIps);
      ip := ScanSubnet(used, cfg.subnet.value);
      if ip.Some? {
        ipPool := ipPool[c := ip.value];
      }
    }

    // ----- heartbeats -----

    /** The address for a client without a session: the requested one if nobody else claims it, or an allocated one. */
    method ChooseIp(c: ClientId, hb: Heartbeat) returns (ip: Ip, prefixLen: u8)
      requires cfg.Valid() && SessionsValid()
      modifies this`ipPool, this`ipPoolExpiry
      ensures (View(), ip, prefixLen) == AssignIp(old(View()), cfg, c, hb)
    {
      ip, prefixLen := hb.virtualIp, hb.prefixLen;
      if ip != 0 {
        var conflict := HasSessionConflict(c, ip);
        if !conflict {
          conflict := HasPoolConflict(c, ip);
        }
        if conflict {
          ip := 0;
        }
      }
      if ip == 0 {
        var sessionIps := CollectSessionIps();
        var given := AllocateIp(c, sessionIps);
        if given.Some? {
          ip, prefixLen := given.value, cfg.prefixLen;
        }
      }
    }

    /** Files a new session. */
    method FileSession(c: ClientId, ip: Ip, prefixLen: u8, deviceName: seq<u8>, now: Time)
      requires Valid() && c !in sessions
      modifies this`sessions, this`Sessions
      ensures Valid() && c in sessions
      ensures View() == InsertSession(old(View()), c, NewSession(ip, prefixLen, deviceName, now))
      ensures fresh(sessions.Values - old(sessions.Values))
    {
      var session := new SessionRecord(c, ip, prefixLen, deviceName, now);
      sessions, Sessions := sessions[c := session], Sessions[c := session.View()];
      OnlyAdded(c);
      assert sessions.Values <= old(sessions.Values) + {session};
    }

    /** Filing a new record leaves the other sessions alone. */
    twostate lemma OnlyAdded(c: ClientId)
      requires old(Valid()) && c in sessions && fresh(sessions[c])
      requires sessions == old(sessions)[c := sessions[c]] && Sessions == old(Sessions)[c := sessions[c].View()]
      requires sessions[c].clientId == c && unchanged(dedup) && unchanged(dedup.Owner.Keys)
      requires forall d :: d in old(sessions) ==> unchanged(old(sessions)[d])
      ensures Valid()
    {
      forall d | d in sessions
        ensures Filed(d) && (sessions[d] as object) !in dedup.Owner
      {
        if d != c {
          assert old(Filed(d));
        }
      }
    }

    /** Enters the route and the pool entry of a new session that has an address. */
    method EnterTables(c: ClientId, ip: Ip)
      requires Valid()
      modifies this`routeTable, this`ipPool, this`ipPoolExpiry
      ensures Valid()
      ensures View() == if ip == 0 then old(View()) else PoolSection(RouteSection(old(View()), c, ip), c, ip)
    {
      if ip != 0 {
        routeTable := routeTable[ip := c];
        ipPoolExpiry := ipPoolExpiry - {c};
        if c !in ipPool {
          ipPool := ipPool[c := ip];
        }
      }
    }

    /** A change of one session's record, with the ghost copy brought up to date. */
    twostate lemma OnlyChanged(c: ClientId)
      requires old(Valid()) && c in sessions && sessions == old(sessions)
      requires dedup.Owner == old(dedup.Owner) && dedup.Valid()
      requires forall d :: d in sessions && d != c ==> unchanged(sessions[d])
      requires sessions[c].clientId == c && Sessions == old(Sessions)[c := sessions[c].View()]
      ensures Valid()
    {
      forall d | d in sessions
        ensures Filed(d)
      {
        assert old(Filed(d));
      }
    }

    method RefreshKnown(c: ClientId, deviceName: seq<u8>, now: Time)
      requires Valid() && c in sessions
      modifies sessions[c], this`Sessions
      ensures Valid() && sessions == old(sessions)
      ensures View() == InsertSession(old(View()), c, RefreshSession(old(Sessions)[c], deviceName, now))
    {
      assert Filed(c);
      sessions[c].Refresh(deviceName, now);
      Sessions := Sessions[c := sessions[c].View()];
      OthersApart(c);
      OnlyChanged(c);
    }

    /** No two clients share a session record. */
    twostate lemma OthersApart(c: ClientId)
      requires old(Valid()) && c in old(sessions)
      ensures forall d :: d in old(sessions) && d != c ==> old(sessions)[d] != old(sessions)[c]
    {
      assert old(Filed(c));
      forall d | d in old(sessions) && d != c
        ensures old(sessions)[d] != old(sessions)[c]
      {
        assert old(Filed(d));
      }
    }

    method TouchKnown(c: ClientId, from: Endpoint, path: Option<PathStats>, now: Time)
      requires Valid() && c in sessions
      modifies sessions[c], this`Sessions
      ensures Valid() && sessions == old(sessions)
      ensures View() == Touch(old(View()), c, from, path, now)
    {
      assert Filed(c);
      sessions[c].TouchAddr(from, path, now);
      Sessions := Sessions[c := sessions[c].View()];
      OthersApart(c);
      OnlyChanged(c);
    }

    method RegisterNew(c: ClientId, hb: Heartbeat, now: Time)
      requires Valid() && c !in sessions
      modifies this`sessions, this`Sessions, this`routeTable, this`ipPool, this`ipPoolExpiry
      ensures Valid() && c in sessions
      ensures fresh(sessions.Values - old(sessions.Values))
      ensures View() == Admitted(old(View()), cfg, c, hb, now)
    {
      var ip, prefixLen := ChooseIp(c, hb);
      FileSession(c, ip, prefixLen, hb.deviceName, now);
      EnterTables(c, ip);
    }

    /** Finds or makes the session of client c, which is then refreshed or registered. */
    method Admit(c: ClientId, hb: Heartbeat, now: Time)
      requires Valid()
      modifies this`sessions, this`Sessions, this`routeTable, this`ipPool, this`ipPoolExpiry, sessions.Values
      ensures Valid() && c in sessions
      ensures fresh(sessions.Values - old(sessions.Values))
      ensures View() == Admitted(old(View()), cfg, c, hb, now)
    {
      if c in sessions {
        RefreshKnown(c, hb.deviceName, now);
      } else {
        RegisterNew(c, hb, now);
      }
    }

    /** Processes a heartbeat; the answer is sent back to its source. */
    method HandleHeartbeat(c: ClientId, hb: Heartbeat, from: Endpoint, now: Time) returns (ack: Option<HeartbeatAck>)
      requires Valid()
      modifies this`sessions, this`Sessions, this`routeTable, this`ipPool, this`ipPoolExpiry, sessions.Values
      ensures Valid() && fresh(sessions.Values - old(sessions.Values))
      ensures (View(), ack) == ServerAtomic.HandleHeartbeat(old(View()), cfg, c, hb, from, now)
    {
      if hb.teamKeyHash != cfg.teamKeyHash {
        return Some(HeartbeatAck(0, 0, ACK_STATUS_BAD_TEAM_KEY, MTU));
      }
      if c == 0 {
        return None;
      }
      Admit(c, hb, now);
      TouchKnown(c, from, hb.path, now);
      assert Filed(c);
      ack := Some(HeartbeatAck(sessions[c].virtualIp, sessions[c].prefixLen, ACK_STATUS_OK, MTU));
    }

    // ----- data -----

    /** The inner packet comes from the address registered for its sender. */
    method SourceIsRegistered(c: ClientId, payload: seq<u8>) returns (ok: bool)
      requires Valid()
      ensures ok == Accepts(View(), c, payload)
    {
      if c !in sessions {
        return false;
      }
      if |payload| < 20 || payload[0] / 16 != 4 {
        return false;
      }
      assert Filed(c);
      ok := Word32(payload, 12) == sessions[c].virtualIp;
    }

    method SawKnown(c: ClientId, from: Endpoint, now: Time)
      requires Valid() && c in sessions
      modifies sessions[c], this`Sessions
      ensures Valid() && sessions == old(sessions)
      ensures View() == SeenSection(old(View()), c, from, now)
    {
      assert Filed(c);
      sessions[c].SawData(from, now);
      Sessions := Sessions[c := sessions[c].View()];
      OthersApart(c);
      OnlyChanged(c);
    }

    /** Looks up where a packet for `dst` goes; sendToClient then writes one copy to each address. */
    method LookUp(dst: Ip) returns (outcome: Outcome)
      requires Valid()
      ensures outcome == RouteTo(View(), dst)
    {
      if dst !in routeTable {
        return Dropped;
      }
      var d := routeTable[dst];
      if d !in sessions {
        return Dropped;
      }
      assert Filed(d);
      if |sessions[d].addrs| == 0 {
        return Dropped;
      }
      outcome := Forwarded(d, sessions[d].addrs.Keys);
    }

    lemma WindowsFit(c: ClientId)
      requires Valid()
      ensures WindowFits(View(), cfg, c)
    {
      if c in dedup.Windows {
        assert dedup.Owns(c);
      }
    }

    /** The dedup section of a data packet. */
    method Deduplicate(c: ClientId, number: u32) returns (dup: bool)
      requires Valid()
      modifies dedup.Repr()
      ensures Valid() && WindowFits(old(View()), cfg, c)
      ensures fresh(dedup.Repr() - old(dedup.Repr()))
      ensures (View(), dup) == DedupSection(old(View()), cfg, c, number)
      ensures sessions == old(sessions)
    {
      WindowsFit(c);
      dup := dedup.IsDuplicate(c, number);
      forall d | d in sessions
        ensures Filed(d) && (sessions[d] as object) !in dedup.Owner
      {
        assert old(Filed(d));
      }
    }

    /** Sends on a packet that has been accepted. */
    method Relay(c: ClientId, payload: seq<u8>, from: Endpoint, now: Time) returns (outcome: Outcome)
      requires Valid() && Accepts(View(), c, payload)
      modifies this`Sessions, sessions.Values
      ensures Valid()
      ensures View() == SeenSection(old(View()), c, from, now)
      ensures outcome == if DstIp(payload) != cfg.serverIp then RouteTo(View(), DstIp(payload))
                         else if cfg.hasTun then ToTun else Dropped
    {
      SawKnown(c, from, now);
      var dst := Word32(payload, 16);
      if dst == cfg.serverIp {
        return if cfg.hasTun then ToTun else Dropped;
      }
      outcome := LookUp(dst);
    }

    method HandleData(c: ClientId, number: u32, payload: seq<u8>, from: Endpoint, now: Time) returns (outcome: Outcome)
      requires Valid()
      modifies this`Sessions, sessions.Values, dedup.Repr()
      ensures Valid() && WindowFits(old(View()), cfg, c)
      ensures (View(), outcome) == ServerAtomic.HandleData(old(View()), cfg, c, number, payload, from, now)
    {
      var dup := Deduplicate(c, number);
      if dup {
        return Dropped;
      }
      var ok := SourceIsRegistered(c, payload);
      if !ok {
        return Dropped;
      }
      outcome := Relay(c, payload, from, now);
    }

    // ----- packets -----

    method ReceiveHeartbeat(c: ClientId, payload: seq<u8>, from: Endpoint, now: Time) returns (reply: Reply)
      requires Valid()
      modifies this`sessions, this`Sessions, this`routeTable, this`ipPool, this`ipPoolExpiry, sessions.Values
      ensures Valid() && fresh(sessions.Values - old(sessions.Values))
      ensures (View(), reply) == HandleHeartbeatPayload(old(View()), cfg, c, payload, from, now)
    {
      var r := ReadHeartbeat(payload);
      if r.Err? {
        return Silent;
      }
      var ack := HandleHeartbeat(c, r.value, from, now);
      reply := if ack.Some? then Answered(ack.value) else Silent;
    }

    /** Processes a UDP packet. */
    method HandlePacket(data: seq<u8>, from: Endpoint, now: Time) returns (reply: Reply)
      requires Valid()
      modifies this`sessions, this`Sessions, this`routeTable, this`ipPool, this`ipPoolExpiry, sessions.Values,
          dedup.Repr()
      ensures Valid() && WindowsOk(old(View()), cfg)
      ensures (View(), reply) == ServerAtomic.HandlePacket(old(View()), cfg, data, from, now)
    {
      forall c | c in dedup.Windows
        ensures WindowFits(View(), cfg, c)
      {
        WindowsFit(c);
      }
      var header := DecodeHeader(data);
      if header.Err? {
        return Silent;
      }
      var h, payload := header.value, data[HEADER_SIZE..];
      if h.kind == TYPE_HEARTBEAT {
        reply := ReceiveHeartbeat(h.clientId, payload, from, now);
      } else if h.kind == TYPE_DATA {
        var outcome := HandleData(h.clientId, h.number, payload, from, now);
        reply := Relayed(outcome);
      } else {
        reply := Silent;
      }
    }

    // ----- removal -----

    /** Drops client c's dedup window. */
    method ResetWindow(c: ClientId)
      requires Valid()
      modifies dedup
      ensures Valid() && View() == ResetSection(old(View()), c)
      ensures dedup.Repr() == old(dedup.Repr())
    {
      dedup.Reset(c);
      forall d | d in sessions
        ensures Filed(d)
      {
        assert old(Filed(d));
      }
    }

    /** Drops the route, the dedup window and the pool entry of a removed client. */
    method ForgetClient(c: ClientId, ip: Ip)
      requires Valid()
      modifies this`routeTable, this`ipPool, dedup
      ensures Valid()
      ensures View() == ForgetSection(ResetSection(UnrouteSection(old(View()), ip), c), c)
    {
      routeTable := routeTable - {ip};
      ResetWindow(c);
      ipPool := ipPool - {c};
    }

    /** Removes a client through the web interface; false if it has no session. */
    method DeleteClient(c: ClientId) returns (found: bool)
      requires Valid()
      modifies this`sessions, this`Sessions, this`routeTable, this`ipPool, dedup
      ensures Valid()
      ensures (View(), found) == RunDelete(old(View()), c)
    {
      if c !in sessions {
        return false;
      }
      assert Filed(c);
      var ip := sessions[c].virtualIp;
      RemoveRecord(c);
      ForgetClient(c, ip);
      return true;
    }

    // ----- cleanup -----

    method PruneKnown(c: ClientId, now: Time)
      requires Valid() && c in sessions
      modifies sessions[c], this`Sessions
      ensures Valid() && Sessions == old(Sessions)[c := PruneAddrs(old(Sessions)[c], cfg, now)]
    {
      assert Filed(c);
      sessions[c].Prune(cfg, now);
      Sessions := Sessions[c := sessions[c].View()];
      OthersApart(c);
      OnlyChanged(c);
    }

    /** Prunes the addresses of one session, and removes the session if it has timed out. */
    method SweepSession(c: ClientId, now: Time) returns (out: Option<(ClientId, Ip)>)
      requires Valid() && c in sessions
      modifies sessions[c], this`sessions, this`Sessions
      ensures Valid()
      ensures var timedOut := TimedOut(old(Sessions)[c], cfg, now);
              && out == (if timedOut then Some((c, old(Sessions)[c].ip)) else None)
              && sessions == (if timedOut then old(sessions) - {c} else old(sessions))
              && Sessions == if timedOut then old(Sessions) - {c}
                             else old(Sessions)[c := PruneAddrs(old(Sessions)[c], cfg, now)]
    {
      PruneKnown(c, now);
      assert Filed(c);
      if |sessions[c].addrs| == 0 && now - sessions[c].lastSeen > cfg.clientTimeout {
        out := Some((c, sessions[c].virtualIp));
        RemoveUpdated(old(Sessions), c, Sessions[c]);
        RemoveRecord(c);
      } else {
        out := None;
      }
    }

    method RemoveRecord(c: ClientId)
      requires Valid() && c in sessions
      modifies this`sessions, this`Sessions
      ensures Valid() && sessions == old(sessions) - {c} && Sessions == old(Sessions) - {c}
    {
      sessions, Sessions := sessions - {c}, Sessions - {c};
      forall d | d in sessions
        ensures Filed(d)
      {
        assert old(Filed(d));
      }
    }

    /** The sessions section of cleanup; the removed sessions are returned with their addresses. */
    method Sweep(now: Time) returns (gone: seq<(ClientId, Ip)>)
      requires Valid()
      modifies sessions.Values, this`sessions, this`Sessions
      ensures Valid()
      ensures View() == SweepSection(old(View()), cfg, now)
      ensures First(gone) == TimedOutSessions(old(View()), cfg, now)
      ensures Second(gone) == set c | c in First(gone) && c in old(Sessions) :: old(Sessions)[c].ip
    {
      gone := [];
      ghost var was := Sessions;
      var todo := sessions.Keys;
      while todo != {}
        invariant Valid() && sessions.Values <= old(sessions.Values)
        invariant todo <= sessions.Keys && todo <= was.Keys
        invariant Sessions == PartlySwept(was, todo, cfg, now)
        invariant Listed(was, todo, cfg, now, gone)
        decreases todo
      {
        var c :| c in todo;
        assert Sessions[c] == was[c];
        var out := SweepSession(c, now);
        SweptMore(was, todo, cfg, now, c);
        ListedMore(was, todo, cfg, now, gone, c);
        if out.Some? {
          gone := gone + [out.value];
        }
        todo := todo - {c};
      }
      SweptAll(old(View()), cfg, now, gone);
    }

    /** The route, dedup and pool sections for each removed session. */
    method FinishRemovals(gone: seq<(ClientId, Ip)>, now: Time)
      requires Valid()
      modifies this`routeTable, this`ipPool, this`ipPoolExpiry, dedup
      ensures Valid()
      ensures View() == AfterSweep(old(View()), gone, now)
    {
      var i := 0;
      while i < |gone|
        invariant 0 <= i <= |gone|
        invariant Valid() && dedup.Repr() == old(dedup.Repr())
        invariant AfterSweep(View(), gone[i..], now) == AfterSweep(old(View()), gone, now)
      {
        FinishRemoval(gone[i].0, gone[i].1, now);
        assert gone[i..][1..] == gone[i + 1..];
        i := i + 1;
      }
      assert gone[i..] == [];
      ExpirePool(now);
    }

    method FinishRemoval(c: ClientId, ip: Ip, now: Time)
      requires Valid()
      modifies this`routeTable, this`ipPoolExpiry, dedup
      ensures Valid() && dedup.Repr() == old(dedup.Repr())
      ensures View() == SweepOne(old(View()), c, ip, now)
    {
      routeTable := routeTable - {ip};
      ResetWindow(c);
      if c in ipPool {
        ipPoolExpiry := ipPoolExpiry[c := now];
      }
    }

    /** The pool section that ends a cleanup. */
    method ExpirePool(now: Time)
      requires Valid()
      modifies this`ipPool, this`ipPoolExpiry
      ensures Valid() && View() == ExpireSection(old(View()), now)
    {
      DropExpired(now);
    }

    /** Drops the pool entries whose retention is over. */
    method DropExpired(now: Time)
      modifies this`ipPool, this`ipPoolExpiry
      ensures View() == ExpireSection(old(View()), now)
    {
      ghost var was, out := View(), {};
      var todo := ipPoolExpiry.Keys;
      while todo != {}
        invariant todo <= ipPoolExpiry.Keys
        invariant out == set c | c in was.expiry && c !in todo && now - was.expiry[c] > IP_POOL_RETENTION
        invariant ipPool == was.pool - out && ipPoolExpiry == was.expiry - out
        decreases todo
      {
        var c :| c in todo;
        if now - ipPoolExpiry[c] > IP_POOL_RETENTION {
          RemoveOneLast(ipPool, was.pool, out, c);
          RemoveOneLast(ipPoolExpiry, was.expiry, out, c);
          ipPool, ipPoolExpiry := ipPool - {c}, ipPoolExpiry - {c};
          out := out + {c};
        }
        todo := todo - {c};
      }
      assert out == Expired(was, now);
    }

    method Cleanup(now: Time)
      requires Valid()
      modifies this`sessions, this`Sessions, this`routeTable, this`ipPool, this`ipPoolExpiry, sessions.Values, dedup
      ensures Valid()
      ensures View() == RunCleanup(old(View()), cfg, now)
    {
      var gone := Sweep(now);
      AfterSweepAll(View(), gone, now);
      FinishRemovals(gone, now);
    }
  }

  // ----- a sweep in progress -----

  /** The sessions when all but those of `todo` have been visited. */
  ghost function PartlySwept(was: map<ClientId, Session>, todo: set<ClientId>, cfg: Config, now: Time)
    : map<ClientId, Session>
  {
    map c | c in was && (c in todo || !TimedOut(was[c], cfg, now)) :: if c in todo then was[c]
        else PruneAddrs(was[c], cfg, now)
  }

  ghost function SweptOut(was: map<ClientId, Session>, todo: set<ClientId>, cfg: Config, now: Time): set<ClientId> {
    set c | c in was && c !in todo && TimedOut(was[c], cfg, now)
  }

  /** The removed sessions so far are listed with their addresses. */
  ghost predicate Listed(was: map<ClientId, Session>, todo: set<ClientId>, cfg: Config, now: Time,
                         gone: seq<(ClientId, Ip)>)
  {
    && First(gone) == SweptOut(was, todo, cfg, now)
    && Second(gone) == set c | c in SweptOut(was, todo, cfg, now) && c in was :: was[c].ip
  }

  lemma ListedMore(was: map<ClientId, Session>, todo: set<ClientId>, cfg: Config, now: Time, gone: seq<(ClientId, Ip)>,
                   c: ClientId)
    requires c in todo && c in was && Listed(was, todo, cfg, now, gone)
    ensures if TimedOut(was[c], cfg, now) then Listed(was, todo - {c}, cfg, now, gone + [(c, was[c].ip)])
            else Listed(was, todo - {c}, cfg, now, gone)
  {
    var out := SweptOut(was, todo, cfg, now);
    if TimedOut(was[c], cfg, now) {
      assert SweptOut(was, todo - {c}, cfg, now) == out + {c};
      AppendFirstSecond(gone, (c, was[c].ip));
    } else {
      assert SweptOut(was, todo - {c}, cfg, now) == out;
    }
  }

  lemma SweptMore(was: map<ClientId, Session>, todo: set<ClientId>, cfg: Config, now: Time, c: ClientId)
    requires c in todo && c in was
    ensures TimedOut(was[c], cfg, now) ==>
              PartlySwept(was, todo - {c}, cfg, now) == PartlySwept(was, todo, cfg, now) - {c}
    ensures !TimedOut(was[c], cfg, now) ==>
              PartlySwept(was, todo - {c}, cfg, now) ==
              PartlySwept(was, todo, cfg, now)[c := PruneAddrs(was[c], cfg, now)]
  {
  }

  lemma SweptAll(s: State, cfg: Config, now: Time, gone: seq<(ClientId, Ip)>)
    requires Listed(s.sessions, {}, cfg, now, gone)
    ensures PartlySwept(s.sessions, {}, cfg, now) == SweepSection(s, cfg, now).sessions
    ensures First(gone) == TimedOutSessions(s, cfg, now)
    ensures Second(gone) == set c | c in First(gone) && c in s.sessions :: s.sessions[c].ip
  {
    assert SweptOut(s.sessions, {}, cfg, now) == TimedOutSessions(s, cfg, now);
  }

  lemma RemoveUpdated<K, V>(m: map<K, V>, k: K, v: V)
    ensures m[k := v] - {k} == m - {k}
  {
  }

  lemma RemoveOneLast<K, V>(m: map<K, V>, was: map<K, V>, out: set<K>, k: K)
    requires m == was - out
    ensures m - {k} == was - (out + {k})
  {
  }

  lemma AppendFirstSecond(gone: seq<(ClientId, Ip)>, p: (ClientId, Ip))
    ensures First(gone + [p]) == First(gone) + {p.0}
    ensures Second(gone + [p]) == Second(gone) + {p.1}
  {
    assert forall q :: q in gone + [p] <==> q in gone || q == p;
  }
}
