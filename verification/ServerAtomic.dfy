/** The server's handlers when each runs without interruption: its sections back to back. */
module ServerAtomic {
  import opened Words
  import opened Messages
  import opened ServerState
  import opened Wire

  // ----- the handlers -----

  /** The address and prefix a client without a session is given. */
  function AssignIp(s: State, cfg: Config, c: ClientId, hb: Heartbeat): (State, Ip, u8)
    requires cfg.Valid()
  {
    if hb.virtualIp != 0 && !SessionConflict(s, cfg, c, hb.virtualIp) && !PoolConflict(s, c, hb.virtualIp) then
      (s, hb.virtualIp, hb.prefixLen)
    else
      var (s', ip) := AllocateSection(s, cfg, c);
      if ip.Some? then (s', ip.value, cfg.prefixLen) else (s', 0, hb.prefixLen)
  }

  /** Enters the new session and, if it has an address, its route and pool entry. */
  function Enter(s: State, c: ClientId, ip: Ip, prefixLen: u8, deviceName: seq<u8>, now: Time): State {
    var s' := InsertSession(s, c, NewSession(ip, prefixLen, deviceName, now));
    if ip == 0 then s' else PoolSection(RouteSection(s', c, ip), c, ip)
  }

  function Touch(s: State, c: ClientId, from: Endpoint, path: Option<PathStats>, now: Time): State {
    if c in s.sessions then InsertSession(s, c, TouchSession(s.sessions[c], from, path, now)) else s
  }

  /** The tables once client c has its session: refreshed if it had one, registered if not. */
  function Admitted(s: State, cfg: Config, c: ClientId, hb: Heartbeat, now: Time): State
    requires cfg.Valid()
  {
    if c in s.sessions then InsertSession(s, c, RefreshSession(s.sessions[c], hb.deviceName, now))
    else
      var (s', ip, prefixLen) := AssignIp(s, cfg, c, hb);
      Enter(s', c, ip, prefixLen, hb.deviceName, now)
  }

  /** An accepted heartbeat of client c. */
  function RunHeartbeat(s: State, cfg: Config, c: ClientId, hb: Heartbeat, from: Endpoint, now: Time): State
    requires cfg.Valid()
  {
    Touch(Admitted(s, cfg, c, hb, now), c, from, hb.path, now)
  }

  /** A heartbeat packet: a wrong team key is answered with an error, client 0 is not answered at all. */
  function HandleHeartbeat(s: State, cfg: Config, c: ClientId, hb: Heartbeat, from: Endpoint, now: Time)
    : (State, Option<HeartbeatAck>)
    requires cfg.Valid()
  {
    if hb.teamKeyHash != cfg.teamKeyHash then
      (s, Some(HeartbeatAck(0, 0, ACK_STATUS_BAD_TEAM_KEY, MTU)))
    else if c == 0 then
      (s, None)
    else
      var s' := RunHeartbeat(s, cfg, c, hb, from, now);
      HeartbeatEnters(s, cfg, c, hb, from, now);
      (s', Some(HeartbeatAck(s'.sessions[c].ip, s'.sessions[c].prefixLen, ACK_STATUS_OK, MTU)))
  }

  lemma HeartbeatEnters(s: State, cfg: Config, c: ClientId, hb: Heartbeat, from: Endpoint, now: Time)
    requires cfg.Valid()
    ensures c in RunHeartbeat(s, cfg, c, hb, from, now).sessions
  {
  }

  /** Removing client c through the web interface; false if it has no session. */
  function RunDelete(s: State, c: ClientId): (State, bool) {
    if c in s.sessions then
      (ForgetSection(ResetSection(UnrouteSection(RemoveSessions(s, {c}), s.sessions[c].ip), c), c), true)
    else
      (s, false)
  }

  /** The expiry marks after marking every pooled client of `gone`. */
  function MarkAll(expiry: map<ClientId, Time>, pooled: set<ClientId>, gone: set<ClientId>, now: Time)
    : (r: map<ClientId, Time>)
  {
    map c | c in expiry.Keys + (gone * pooled) :: if c in gone && c in pooled then now else expiry[c]
  }

  /** What cleanup does about all the sessions it removed. */
  function UnrouteAll(s: State, gone: set<ClientId>, ips: set<Ip>, now: Time): State {
    s.(routes := s.routes - ips,
       windows := s.windows - gone,
       expiry := MarkAll(s.expiry, s.pool.Keys, gone, now))
  }

  function RunCleanup(s: State, cfg: Config, now: Time): State {
    var gone := TimedOutSessions(s, cfg, now);
    var ips := set c | c in gone && c in s.sessions :: s.sessions[c].ip;
    ExpireSection(UnrouteAll(SweepSection(s, cfg, now), gone, ips, now), now)
  }

  /** The section of a cleanup about one removed session. */
  function SweepOne(s: State, c: ClientId, ip: Ip, now: Time): State {
    MarkSection(ResetSection(UnrouteSection(s, ip), c), c, now)
  }

  /** What a cleanup does after its sessions section, one removed session at a time. */
  function AfterSweep(s: State, todo: seq<(ClientId, Ip)>, now: Time): State
    decreases |todo|
  {
    if todo == [] then ExpireSection(s, now)
    else AfterSweep(SweepOne(s, todo[0].0, todo[0].1, now), todo[1..], now)
  }

  function First(todo: seq<(ClientId, Ip)>): set<ClientId> {
    set p | p in todo :: p.0
  }

  function Second(todo: seq<(ClientId, Ip)>): set<Ip> {
    set p | p in todo :: p.1
  }

  lemma MarkOneMore(expiry: map<ClientId, Time>, pooled: set<ClientId>, c: ClientId, gone: set<ClientId>, now: Time)
    ensures MarkAll(if c in pooled then expiry[c := now] else expiry, pooled, gone, now)
            == MarkAll(expiry, pooled, {c} + gone, now)
  {
  }

  lemma RemoveOneMore<K, V>(m: map<K, V>, k: K, ks: set<K>)
    ensures (m - {k}) - ks == m - ({k} + ks)
  {
  }

  lemma SweepOneMore(s: State, c: ClientId, ip: Ip, gone: set<ClientId>, ips: set<Ip>, now: Time)
    ensures UnrouteAll(SweepOne(s, c, ip, now), gone, ips, now) == UnrouteAll(s, {c} + gone, {ip} + ips, now)
  {
    RemoveOneMore(s.routes, ip, ips);
    RemoveOneMore(s.windows, c, gone);
    MarkOneMore(s.expiry, s.pool.Keys, c, gone, now);
  }

  lemma NothingToSweep(s: State, now: Time)
    ensures UnrouteAll(s, {}, {}, now) == s
  {
    assert s.routes - {} == s.routes;
    assert s.windows - {} == s.windows;
    assert MarkAll(s.expiry, s.pool.Keys, {}, now) == s.expiry;
  }

  /** Removing sessions one at a time is removing them all at once. */
  lemma {:induction false} AfterSweepAll(s: State, todo: seq<(ClientId, Ip)>, now: Time)
    ensures AfterSweep(s, todo, now) == ExpireSection(UnrouteAll(s, First(todo), Second(todo), now), now)
    decreases |todo|
  {
    if todo == [] {
      NothingToSweep(s, now);
    } else {
      AfterSweepAll(SweepOne(s, todo[0].0, todo[0].1, now), todo[1..], now);
      SweepOneMore(s, todo[0].0, todo[0].1, First(todo[1..]), Second(todo[1..]), now);
      FirstAndSecond(todo);
    }
  }

  lemma FirstAndSecond(todo: seq<(ClientId, Ip)>)
    requires todo != []
    ensures First(todo) == {todo[0].0} + First(todo[1..])
    ensures Second(todo) == {todo[0].1} + Second(todo[1..])
  {
    assert forall p :: p in todo <==> p == todo[0] || p in todo[1..];
    assert todo[0] in todo;
    forall p | p in todo[1..]
      ensures p in todo
    {
    }
  }

  /** A data packet: dedup first, then the sender check, then the route. */
  function HandleData(s: State, cfg: Config, c: ClientId, number: u32, payload: seq<u8>, from: Endpoint, now: Time)
    : (State, Outcome)
    requires cfg.Valid() && WindowFits(s, cfg, c)
  {
    var (s1, dup) := DedupSection(s, cfg, c, number);
    if dup || !Accepts(s1, c, payload) then (s1, Dropped)
    else
      var s2 := SeenSection(s1, c, from, now);
      (s2, if DstIp(payload) != cfg.serverIp then RouteTo(s2, DstIp(payload)) else if cfg.hasTun then ToTun
       else Dropped)
  }

  // ----- packets -----

  datatype Reply = Silent | Answered(ack: HeartbeatAck) | Relayed(outcome: Outcome)

  /** A UDP packet: other than heartbeats and data that can be read it is ignored. */
  function HandlePacket(s: State, cfg: Config, data: seq<u8>, from: Endpoint, now: Time): (State, Reply)
    requires cfg.Valid() && WindowsOk(s, cfg)
  {
    match DecodeHeader(data)
    case Err(_) => (s, Silent)
    case Ok(h) =>
      var payload := data[HEADER_SIZE..];
      if h.kind == TYPE_HEARTBEAT then HandleHeartbeatPayload(s, cfg, h.clientId, payload, from, now)
      else if h.kind == TYPE_DATA then
        var (s', outcome) := HandleData(s, cfg, h.clientId, h.number, payload, from, now);
        (s', Relayed(outcome))
      else (s, Silent)
  }

  function HandleHeartbeatPayload(s: State, cfg: Config, c: ClientId, payload: seq<u8>, from: Endpoint,
                                  now: Time): (State, Reply)
    requires cfg.Valid()
  {
    match DecodeHeartbeat(payload)
    case Err(_) => (s, Silent)
    case Ok(hb) =>
      var (s', ack) := HandleHeartbeat(s, cfg, c, hb, from, now);
      (s', if ack.Some? then Answered(ack.value) else Silent)
  }
}
