/**
 The relay server's tables as values, and what each of its critical sections does to them.

 The sections are the pieces of code that run under one lock.  Module ServerAtomic runs the sections of a
 handler back to back; module ServerLocks interleaves them.
 */
module ServerState {
  import opened Words
  import opened Messages
  import opened Window

  type Time = int
  type Endpoint = string

  const SECOND := 1_000_000_000
  const IP_POOL_RETENTION := 300 * SECOND

  datatype AddrInfo = AddrInfo(lastSeen: Time, stats: PathStats)

  datatype Session = Session(
    ip: Ip,
    prefixLen: u8,
    deviceName: seq<u8>,
    addrs: map<Endpoint, AddrInfo>,
    lastSeen: Time)

  /** An IPv4 network: `base` is its network address. */
  datatype Subnet = Subnet(base: Ip, ones: nat) {
    ghost predicate Valid() {
      ones <= 32 && base % Pow2(32 - ones) == 0
    }
  }

  datatype Config = Config(
    serverIp: Ip,
    prefixLen: u8,
    subnet: Option<Subnet>,
    teamKeyHash: seq<u8>,
    window: nat,
    hasTun: bool,
    clientTimeout: Time,
    addrTimeout: Time)
  {
    ghost predicate Valid() {
      && 0 < window < TWO32
      && 0 <= clientTimeout
      && 0 <= addrTimeout
      && (subnet.Some? ==> subnet.value.Valid())
    }
  }

  datatype State = State(
    sessions: map<ClientId, Session>,
    routes: map<Ip, ClientId>,
    pool: map<ClientId, Ip>,
    expiry: map<ClientId, Time>,
    windows: map<ClientId, Ring>)

  // ----- address allocation -----

  function Pow2(n: nat): (p: nat)
    ensures p > 0
  {
    if n == 0 then 1 else 2 * Pow2(n - 1)
  }

  lemma ProductsRegroup(a: int, b: int, c: int)
    ensures a * (b * c) == (a * b) * c
  {
  }

  lemma {:induction false} Pow2Split(m: nat, n: nat)
    ensures Pow2(m + n) == Pow2(m) * Pow2(n)
  {
    if m == 0 {
      assert 1 * Pow2(n) == Pow2(n);
    } else {
      Pow2Split(m - 1, n);
      assert Pow2(m + n) == 2 * Pow2(m - 1 + n);
      ProductsRegroup(2, Pow2(m - 1), Pow2(n));
    }
  }

  /** The first address not in use among base+offset, ..., base+limit-1. */
  function FirstFree(used: set<Ip>, base: int, offset: nat, limit: nat): (r: Option<int>)
    requires offset <= limit
    decreases limit - offset
  {
    if offset == limit then None
    else if base + offset in used then FirstFree(used, base, offset + 1, limit)
    else Some(base + offset)
  }

  /** Host addresses lie strictly between the network and the broadcast address. */
  function LowestFree(used: set<Ip>, subnet: Subnet): (r: Option<int>)
    requires subnet.ones <= 32
  {
    var hosts := Pow2(32 - subnet.ones);
    if hosts <= 2 then None else FirstFree(used, subnet.base, 1, hosts - 1)
  }

  /** How many host addresses a subnet has; negative for the two smallest kinds of subnet. */
  function HostCount(subnet: Subnet): int
    requires subnet.ones <= 32
  {
    Pow2(32 - subnet.ones) - 2
  }

  lemma {:induction false} FirstFreeIsLowest(used: set<Ip>, base: int, offset: nat, limit: nat)
    requires offset <= limit
    ensures match FirstFree(used, base, offset, limit)
            case Some(ip) =>
              && base + offset <= ip < base + limit
              && ip !in used
              && forall x :: base + offset <= x < ip ==> x in used
            case None => forall x :: base + offset <= x < base + limit ==> x in used
    decreases limit - offset
  {
    if offset < limit && base + offset in used {
      FirstFreeIsLowest(used, base, offset + 1, limit);
    }
  }

  lemma NextMultiple(size: int, base: int, total: int)
    requires size > 0 && base % size == 0 && total % size == 0 && base < total
    ensures base + size <= total
  {
    var k, m := base / size, total / size;
    assert total - base == size * (m - k) by {
      assert base == size * k && total == size * m;
    }
    MultipleAtLeast(size, m - k);
  }

  lemma Pow2Of32()
    ensures Pow2(32) == TWO32
  {
    assert Pow2(8) == 0x100;
    Pow2Split(8, 8);
    Pow2Split(16, 16);
  }

  lemma {:induction false} Pow2Grows(m: nat, n: nat)
    requires m < n
    ensures Pow2(m) < Pow2(n)
  {
    if m < n - 1 {
      Pow2Grows(m, n - 1);
    }
  }

  lemma Pow2Divides(h: nat)
    requires h <= 32
    ensures TWO32 % Pow2(h) == 0
  {
    Pow2Of32();
    Pow2Split(h, 32 - h);
    AddMultiple(0, Pow2(32 - h), Pow2(h));
  }

  /** No address of a subnet overflows 32 bits. */
  lemma SubnetFits(subnet: Subnet)
    requires subnet.Valid()
    ensures subnet.base + Pow2(32 - subnet.ones) <= TWO32
  {
    Pow2Divides(32 - subnet.ones);
    NextMultiple(Pow2(32 - subnet.ones), subnet.base, TWO32);
  }

  /** A set that holds n consecutive numbers has at least n elements. */
  lemma {:induction false} Pigeonhole(used: set<Ip>, base: int, n: nat)
    requires forall x :: base < x <= base + n ==> x in used
    ensures |used| >= n
    decreases n
  {
    if n > 0 {
      Pigeonhole(used - {base + n}, base, n - 1);
    }
  }

  /**
   The allocator hands out the lowest free host address, without overflow; it fails iff every host address is in
   use, and never while fewer addresses are in use than the subnet has hosts.
   */
  lemma LowestFreeIsCorrect(used: set<Ip>, subnet: Subnet)
    requires subnet.Valid()
    ensures var broadcast := subnet.base + Pow2(32 - subnet.ones) - 1;
            match LowestFree(used, subnet)
            case Some(ip) =>
              && subnet.base < ip < broadcast < TWO32
              && ip !in used
              && forall x :: subnet.base < x < ip ==> x in used
            case None =>
              && (forall x :: subnet.base < x < broadcast ==> x in used)
              && |used| >= HostCount(subnet)
  {
    var hosts := Pow2(32 - subnet.ones);
    SubnetFits(subnet);
    if hosts > 2 {
      FirstFreeIsLowest(used, subnet.base, 1, hosts - 1);
      if LowestFree(used, subnet).None? {
        Pigeonhole(used, subnet.base, hosts - 2);
      }
    }
  }

  // ----- address uniqueness -----

  /**
   No address belongs to two clients, whether held by a session or kept in the pool, and none is the server's.
   The address 0.0.0.0 of a session stands for no address.
   */
  ghost predicate UniqueIps(s: State, cfg: Config) {
    && (forall c, d :: c in s.sessions && d in s.sessions && c != d && s.sessions[c].ip != 0 ==>
          s.sessions[c].ip != s.sessions[d].ip)
    && (forall c, d :: c in s.pool && d in s.pool && c != d ==> s.pool[c] != s.pool[d])
    && (forall c, d :: c in s.pool && d in s.sessions && c != d ==> s.pool[c] != s.sessions[d].ip)
    && (forall c :: c in s.pool ==> s.pool[c] != 0 && s.pool[c] != cfg.serverIp)
    && (forall c :: c in s.sessions && s.sessions[c].ip != 0 ==> s.sessions[c].ip != cfg.serverIp)
  }

  /** Client c has a session that holds `ip`. */
  predicate Live(s: State, c: ClientId, ip: Ip) {
    c in s.sessions && s.sessions[c].ip == ip
  }

  /** No other client has a claim on `ip`. */
  ghost predicate FreeFor(s: State, cfg: Config, c: ClientId, ip: Ip) {
    && ip != cfg.serverIp
    && (forall d :: d in s.sessions && d != c ==> s.sessions[d].ip != ip)
    && (forall d :: d in s.pool && d != c ==> s.pool[d] != ip)
  }

  // ----- sections of a heartbeat -----

  function SessionIps(sessions: map<ClientId, Session>): (ips: set<Ip>) {
    set c | c in sessions :: sessions[c].ip
  }

  /** The requested address is the server's or that of another session. */
  predicate SessionConflict(s: State, cfg: Config, c: ClientId, ip: Ip) {
    ip == cfg.serverIp || exists d :: d in s.sessions && d != c && s.sessions[d].ip == ip
  }

  /** The requested address is kept for another client. */
  predicate PoolConflict(s: State, c: ClientId, ip: Ip) {
    exists d :: d in s.pool && d != c && s.pool[d] == ip
  }

  function UsedIps(s: State, cfg: Config): set<Ip> {
    s.pool.Values + SessionIps(s.sessions) + {cfg.serverIp}
  }

  /** The address that allocation would give client c. */
  function AllocationFor(s: State, cfg: Config, c: ClientId): (r: Option<Ip>)
    requires cfg.Valid()
  {
    if c in s.pool then Some(s.pool[c])
    else if cfg.subnet.None? then None
    else
      LowestFreeIsCorrect(UsedIps(s, cfg), cfg.subnet.value);
      LowestFree(UsedIps(s, cfg), cfg.subnet.value)
  }

  /** Allocation keeps the address of a known client, cancelling its expiry, and records a new one. */
  function AllocateSection(s: State, cfg: Config, c: ClientId): (State, Option<Ip>)
    requires cfg.Valid()
  {
    var ip := AllocationFor(s, cfg, c);
    if c in s.pool then (s.(expiry := s.expiry - {c}), ip)
    else if ip.Some? then (s.(pool := s.pool[c := ip.value]), ip)
    else (s, ip)
  }

  function InsertSession(s: State, c: ClientId, session: Session): State {
    s.(sessions := s.sessions[c := session])
  }

  function RouteSection(s: State, c: ClientId, ip: Ip): State {
    s.(routes := s.routes[ip := c])
  }

  function PoolSection(s: State, c: ClientId, ip: Ip): State {
    s.(expiry := s.expiry - {c}, pool := if c in s.pool then s.pool else s.pool[c := ip])
  }

  /** Sections that change no address keep addresses unique. */
  ghost predicate SameIps(s: State, s': State) {
    && s'.pool == s.pool
    && s'.sessions.Keys == s.sessions.Keys
    && forall c :: c in s.sessions ==> s'.sessions[c].ip == s.sessions[c].ip
  }

  lemma SameIpsKeepsUnique(s: State, s': State, cfg: Config)
    requires UniqueIps(s, cfg) && SameIps(s, s')
    ensures UniqueIps(s', cfg)
  {
  }

  lemma UnusedIsFree(s: State, cfg: Config, c: ClientId, ip: Ip)
    requires ip !in UsedIps(s, cfg)
    ensures FreeFor(s, cfg, c, ip)
  {
    assert forall d :: d in s.pool ==> s.pool[d] in s.pool.Values;
    assert forall d :: d in s.sessions ==> s.sessions[d].ip in SessionIps(s.sessions);
  }

  /** Sections that leave the sessions alone and only shrink the pool disturb no heartbeat. */
  ghost predicate Shrinks(s: State, s': State) {
    && s'.sessions == s.sessions
    && (forall c :: c in s'.pool ==> c in s.pool && s'.pool[c] == s.pool[c])
  }

  lemma ShrinkingKeepsUnique(s: State, s': State, cfg: Config)
    requires UniqueIps(s, cfg) && Shrinks(s, s')
    ensures UniqueIps(s', cfg)
  {
  }

  lemma PooledIsUnique(s: State, s': State, cfg: Config, c: ClientId, ip: Ip)
    requires UniqueIps(s, cfg) && FreeFor(s, cfg, c, ip) && ip != 0
    requires c !in s.pool && s'.pool == s.pool[c := ip] && s'.sessions == s.sessions
    ensures UniqueIps(s', cfg) && FreeFor(s', cfg, c, ip)
  {
  }

  lemma FewerSessionsKeepsUnique(s: State, s': State, cfg: Config)
    requires UniqueIps(s, cfg) && s'.pool == s.pool
    requires forall c :: c in s'.sessions ==> c in s.sessions && s'.sessions[c].ip == s.sessions[c].ip
    ensures UniqueIps(s', cfg)
  {
  }

  lemma AllocationIsFree(s: State, cfg: Config, c: ClientId)
    requires cfg.Valid() && UniqueIps(s, cfg) && c !in s.sessions
    ensures var (s', ip) := AllocateSection(s, cfg, c);
            UniqueIps(s', cfg) && s'.sessions == s.sessions
            && (ip.Some? ==> ip.value != 0 && FreeFor(s', cfg, c, ip.value))
  {
    var (s', ip) := AllocateSection(s, cfg, c);
    if c !in s.pool && ip.Some? {
      LowestFreeIsCorrect(UsedIps(s, cfg), cfg.subnet.value);
      UnusedIsFree(s, cfg, c, ip.value);
      PooledIsUnique(s, s', cfg, c, ip.value);
    }
  }

  const NO_STATS := PathStats([], 0, 0, 0)

  /** The source addresses after a heartbeat: an address is unique to its NIC. */
  function TouchAddrs(addrs: map<Endpoint, AddrInfo>, from: Endpoint, path: Option<PathStats>, now: Time)
    : (r: map<Endpoint, AddrInfo>)
  {
    match path
    case None =>
      addrs[from := AddrInfo(now, if from in addrs then addrs[from].stats else NO_STATS)]
    case Some(p) =>
      var stale := set e | e in addrs && e != from && p.name != [] && addrs[e].stats.name == p.name;
      (addrs - stale)[from := AddrInfo(now, p)]
  }

  function TouchSession(session: Session, from: Endpoint, path: Option<PathStats>, now: Time): Session {
    session.(addrs := TouchAddrs(session.addrs, from, path, now))
  }

  function RefreshSession(session: Session, deviceName: seq<u8>, now: Time): Session {
    session.(lastSeen := now, deviceName := if deviceName != [] then deviceName else session.deviceName)
  }

  function NewSession(ip: Ip, prefixLen: u8, deviceName: seq<u8>, now: Time): Session {
    Session(ip, prefixLen, deviceName, map[], now)
  }

  // ----- sections of removal -----

  function RemoveSessions(s: State, gone: set<ClientId>): State {
    s.(sessions := s.sessions - gone)
  }

  function UnrouteSection(s: State, ip: Ip): State {
    s.(routes := s.routes - {ip})
  }

  function ResetSection(s: State, c: ClientId): State {
    s.(windows := s.windows - {c})
  }

  function ForgetSection(s: State, c: ClientId): State {
    s.(pool := s.pool - {c})
  }

  function MarkSection(s: State, c: ClientId, now: Time): State {
    if c in s.pool then s.(expiry := s.expiry[c := now]) else s
  }

  function Expired(s: State, now: Time): set<ClientId> {
    set c | c in s.expiry && now - s.expiry[c] > IP_POOL_RETENTION
  }

  function ExpireSection(s: State, now: Time): State {
    s.(pool := s.pool - Expired(s, now), expiry := s.expiry - Expired(s, now))
  }

  /** A session after its stale addresses are dropped. */
  function PruneAddrs(session: Session, cfg: Config, now: Time): Session {
    session.(addrs := map e | e in session.addrs && now - session.addrs[e].lastSeen <= cfg.addrTimeout ::
                        session.addrs[e])
  }

  predicate TimedOut(session: Session, cfg: Config, now: Time) {
    PruneAddrs(session, cfg, now).addrs == map[] && now - session.lastSeen > cfg.clientTimeout
  }

  function TimedOutSessions(s: State, cfg: Config, now: Time): set<ClientId> {
    set c | c in s.sessions && TimedOut(s.sessions[c], cfg, now)
  }

  /** The sessions section of cleanup. */
  function SweepSection(s: State, cfg: Config, now: Time): State {
    var gone := TimedOutSessions(s, cfg, now);
    s.(sessions := map c | c in s.sessions && c !in gone :: PruneAddrs(s.sessions[c], cfg, now))
  }

  // ----- data packets -----

  datatype Outcome = Dropped | ToTun | Forwarded(dest: ClientId, to: set<Endpoint>)

  /** Every dedup window has the configured size. */
  ghost predicate WindowsOk(s: State, cfg: Config) {
    forall c :: c in s.windows ==> WindowFits(s, cfg, c)
  }

  predicate WindowFits(s: State, cfg: Config, c: ClientId) {
    c in s.windows ==> |s.windows[c].bits| == cfg.window
  }

  /** The dedup section: it runs before the sender is looked up. */
  function DedupSection(s: State, cfg: Config, c: ClientId, number: u32): (State, bool)
    requires cfg.Valid() && WindowFits(s, cfg, c)
  {
    var (r, dup) := RingStep(WindowOf(s.windows, c, cfg.window), number);
    (s.(windows := s.windows[c := r]), dup)
  }

  /** The inner packet is IPv4 and its source is the address registered for its sender. */
  predicate Accepts(s: State, c: ClientId, payload: seq<u8>) {
    c in s.sessions && IsIpv4(payload) && SrcIp(payload) == s.sessions[c].ip
  }

  /** Sender bookkeeping of an accepted data packet. */
  function SeenSection(s: State, c: ClientId, from: Endpoint, now: Time): State
    requires c in s.sessions
  {
    var session := s.sessions[c];
    var addrs := if from in session.addrs then session.addrs[from := session.addrs[from].(lastSeen := now)]
                 else session.addrs;
    s.(sessions := s.sessions[c := session.(addrs := addrs, lastSeen := now)])
  }

  /** Where a packet for `dst` goes: to every known address of the client routed for it. */
  function RouteTo(s: State, dst: Ip): Outcome {
    if dst in s.routes && s.routes[dst] in s.sessions && s.sessions[s.routes[dst]].addrs != map[] then
      Forwarded(s.routes[dst], s.sessions[s.routes[dst]].addrs.Keys)
    else
      Dropped
  }
}
