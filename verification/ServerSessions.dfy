/** How long a session and its addresses last, over every run of uninterrupted handlers. */
module ServerSessions {
  import opened Words
  import opened Messages
  import opened Window
  import opened ServerState
  import opened ServerAtomic
  import opened ServerInvariants
  import opened ServerTheorems

  /** The heartbeat is accepted. */
  predicate Accepted(cfg: Config, c: ClientId, hb: Heartbeat) {
    hb.teamKeyHash == cfg.teamKeyHash && c != 0
  }

  /** The data packet is accepted: it is new, and an IPv4 packet from its sender's address. */
  predicate Passes(s: State, cfg: Config, c: ClientId, number: u32, payload: seq<u8>)
    requires cfg.Valid() && WindowFits(s, cfg, c)
  {
    && !RingStep(WindowOf(s.windows, c, cfg.window), number).1
    && IsIpv4(payload) && Live(s, c, SrcIp(payload))
  }

  // ----- what one packet does to the sessions -----

  /**
   The addresses of a session before and after a heartbeat from `from`: that one is there and up to date, others of the
   NIC it came over are gone, and the rest are as they were.
   */
  ghost predicate AddrsTouched(old': map<Endpoint, AddrInfo>, new': map<Endpoint, AddrInfo>, from: Endpoint,
                               path: Option<PathStats>, now: Time)
  {
    && from in new' && new'[from].lastSeen == now
    && new'[from].stats == (if path.Some? then path.value else if from in old' then old'[from].stats else NO_STATS)
    && (forall e :: e in new' && e != from ==> e in old' && new'[e] == old'[e])
    && (forall e :: e in old' && e != from ==>
          (e !in new' <==> path.Some? && path.value.name != [] && old'[e].stats.name == path.value.name))
  }

  lemma TouchedAddrs(addrs: map<Endpoint, AddrInfo>, from: Endpoint, path: Option<PathStats>, now: Time)
    ensures AddrsTouched(addrs, TouchAddrs(addrs, from, path, now), from, path, now)
  {
  }

  function AddrsOf(s: State, c: ClientId): map<Endpoint, AddrInfo> {
    if c in s.sessions then s.sessions[c].addrs else map[]
  }

  lemma AdmittedAddrs(s: State, cfg: Config, c: ClientId, hb: Heartbeat, now: Time)
    requires cfg.Valid()
    ensures var s' := Admitted(s, cfg, c, hb, now);
            && s'.sessions.Keys == s.sessions.Keys + {c}
            && (forall d :: d in s.sessions && d != c ==> s'.sessions[d] == s.sessions[d])
            && s'.sessions[c].addrs == AddrsOf(s, c)
            && s'.sessions[c].lastSeen == now
            && s'.sessions[c].deviceName
               == (if c in s.sessions && hb.deviceName == [] then s.sessions[c].deviceName else hb.deviceName)
            && (c in s.sessions ==>
                  s'.sessions[c].ip == s.sessions[c].ip && s'.sessions[c].prefixLen == s.sessions[c].prefixLen)
  {
    if c !in s.sessions {
      var (s1, ip, prefixLen) := AssignIp(s, cfg, c, hb);
      assert s1.sessions == s.sessions;
    }
  }

  /**
   What an accepted heartbeat does to the sessions: its sender has one, as of now, with its source among its addresses
   and the latest device name given; no other session changes.
   */
  lemma BeatEffect(s: State, cfg: Config, c: ClientId, hb: Heartbeat, from: Endpoint, now: Time)
    requires cfg.Valid()
    ensures var s' := RunHeartbeat(s, cfg, c, hb, from, now);
            && s'.sessions.Keys == s.sessions.Keys + {c}
            && (forall d :: d in s.sessions && d != c ==> s'.sessions[d] == s.sessions[d])
            && AddrsTouched(AddrsOf(s, c), s'.sessions[c].addrs, from, hb.path, now)
            && s'.sessions[c].lastSeen == now
            && s'.sessions[c].deviceName
               == (if c in s.sessions && hb.deviceName == [] then s.sessions[c].deviceName else hb.deviceName)
            && (c in s.sessions ==>
                  s'.sessions[c].ip == s.sessions[c].ip && s'.sessions[c].prefixLen == s.sessions[c].prefixLen)
  {
    AdmittedAddrs(s, cfg, c, hb, now);
    TouchedAddrs(AddrsOf(s, c), from, hb.path, now);
  }

  /** The session before and after an accepted data packet from `from`: both are up to date, and no address is added. */
  ghost predicate SessionSeen(old': Session, new': Session, from: Endpoint, now: Time) {
    && new'.lastSeen == now
    && new'.ip == old'.ip && new'.prefixLen == old'.prefixLen && new'.deviceName == old'.deviceName
    && new'.addrs.Keys == old'.addrs.Keys
    && (forall e :: e in old'.addrs && e != from ==> new'.addrs[e] == old'.addrs[e])
    && (from in old'.addrs ==> new'.addrs[from] == AddrInfo(now, old'.addrs[from].stats))
  }

  /** What a data packet does to the sessions: if accepted, its sender's is brought up to date, and no other changes. */
  lemma DataEffect(s: State, cfg: Config, c: ClientId, number: u32, payload: seq<u8>, from: Endpoint, now: Time)
    requires cfg.Valid() && WindowFits(s, cfg, c)
    ensures var s' := HandleData(s, cfg, c, number, payload, from, now).0;
            if Passes(s, cfg, c, number, payload) then
              && s'.sessions.Keys == s.sessions.Keys
              && (forall d :: d in s.sessions && d != c ==> s'.sessions[d] == s.sessions[d])
              && SessionSeen(s.sessions[c], s'.sessions[c], from, now)
            else s'.sessions == s.sessions
  {
  }

  // ----- one address per NIC -----

  /** No two addresses of a session belong to the same named NIC. */
  ghost predicate NicsDistinct(addrs: map<Endpoint, AddrInfo>) {
    forall e, f :: e in addrs && f in addrs && e != f && addrs[e].stats.name != [] ==>
      addrs[e].stats.name != addrs[f].stats.name
  }

  ghost predicate AllNicsDistinct(s: State) {
    forall c :: c in s.sessions ==> NicsDistinct(s.sessions[c].addrs)
  }

  lemma TouchKeepsNics(old': map<Endpoint, AddrInfo>, new': map<Endpoint, AddrInfo>, from: Endpoint,
                       path: Option<PathStats>, now: Time)
    requires NicsDistinct(old') && AddrsTouched(old', new', from, path, now)
    ensures NicsDistinct(new')
  {
  }

  lemma BeatKeepsNics(s: State, cfg: Config, c: ClientId, hb: Heartbeat, from: Endpoint, now: Time)
    requires cfg.Valid() && AllNicsDistinct(s)
    ensures AllNicsDistinct(RunHeartbeat(s, cfg, c, hb, from, now))
  {
    BeatEffect(s, cfg, c, hb, from, now);
    TouchKeepsNics(AddrsOf(s, c), RunHeartbeat(s, cfg, c, hb, from, now).sessions[c].addrs, from, hb.path, now);
  }

  lemma DataKeepsNics(s: State, cfg: Config, c: ClientId, number: u32, payload: seq<u8>, from: Endpoint, now: Time)
    requires cfg.Valid() && WindowFits(s, cfg, c) && AllNicsDistinct(s)
    ensures AllNicsDistinct(HandleData(s, cfg, c, number, payload, from, now).0)
  {
    DataEffect(s, cfg, c, number, payload, from, now);
  }

  lemma CleanKeepsNics(s: State, cfg: Config, now: Time)
    requires AllNicsDistinct(s)
    ensures AllNicsDistinct(RunCleanup(s, cfg, now))
  {
  }

  lemma HandleKeepsNics(s: State, cfg: Config, e: Event)
    requires cfg.Valid() && Exact(s, cfg) && AllNicsDistinct(s)
    ensures AllNicsDistinct(Handle(s, cfg, e).0)
  {
    match e
    case Beat(c, hb, from, now) =>
      if Accepted(cfg, c, hb) {
        BeatKeepsNics(s, cfg, c, hb, from, now);
      }
    case Data(c, number, payload, from, now) => DataKeepsNics(s, cfg, c, number, payload, from, now);
    case Clean(now) => CleanKeepsNics(s, cfg, now);
    case Kick(_) =>
  }

  /** In every run, a client is never sent two copies of a packet over the same named NIC. */
  lemma {:induction false} OneAddressPerNic(s: State, cfg: Config, events: seq<Event>)
    requires cfg.Valid() && Exact(s, cfg) && AllNicsDistinct(s)
    ensures AllNicsDistinct(Run(s, cfg, events))
    decreases |events|
  {
    if events != [] {
      HandleKeepsExact(s, cfg, events[0]);
      HandleKeepsNics(s, cfg, events[0]);
      OneAddressPerNic(Handle(s, cfg, events[0]).0, cfg, events[1..]);
    }
  }

  // ----- a client that keeps in touch -----

  lemma PrunedEmptyIff(session: Session, cfg: Config, now: Time)
    ensures PruneAddrs(session, cfg, now).addrs == map[]
            <==> forall e :: e in session.addrs ==> now - session.addrs[e].lastSeen > cfg.addrTimeout
  {
    var pruned := PruneAddrs(session, cfg, now).addrs;
    if e :| e in session.addrs && now - session.addrs[e].lastSeen <= cfg.addrTimeout {
      assert e in pruned;
    } else {
      assert pruned.Keys == {};
    }
  }

  /** Cleanup removes a session exactly when neither it nor any of its addresses has been heard from in time. */
  lemma RemovedIffSilent(s: State, cfg: Config, c: ClientId, now: Time)
    requires c in s.sessions
    ensures c !in RunCleanup(s, cfg, now).sessions
            <==> now - s.sessions[c].lastSeen > cfg.clientTimeout
                 && forall e :: e in s.sessions[c].addrs ==> now - s.sessions[c].addrs[e].lastSeen > cfg.addrTimeout
  {
    PrunedEmptyIff(s.sessions[c], cfg, now);
    assert RunCleanup(s, cfg, now).sessions == SweepSection(s, cfg, now).sessions;
    assert c !in SweepSection(s, cfg, now).sessions <==> TimedOut(s.sessions[c], cfg, now);
  }

  /** A session that survives a cleanup keeps exactly the addresses heard from in time; nothing else of it changes. */
  lemma KeptAddressesIff(s: State, cfg: Config, c: ClientId, now: Time)
    requires c in RunCleanup(s, cfg, now).sessions
    ensures c in s.sessions
    ensures var old', new' := s.sessions[c], RunCleanup(s, cfg, now).sessions[c];
            && (forall e :: e in new'.addrs <==> e in old'.addrs && now - old'.addrs[e].lastSeen <= cfg.addrTimeout)
            && (forall e :: e in new'.addrs ==> new'.addrs[e] == old'.addrs[e])
            && new'.ip == old'.ip && new'.prefixLen == old'.prefixLen
            && new'.deviceName == old'.deviceName && new'.lastSeen == old'.lastSeen
  {
    assert RunCleanup(s, cfg, now).sessions == SweepSection(s, cfg, now).sessions;
  }

  /** When client c was last heard from, by an accepted heartbeat or data packet. */
  function HeardAfter(s: State, cfg: Config, c: ClientId, heard: Time, e: Event): Time
    requires cfg.Valid() && WindowsOk(s, cfg)
  {
    match e
    case Beat(d, hb, _, now) => if d == c && Accepted(cfg, c, hb) then now else heard
    case Data(d, number, payload, _, now) => if d == c && Passes(s, cfg, c, number, payload) then now else heard
    case _ => heard
  }

  /** A cleanup does not come more than the client timeout after `heard`, and nobody deletes c. */
  predicate Spares(cfg: Config, c: ClientId, heard: Time, e: Event) {
    match e
    case Clean(now) => now - heard <= cfg.clientTimeout
    case Kick(d) => d != c
    case _ => true
  }

  /** Client c, heard from at `heard` to begin with, goes on sending heartbeats or data in time. */
  predicate InTouch(s: State, cfg: Config, c: ClientId, heard: Time, events: seq<Event>)
    requires cfg.Valid() && WindowsOk(s, cfg)
    decreases |events|
  {
    events == []
    || (HandleKeepsWindows(s, cfg, events[0]);
        Spares(cfg, c, heard, events[0])
        && InTouch(Handle(s, cfg, events[0]).0, cfg, c, HeardAfter(s, cfg, c, heard, events[0]), events[1..]))
  }

  lemma HandleKeepsSession(s: State, cfg: Config, c: ClientId, heard: Time, e: Event)
    requires cfg.Valid() && WindowsOk(s, cfg) && c in s.sessions && s.sessions[c].lastSeen == heard
    requires Spares(cfg, c, heard, e)
    ensures var s' := Handle(s, cfg, e).0;
            && Live(s', c, s.sessions[c].ip)
            && s'.sessions[c].lastSeen == HeardAfter(s, cfg, c, heard, e)
  {
    match e
    case Beat(d, hb, from, now) =>
      if Accepted(cfg, d, hb) {
        BeatEffect(s, cfg, d, hb, from, now);
      }
    case Data(d, number, payload, from, now) => DataEffect(s, cfg, d, number, payload, from, now);
    case Clean(now) => RemovedIffSilent(s, cfg, c, now);
    case Kick(_) =>
  }

  /** A client that keeps in touch keeps its session, its address and its route, whatever other clients do. */
  lemma {:induction false} StaysRegistered(s: State, cfg: Config, c: ClientId, events: seq<Event>)
    requires cfg.Valid() && Exact(s, cfg) && c in s.sessions
    requires InTouch(s, cfg, c, s.sessions[c].lastSeen, events)
    ensures var s' := Run(s, cfg, events);
            && Live(s', c, s.sessions[c].ip)
            && (s.sessions[c].ip != 0 ==> s.sessions[c].ip in s'.routes && s'.routes[s.sessions[c].ip] == c)
    decreases |events|
  {
    if events != [] {
      HandleKeepsExact(s, cfg, events[0]);
      HandleKeepsSession(s, cfg, c, s.sessions[c].lastSeen, events[0]);
      StaysRegistered(Handle(s, cfg, events[0]).0, cfg, c, events[1..]);
    }
  }

  /** Client c has a session that knows the address `from` as that of `nic`, last heard from at `heard`. */
  ghost predicate KnownAt(s: State, c: ClientId, from: Endpoint, nic: seq<u8>, heard: Time) {
    && c in s.sessions && from in s.sessions[c].addrs
    && s.sessions[c].addrs[from].stats.name == nic
    && s.sessions[c].addrs[from].lastSeen == heard
  }

  /** The NIC that the address `from` of client c belongs to after an event. */
  function NicAfter(cfg: Config, c: ClientId, from: Endpoint, nic: seq<u8>, e: Event): seq<u8> {
    if e.Beat? && e.c == c && Accepted(cfg, c, e.hb) && e.from == from && e.hb.path.Some?
    then e.hb.path.value.name else nic
  }

  /** When client c was last heard from at the address `from`, by an accepted heartbeat or data packet. */
  function HeardFromAfter(s: State, cfg: Config, c: ClientId, from: Endpoint, heard: Time, e: Event): Time
    requires cfg.Valid() && WindowsOk(s, cfg)
  {
    if (e.Beat? || e.Data?) && e.from == from then HeardAfter(s, cfg, c, heard, e) else heard
  }

  /**
   A cleanup does not come more than the address timeout after `heard`, the NIC of `from` does not show up at another
   address, and nobody deletes c.
   */
  predicate SparesFrom(cfg: Config, c: ClientId, from: Endpoint, nic: seq<u8>, heard: Time, e: Event) {
    match e
    case Beat(d, hb, at, _) =>
      d == c && Accepted(cfg, d, hb) && at != from && hb.path.Some? && nic != [] ==> hb.path.value.name != nic
    case Data(_, _, _, _, _) => true
    case Clean(now) => now - heard <= cfg.addrTimeout
    case Kick(d) => d != c
  }

  /** Client c goes on sending heartbeats or data from `from` in time. */
  predicate InTouchFrom(s: State, cfg: Config, c: ClientId, from: Endpoint, nic: seq<u8>, heard: Time,
                        events: seq<Event>)
    requires cfg.Valid() && WindowsOk(s, cfg)
    decreases |events|
  {
    events == []
    || (HandleKeepsWindows(s, cfg, events[0]);
        SparesFrom(cfg, c, from, nic, heard, events[0])
        && InTouchFrom(Handle(s, cfg, events[0]).0, cfg, c, from, NicAfter(cfg, c, from, nic, events[0]),
                       HeardFromAfter(s, cfg, c, from, heard, events[0]), events[1..]))
  }

  /** An accepted heartbeat makes its source known. */
  lemma BeatMakesKnown(s: State, cfg: Config, c: ClientId, hb: Heartbeat, from: Endpoint, now: Time)
    requires cfg.Valid()
    ensures var s' := RunHeartbeat(s, cfg, c, hb, from, now);
            exists nic :: KnownAt(s', c, from, nic, now)
    ensures hb.path.Some? ==> KnownAt(RunHeartbeat(s, cfg, c, hb, from, now), c, from, hb.path.value.name, now)
  {
    BeatEffect(s, cfg, c, hb, from, now);
    var s' := RunHeartbeat(s, cfg, c, hb, from, now);
    assert KnownAt(s', c, from, s'.sessions[c].addrs[from].stats.name, now);
  }

  lemma BeatKeepsKnown(s: State, cfg: Config, c: ClientId, from: Endpoint, nic: seq<u8>, heard: Time, e: Event)
    requires cfg.Valid() && WindowsOk(s, cfg) && KnownAt(s, c, from, nic, heard)
    requires e.Beat? && SparesFrom(cfg, c, from, nic, heard, e)
    requires Accepted(cfg, e.c, e.hb)
    ensures var s' := RunHeartbeat(s, cfg, e.c, e.hb, e.from, e.now);
            && KnownAt(s', c, from, NicAfter(cfg, c, from, nic, e), HeardFromAfter(s, cfg, c, from, heard, e))
            && s'.sessions[c].ip == s.sessions[c].ip
  {
    BeatEffect(s, cfg, e.c, e.hb, e.from, e.now);
  }

  lemma CleanKeepsKnown(s: State, cfg: Config, c: ClientId, from: Endpoint, nic: seq<u8>, heard: Time, now: Time)
    requires KnownAt(s, c, from, nic, heard) && now - heard <= cfg.addrTimeout
    ensures KnownAt(RunCleanup(s, cfg, now), c, from, nic, heard)
    ensures RunCleanup(s, cfg, now).sessions[c].ip == s.sessions[c].ip
  {
    RemovedIffSilent(s, cfg, c, now);
    assert now - s.sessions[c].addrs[from].lastSeen <= cfg.addrTimeout;
  }

  lemma HandleKeepsKnown(s: State, cfg: Config, c: ClientId, from: Endpoint, nic: seq<u8>, heard: Time, e: Event)
    requires cfg.Valid() && Exact(s, cfg) && KnownAt(s, c, from, nic, heard) && SparesFrom(cfg, c, from, nic, heard, e)
    ensures var s' := Handle(s, cfg, e).0;
            && KnownAt(s', c, from, NicAfter(cfg, c, from, nic, e), HeardFromAfter(s, cfg, c, from, heard, e))
            && s'.sessions[c].ip == s.sessions[c].ip
  {
    match e
    case Beat(d, hb, _, _) =>
      if Accepted(cfg, d, hb) {
        BeatKeepsKnown(s, cfg, c, from, nic, heard, e);
      }
    case Data(d, number, payload, at, now) => DataEffect(s, cfg, d, number, payload, at, now);
    case Clean(now) => CleanKeepsKnown(s, cfg, c, from, nic, heard, now);
    case Kick(_) =>
  }

  /** A packet for `ip` goes to client c, and to the address `from` among others. */
  ghost predicate Reaches(s: State, ip: Ip, c: ClientId, from: Endpoint) {
    exists to: set<Endpoint> :: RouteTo(s, ip) == Forwarded(c, to) && from in to
  }

  /** Packets for a client go to each address it keeps in touch from, whatever other clients do. */
  lemma {:induction false} StaysReachable(s: State, cfg: Config, c: ClientId, from: Endpoint, nic: seq<u8>, heard: Time,
                                          events: seq<Event>)
    requires cfg.Valid() && Exact(s, cfg) && KnownAt(s, c, from, nic, heard) && s.sessions[c].ip != 0
    requires InTouchFrom(s, cfg, c, from, nic, heard, events)
    ensures Reaches(Run(s, cfg, events), s.sessions[c].ip, c, from)
    decreases |events|
  {
    if events == [] {
      RouteToIff(s, cfg, s.sessions[c].ip, c, s.sessions[c].addrs.Keys);
    } else {
      HandleKeepsExact(s, cfg, events[0]);
      HandleKeepsKnown(s, cfg, c, from, nic, heard, events[0]);
      StaysReachable(Handle(s, cfg, events[0]).0, cfg, c, from, NicAfter(cfg, c, from, nic, events[0]),
                     HeardFromAfter(s, cfg, c, from, heard, events[0]), events[1..]);
    }
  }
}
