/** A client that has lost its route does not get it back. */
module ServerOutage {
  import opened Words
  import opened Messages
  import opened ServerState
  import opened ServerLocks
  import opened ServerLockRoutes
  import opened ServerSchedules
  import opened ServerAtomic
  import opened ServerInvariants
  import opened ServerSessions

  /** Client c has a session that holds `ip`, but packets for `ip` are not routed. */
  ghost predicate CutOff(s: State, cfg: Config, c: ClientId, ip: Ip) {
    UniqueIps(s, cfg) && WindowsOk(s, cfg) && ip != 0 && Live(s, c, ip) && ip !in s.routes
  }

  lemma AssignmentIsFree(s: State, cfg: Config, d: ClientId, hb: Heartbeat)
    requires cfg.Valid() && UniqueIps(s, cfg) && d !in s.sessions
    ensures var (s', ip, _) := AssignIp(s, cfg, d, hb);
            && UniqueIps(s', cfg) && s'.sessions == s.sessions && s'.routes == s.routes
            && (ip != 0 ==> FreeFor(s', cfg, d, ip))
  {
    if !(hb.virtualIp != 0 && !SessionConflict(s, cfg, d, hb.virtualIp) && !PoolConflict(s, d, hb.virtualIp)) {
      AllocationIsFree(s, cfg, d);
    }
  }

  /** A new session with an address nobody claims. */
  lemma EntryKeepsCutOff(s: State, cfg: Config, c: ClientId, ip: Ip, d: ClientId, entered: Ip, prefixLen: u8,
                         deviceName: seq<u8>, now: Time)
    requires CutOff(s, cfg, c, ip) && d !in s.sessions && (entered != 0 ==> FreeFor(s, cfg, d, entered))
    ensures CutOff(Enter(s, d, entered, prefixLen, deviceName, now), cfg, c, ip)
  {
    var session := NewSession(entered, prefixLen, deviceName, now);
    UniqueAfterEntry(s, cfg, d, session);
    if entered != 0 {
      PoolEntryKeepsUnique(InsertSession(s, d, session), cfg, d, entered);
    }
  }

  lemma AdmissionKeepsCutOff(s: State, cfg: Config, c: ClientId, ip: Ip, d: ClientId, hb: Heartbeat, now: Time)
    requires cfg.Valid() && CutOff(s, cfg, c, ip)
    ensures CutOff(Admitted(s, cfg, d, hb, now), cfg, c, ip)
  {
    if d in s.sessions {
      SameIpsKeepsUnique(s, InsertSession(s, d, RefreshSession(s.sessions[d], hb.deviceName, now)), cfg);
    } else {
      var (s1, entered, prefixLen) := AssignIp(s, cfg, d, hb);
      AssignmentIsFree(s, cfg, d, hb);
      assert s1.windows == s.windows;
      EntryKeepsCutOff(s1, cfg, c, ip, d, entered, prefixLen, hb.deviceName, now);
    }
  }

  lemma BeatKeepsCutOff(s: State, cfg: Config, c: ClientId, ip: Ip, d: ClientId, hb: Heartbeat, from: Endpoint,
                        now: Time)
    requires cfg.Valid() && CutOff(s, cfg, c, ip)
    ensures CutOff(RunHeartbeat(s, cfg, d, hb, from, now), cfg, c, ip)
  {
    AdmissionKeepsCutOff(s, cfg, c, ip, d, hb, now);
    var s1 := Admitted(s, cfg, d, hb, now);
    TouchKeepsIps(s1, d, from, hb.path, now);
    SameIpsKeepsUnique(s1, Touch(s1, d, from, hb.path, now), cfg);
  }

  lemma RemovalKeepsUnique(s: State, cfg: Config, now: Time, d: ClientId)
    requires UniqueIps(s, cfg)
    ensures UniqueIps(RunCleanup(s, cfg, now), cfg) && UniqueIps(RunDelete(s, d).0, cfg)
  {
    UniqueAfterKick(s, cfg, d);
    var s1 := SweepSection(s, cfg, now);
    FewerSessionsKeepsUnique(s, s1, cfg);
    ShrinkingKeepsUnique(s1, RunCleanup(s, cfg, now), cfg);
  }

  lemma DataKeepsUnique(s: State, cfg: Config, c: ClientId, number: u32, payload: seq<u8>, from: Endpoint, now: Time)
    requires cfg.Valid() && WindowFits(s, cfg, c) && UniqueIps(s, cfg)
    ensures var s' := HandleData(s, cfg, c, number, payload, from, now).0;
            UniqueIps(s', cfg) && s'.routes == s.routes
  {
    SameIpsKeepsUnique(s, HandleData(s, cfg, c, number, payload, from, now).0, cfg);
  }

  lemma HandleKeepsCutOff(s: State, cfg: Config, c: ClientId, ip: Ip, heard: Time, e: Event)
    requires cfg.Valid() && CutOff(s, cfg, c, ip) && s.sessions[c].lastSeen == heard && Spares(cfg, c, heard, e)
    ensures CutOff(Handle(s, cfg, e).0, cfg, c, ip)
    ensures Handle(s, cfg, e).0.sessions[c].lastSeen == HeardAfter(s, cfg, c, heard, e)
  {
    HandleKeepsSession(s, cfg, c, heard, e);
    HandleKeepsWindows(s, cfg, e);
    match e
    case Beat(d, hb, from, now) =>
      if Accepted(cfg, d, hb) {
        BeatKeepsCutOff(s, cfg, c, ip, d, hb, from, now);
      }
    case Data(d, number, payload, from, now) => DataKeepsUnique(s, cfg, d, number, payload, from, now);
    case Clean(now) => RemovalKeepsUnique(s, cfg, now, 0);
    case Kick(d) => RemovalKeepsUnique(s, cfg, 0, d);
  }

  /**
   A client without a route stays without one, and packets for it are dropped, for as long as it keeps in touch:
   heartbeats of a client that has a session do not enter its route.
   */
  lemma {:induction false} OutageLasts(s: State, cfg: Config, c: ClientId, ip: Ip, heard: Time, events: seq<Event>)
    requires cfg.Valid() && CutOff(s, cfg, c, ip) && s.sessions[c].lastSeen == heard
    requires InTouch(s, cfg, c, heard, events)
    ensures Live(Run(s, cfg, events), c, ip) && RouteTo(Run(s, cfg, events), ip) == Dropped
    decreases |events|
  {
    if events != [] {
      HandleKeepsCutOff(s, cfg, c, ip, heard, events[0]);
      OutageLasts(Handle(s, cfg, events[0]).0, cfg, c, ip, HeardAfter(s, cfg, c, heard, events[0]), events[1..]);
    }
  }

  /**
   One unlucky delete is enough: from every quiet state in which client d may take the address of c, which may be d
   itself, d can be cut off for as long as it keeps in touch.
   */
  lemma DeleteCanCutOff(sys: System, cfg: Config, c: ClientId, d: ClientId, hb: Heartbeat, from: Endpoint, now: Time,
                        events: seq<Event>)
    requires cfg.Valid() && Safe(sys, cfg) && RoutesSound(sys) && Quiet(sys)
    requires d != 0 && MayTake(sys.s, c, d, hb.virtualIp)
    ensures var s := Exec(sys, cfg, DeleteRace(c, d, hb, from, now)).s;
            && WindowsOk(s, cfg)
            && (InTouch(s, cfg, d, now, events) ==>
                  Live(Run(s, cfg, events), d, hb.virtualIp) && RouteTo(Run(s, cfg, events), hb.virtualIp) == Dropped)
  {
    EveryScheduleIsSafe(sys, cfg, DeleteRace(c, d, hb, from, now));
    LiveWithoutRoute(sys, cfg, c, d, hb, from, now);
    var s := Exec(sys, cfg, DeleteRace(c, d, hb, from, now)).s;
    if InTouch(s, cfg, d, now, events) {
      OutageLasts(s, cfg, d, hb.virtualIp, now, events);
    }
  }
}
