/**
 The whole relay: the server's tables and the clients' windows, with the network of module Delivery between them.  The
 abstract world of that module runs beside the real state, and sees the same packets pass.
 */
module Relay {
  import opened Words
  import opened Messages
  import opened Window
  import opened ServerState
  import opened ServerAtomic
  import opened ServerInvariants
  import opened ServerTheorems
  import opened Client
  import Delivery

  type Packet = Delivery.Packet

  /** The real state, what has left the server and been written by it and by the clients, and the world beside it. */
  datatype Net = Net(
    s: State,
    clients: map<ClientId, map<ClientId, Ring>>,
    downlink: set<(ClientId, Packet)>,
    serverTun: seq<Packet>,
    tun: seq<(ClientId, Packet)>,
    world: Delivery.World)

  /** `Tables` is a heartbeat, a cleanup or a delete at the server; `Number` is a number that is not used for data. */
  datatype Move =
    | Tables(e: Event)
    | Originate(c: ClientId, payload: seq<u8>)
    | Number(c: ClientId)
    | ServerSends(payload: seq<u8>)
    | ReachServer(p: Packet, from: Endpoint, now: Time)
    | ReachClient(d: ClientId, p: Packet, tunReady: bool)

  /** The window sizes: the server's is the configured one. */
  ghost predicate Sized(w: Delivery.Sizes, cfg: Config) {
    Delivery.GoodSizes(w) && forall c: ClientId :: w(Delivery.AtServer(c)) == cfg.window
  }

  function WindowsOf(net: Net, d: ClientId): map<ClientId, Ring> {
    if d in net.clients then net.clients[d] else map[]
  }

  function RouteFor(outcome: Outcome): Delivery.Route {
    match outcome
    case Dropped => Delivery.Nowhere
    case ToTun => Delivery.ToServer
    case Forwarded(d, _) => Delivery.ToClient(d)
  }

  predicate Possible(net: Net, cfg: Config, w: Delivery.Sizes, move: Move) {
    match move
    case Tables(e) => !e.Data?
    case Originate(c, _) => c != Delivery.SERVER
    case Number(_) => true
    case ServerSends(_) => true
    case ReachServer(p, _, _) =>
      Delivery.Possible(net.world, w, Delivery.ArriveAtServer(p, Delivery.Nowhere)) && WindowFits(net.s, cfg, p.origin)
    case ReachClient(d, p, tunReady) =>
      Delivery.Possible(net.world, w, Delivery.ArriveAtClient(d, p, tunReady))
      && |WindowOf(WindowsOf(net, d), p.origin, w(Delivery.AtClient(d, p.origin))).bits| > 0
  }

  /** What a move is in the abstract world. */
  function Seen(net: Net, cfg: Config, move: Move): Delivery.Action
    requires cfg.Valid() && (move.Tables? ==> !move.e.Data?) && (move.ReachServer? ==>
                                                                 WindowFits(net.s, cfg, move.p.origin))
  {
    match move
    case Tables(e) => Delivery.DropWindows(net.s.windows.Keys - Handle(net.s, cfg, e).0.windows.Keys)
    case Originate(c, payload) => Delivery.Originate(c, payload)
    case Number(c) => Delivery.Beat(c)
    case ServerSends(payload) =>
      if !IsIpv4(payload) || DstIp(payload) !in net.s.routes then Delivery.DropWindows({})
      else
        var route := RouteTo(net.s, DstIp(payload));
        if route.Forwarded? then Delivery.OriginateAtServer(route.dest, payload) else Delivery.Beat(Delivery.SERVER)
    case ReachServer(p, from, now) =>
      Delivery.ArriveAtServer(p, RouteFor(HandleData(net.s, cfg, p.origin, p.n % TWO32, p.payload, from, now).1))
    case ReachClient(d, p, tunReady) => Delivery.ArriveAtClient(d, p, tunReady)
  }

  /** The real state after a move; the world is left to its own step. */
  function Moved(net: Net, cfg: Config, w: Delivery.Sizes, move: Move): Net
    requires cfg.Valid() && Possible(net, cfg, w, move)
  {
    match move
    case Tables(e) => net.(s := Handle(net.s, cfg, e).0)
    case Originate(_, _) => net
    case Number(_) => net
    case ServerSends(payload) =>
      if !IsIpv4(payload) then net
      else
        var p := Delivery.Packet(Delivery.SERVER, Delivery.NextOf(net.world, Delivery.SERVER), payload);
        var outcome := RouteTo(net.s, DstIp(payload));
        if outcome.Forwarded? then net.(downlink := net.downlink + {(outcome.dest, p)}) else net
    case ReachServer(p, from, now) =>
      var (s', outcome) := HandleData(net.s, cfg, p.origin, p.n % TWO32, p.payload, from, now);
      net.(s := s',
           downlink := if outcome.Forwarded? then net.downlink + {(outcome.dest, p)} else net.downlink,
           serverTun := if outcome.ToTun? then net.serverTun + [p] else net.serverTun)
    case ReachClient(d, p, tunReady) =>
      var size := w(Delivery.AtClient(d, p.origin));
      var (windows, written) := Received(WindowsOf(net, d), size, p.origin, p.n % TWO32, tunReady);
      net.(clients := net.clients[d := windows], tun := if written then net.tun + [(d, p)] else net.tun)
  }

  function Step(net: Net, cfg: Config, w: Delivery.Sizes, move: Move): Net
    requires cfg.Valid() && Possible(net, cfg, w, move)
  {
    Moved(net, cfg, w, move).(world := Delivery.Step(net.world, w, Seen(net, cfg, move)))
  }

  /** The relay after a run; moves that are not possible are skipped. */
  function Run(net: Net, cfg: Config, w: Delivery.Sizes, moves: seq<Move>): Net
    requires cfg.Valid()
    decreases |moves|
  {
    if moves == [] then net
    else if Possible(net, cfg, w, moves[0]) then Run(Step(net, cfg, w, moves[0]), cfg, w, moves[1..])
    else Run(net, cfg, w, moves[1..])
  }

  /** A relay with the given tables and nothing on the way. */
  function Begin(s: State): Net {
    Net(s, map[], {}, [], [], Delivery.START)
  }

  // ----- the two views agree -----

  /** The real windows are those of the world. */
  ghost predicate SameWindows(net: Net, cfg: Config, w: Delivery.Sizes) {
    && (forall c: ClientId ::
          WindowOf(net.s.windows, c, cfg.window) == Delivery.WindowAt(net.world, Delivery.AtServer(c), w))
    && (forall d: ClientId, c: ClientId ::
          WindowOf(WindowsOf(net, d), c, w(Delivery.AtClient(d, c)))
          == Delivery.WindowAt(net.world, Delivery.AtClient(d, c), w))
  }

  /** The real packets are those of the world. */
  ghost predicate SamePackets(net: Net) {
    net.downlink == net.world.downlink && net.serverTun == net.world.serverTun && net.tun == net.world.tun
  }

  ghost predicate Good(net: Net, cfg: Config, w: Delivery.Sizes) {
    && Exact(net.s, cfg)
    && Delivery.Inv(net.world, w)
    && SameWindows(net, cfg, w)
    && SamePackets(net)
  }

  /** A move that leaves all windows alone. */
  lemma WindowsUntouched(net: Net, net': Net, cfg: Config, w: Delivery.Sizes)
    requires SameWindows(net, cfg, w) && net'.s.windows == net.s.windows && net'.clients == net.clients
    requires net'.world.windows == net.world.windows
    ensures SameWindows(net', cfg, w)
  {
    forall hop: Delivery.Hop
      ensures Delivery.WindowAt(net'.world, hop, w) == Delivery.WindowAt(net.world, hop, w)
    {
    }
    assert forall d: ClientId :: WindowsOf(net', d) == WindowsOf(net, d);
  }

  /** A move that moves the server's window for one client. */
  lemma ServerWindowMoved(net: Net, net': Net, cfg: Config, w: Delivery.Sizes, c: ClientId, r: Ring)
    requires SameWindows(net, cfg, w) && net'.s.windows == net.s.windows[c := r] && net'.clients == net.clients
    requires net'.world.windows == net.world.windows[Delivery.AtServer(c) := r]
    ensures SameWindows(net', cfg, w)
  {
    forall other: ClientId
      ensures WindowOf(net'.s.windows, other, cfg.window) == Delivery.WindowAt(net'.world, Delivery.AtServer(other), w)
    {
      assert WindowOf(net.s.windows, other, cfg.window) == Delivery.WindowAt(net.world, Delivery.AtServer(other), w);
    }
    forall d: ClientId, other: ClientId
      ensures Delivery.WindowAt(net'.world, Delivery.AtClient(d, other), w)
              == Delivery.WindowAt(net.world, Delivery.AtClient(d, other), w)
    {
    }
  }

  /** A move that moves one client's window for one sender. */
  lemma ClientWindowMoved(net: Net, net': Net, cfg: Config, w: Delivery.Sizes, d: ClientId, c: ClientId, r: Ring)
    requires SameWindows(net, cfg, w) && net'.s.windows == net.s.windows
    requires net'.clients == net.clients[d := WindowsOf(net, d)[c := r]]
    requires net'.world.windows == net.world.windows[Delivery.AtClient(d, c) := r]
    ensures SameWindows(net', cfg, w)
  {
    forall other: ClientId
      ensures Delivery.WindowAt(net'.world, Delivery.AtServer(other), w)
              == Delivery.WindowAt(net.world, Delivery.AtServer(other), w)
    {
    }
    forall e: ClientId, other: ClientId
      ensures WindowOf(WindowsOf(net', e), other, w(Delivery.AtClient(e, other)))
              == Delivery.WindowAt(net'.world, Delivery.AtClient(e, other), w)
    {
      assert WindowOf(WindowsOf(net, e), other, w(Delivery.AtClient(e, other)))
             == Delivery.WindowAt(net.world, Delivery.AtClient(e, other), w);
    }
  }

  /** A move that drops windows of the server. */
  lemma ServerWindowsDropped(net: Net, net': Net, cfg: Config, w: Delivery.Sizes, gone: set<ClientId>)
    requires Sized(w, cfg) && SameWindows(net, cfg, w)
    requires net'.s.windows == net.s.windows - gone && net'.clients == net.clients
    requires net'.world.windows == net.world.windows - Delivery.ServerHops(gone)
    ensures SameWindows(net', cfg, w)
  {
    var hops := Delivery.ServerHops(gone);
    forall c: ClientId
      ensures WindowOf(net'.s.windows, c, cfg.window) == Delivery.WindowAt(net'.world, Delivery.AtServer(c), w)
    {
      assert WindowOf(net.s.windows, c, cfg.window) == Delivery.WindowAt(net.world, Delivery.AtServer(c), w);
      assert Delivery.AtServer(c) in hops <==> c in gone;
      assert w(Delivery.AtServer(c)) == cfg.window;
    }
    forall d: ClientId, c: ClientId
      ensures Delivery.WindowAt(net'.world, Delivery.AtClient(d, c), w)
              == Delivery.WindowAt(net.world, Delivery.AtClient(d, c), w)
    {
      assert Delivery.AtClient(d, c) !in hops;
    }
  }

  lemma TablesKeep(net: Net, cfg: Config, w: Delivery.Sizes, e: Event)
    requires cfg.Valid() && Sized(w, cfg) && Good(net, cfg, w) && !e.Data?
    ensures Good(Step(net, cfg, w, Tables(e)), cfg, w)
  {
    var net' := Step(net, cfg, w, Tables(e));
    HandleKeepsExact(net.s, cfg, e);
    Delivery.StepKeeps(net.world, w, Seen(net, cfg, Tables(e)));
    OnlyDrops(net.s, cfg, e);
    ServerWindowsDropped(net, net', cfg, w, net.s.windows.Keys - net'.s.windows.Keys);
  }

  /** Heartbeats, cleanups and deletes change no window that they leave. */
  lemma OnlyDrops(s: State, cfg: Config, e: Event)
    requires cfg.Valid() && !e.Data?
    ensures var windows := Handle(s, cfg, e).0.windows;
            windows == s.windows - (s.windows.Keys - windows.Keys)
  {
    var windows := Handle(s, cfg, e).0.windows;
    if e.Beat? {
      BeatKeepsWindows(s, cfg, e.c, e.hb, e.from, e.now);
    }
    assert forall c :: c in windows ==> c in s.windows && windows[c] == s.windows[c];
  }

  /** The window decision of the server is that of the world. */
  lemma ServerDecides(net: Net, cfg: Config, w: Delivery.Sizes, p: Packet, from: Endpoint, now: Time)
    requires cfg.Valid() && SameWindows(net, cfg, w) && Possible(net, cfg, w, ReachServer(p, from, now))
    ensures var (s', outcome) := HandleData(net.s, cfg, p.origin, p.n % TWO32, p.payload, from, now);
            var r := RingStep(Delivery.WindowAt(net.world, Delivery.AtServer(p.origin), w), p.n % TWO32);
            && (outcome != Dropped ==> !r.1)
            && s'.windows == net.s.windows[p.origin := r.0]
  {
    assert WindowOf(net.s.windows, p.origin, cfg.window)
           == Delivery.WindowAt(net.world, Delivery.AtServer(p.origin), w);
  }

  lemma ServerKeepsWindows(net: Net, cfg: Config, w: Delivery.Sizes, p: Packet, from: Endpoint, now: Time)
    requires cfg.Valid() && SameWindows(net, cfg, w) && Possible(net, cfg, w, ReachServer(p, from, now))
    ensures SameWindows(Step(net, cfg, w, ReachServer(p, from, now)), cfg, w)
  {
    var move := ReachServer(p, from, now);
    var r := RingStep(Delivery.WindowAt(net.world, Delivery.AtServer(p.origin), w), p.n % TWO32).0;
    ServerDecides(net, cfg, w, p, from, now);
    Delivery.ArrivalWindows(net.world, w, Seen(net, cfg, move));
    ServerWindowMoved(net, Step(net, cfg, w, move), cfg, w, p.origin, r);
  }

  lemma ServerKeepsPackets(net: Net, cfg: Config, w: Delivery.Sizes, p: Packet, from: Endpoint, now: Time)
    requires cfg.Valid() && SameWindows(net, cfg, w) && SamePackets(net)
    requires Possible(net, cfg, w, ReachServer(p, from, now))
    ensures SamePackets(Step(net, cfg, w, ReachServer(p, from, now)))
  {
    ServerDecides(net, cfg, w, p, from, now);
  }

  lemma ServerKeeps(net: Net, cfg: Config, w: Delivery.Sizes, p: Packet, from: Endpoint, now: Time)
    requires cfg.Valid() && Sized(w, cfg) && Good(net, cfg, w) && Possible(net, cfg, w, ReachServer(p, from, now))
    ensures Good(Step(net, cfg, w, ReachServer(p, from, now)), cfg, w)
  {
    DataKeepsExact(net.s, cfg, p.origin, p.n % TWO32, p.payload, from, now);
    Delivery.StepKeeps(net.world, w, Seen(net, cfg, ReachServer(p, from, now)));
    ServerKeepsWindows(net, cfg, w, p, from, now);
    ServerKeepsPackets(net, cfg, w, p, from, now);
  }

  lemma ClientKeepsWindows(net: Net, cfg: Config, w: Delivery.Sizes, d: ClientId, p: Packet, tunReady: bool)
    requires cfg.Valid() && SameWindows(net, cfg, w) && Possible(net, cfg, w, ReachClient(d, p, tunReady))
    ensures SameWindows(Step(net, cfg, w, ReachClient(d, p, tunReady)), cfg, w)
  {
    var move, hop := ReachClient(d, p, tunReady), Delivery.AtClient(d, p.origin);
    assert WindowOf(WindowsOf(net, d), p.origin, w(hop)) == Delivery.WindowAt(net.world, hop, w);
    Delivery.ArrivalWindows(net.world, w, Seen(net, cfg, move));
    var r := RingStep(Delivery.WindowAt(net.world, hop, w), p.n % TWO32).0;
    ClientWindowMoved(net, Step(net, cfg, w, move), cfg, w, d, p.origin, r);
  }

  lemma ClientKeepsPackets(net: Net, cfg: Config, w: Delivery.Sizes, d: ClientId, p: Packet, tunReady: bool)
    requires cfg.Valid() && SameWindows(net, cfg, w) && SamePackets(net)
    requires Possible(net, cfg, w, ReachClient(d, p, tunReady))
    ensures SamePackets(Step(net, cfg, w, ReachClient(d, p, tunReady)))
  {
    var hop := Delivery.AtClient(d, p.origin);
    assert WindowOf(WindowsOf(net, d), p.origin, w(hop)) == Delivery.WindowAt(net.world, hop, w);
  }

  lemma ClientKeeps(net: Net, cfg: Config, w: Delivery.Sizes, d: ClientId, p: Packet, tunReady: bool)
    requires cfg.Valid() && Sized(w, cfg) && Good(net, cfg, w) && Possible(net, cfg, w, ReachClient(d, p, tunReady))
    ensures Good(Step(net, cfg, w, ReachClient(d, p, tunReady)), cfg, w)
  {
    Delivery.StepKeeps(net.world, w, Seen(net, cfg, ReachClient(d, p, tunReady)));
    ClientKeepsWindows(net, cfg, w, d, p, tunReady);
    ClientKeepsPackets(net, cfg, w, d, p, tunReady);
  }

  lemma SendingLeavesWindows(net: Net, cfg: Config, w: Delivery.Sizes, move: Move)
    requires cfg.Valid() && Possible(net, cfg, w, move) && (move.Originate? || move.Number? || move.ServerSends?)
    ensures var net' := Step(net, cfg, w, move);
            net'.s == net.s && net'.clients == net.clients && net'.world.windows == net.world.windows
  {
    assert Delivery.ServerHops({}) == {};
    assert net.world.windows - {} == net.world.windows;
  }

  lemma SendingKeepsPackets(net: Net, cfg: Config, w: Delivery.Sizes, move: Move)
    requires cfg.Valid() && Possible(net, cfg, w, move) && (move.Originate? || move.Number? || move.ServerSends?)
    requires SamePackets(net)
    ensures SamePackets(Step(net, cfg, w, move))
  {
  }

  lemma SendingKeeps(net: Net, cfg: Config, w: Delivery.Sizes, move: Move)
    requires cfg.Valid() && Sized(w, cfg) && Good(net, cfg, w) && Possible(net, cfg, w, move)
    requires move.Originate? || move.Number? || move.ServerSends?
    ensures Good(Step(net, cfg, w, move), cfg, w)
  {
    Delivery.StepKeeps(net.world, w, Seen(net, cfg, move));
    SendingLeavesWindows(net, cfg, w, move);
    WindowsUntouched(net, Step(net, cfg, w, move), cfg, w);
    SendingKeepsPackets(net, cfg, w, move);
  }

  lemma StepKeeps(net: Net, cfg: Config, w: Delivery.Sizes, move: Move)
    requires cfg.Valid() && Sized(w, cfg) && Good(net, cfg, w) && Possible(net, cfg, w, move)
    ensures Good(Step(net, cfg, w, move), cfg, w)
  {
    match move
    case Tables(e) => TablesKeep(net, cfg, w, e);
    case Originate(_, _) => SendingKeeps(net, cfg, w, move);
    case Number(_) => SendingKeeps(net, cfg, w, move);
    case ServerSends(_) => SendingKeeps(net, cfg, w, move);
    case ReachServer(p, from, now) => ServerKeeps(net, cfg, w, p, from, now);
    case ReachClient(d, p, tunReady) => ClientKeeps(net, cfg, w, d, p, tunReady);
  }

  lemma {:induction false} RunKeeps(net: Net, cfg: Config, w: Delivery.Sizes, moves: seq<Move>)
    requires cfg.Valid() && Sized(w, cfg) && Good(net, cfg, w)
    ensures Good(Run(net, cfg, w, moves), cfg, w)
    decreases |moves|
  {
    if moves != [] {
      if Possible(net, cfg, w, moves[0]) {
        StepKeeps(net, cfg, w, moves[0]);
        RunKeeps(Step(net, cfg, w, moves[0]), cfg, w, moves[1..]);
      } else {
        RunKeeps(net, cfg, w, moves[1..]);
      }
    }
  }

  lemma BeginIsGood(s: State, cfg: Config, w: Delivery.Sizes)
    requires Sized(w, cfg) && Exact(s, cfg) && s.windows == map[]
    ensures Good(Begin(s), cfg, w)
  {
    Delivery.StartIsFine(w);
    forall c: ClientId
      ensures w(Delivery.AtServer(c)) == cfg.window
    {
    }
  }

  // ----- where packets come from and where they go -----

  /**
   The move sends packet p to client d: the tables give d the destination, and the origin, if a client, the source.
   */
  predicate SendsTo(net: Net, move: Move, d: ClientId, p: Packet) {
    && IsIpv4(p.payload)
    && Live(net.s, d, DstIp(p.payload))
    && if p.origin == Delivery.SERVER then move == ServerSends(p.payload)
       else move.ReachServer? && move.p == p && Live(net.s, p.origin, SrcIp(p.payload))
  }

  lemma NewOnDownlink(net: Net, cfg: Config, w: Delivery.Sizes, move: Move, d: ClientId, p: Packet)
    requires cfg.Valid() && Sized(w, cfg) && Good(net, cfg, w) && Possible(net, cfg, w, move)
    requires (d, p) in Step(net, cfg, w, move).downlink && (d, p) !in net.downlink
    ensures SendsTo(net, move, d, p)
  {
    if move.ReachServer? {
      var outcome := HandleData(net.s, cfg, p.origin, p.n % TWO32, p.payload, move.from, move.now).1;
      ForwardedIff(net.s, cfg, p.origin, p.n % TWO32, p.payload, move.from, move.now, d, outcome.to);
    } else {
      var outcome := RouteTo(net.s, DstIp(p.payload));
      RouteToIff(net.s, cfg, DstIp(p.payload), d, outcome.to);
    }
  }

  /** A copy of packet p that reaches the server is the first, and from its origin's address. */
  ghost predicate FirstAccepted(net: Net, p: Packet) {
    && !Delivery.Heard(Delivery.HeardAt(net.world, Delivery.AtServer(p.origin)), p.n)
    && IsIpv4(p.payload) && Live(net.s, p.origin, SrcIp(p.payload))
  }

  /** Client d holds the address `ip` and has been heard from. */
  predicate CanBeSent(s: State, d: ClientId, ip: Ip) {
    ip != 0 && Live(s, d, ip) && s.sessions[d].addrs != map[]
  }

  lemma ServerHears(net: Net, cfg: Config, w: Delivery.Sizes, p: Packet, from: Endpoint, now: Time)
    requires cfg.Valid() && Sized(w, cfg) && Good(net, cfg, w) && Possible(net, cfg, w, ReachServer(p, from, now))
    ensures Delivery.Heard(Delivery.HeardAt(net.world, Delivery.AtServer(p.origin)), p.n)
            <==> RingStep(WindowOf(net.s.windows, p.origin, cfg.window), p.n % TWO32).1
  {
    Delivery.ReceiveAgrees(net.world, w, Delivery.AtServer(p.origin), p.n);
    assert WindowOf(net.s.windows, p.origin, cfg.window)
           == Delivery.WindowAt(net.world, Delivery.AtServer(p.origin), w);
  }

  /**
   A packet that reaches the server enters its TUN device exactly if it is the first copy, from its origin's address and
   for the server, and there is such a device.
   */
  lemma EntersServerTunIff(net: Net, cfg: Config, w: Delivery.Sizes, p: Packet, from: Endpoint, now: Time)
    requires cfg.Valid() && Sized(w, cfg) && Good(net, cfg, w) && Possible(net, cfg, w, ReachServer(p, from, now))
    ensures Step(net, cfg, w, ReachServer(p, from, now)).serverTun
            == if FirstAccepted(net, p) && DstIp(p.payload) == cfg.serverIp && cfg.hasTun then net.serverTun + [p]
               else net.serverTun
  {
    ServerHears(net, cfg, w, p, from, now);
    ToTunIff(net.s, cfg, p.origin, p.n % TWO32, p.payload, from, now);
  }

  /**
   It is put on the network for a client exactly if it is the first copy, from its origin's address, and not for the
   server but for the address of that client, which has been heard from.
   */
  lemma EntersDownlinkIff(net: Net, cfg: Config, w: Delivery.Sizes, p: Packet, from: Endpoint, now: Time)
    requires cfg.Valid() && Sized(w, cfg) && Good(net, cfg, w) && Possible(net, cfg, w, ReachServer(p, from, now))
    ensures var downlink := Step(net, cfg, w, ReachServer(p, from, now)).downlink;
            && (forall d :: FirstAccepted(net, p) && DstIp(p.payload) != cfg.serverIp
                            && CanBeSent(net.s, d, DstIp(p.payload)) ==>
                  downlink == net.downlink + {(d, p)})
            && (downlink == net.downlink
                || exists d :: FirstAccepted(net, p) && DstIp(p.payload) != cfg.serverIp
                               && CanBeSent(net.s, d, DstIp(p.payload)))
  {
    ServerHears(net, cfg, w, p, from, now);
    var outcome := HandleData(net.s, cfg, p.origin, p.n % TWO32, p.payload, from, now).1;
    forall d | FirstAccepted(net, p) && DstIp(p.payload) != cfg.serverIp && CanBeSent(net.s, d, DstIp(p.payload))
      ensures outcome.Forwarded? && outcome.dest == d
    {
      ForwardedIff(net.s, cfg, p.origin, p.n % TWO32, p.payload, from, now, d, net.s.sessions[d].addrs.Keys);
    }
    if outcome.Forwarded? {
      ForwardedIff(net.s, cfg, p.origin, p.n % TWO32, p.payload, from, now, outcome.dest, outcome.to);
      assert FirstAccepted(net, p) && CanBeSent(net.s, outcome.dest, DstIp(p.payload));
    }
  }

  /** A packet from the server's own TUN device is put on the network for the client whose address it is for, if any. */
  lemma OwnPacketsAreSent(net: Net, cfg: Config, w: Delivery.Sizes, payload: seq<u8>)
    requires cfg.Valid() && Good(net, cfg, w)
    ensures var net' := Step(net, cfg, w, ServerSends(payload));
            var p := Delivery.Packet(Delivery.SERVER, Delivery.NextOf(net.world, Delivery.SERVER), payload);
            && (forall d :: IsIpv4(payload) && CanBeSent(net.s, d, DstIp(payload)) ==>
                  net'.downlink == net.downlink + {(d, p)})
            && (net'.downlink == net.downlink || exists d :: IsIpv4(payload) && CanBeSent(net.s, d, DstIp(payload)))
  {
    if IsIpv4(payload) {
      var outcome := RouteTo(net.s, DstIp(payload));
      forall d | CanBeSent(net.s, d, DstIp(payload))
        ensures outcome.Forwarded? && outcome.dest == d
      {
        RouteToIff(net.s, cfg, DstIp(payload), d, net.s.sessions[d].addrs.Keys);
      }
      if outcome.Forwarded? {
        RouteToIff(net.s, cfg, DstIp(payload), outcome.dest, outcome.to);
        assert CanBeSent(net.s, outcome.dest, DstIp(payload));
      }
    }
  }

  /** A client writes a packet that reaches it exactly if it is the first copy and there is a TUN device. */
  lemma IsWrittenIff(net: Net, cfg: Config, w: Delivery.Sizes, d: ClientId, p: Packet, tunReady: bool)
    requires cfg.Valid() && Sized(w, cfg) && Good(net, cfg, w) && Possible(net, cfg, w, ReachClient(d, p, tunReady))
    ensures Step(net, cfg, w, ReachClient(d, p, tunReady)).tun
            == if !Delivery.Heard(Delivery.HeardAt(net.world, Delivery.AtClient(d, p.origin)), p.n) && tunReady
               then net.tun + [(d, p)] else net.tun
  {
    var hop := Delivery.AtClient(d, p.origin);
    Delivery.ReceiveAgrees(net.world, w, hop, p.n);
    assert WindowOf(WindowsOf(net, d), p.origin, w(hop)) == Delivery.WindowAt(net.world, hop, w);
  }

  /** Move i of the run writes packet p to the server's TUN device: it was for the server, from its origin's address. */
  ghost predicate KeptBy(net: Net, cfg: Config, w: Delivery.Sizes, moves: seq<Move>, i: nat, p: Packet)
    requires cfg.Valid()
  {
    && i < |moves| && moves[i].ReachServer? && moves[i].p == p
    && IsIpv4(p.payload) && DstIp(p.payload) == cfg.serverIp
    && Live(Run(net, cfg, w, moves[..i]).s, p.origin, SrcIp(p.payload))
  }

  lemma KeptLater(net: Net, cfg: Config, w: Delivery.Sizes, moves: seq<Move>, i: nat, p: Packet)
    requires cfg.Valid() && moves != []
    requires var net' := if Possible(net, cfg, w, moves[0]) then Step(net, cfg, w, moves[0]) else net;
             KeptBy(net', cfg, w, moves[1..], i, p)
    ensures KeptBy(net, cfg, w, moves, i + 1, p)
  {
    assert moves[..i + 1][0] == moves[0] && moves[..i + 1][1..] == moves[1..][..i];
  }

  lemma NewInServerTun(net: Net, cfg: Config, w: Delivery.Sizes, moves: seq<Move>, p: Packet)
    requires cfg.Valid() && Sized(w, cfg) && Good(net, cfg, w) && moves != [] && Possible(net, cfg, w, moves[0])
    requires p in Step(net, cfg, w, moves[0]).serverTun && p !in net.serverTun
    ensures KeptBy(net, cfg, w, moves, 0, p)
  {
    assert moves[0].ReachServer?;
    EntersServerTunIff(net, cfg, w, moves[0].p, moves[0].from, moves[0].now);
    assert moves[..0] == [];
  }

  lemma {:induction false} ServerTunWasKept(net: Net, cfg: Config, w: Delivery.Sizes, moves: seq<Move>, p: Packet)
    requires cfg.Valid() && Sized(w, cfg) && Good(net, cfg, w)
    requires p in Run(net, cfg, w, moves).serverTun && p !in net.serverTun
    ensures exists i :: KeptBy(net, cfg, w, moves, i, p)
    decreases |moves|
  {
    if !Possible(net, cfg, w, moves[0]) {
      ServerTunWasKept(net, cfg, w, moves[1..], p);
      var i :| KeptBy(net, cfg, w, moves[1..], i, p);
      KeptLater(net, cfg, w, moves, i, p);
    } else if p in Step(net, cfg, w, moves[0]).serverTun {
      NewInServerTun(net, cfg, w, moves, p);
    } else {
      StepKeeps(net, cfg, w, moves[0]);
      ServerTunWasKept(Step(net, cfg, w, moves[0]), cfg, w, moves[1..], p);
      var i :| KeptBy(Step(net, cfg, w, moves[0]), cfg, w, moves[1..], i, p);
      KeptLater(net, cfg, w, moves, i, p);
    }
  }

  /** Move i of the run sends packet p to client d. */
  ghost predicate SentBy(net: Net, cfg: Config, w: Delivery.Sizes, moves: seq<Move>, i: nat, d: ClientId, p: Packet)
    requires cfg.Valid()
  {
    i < |moves| && SendsTo(Run(net, cfg, w, moves[..i]), moves[i], d, p)
  }

  lemma {:induction false} DownlinkWasSent(net: Net, cfg: Config, w: Delivery.Sizes, moves: seq<Move>, d: ClientId,
                                           p: Packet)
    requires cfg.Valid() && Sized(w, cfg) && Good(net, cfg, w)
    requires (d, p) in Run(net, cfg, w, moves).downlink && (d, p) !in net.downlink
    ensures exists i :: SentBy(net, cfg, w, moves, i, d, p)
    decreases |moves|
  {
    var first, rest := moves[0], moves[1..];
    if !Possible(net, cfg, w, first) {
      DownlinkWasSent(net, cfg, w, rest, d, p);
      var i :| SentBy(net, cfg, w, rest, i, d, p);
      SentLater(net, cfg, w, moves, i, d, p);
    } else if (d, p) in Step(net, cfg, w, first).downlink {
      NewOnDownlink(net, cfg, w, first, d, p);
      assert moves[..0] == [];
      assert SentBy(net, cfg, w, moves, 0, d, p);
    } else {
      StepKeeps(net, cfg, w, first);
      DownlinkWasSent(Step(net, cfg, w, first), cfg, w, rest, d, p);
      var i :| SentBy(Step(net, cfg, w, first), cfg, w, rest, i, d, p);
      SentLater(net, cfg, w, moves, i, d, p);
    }
  }

  lemma SentLater(net: Net, cfg: Config, w: Delivery.Sizes, moves: seq<Move>, i: nat, d: ClientId, p: Packet)
    requires cfg.Valid() && moves != []
    requires var net' := if Possible(net, cfg, w, moves[0]) then Step(net, cfg, w, moves[0]) else net;
             SentBy(net', cfg, w, moves[1..], i, d, p)
    ensures SentBy(net, cfg, w, moves, i + 1, d, p)
  {
    assert moves[..i + 1][0] == moves[0] && moves[..i + 1][1..] == moves[1..][..i];
  }

  // ----- the whole relay -----

  /** No window of the server is dropped in the run. */
  predicate KeepsWindows(net: Net, cfg: Config, w: Delivery.Sizes, moves: seq<Move>)
    requires cfg.Valid()
    decreases |moves|
  {
    moves == []
    || if Possible(net, cfg, w, moves[0]) then
         var net' := Step(net, cfg, w, moves[0]);
         net.s.windows.Keys <= net'.s.windows.Keys && KeepsWindows(net', cfg, w, moves[1..])
       else KeepsWindows(net, cfg, w, moves[1..])
  }

  lemma StepKeepsOnePlace(net: Net, cfg: Config, w: Delivery.Sizes, move: Move)
    requires cfg.Valid() && Sized(w, cfg) && Good(net, cfg, w) && Delivery.OnePlace(net.world)
        && Possible(net, cfg, w, move)
    requires net.s.windows.Keys <= Step(net, cfg, w, move).s.windows.Keys
    ensures Delivery.OnePlace(Step(net, cfg, w, move).world)
  {
    if move.Tables? {
      assert net.s.windows.Keys - Step(net, cfg, w, move).s.windows.Keys == {};
    }
    assert Delivery.KeepsWindows(Seen(net, cfg, move));
    Delivery.StepKeepsOnePlace(net.world, w, Seen(net, cfg, move));
  }

  lemma {:induction false} RunKeepsOnePlace(net: Net, cfg: Config, w: Delivery.Sizes, moves: seq<Move>)
    requires cfg.Valid() && Sized(w, cfg) && Good(net, cfg, w) && Delivery.OnePlace(net.world)
    requires KeepsWindows(net, cfg, w, moves)
    ensures Delivery.OnePlace(Run(net, cfg, w, moves).world)
    decreases |moves|
  {
    if moves != [] {
      if Possible(net, cfg, w, moves[0]) {
        StepKeeps(net, cfg, w, moves[0]);
        StepKeepsOnePlace(net, cfg, w, moves[0]);
        RunKeepsOnePlace(Step(net, cfg, w, moves[0]), cfg, w, moves[1..]);
      } else {
        RunKeepsOnePlace(net, cfg, w, moves[1..]);
      }
    }
  }

  /**
   In every run of the relay, with cleanups and deletes, each packet that a client writes was originated as written,
   came from its origin's registered address and was addressed to the client that writes it when the server sent it
   on; the same holds of what the server writes, except that it was addressed to the server; and no client writes a
   packet twice.  If the server drops no window, no packet is written in two places.
   */
  lemma PacketsReachTheirAddressee(s: State, cfg: Config, w: Delivery.Sizes, moves: seq<Move>)
    requires cfg.Valid() && Sized(w, cfg) && Exact(s, cfg) && s.windows == map[]
    ensures var net := Run(Begin(s), cfg, w, moves);
            && Delivery.WritesNoRepeats(net.tun)
            && (forall d, p :: (d, p) in net.tun ==>
                  p in net.world.sent && exists i :: SentBy(Begin(s), cfg, w, moves, i, d, p))
            && (forall p :: p in net.serverTun ==>
                  p in net.world.sent && exists i :: KeptBy(Begin(s), cfg, w, moves, i, p))
            && (KeepsWindows(Begin(s), cfg, w, moves) ==>
                  Delivery.WrittenInOnePlace(net.world) && net.tun == net.world.tun
                      && net.serverTun == net.world.serverTun)
  {
    BeginIsGood(s, cfg, w);
    RunKeeps(Begin(s), cfg, w, moves);
    var net := Run(Begin(s), cfg, w, moves);
    Delivery.InvWritesNoRepeats(net.world, w);
    forall d, p | (d, p) in net.tun
      ensures exists i :: SentBy(Begin(s), cfg, w, moves, i, d, p)
    {
      assert (d, p) in net.downlink;
      DownlinkWasSent(Begin(s), cfg, w, moves, d, p);
    }
    forall p | p in net.serverTun
      ensures exists i :: KeptBy(Begin(s), cfg, w, moves, i, p)
    {
      ServerTunWasKept(Begin(s), cfg, w, moves, p);
    }
    if KeepsWindows(Begin(s), cfg, w, moves) {
      Delivery.StartIsFine(w);
      RunKeepsOnePlace(Begin(s), cfg, w, moves);
      Delivery.OnePlaceMeans(net.world, w);
    }
  }
}
