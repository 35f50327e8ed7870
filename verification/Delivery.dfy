/**
 End-to-end delivery: clients number their packets, redundant copies go through a network that loses, repeats
 and reorders them to the server, which writes each packet to its own TUN device or passes it on to the client it is
 routed to, again through such a network.  The server also sends packets of its own, under client id 0.
 */
module Delivery {
  import opened Words
  import opened Messages
  import opened Window
  import opened WindowTheorems

  /** A data packet; `n` is its number without the reduction modulo 2^32 that the wire applies. */
  datatype Packet = Packet(origin: ClientId, n: nat, payload: seq<u8>)

  /** The places that drop repeated packets: the server's window for a sender, and a client's window for a sender. */
  datatype Hop = AtServer(origin: ClientId) | AtClient(client: ClientId, origin: ClientId)

  /**
   `sent` holds every packet ever numbered, and `downlink` every packet the server has put on the network: any copy may
   still arrive, any number of times, or never.  `heard` is what has arrived at each hop, beside the windows that the
   hops really keep.  `serverTun` and `tun` are what the server and the clients have written to their TUN devices, and
   `missed` the packets whose first copy reached a client that had no such device.
   */
  datatype World = World(
    next: map<ClientId, nat>,
    sent: set<Packet>,
    windows: map<Hop, Ring>,
    heard: map<Hop, History>,
    downlink: set<(ClientId, Packet)>,
    serverTun: seq<Packet>,
    tun: seq<(ClientId, Packet)>,
    missed: set<(ClientId, Packet)>)

  const SERVER: ClientId := 0

  const START := World(map[], {}, map[], map[], {}, [], [], {})

  /** What the server does with a packet that is not a duplicate. */
  datatype Route = Nowhere | ToServer | ToClient(d: ClientId)

  datatype Action =
    | Originate(c: ClientId, payload: seq<u8>)
    | OriginateAtServer(d: ClientId, payload: seq<u8>)
    | Beat(c: ClientId)
    | ArriveAtServer(p: Packet, route: Route)
    | ArriveAtClient(d: ClientId, p: Packet, hasTun: bool)
    | DropWindows(gone: set<ClientId>)

  /** The window size at each hop: the server and every client choose their own. */
  type Sizes = Hop -> nat

  ghost predicate GoodSizes(w: Sizes) {
    forall hop: Hop :: 0 < w(hop) < TWO32 && TWO32 % w(hop) == 0
  }

  function NextOf(world: World, c: ClientId): nat {
    if c in world.next then world.next[c] else 0
  }

  function WindowAt(world: World, hop: Hop, w: Sizes): Ring {
    if hop in world.windows then world.windows[hop] else EmptyRing(w(hop))
  }

  function HeardAt(world: World, hop: Hop): History {
    if hop in world.heard then world.heard[hop] else Nothing
  }

  function Hear(h: History, n: int): History {
    match h
    case Nothing => Epoch(n, {n})
    case Epoch(top, accepted) => Epoch(if n > top then n else top, accepted + {n})
  }

  predicate Heard(h: History, n: int) {
    h.Epoch? && n in h.accepted
  }

  /** The network delays a packet by less than a window, and numbers do not run away by 2^31 while packets get lost. */
  predicate InTime(h: History, n: int, w: nat) {
    h.Epoch? ==> Near(h.top, n, w)
  }

  /** A copy of packet n can arrive at the hop. */
  predicate MayArrive(world: World, w: Sizes, hop: Hop, n: nat) {
    InTime(HeardAt(world, hop), n, w(hop)) && |WindowAt(world, hop, w).bits| > 0
  }

  predicate Possible(world: World, w: Sizes, act: Action) {
    match act
    case Originate(c, _) => c != SERVER
    case OriginateAtServer(_, _) => true
    case Beat(_) => true
    case ArriveAtServer(p, _) => p in world.sent && p.origin != SERVER && MayArrive(world, w, AtServer(p.origin), p.n)
    case ArriveAtClient(d, p, _) => (d, p) in world.downlink && MayArrive(world, w, AtClient(d, p.origin), p.n)
    case DropWindows(_) => true
  }

  /** A copy arrives at a hop: its window decides whether the copy is dropped. */
  function Receive(world: World, hop: Hop, n: nat, w: Sizes): (World, bool)
    requires |WindowAt(world, hop, w).bits| > 0
  {
    var (r, dup) := RingStep(WindowAt(world, hop, w), n % TWO32);
    (world.(windows := world.windows[hop := r], heard := world.heard[hop := Hear(HeardAt(world, hop), n)]), dup)
  }

  /** The server deals with a packet that is not a duplicate. */
  function Pass(world: World, p: Packet, route: Route): World {
    match route
    case Nowhere => world
    case ToServer => world.(serverTun := world.serverTun + [p])
    case ToClient(d) => world.(downlink := world.downlink + {(d, p)})
  }

  /** A client deals with a packet that is not a duplicate. */
  function Write(world: World, d: ClientId, p: Packet, hasTun: bool): World {
    if hasTun then world.(tun := world.tun + [(d, p)]) else world.(missed := world.missed + {(d, p)})
  }

  function ServerHops(gone: set<ClientId>): set<Hop> {
    set c | c in gone :: AtServer(c)
  }

  function Step(world: World, w: Sizes, act: Action): World
    requires Possible(world, w, act)
  {
    match act
    case Originate(c, payload) =>
      world.(next := world.next[c := NextOf(world, c) + 1],
             sent := world.sent + {Packet(c, NextOf(world, c), payload)})
    case OriginateAtServer(d, payload) =>
      var p := Packet(SERVER, NextOf(world, SERVER), payload);
      world.(next := world.next[SERVER := NextOf(world, SERVER) + 1],
             sent := world.sent + {p},
             downlink := world.downlink + {(d, p)})
    case Beat(c) =>
      world.(next := world.next[c := NextOf(world, c) + 1])
    case ArriveAtServer(p, route) =>
      var (world', dup) := Receive(world, AtServer(p.origin), p.n, w);
      if dup then world' else Pass(world', p, route)
    case ArriveAtClient(d, p, hasTun) =>
      var (world', dup) := Receive(world, AtClient(d, p.origin), p.n, w);
      if dup then world' else Write(world', d, p, hasTun)
    case DropWindows(gone) =>
      world.(windows := world.windows - ServerHops(gone), heard := world.heard - ServerHops(gone))
  }

  /** The hop at which a copy arrives. */
  function HopOf(act: Action): Hop
    requires act.ArriveAtServer? || act.ArriveAtClient?
  {
    match act
    case ArriveAtServer(p, _) => AtServer(p.origin)
    case ArriveAtClient(d, p, _) => AtClient(d, p.origin)
  }

  /** An arrival moves the window at its hop, and no other. */
  lemma ArrivalWindows(world: World, w: Sizes, act: Action)
    requires Possible(world, w, act) && (act.ArriveAtServer? || act.ArriveAtClient?)
    ensures Step(world, w, act).windows
            == world.windows[HopOf(act) := RingStep(WindowAt(world, HopOf(act), w), act.p.n % TWO32).0]
  {
  }

  /** The world after a run; actions that are not possible are skipped. */
  function Run(world: World, w: Sizes, acts: seq<Action>): World
    decreases |acts|
  {
    if acts == [] then world
    else if Possible(world, w, acts[0]) then Run(Step(world, w, acts[0]), w, acts[1..])
    else Run(world, w, acts[1..])
  }

  // ----- one hop -----

  /** A hop's window drops exactly the numbers that have arrived before. */
  lemma HopDropsRepeats(r: Ring, h: History, n: int)
    requires Agrees(r, h) && 0 < |r.bits| < TWO32 && TWO32 % |r.bits| == 0 && InTime(h, n, |r.bits|)
    ensures RingStep(r, n % TWO32).1 <==> Heard(h, n)
    ensures Agrees(RingStep(r, n % TWO32).0, Hear(h, n))
  {
    match h
    case Nothing => FreshAgrees(r.bits, n);
    case Epoch(top, _) =>
      DivisorAtMostHalf(|r.bits|);
      LiftOfNear(top, n, |r.bits|);
      StepAgrees(r, h, n % TWO32);
  }

  // ----- the invariant -----

  ghost predicate WindowsAgree(world: World, w: Sizes) {
    forall hop: Hop :: Agrees(WindowAt(world, hop, w), HeardAt(world, hop)) && |WindowAt(world, hop, w).bits| == w(hop)
  }

  /** Every packet on the way was originated, under a number of its own. */
  ghost predicate Numbered(world: World) {
    && (forall p :: p in world.sent ==> p.n < NextOf(world, p.origin))
    && (forall p, q :: p in world.sent && q in world.sent && p.origin == q.origin && p.n == q.n ==> p == q)
    && (forall d, p :: (d, p) in world.downlink ==> p in world.sent)
    && (forall p :: p in world.serverTun ==> p in world.sent)
  }

  /**
   What the clients have done: each packet of which a copy has arrived was written once, or missed for want
   of a device.
   */
  ghost predicate WrittenOnce(world: World) {
    && (forall d, p :: (d, p) in world.tun || (d, p) in world.missed
                       <==> (d, p) in world.downlink && Heard(HeardAt(world, AtClient(d, p.origin)), p.n))
    && (forall d, p :: (d, p) in world.tun ==> (d, p) !in world.missed)
    && (forall i, j :: 0 <= i < j < |world.tun| ==> world.tun[i] != world.tun[j])
  }

  /** The server has passed packet n of client c on to client d. */
  ghost predicate Passed(world: World, d: ClientId, c: ClientId, n: int) {
    exists p :: (d, p) in world.downlink && p.origin == c && p.n == n
  }

  ghost predicate HeardWasPassed(world: World) {
    forall d: ClientId, c: ClientId, n: int :: Heard(HeardAt(world, AtClient(d, c)), n) ==> Passed(world, d, c, n)
  }

  ghost predicate Inv(world: World, w: Sizes) {
    && WindowsAgree(world, w)
    && Numbered(world)
    && WrittenOnce(world)
    && HeardWasPassed(world)
  }

  // ----- every step keeps it -----

  lemma ReceiveAgrees(world: World, w: Sizes, hop: Hop, n: nat)
    requires GoodSizes(w) && WindowsAgree(world, w) && InTime(HeardAt(world, hop), n, w(hop))
    ensures var (world', dup) := Receive(world, hop, n, w);
            && WindowsAgree(world', w)
            && (dup <==> Heard(HeardAt(world, hop), n))
  {
    assert Agrees(WindowAt(world, hop, w), HeardAt(world, hop));
    HopDropsRepeats(WindowAt(world, hop, w), HeardAt(world, hop), n);
    var world' := Receive(world, hop, n, w).0;
    forall other: Hop
      ensures Agrees(WindowAt(world', other, w), HeardAt(world', other)) && |WindowAt(world', other,
          w).bits| == w(other)
    {
      assert Agrees(WindowAt(world, other, w), HeardAt(world, other));
    }
  }

  /** What has been heard after an arrival: what had been, and the packet. */
  ghost predicate HearsOneMore(world: World, world': World, hop: Hop, n: nat) {
    forall other: Hop, m: int ::
      Heard(HeardAt(world', other), m) <==> Heard(HeardAt(world, other), m) || (other == hop && m == n)
  }

  lemma ReceiveHears(world: World, w: Sizes, hop: Hop, n: nat)
    requires |WindowAt(world, hop, w).bits| > 0
    ensures HearsOneMore(world, Receive(world, hop, n, w).0, hop, n)
  {
  }

  /** A step that touches no window keeps them in agreement, and what has been heard. */
  lemma SameWindows(world: World, w: Sizes, world': World)
    requires WindowsAgree(world, w) && world'.windows == world.windows && world'.heard == world.heard
    ensures WindowsAgree(world', w)
    ensures forall hop: Hop :: HeardAt(world', hop) == HeardAt(world, hop)
  {
    forall hop: Hop
      ensures WindowAt(world', hop, w) == WindowAt(world, hop, w) && HeardAt(world', hop) == HeardAt(world, hop)
    {
    }
  }

  lemma StillPassed(world: World, world': World)
    requires HeardWasPassed(world) && world.downlink <= world'.downlink
    requires forall d: ClientId, c: ClientId :: HeardAt(world', AtClient(d, c)) == HeardAt(world, AtClient(d, c))
    ensures HeardWasPassed(world')
  {
    forall d: ClientId, c: ClientId, n: int | Heard(HeardAt(world', AtClient(d, c)), n)
      ensures Passed(world', d, c, n)
    {
      assert Passed(world, d, c, n);
      var q :| (d, q) in world.downlink && q.origin == c && q.n == n;
      assert (d, q) in world'.downlink;
    }
  }

  lemma OriginateKeeps(world: World, w: Sizes, act: Action)
    requires Inv(world, w) && Possible(world, w, act) && (act.Originate? || act.Beat?)
    ensures Inv(Step(world, w, act), w)
  {
    var world' := Step(world, w, act);
    SameWindows(world, w, world');
    StillPassed(world, world');
  }

  lemma OriginateAtServerKeeps(world: World, w: Sizes, d: ClientId, payload: seq<u8>)
    requires Inv(world, w)
    ensures Inv(Step(world, w, OriginateAtServer(d, payload)), w)
  {
    var world' := Step(world, w, OriginateAtServer(d, payload));
    var p := Packet(SERVER, NextOf(world, SERVER), payload);
    SameWindows(world, w, world');
    StillPassed(world, world');
    if Heard(HeardAt(world, AtClient(d, SERVER)), p.n) {
      HeardIsNumbered(world, d, SERVER, p.n);
    }
    assert forall e, q :: (e, q) in world'.downlink <==> (e, q) in world.downlink || (e, q) == (d, p);
  }

  /** Only numbers that have been given out are heard. */
  lemma HeardIsNumbered(world: World, d: ClientId, c: ClientId, n: int)
    requires Numbered(world) && HeardWasPassed(world) && Heard(HeardAt(world, AtClient(d, c)), n)
    ensures n < NextOf(world, c)
  {
    assert Passed(world, d, c, n);
    var p :| (d, p) in world.downlink && p.origin == c && p.n == n;
    assert p in world.sent;
  }

  lemma ServerKeeps(world: World, w: Sizes, p: Packet, route: Route)
    requires GoodSizes(w) && Inv(world, w) && Possible(world, w, ArriveAtServer(p, route))
    ensures Inv(Step(world, w, ArriveAtServer(p, route)), w)
  {
    var hop := AtServer(p.origin);
    ReceiveAgrees(world, w, hop, p.n);
    ReceiveHears(world, w, hop, p.n);
    var (world1, dup) := Receive(world, hop, p.n, w);
    var world' := Step(world, w, ArriveAtServer(p, route));
    SameWindows(world1, w, world');
    assert forall d: ClientId, c: ClientId :: HeardAt(world', AtClient(d, c)) == HeardAt(world, AtClient(d, c));
    StillPassed(world, world');
    ServerWrites(world, p, world');
  }

  /** Passing a packet on once more, to the same client, makes no difference to what the clients have done. */
  lemma ServerWrites(world: World, p: Packet, world': World)
    requires Numbered(world) && WrittenOnce(world) && HeardWasPassed(world) && p in world.sent
    requires world'.sent == world.sent && world'.next == world.next
    requires world'.tun == world.tun && world'.missed == world.missed
    requires world'.downlink == world.downlink || exists d :: world'.downlink == world.downlink + {(d, p)}
    requires world'.serverTun == world.serverTun || world'.serverTun == world.serverTun + [p]
    requires forall d: ClientId, c: ClientId :: HeardAt(world', AtClient(d, c)) == HeardAt(world, AtClient(d, c))
    ensures Numbered(world') && WrittenOnce(world')
  {
    forall d, q | (d, q) in world'.downlink && Heard(HeardAt(world', AtClient(d, q.origin)), q.n)
      ensures (d, q) in world.downlink
    {
      assert Passed(world, d, q.origin, q.n);
    }
  }

  lemma ClientKeeps(world: World, w: Sizes, d: ClientId, p: Packet, hasTun: bool)
    requires GoodSizes(w) && Inv(world, w) && Possible(world, w, ArriveAtClient(d, p, hasTun))
    ensures Inv(Step(world, w, ArriveAtClient(d, p, hasTun)), w)
  {
    var hop := AtClient(d, p.origin);
    ReceiveAgrees(world, w, hop, p.n);
    ReceiveHears(world, w, hop, p.n);
    var (world1, dup) := Receive(world, hop, p.n, w);
    var world' := Step(world, w, ArriveAtClient(d, p, hasTun));
    SameWindows(world1, w, world');
    assert HearsOneMore(world, world', hop, p.n);
    ClientWrites(world, d, p, hasTun, dup, world');
  }

  lemma ClientWrites(world: World, d: ClientId, p: Packet, hasTun: bool, dup: bool, world': World)
    requires Numbered(world) && WrittenOnce(world) && HeardWasPassed(world)
    requires (d, p) in world.downlink
    requires dup <==> Heard(HeardAt(world, AtClient(d, p.origin)), p.n)
    requires world'.sent == world.sent && world'.next == world.next && world'.downlink == world.downlink
    requires world'.serverTun == world.serverTun
    requires world'.tun == if !dup && hasTun then world.tun + [(d, p)] else world.tun
    requires world'.missed == if !dup && !hasTun then world.missed + {(d, p)} else world.missed
    requires HearsOneMore(world, world', AtClient(d, p.origin), p.n)
    ensures Numbered(world') && WrittenOnce(world') && HeardWasPassed(world')
  {
    forall e: ClientId, c: ClientId, n: int | Heard(HeardAt(world', AtClient(e, c)), n)
      ensures Passed(world', e, c, n)
    {
      if Heard(HeardAt(world, AtClient(e, c)), n) {
        assert Passed(world, e, c, n);
        var q :| (e, q) in world.downlink && q.origin == c && q.n == n;
        assert (e, q) in world'.downlink;
      } else {
        assert (d, p) in world'.downlink;
      }
    }
    forall e, q
      ensures (e, q) in world'.tun <==> (e, q) in world.tun || (!dup && hasTun && (e, q) == (d, p))
    {
    }
    forall e, q | (e, q) in world.downlink && e == d && q.origin == p.origin && q.n == p.n
      ensures q == p
    {
    }
  }

  lemma DropKeeps(world: World, w: Sizes, gone: set<ClientId>)
    requires GoodSizes(w) && Inv(world, w)
    ensures Inv(Step(world, w, DropWindows(gone)), w)
  {
    var world' := Step(world, w, DropWindows(gone));
    forall hop: Hop
      ensures Agrees(WindowAt(world', hop, w), HeardAt(world', hop)) && |WindowAt(world', hop, w).bits| == w(hop)
    {
      assert Agrees(WindowAt(world, hop, w), HeardAt(world, hop));
      assert w(hop) > 0;
      assert hop in ServerHops(gone) ==> WindowAt(world', hop, w) == EmptyRing(w(hop));
      assert hop !in ServerHops(gone) ==> WindowAt(world', hop, w) == WindowAt(world, hop, w);
    }
    forall d: ClientId, c: ClientId
      ensures HeardAt(world', AtClient(d, c)) == HeardAt(world, AtClient(d, c))
    {
      assert AtClient(d, c) !in ServerHops(gone);
    }
    StillPassed(world, world');
  }

  lemma StepKeeps(world: World, w: Sizes, act: Action)
    requires GoodSizes(w) && Inv(world, w) && Possible(world, w, act)
    ensures Inv(Step(world, w, act), w)
  {
    match act
    case Originate(_, _) => OriginateKeeps(world, w, act);
    case OriginateAtServer(d, payload) => OriginateAtServerKeeps(world, w, d, payload);
    case Beat(_) => OriginateKeeps(world, w, act);
    case ArriveAtServer(p, route) => ServerKeeps(world, w, p, route);
    case ArriveAtClient(d, p, hasTun) => ClientKeeps(world, w, d, p, hasTun);
    case DropWindows(gone) => DropKeeps(world, w, gone);
  }

  lemma {:induction false} RunKeeps(world: World, w: Sizes, acts: seq<Action>)
    requires GoodSizes(w) && Inv(world, w)
    ensures Inv(Run(world, w, acts), w)
    decreases |acts|
  {
    if acts != [] {
      if Possible(world, w, acts[0]) {
        StepKeeps(world, w, acts[0]);
        RunKeeps(Step(world, w, acts[0]), w, acts[1..]);
      } else {
        RunKeeps(world, w, acts[1..]);
      }
    }
  }

  // ----- one place, as long as the server keeps its windows -----

  /** The packet may have left the server: it is the server's own, or the server has heard it. */
  ghost predicate KnownToServer(world: World, p: Packet) {
    p.origin != SERVER ==> Heard(HeardAt(world, AtServer(p.origin)), p.n)
  }

  /** What the server has passed on: packets it knows, each to one client. */
  ghost predicate PassedOnce(world: World) {
    && (forall d, p :: (d, p) in world.downlink ==> KnownToServer(world, p))
    && (forall d, p, e, q ::
          (d, p) in world.downlink && (e, q) in world.downlink && p.origin == q.origin && p.n == q.n ==> d == e)
  }

  /**
   What the server has kept for itself: packets of clients it has heard, each once, and none that it has passed on.
   */
  ghost predicate KeptOnce(world: World) {
    && (forall p :: p in world.serverTun ==> p.origin != SERVER && KnownToServer(world, p))
    && (forall i, j :: 0 <= i < j < |world.serverTun| ==> world.serverTun[i] != world.serverTun[j])
    && (forall d, p :: (d, p) in world.downlink ==> p !in world.serverTun)
  }

  ghost predicate OnePlace(world: World) {
    PassedOnce(world) && KeptOnce(world)
  }

  lemma ServerKeepsOnePlace(world: World, w: Sizes, p: Packet, route: Route)
    requires GoodSizes(w) && Inv(world, w) && OnePlace(world) && Possible(world, w, ArriveAtServer(p, route))
    ensures OnePlace(Step(world, w, ArriveAtServer(p, route)))
  {
    ReceiveAgrees(world, w, AtServer(p.origin), p.n);
    ReceiveHears(world, w, AtServer(p.origin), p.n);
    var world' := Step(world, w, ArriveAtServer(p, route));
    var dup := Receive(world, AtServer(p.origin), p.n, w).1;
    assert HearsOneMore(world, world', AtServer(p.origin), p.n);
    PassedOnceMore(world, p, route, dup, world');
  }

  lemma PassedOnceMore(world: World, p: Packet, route: Route, dup: bool, world': World)
    requires Numbered(world) && OnePlace(world) && p in world.sent && p.origin != SERVER
    requires dup <==> KnownToServer(world, p)
    requires world'.downlink == if !dup && route.ToClient? then world.downlink + {(route.d, p)} else world.downlink
    requires world'.serverTun == if !dup && route.ToServer? then world.serverTun + [p] else world.serverTun
    requires HearsOneMore(world, world', AtServer(p.origin), p.n)
    ensures OnePlace(world')
  {
    forall q | KnownToServer(world, q) || q == p
      ensures KnownToServer(world', q)
    {
    }
    forall d, q | (d, q) in world.downlink && !dup
      ensures !(q.origin == p.origin && q.n == p.n)
    {
      assert KnownToServer(world, q);
    }
    forall q | q in world.serverTun && !dup
      ensures q != p
    {
      assert KnownToServer(world, q);
    }
  }

  lemma OriginateAtServerKeepsOnePlace(world: World, w: Sizes, d: ClientId, payload: seq<u8>)
    requires Inv(world, w) && OnePlace(world)
    ensures OnePlace(Step(world, w, OriginateAtServer(d, payload)))
  {
    var world' := Step(world, w, OriginateAtServer(d, payload));
    var p := Packet(SERVER, NextOf(world, SERVER), payload);
    SameWindows(world, w, world');
    forall q | KnownToServer(world, q)
      ensures KnownToServer(world', q)
    {
    }
    forall e, q | (e, q) in world.downlink
      ensures !(q.origin == SERVER && q.n == p.n)
    {
      assert q in world.sent;
    }
  }

  /** The server drops no window. */
  predicate KeepsWindows(act: Action) {
    act.DropWindows? ==> act.gone == {}
  }

  lemma StepKeepsOnePlace(world: World, w: Sizes, act: Action)
    requires GoodSizes(w) && Inv(world, w) && OnePlace(world) && Possible(world, w, act) && KeepsWindows(act)
    ensures OnePlace(Step(world, w, act))
  {
    if act.OriginateAtServer? {
      OriginateAtServerKeepsOnePlace(world, w, act.d, act.payload);
    } else if act.ArriveAtServer? {
      ServerKeepsOnePlace(world, w, act.p, act.route);
    } else if act.ArriveAtClient? {
      ReceiveHears(world, w, AtClient(act.d, act.p.origin), act.p.n);
      assert HearsOneMore(world, Step(world, w, act), AtClient(act.d, act.p.origin), act.p.n);
      SameServer(world, Step(world, w, act));
    } else {
      assert act.DropWindows? ==> ServerHops(act.gone) == {};
      assert world.heard - {} == world.heard;
      SameServer(world, Step(world, w, act));
    }
  }

  lemma SameServer(world: World, world': World)
    requires OnePlace(world) && world'.downlink == world.downlink && world'.serverTun == world.serverTun
    requires forall c: ClientId, m: int :: Heard(HeardAt(world, AtServer(c)), m) ==>
        Heard(HeardAt(world', AtServer(c)), m)
    ensures OnePlace(world')
  {
  }

  lemma {:induction false} RunKeepsOnePlace(world: World, w: Sizes, acts: seq<Action>)
    requires GoodSizes(w) && Inv(world, w) && OnePlace(world) && forall act :: act in acts ==> KeepsWindows(act)
    ensures OnePlace(Run(world, w, acts))
    decreases |acts|
  {
    if acts != [] {
      assert acts[0] in acts && forall act :: act in acts[1..] ==> act in acts;
      if Possible(world, w, acts[0]) {
        StepKeeps(world, w, acts[0]);
        StepKeepsOnePlace(world, w, acts[0]);
        RunKeepsOnePlace(Step(world, w, acts[0]), w, acts[1..]);
      } else {
        RunKeepsOnePlace(world, w, acts[1..]);
      }
    }
  }

  // ----- end to end -----

  lemma StartIsFine(w: Sizes)
    requires GoodSizes(w)
    ensures Inv(START, w) && OnePlace(START)
  {
    forall hop: Hop
      ensures Agrees(WindowAt(START, hop, w), HeardAt(START, hop)) && |WindowAt(START, hop, w).bits| == w(hop)
    {
      assert w(hop) > 0;
    }
  }

  /** The client, the sender and the number of a packet that was written. */
  function WriteKey(written: (ClientId, Packet)): (ClientId, ClientId, nat) {
    (written.0, written.1.origin, written.1.n)
  }

  /** A client never writes two packets of one sender under one number. */
  ghost predicate WritesNoRepeats(tun: seq<(ClientId, Packet)>) {
    forall i, j :: 0 <= i < j < |tun| ==> WriteKey(tun[i]) != WriteKey(tun[j])
  }

  /**
   In every run, even if the server drops windows, the packets that clients write are exactly those the server has put
   on the network and of which a copy has arrived, but for those whose first copy found no TUN device; each was
   originated as written, and no client writes a packet twice.
   */
  lemma ClientsWriteOnce(w: Sizes, acts: seq<Action>)
    requires GoodSizes(w)
    ensures var world := Run(START, w, acts);
            && (forall d, p :: (d, p) in world.tun || (d, p) in world.missed
                               <==> (d, p) in world.downlink && Heard(HeardAt(world, AtClient(d, p.origin)), p.n))
            && (forall d, p :: (d, p) in world.tun ==> p in world.sent && (d, p) !in world.missed)
            && WritesNoRepeats(world.tun)
  {
    StartIsFine(w);
    RunKeeps(START, w, acts);
    InvWritesNoRepeats(Run(START, w, acts), w);
  }

  lemma InvWritesNoRepeats(world: World, w: Sizes)
    requires Inv(world, w)
    ensures WritesNoRepeats(world.tun)
    ensures forall d, p :: (d, p) in world.tun ==> p in world.sent
  {
    forall i, j | 0 <= i < j < |world.tun|
      ensures WriteKey(world.tun[i]) != WriteKey(world.tun[j])
    {
      var (d, p) := world.tun[i];
      var (e, q) := world.tun[j];
      assert (d, p) in world.tun && (e, q) in world.tun;
      assert p in world.sent && q in world.sent;
    }
  }

  /** No packet is written in two places, or twice in one. */
  ghost predicate WrittenInOnePlace(world: World) {
    && (forall i, j :: 0 <= i < j < |world.tun| ==>
          (world.tun[i].1.origin, world.tun[i].1.n) != (world.tun[j].1.origin, world.tun[j].1.n))
    && (forall i, j :: 0 <= i < j < |world.serverTun| ==>
          (world.serverTun[i].origin, world.serverTun[i].n) != (world.serverTun[j].origin, world.serverTun[j].n))
    && (forall p, d, q :: p in world.serverTun && (d, q) in world.tun ==> (p.origin, p.n) != (q.origin, q.n))
  }

  lemma OnePlaceMeans(world: World, w: Sizes)
    requires Inv(world, w) && OnePlace(world)
    ensures WrittenInOnePlace(world)
  {
    InvWritesNoRepeats(world, w);
    forall i, j | 0 <= i < j < |world.tun|
      ensures (world.tun[i].1.origin, world.tun[i].1.n) != (world.tun[j].1.origin, world.tun[j].1.n)
    {
      var (d, p) := world.tun[i];
      var (e, q) := world.tun[j];
      assert (d, p) in world.tun && (e, q) in world.tun;
    }
    forall p, q | p in world.serverTun && q in world.serverTun && p.origin == q.origin && p.n == q.n
      ensures p == q
    {
    }
    forall p, d, q | p in world.serverTun && (d, q) in world.tun
      ensures (p.origin, p.n) != (q.origin, q.n)
    {
      assert q in world.sent && (d, q) in world.downlink;
    }
  }

  /**
   In every run in which the server drops no window, no packet is written twice, at one client or at two, or at a
   client and at the server.
   */
  lemma ExactlyOnce(w: Sizes, acts: seq<Action>)
    requires GoodSizes(w) && forall act :: act in acts ==> KeepsWindows(act)
    ensures WrittenInOnePlace(Run(START, w, acts))
  {
    StartIsFine(w);
    RunKeeps(START, w, acts);
    RunKeepsOnePlace(START, w, acts);
    OnePlaceMeans(Run(START, w, acts), w);
  }

  /**
   In every run, the first copy of a packet to reach the server, and the first to reach a client, is not dropped
   as a repeat.
   */
  lemma FirstCopyPasses(w: Sizes, acts: seq<Action>, act: Action)
    requires GoodSizes(w)
    requires Possible(Run(START, w, acts), w, act)
    ensures var world := Run(START, w, acts);
            var world' := Step(world, w, act);
            match act
            case ArriveAtServer(p, route) =>
              !Heard(HeardAt(world, AtServer(p.origin)), p.n) ==>
                && (route.ToClient? ==> (route.d, p) in world'.downlink)
                && (route.ToServer? ==> world'.serverTun == world.serverTun + [p])
            case ArriveAtClient(d, p, hasTun) =>
              !Heard(HeardAt(world, AtClient(d, p.origin)), p.n) ==>
                && (hasTun ==> world'.tun == world.tun + [(d, p)])
                && (!hasTun ==> (d, p) in world'.missed)
            case _ => true
  {
    StartIsFine(w);
    RunKeeps(START, w, acts);
    var world := Run(START, w, acts);
    match act
    case ArriveAtServer(p, _) => ReceiveAgrees(world, w, AtServer(p.origin), p.n);
    case ArriveAtClient(d, p, _) => ReceiveAgrees(world, w, AtClient(d, p.origin), p.n);
    case _ =>
  }
}
