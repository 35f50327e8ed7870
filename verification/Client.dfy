/** The client: it numbers and addresses its packets, and drops what it has received before. */
module Client {
  import opened Words
  import opened Messages
  import opened Window
  import opened Wire
  import opened WireCodec
  import opened Checksum
  import opened Dedup
  import opened ServerState
  import opened ServerAtomic

  // ----- outgoing packets -----

  /** The packet with its source address replaced. */
  function WithSource(packet: seq<u8>, ip: Ip): (r: seq<u8>)
    requires |packet| >= 20
    ensures |r| == |packet|
  {
    packet[..12] + Bytes32(ip) + packet[16..]
  }

  /** What the client sends of a packet from its TUN device: the source is rewritten once it has an address. */
  function Outgoing(packet: seq<u8>, ip: Ip): (r: seq<u8>)
    requires |packet| >= 20
    ensures |r| == |packet|
  {
    if ip == 0 then packet
    else
      var p := WithSource(packet, ip);
      if HasHeader(p) then WithChecksum(p) else p
  }

  /** An outgoing packet carries the client's address and a valid checksum; nothing else of it has changed. */
  lemma OutgoingIsSound(packet: seq<u8>, ip: Ip)
    requires IsIpv4(packet)
    ensures ip == 0 ==> Outgoing(packet, ip) == packet
    ensures ip != 0 ==>
            var r := Outgoing(packet, ip);
            && IsIpv4(r) && SrcIp(r) == ip && DstIp(r) == DstIp(packet)
            && (HasHeader(packet) <==> HasHeader(r))
            && (HasHeader(r) ==> Valid(r))
            && (forall i :: 0 <= i < |packet| && !(10 <= i < 16) ==> r[i] == packet[i])
            && (!HasHeader(r) ==> r[10] == packet[10] && r[11] == packet[11])
  {
    if ip != 0 {
      var p, r := WithSource(packet, ip), Outgoing(packet, ip);
      if HasHeader(p) {
        ChecksumIsValid(p);
      }
      assert r[12..16] == Bytes32(ip);
      Word32OfBytes(ip, r, 12);
    }
  }

  /** The server accepts an outgoing packet as coming from its sender, if it has given the sender the address in use. */
  lemma OutgoingIsAccepted(s: State, c: ClientId, packet: seq<u8>, ip: Ip)
    requires IsIpv4(packet) && ip != 0
    ensures Accepts(s, c, Outgoing(packet, ip)) <==> Live(s, c, ip)
  {
    OutgoingIsSound(packet, ip);
  }

  /** The server reads a heartbeat packet as it was meant, if device and path name can be carried. */
  lemma BeatIsUnderstood(h: Header, hb: Heartbeat)
    requires h.kind == TYPE_HEARTBEAT
    ensures var pkt := HeaderBytes(h) + HeartbeatBytes(hb);
            && DecodeHeader(pkt) == Ok(h)
            && (DecodeHeartbeat(pkt[HEADER_SIZE..]) == Ok(Carried(hb))
                <==> NulFree(hb.deviceName) && (hb.path.Some? ==> |hb.path.value.name| <= 255))
  {
    HeaderRoundTrip(h, HeartbeatBytes(hb));
    HeartbeatRoundTripIff(hb);
    assert (HeaderBytes(h) + HeartbeatBytes(hb))[HEADER_SIZE..] == HeartbeatBytes(hb);
  }

  lemma Regroup(a: seq<u8>, b: seq<u8>, c: seq<u8>, d: seq<u8>)
    ensures (a + (b + c)) + d == a + (b + (c + d))
  {
  }

  lemma WithPath(h: Header, hb: Heartbeat, path: PathStats)
    requires hb.path.None?
    ensures HeaderBytes(h) + HeartbeatBytes(hb) + PathBytes(path) == HeaderBytes(h)
        + HeartbeatBytes(hb.(path := Some(path)))
  {
    assert hb.deviceName + [] == hb.deviceName;
    Regroup(HeaderBytes(h), FixedBytes(hb), hb.deviceName, PathBytes(path));
  }

  /** The server treats a data packet as the data packet it is. */
  lemma DataIsUnderstood(s: State, cfg: Config, c: ClientId, number: u32, payload: seq<u8>, from: Endpoint, now: Time)
    requires cfg.Valid() && WindowsOk(s, cfg)
    ensures var (s', outcome) := HandleData(s, cfg, c, number, payload, from, now);
            HandlePacket(s, cfg, HeaderBytes(Header(TYPE_DATA, c, number)) + payload, from, now)
            == (s',Relayed(outcome))
  {
    var h := Header(TYPE_DATA, c, number);
    HeaderRoundTrip(h, payload);
    assert (HeaderBytes(h) + payload)[HEADER_SIZE..] == payload;
  }

  /** The server treats a heartbeat packet as the heartbeat it is, whatever its key, if its names can be carried. */
  lemma BeatIsHandled(s: State, cfg: Config, h: Header, hb: Heartbeat, from: Endpoint, now: Time)
    requires cfg.Valid() && WindowsOk(s, cfg) && h.kind == TYPE_HEARTBEAT
    requires NulFree(hb.deviceName) && (hb.path.Some? ==> |hb.path.value.name| <= 255)
    ensures var (s', ack) := HandleHeartbeat(s, cfg, h.clientId, Carried(hb), from, now);
            HandlePacket(s, cfg, HeaderBytes(h) + HeartbeatBytes(hb), from, now)
            == (s', if ack.Some? then Answered(ack.value) else Silent)
  {
    BeatIsUnderstood(h, hb);
  }

  /**
   A heartbeat packet with the right key registers its sender: the answer can be read, and names an address that the
   server will accept as the source of the client's packets.
   */
  lemma RegistrationWorks(s: State, cfg: Config, h: Header, hb: Heartbeat, from: Endpoint, now: Time, packet: seq<u8>)
    requires cfg.Valid() && WindowsOk(s, cfg) && h.kind == TYPE_HEARTBEAT && h.clientId != 0
    requires hb.teamKeyHash == cfg.teamKeyHash
    requires NulFree(hb.deviceName) && (hb.path.Some? ==> |hb.path.value.name| <= 255)
    ensures var (s', reply) := HandlePacket(s, cfg, HeaderBytes(h) + HeartbeatBytes(hb), from, now);
            && reply.Answered? && reply.ack.status == 0 && reply.ack.mtu == 1400
            && DecodeHeartbeatAck(AckBytes(reply.ack)) == Ok(reply.ack)
            && Live(s', h.clientId, reply.ack.assignedIp)
            && s'.sessions[h.clientId].prefixLen == reply.ack.prefixLen
            && (IsIpv4(packet) && reply.ack.assignedIp != 0 ==>
                  Accepts(s', h.clientId, Outgoing(packet, reply.ack.assignedIp)))
  {
    BeatIsHandled(s, cfg, h, hb, from, now);
    var (s', reply) := HandlePacket(s, cfg, HeaderBytes(h) + HeartbeatBytes(hb), from, now);
    HeartbeatEnters(s, cfg, h.clientId, Carried(hb), from, now);
    AckRoundTrip(reply.ack, []);
    assert AckBytes(reply.ack) + [] == AckBytes(reply.ack);
    if IsIpv4(packet) && reply.ack.assignedIp != 0 {
      OutgoingIsAccepted(s', h.clientId, packet, reply.ack.assignedIp);
    }
  }

  /**
   What a client does about a data packet of client c: its window for c records the number, and the packet is written if
   the number is new and there is a TUN device.
   */
  function Received(windows: map<ClientId, Ring>, w: nat, c: ClientId, number: u32, tunReady: bool)
    : (map<ClientId,Ring>, bool)
    requires |WindowOf(windows, c, w).bits| > 0
  {
    var (r, dup) := RingStep(WindowOf(windows, c, w), number);
    (windows[c := r], !dup && tunReady)
  }

  // ----- the client -----

  class Client {
    const clientId: ClientId
    const teamKeyHash: KeyHash
    const deviceName: seq<u8>
    const dedup: Deduplicator
    var number: u32
    var virtualIp: Ip
    var prefixLen: u8
    var registered: bool

    ghost predicate Valid()
      reads this, dedup, dedup.Owner.Keys
    {
      dedup.Valid() && (this as object) !in dedup.Owner
    }

    constructor (clientId: ClientId, teamKeyHash: KeyHash, deviceName: seq<u8>, window: int)
      ensures fresh(dedup.Repr()) && number == 0 && virtualIp == 0 && !registered && dedup.Windows == map[]
      ensures Valid() <==> window <= 0 || 0 < window % TWO32 <= TWO32 - 64
    {
      this.clientId, this.teamKeyHash, this.deviceName := clientId, teamKeyHash, deviceName;
      number, virtualIp, prefixLen, registered := 0, 0, 0, false;
      dedup := new Deduplicator(window);
    }

    /** The next sequence number; data packets and heartbeats share the counter. */
    method NextNumber() returns (n: u32)
      modifies this`number
      ensures n == old(number) && number == Add32(n, 1)
    {
      n := number;
      number := (number + 1) % TWO32;
    }

    /** Rewrites the source of a packet from the TUN device in place. */
    method Readdress(packet: array<u8>)
      requires packet.Length >= 20
      modifies packet
      ensures packet[..] == Outgoing(old(packet[..]), virtualIp)
    {
      if virtualIp != 0 {
        ghost var was := packet[..];
        Put32(packet, 12, virtualIp);
        assert packet[..] == WithSource(was, virtualIp);
        RecalcIPv4Checksum(packet);
      }
    }

    /** Turns a packet read from the TUN device into a data packet; other than IPv4 packets are not forwarded. */
    method FromTun(packet: array<u8>) returns (pkt: Option<seq<u8>>)
      modifies packet, this`number
      ensures IsIpv4(old(packet[..])) ==>
                && number == Add32(old(number), 1)
                && pkt == Some(HeaderBytes(Header(TYPE_DATA, clientId, old(number)))
                               + Outgoing(old(packet[..]), virtualIp))
      ensures !IsIpv4(old(packet[..])) ==> pkt == None && number == old(number) && packet[..] == old(packet[..])
    {
      if packet.Length < 20 {
        return None;
      }
      if packet[0] / 16 != 4 {
        return None;
      }
      Readdress(packet);
      var n := NextNumber();
      var header := new u8[HEADER_SIZE](_ => 0);
      EncodeHeader(header, Header(TYPE_DATA, clientId, n));
      assert header[..] == HeaderBytes(Header(TYPE_DATA, clientId, n));
      pkt := Some(header[..] + packet[..]);
    }

    /** The heartbeat as the client would send it on a path, or on its only socket. */
    ghost function CurrentBeat(replyPort: u16, path: Option<PathStats>): Heartbeat
      reads this
    {
      Heartbeat(virtualIp, prefixLen, replyPort, teamKeyHash, deviceName, path)
    }

    /** Header, fixed part and device name of the next heartbeat. */
    method BeatBase(replyPort: u16) returns (base: seq<u8>)
      modifies this`number
      ensures number == Add32(old(number), 1)
      ensures base == HeaderBytes(Header(TYPE_HEARTBEAT, clientId, old(number)))
          + HeartbeatBytes(CurrentBeat(replyPort, None))
    {
      var n := NextNumber();
      var hb := Heartbeat(virtualIp, prefixLen, replyPort, teamKeyHash, deviceName, None);
      base := BuildBase(Header(TYPE_HEARTBEAT, clientId, n), hb);
      assert hb.deviceName + [] == hb.deviceName;
    }

    /** The copies of one heartbeat: all have the same number, and each carries the figures of its path. */
    method BeatAll(replyPort: u16, paths: seq<PathStats>) returns (pkts: seq<seq<u8>>)
      modifies this`number
      ensures number == Add32(old(number), 1) && |pkts| == |paths|
      ensures forall i :: 0 <= i < |paths| ==>
                pkts[i] == HeaderBytes(Header(TYPE_HEARTBEAT, clientId, old(number)))
                           + HeartbeatBytes(CurrentBeat(replyPort, Some(paths[i])))
    {
      ghost var h := Header(TYPE_HEARTBEAT, clientId, number);
      var base := BeatBase(replyPort);
      pkts := [];
      for i := 0 to |paths|
        invariant |pkts| == i && number == Add32(h.number, 1)
        invariant forall j :: 0 <= j < i ==>
                    pkts[j] == HeaderBytes(h) + HeartbeatBytes(CurrentBeat(replyPort, Some(paths[j])))
      {
        var pkt := AttachPath(base, paths[i]);
        WithPath(h, CurrentBeat(replyPort, None), paths[i]);
        pkts := pkts + [pkt[..]];
      }
    }

    /** Takes over the address of a positive acknowledgement; any other changes nothing. */
    method HandleHeartbeatAck(payload: seq<u8>)
      modifies this`virtualIp, this`prefixLen, this`registered
      ensures var r := DecodeHeartbeatAck(payload);
              if r.Ok? && r.value.status == 0
              then virtualIp == r.value.assignedIp && prefixLen == r.value.prefixLen && registered
              else virtualIp == old(virtualIp) && prefixLen == old(prefixLen) && registered == old(registered)
    {
      match DecodeHeartbeatAck(payload)
      case Ok(ack) =>
        if ack.status == ACK_STATUS_OK {
          virtualIp, prefixLen, registered := ack.assignedIp, ack.prefixLen, true;
        }
      case Err(_) =>
    }

    /**
     Receives a data packet: one that its sender's window has not seen is written to the TUN device, once
     there is one.
     */
    method HandleData(h: Header, payload: seq<u8>, tunReady: bool) returns (written: Option<seq<u8>>)
      requires Valid()
      modifies dedup.Repr()
      ensures Valid()
      ensures var (windows, ok) := Received(old(dedup.Windows), dedup.windowSize, h.clientId, h.number, tunReady);
              dedup.Windows == windows && written == if ok then Some(payload) else None
    {
      var dup := dedup.IsDuplicate(h.clientId, h.number);
      if dup {
        return None;
      }
      if !tunReady {
        return None;
      }
      return Some(payload);
    }
  }
}
