/** The messages of the wire protocol as values. */
module Messages {
  import opened Words

  const HEADER_SIZE := 8
  const HEARTBEAT_PAYLOAD_MIN := 16
  const HEARTBEAT_ACK_SIZE := 8
  const VERSION1 := 0x10

  const TYPE_DATA := 0
  const TYPE_HEARTBEAT := 1

  const ACK_STATUS_OK := 0
  const ACK_STATUS_BAD_TEAM_KEY := 1

  const MTU := 1400

  type ClientId = u16

  /** An IPv4 address as a big-endian number; 0 is 0.0.0.0. */
  type Ip = u32

  datatype Option<+T> = None | Some(value: T)

  datatype Result<+T> = Ok(value: T) | Err(error: DecodeError)

  datatype DecodeError = TooShort | BadVersion

  /** The first 8 bytes of a hash of the team key. */
  type KeyHash = h: seq<u8> | |h| == 8 witness [0, 0, 0, 0, 0, 0, 0, 0]

  datatype Header = Header(kind: u8, clientId: ClientId, number: u32)

  /** Per-NIC figures that a client appends to a heartbeat. */
  datatype PathStats = PathStats(name: seq<u8>, rttMs: nat, txBytes: nat, rxBytes: nat)

  datatype Heartbeat = Heartbeat(
    virtualIp: Ip,
    prefixLen: u8,
    replyPort: u16,
    teamKeyHash: KeyHash,
    deviceName: seq<u8>,
    path: Option<PathStats>)

  datatype HeartbeatAck = HeartbeatAck(assignedIp: Ip, prefixLen: u8, status: u8, mtu: u16)

  // ----- inner packets -----

  predicate IsIpv4(payload: seq<u8>) {
    |payload| >= 20 && payload[0] / 16 == 4
  }

  function SrcIp(payload: seq<u8>): Ip
    requires IsIpv4(payload)
  {
    Word32(payload, 12)
  }

  function DstIp(payload: seq<u8>): Ip
    requires IsIpv4(payload)
  {
    Word32(payload, 16)
  }

  /** Where the version and the addresses of an IPv4 packet are (RFC 791, section 3.1). */
  lemma InnerPacketLayout(payload: seq<u8>)
    ensures IsIpv4(payload) <==> |payload| >= 20 && 0x40 <= payload[0] <= 0x4F
    ensures IsIpv4(payload) ==>
              && SrcIp(payload) == (payload[12] as int) * 0x100_0000 + (payload[13] as int) * 0x1_0000
                                 + (payload[14] as int) * 0x100 + payload[15]
              && DstIp(payload) == (payload[16] as int) * 0x100_0000 + (payload[17] as int) * 0x1_0000
                                 + (payload[18] as int) * 0x100 + payload[19]
  {
  }
}
