/** The wire format: what the encoders write, what the decoders read, and how the two fit together. */
module Wire {
  import opened Words
  import opened Messages

  // ----- headers -----

  function HeaderBytes(h: Header): (bytes: seq<u8>)
    ensures |bytes| == HEADER_SIZE
  {
    [VERSION1 + h.kind % 0x10, 0] + Bytes16(h.clientId) + Bytes32(h.number)
  }

  function DecodeHeader(buf: seq<u8>): Result<Header> {
    if |buf| < HEADER_SIZE then Err(TooShort)
    else if buf[0] / 0x10 * 0x10 != VERSION1 then Err(BadVersion)
    else Ok(Header(buf[0] % 0x10, Word16(buf, 2), Word32(buf, 4)))
  }

  lemma HighByte(y: u32)
    ensures y / 0x1_0000 / 0x100 == y / 0x100_0000
  {
  }

  lemma LowBytes(y: u32)
    ensures y % 0x1_0000 / 0x100 == y / 0x100 % 0x100
    ensures y % 0x1_0000 % 0x100 == y % 0x100
  {
  }

  /** The bytes of a word, most significant first. */
  lemma BigEndian(x: u16, y: u32)
    ensures Bytes16(x) == [x / 256, x % 256]
    ensures Bytes32(y) == [y / 0x100_0000, y / 0x1_0000 % 256, y / 256 % 256, y % 256]
  {
    HighByte(y);
    LowBytes(y);
  }

  /** Version 1 and type, a reserved byte, the client and the number. */
  lemma HeaderLayout(h: Header)
    ensures HeaderBytes(h) == [0x10 + h.kind % 16, 0, h.clientId / 256, h.clientId % 256,
                               h.number / 0x100_0000, h.number / 0x1_0000 % 256, h.number / 256 % 256, h.number % 256]
    ensures TYPE_DATA == 0 && TYPE_HEARTBEAT == 1
  {
    BigEndian(h.clientId, h.number);
  }

  /** A header is read back as written, up to the four bits that its type field has. */
  lemma HeaderRoundTrip(h: Header, rest: seq<u8>)
    ensures DecodeHeader(HeaderBytes(h) + rest) == Ok(h.(kind := h.kind % 0x10))
  {
    var buf := HeaderBytes(h) + rest;
    Word16OfBytes(h.clientId, buf, 2);
    Word32OfBytes(h.number, buf, 4);
  }

  /** Only byte 1 of a header that can be read is not determined by what is read. */
  lemma HeaderDetermined(buf: seq<u8>)
    ensures match DecodeHeader(buf)
            case Ok(h) => |buf| >= HEADER_SIZE && HeaderBytes(h) == buf[..HEADER_SIZE][1 := 0]
            case Err(TooShort) => |buf| < HEADER_SIZE
            case Err(BadVersion) => |buf| >= HEADER_SIZE && forall h: Header :: HeaderBytes(h)[0] != buf[0]
  {
    if DecodeHeader(buf).Ok? {
      BytesOfWord16(buf, 2);
      BytesOfWord32(buf, 4);
      assert buf[..HEADER_SIZE][1 := 0] == [buf[0], 0] + buf[2..4] + buf[4..8];
    }
  }

  // ----- heartbeats -----

  /** The fixed part; byte 5 is always 0. */
  function FixedBytes(hb: Heartbeat): (bytes: seq<u8>)
    ensures |bytes| == HEARTBEAT_PAYLOAD_MIN
  {
    Bytes32(hb.virtualIp) + [hb.prefixLen, 0] + Bytes16(hb.replyPort) + hb.teamKeyHash
  }

  /**
   What is appended for a path: a separator, the length of the name, the name, and its figures, cut to
   their field widths.
   */
  function PathBytes(p: PathStats): (bytes: seq<u8>)
    ensures |bytes| == |p.name| + 12
  {
    [0, |p.name| % 0x100] + p.name + FigureBytes(p)
  }

  function FigureBytes(p: PathStats): (bytes: seq<u8>)
    ensures |bytes| == 10
  {
    Bytes16(p.rttMs % 0x1_0000) + Bytes32(p.txBytes % TWO32) + Bytes32(p.rxBytes % TWO32)
  }

  /** The payload of a heartbeat as the client sends it. */
  function HeartbeatBytes(hb: Heartbeat): seq<u8> {
    FixedBytes(hb) + Extension(hb.deviceName, hb.path)
  }

  /** The variable part: the device name, and the figures of the path it is sent on. */
  function Extension(deviceName: seq<u8>, path: Option<PathStats>): seq<u8> {
    deviceName + if path.Some? then PathBytes(path.value) else []
  }

  /** Address, prefix length, the send mode, always 0, reply port and key hash; then the device name and the path. */
  lemma HeartbeatLayout(hb: Heartbeat)
    ensures var b := HeartbeatBytes(hb);
            && |b| == 16 + |hb.deviceName| + (if hb.path.Some? then 12 + |hb.path.value.name| else 0)
            && b[..4] == [hb.virtualIp / 0x100_0000, hb.virtualIp / 0x1_0000 % 256, hb.virtualIp / 256 % 256,
                          hb.virtualIp % 256]
            && b[4] == hb.prefixLen && b[5] == 0
            && b[6] == hb.replyPort / 256 && b[7] == hb.replyPort % 256
            && b[8..16] == hb.teamKeyHash
            && b[16..16 + |hb.deviceName|] == hb.deviceName
            && (hb.path.Some? ==> b[16 + |hb.deviceName|..] == PathBytes(hb.path.value))
  {
    BigEndian(hb.replyPort, hb.virtualIp);
    assert FixedBytes(hb)[..4] == Bytes32(hb.virtualIp);
    assert FixedBytes(hb)[8..16] == hb.teamKeyHash;
  }

  lemma LowOfLow(x: nat)
    ensures x % 0x1_0000 % 256 == x % 256
  {
  }

  /** Two bytes of round-trip time, and four each of the byte counts. */
  lemma FigureLayout(p: PathStats)
    ensures var f := FigureBytes(p);
            && f[0] == p.rttMs % 0x1_0000 / 256 && f[1] == p.rttMs % 256
            && f[2..6] == Bytes32(p.txBytes % TWO32)
            && f[6..10] == Bytes32(p.rxBytes % TWO32)
  {
    LowOfLow(p.rttMs);
    var rtt, tx, rx := Bytes16(p.rttMs % 0x1_0000), Bytes32(p.txBytes % TWO32), Bytes32(p.rxBytes % TWO32);
    assert FigureBytes(p) == rtt + tx + rx;
    assert (rtt + tx + rx)[2..6] == tx && (rtt + tx + rx)[6..10] == rx;
  }

  lemma TailSlice(head: seq<u8>, tail: seq<u8>, i: nat, j: nat)
    requires i <= j <= |tail|
    ensures (head + tail)[|head| + i..|head| + j] == tail[i..j]
  {
  }

  /** A separator, the length of the name, the name, and the figures. */
  lemma PathLayout(p: PathStats)
    ensures var b, n := PathBytes(p), 2 + |p.name|;
            && |b| == n + 10
            && b[0] == 0 && b[1] == |p.name| % 256 && b[2..n] == p.name
            && b[n] == p.rttMs % 0x1_0000 / 256 && b[n + 1] == p.rttMs % 256
            && b[n + 2..n + 6] == Bytes32(p.txBytes % TWO32)
            && b[n + 6..n + 10] == Bytes32(p.rxBytes % TWO32)
  {
    FigureLayout(p);
    var head, f := [0, |p.name| % 0x100] + p.name, FigureBytes(p);
    assert PathBytes(p) == head + f;
    TailSlice(head, f, 2, 6);
    TailSlice(head, f, 6, 10);
  }

  /** The index of the first zero byte at or after i, or the length if there is none. */
  function FirstZero(bytes: seq<u8>, i: nat): (k: nat)
    requires i <= |bytes|
    ensures i <= k <= |bytes|
    ensures forall j :: i <= j < k ==> bytes[j] != 0
    ensures k < |bytes| ==> bytes[k] == 0
    decreases |bytes| - i
  {
    if i == |bytes| || bytes[i] == 0 then i else FirstZero(bytes, i + 1)
  }

  /** The figures of a path, if the bytes after the separator hold a whole entry. */
  function DecodePath(d: seq<u8>): Option<PathStats> {
    if |d| >= 1 && d[0] as int + 11 <= |d| then
      var n := d[0] as int + 1;
      Some(PathStats(d[1..n], Word16(d, n), Word32(d, n + 2), Word32(d, n + 6)))
    else
      None
  }

  function DecodeHeartbeat(buf: seq<u8>): Result<Heartbeat> {
    if |buf| < HEARTBEAT_PAYLOAD_MIN then Err(TooShort)
    else
      var ext := buf[HEARTBEAT_PAYLOAD_MIN..];
      var sep := FirstZero(ext, 0);
      Ok(Heartbeat(Word32(buf, 0), buf[4], Word16(buf, 6), buf[8..16], ext[..sep],
                   if sep < |ext| then DecodePath(ext[sep + 1..]) else None))
  }

  predicate NulFree(s: seq<u8>) {
    forall i :: 0 <= i < |s| ==> s[i] != 0
  }

  /** A path's figures as a heartbeat can carry them. */
  function Truncated(p: PathStats): PathStats {
    p.(rttMs := p.rttMs % 0x1_0000, txBytes := p.txBytes % TWO32, rxBytes := p.rxBytes % TWO32)
  }

  /** A heartbeat as the server sees it. */
  function Carried(hb: Heartbeat): Heartbeat {
    if hb.path.Some? then hb.(path := Some(Truncated(hb.path.value))) else hb
  }

  lemma FixedPart(hb: Heartbeat, rest: seq<u8>)
    ensures var buf := FixedBytes(hb) + rest;
            && Word32(buf, 0) == hb.virtualIp && buf[4] == hb.prefixLen && Word16(buf, 6) == hb.replyPort
            && buf[8..16] == hb.teamKeyHash && buf[HEARTBEAT_PAYLOAD_MIN..] == rest
  {
    var buf := FixedBytes(hb) + rest;
    Word32OfBytes(hb.virtualIp, buf, 0);
    Word16OfBytes(hb.replyPort, buf, 6);
  }

  /** The first zero byte of a device name followed by something is in the name, or is what follows. */
  lemma FirstZeroOfName(name: seq<u8>, rest: seq<u8>)
    requires rest == [] || rest[0] == 0
    ensures var k := FirstZero(name + rest, 0);
            if NulFree(name) then k == |name| else k < |name|
  {
    var all, k := name + rest, FirstZero(name + rest, 0);
    if NulFree(name) {
      assert forall j :: 0 <= j < |name| ==> all[j] == name[j];
      assert rest != [] ==> all[|name|] == 0;
    } else {
      var i :| 0 <= i < |name| && name[i] == 0;
      assert all[i] == 0;
    }
  }

  /** A path entry is read back as the words it was made of. */
  lemma EntryPart(name: seq<u8>, rtt: u16, tx: u32, rx: u32, d: seq<u8>)
    requires |name| <= 255 && d == [|name|] + name + (Bytes16(rtt) + Bytes32(tx) + Bytes32(rx))
    ensures DecodePath(d) == Some(PathStats(name, rtt, tx, rx))
  {
    var n := 1 + |name|;
    assert d[1..n] == name;
    Word16OfBytes(rtt, d, n);
    Word32OfBytes(tx, d, n + 2);
    Word32OfBytes(rx, d, n + 6);
  }

  /** What is appended for a path is read back exactly if its name is short enough for the length byte. */
  lemma PathPart(p: PathStats)
    ensures var d := PathBytes(p)[1..];
            && DecodePath(d).Some?
            && (|p.name| <= 255 ==> DecodePath(d) == Some(Truncated(p)))
            && (|p.name| > 255 ==> |DecodePath(d).value.name| < |p.name|)
  {
    var d := PathBytes(p)[1..];
    var figures := FigureBytes(p);
    assert d == [|p.name| % 0x100] + p.name + figures;
    if |p.name| <= 255 {
      EntryPart(p.name, p.rttMs % 0x1_0000, p.txBytes % TWO32, p.rxBytes % TWO32, d);
    } else {
      LongName(d, p.name, figures);
    }
  }

  lemma LongName(d: seq<u8>, name: seq<u8>, figures: seq<u8>)
    requires |name| > 255 && |figures| == 10 && d == [|name| % 0x100] + name + figures
    ensures DecodePath(d).Some? && |DecodePath(d).value.name| < |name|
  {
  }

  /**
   A heartbeat is read back as sent, its figures cut to their widths, exactly when its device name has no zero byte and
   its path name fits the length byte.
   */
  lemma HeartbeatRoundTripIff(hb: Heartbeat)
    ensures DecodeHeartbeat(HeartbeatBytes(hb)) == Ok(Carried(hb))
            <==> NulFree(hb.deviceName) && (hb.path.Some? ==> |hb.path.value.name| <= 255)
  {
    var rest := if hb.path.Some? then PathBytes(hb.path.value) else [];
    var ext := Extension(hb.deviceName, hb.path);
    FixedPart(hb, ext);
    FirstZeroOfName(hb.deviceName, rest);
    var sep := FirstZero(ext, 0);
    if sep == |hb.deviceName| {
      assert ext[..sep] == hb.deviceName;
      if hb.path.Some? {
        assert ext[sep + 1..] == rest[1..];
        PathPart(hb.path.value);
      }
    } else {
      assert |ext[..sep]| < |hb.deviceName|;
    }
  }

  /** Whatever payload a heartbeat was read from, encoding the heartbeat gives back its beginning, but for byte 5. */
  lemma HeartbeatDetermined(buf: seq<u8>)
    ensures match DecodeHeartbeat(buf)
            case Ok(hb) =>
              && |HeartbeatBytes(hb)| <= |buf|
              && HeartbeatBytes(hb) == buf[..|HeartbeatBytes(hb)|][5 := 0]
              && NulFree(hb.deviceName)
            case Err(e) => e == TooShort && |buf| < HEARTBEAT_PAYLOAD_MIN
  {
    if |buf| >= HEARTBEAT_PAYLOAD_MIN {
      var hb := DecodeHeartbeat(buf).value;
      FixedDetermined(buf);
      ExtensionDetermined(buf[HEARTBEAT_PAYLOAD_MIN..]);
      PrefixOfBoth(buf, HEARTBEAT_PAYLOAD_MIN, FixedBytes(hb), Extension(hb.deviceName, hb.path));
    }
  }

  /** The device name and the path entry are the beginning of what they were read from. */
  lemma ExtensionDetermined(ext: seq<u8>)
    ensures var sep := FirstZero(ext, 0);
            Extension(ext[..sep], if sep < |ext| then DecodePath(ext[sep + 1..]) else None) <= ext
  {
    var sep := FirstZero(ext, 0);
    if sep == |ext| {
      assert ext[..sep] + [] == ext;
    } else {
      var d := ext[sep + 1..];
      var path := DecodePath(d);
      if path.Some? {
        PathDetermined(d);
      }
      ExtensionIsPrefix(ext, sep, path);
    }
  }

  lemma ExtensionIsPrefix(ext: seq<u8>, sep: nat, path: Option<PathStats>)
    requires sep < |ext| && ext[sep] == 0 && (path.Some? ==> PathBytes(path.value) <= [0] + ext[sep + 1..])
    ensures Extension(ext[..sep], path) <= ext
  {
    if path.Some? {
      PrefixAfter(ext, sep, PathBytes(path.value));
    }
  }

  lemma PrefixAfter(ext: seq<u8>, sep: nat, tail: seq<u8>)
    requires sep < |ext| && ext[sep] == 0 && tail <= [0] + ext[sep + 1..]
    ensures ext[..sep] + tail <= ext
  {
    assert ext == ext[..sep] + ([0] + ext[sep + 1..]);
  }

  lemma PrefixOfBoth(buf: seq<u8>, n: nat, fixed: seq<u8>, ext: seq<u8>)
    requires 5 < n <= |buf| && ext <= buf[n..] && fixed == buf[..n][5 := 0]
    ensures |fixed + ext| <= |buf| && fixed + ext == buf[..|fixed + ext|][5 := 0]
  {
  }

  lemma FixedDetermined(buf: seq<u8>)
    requires |buf| >= HEARTBEAT_PAYLOAD_MIN
    ensures FixedBytes(DecodeHeartbeat(buf).value) == buf[..HEARTBEAT_PAYLOAD_MIN][5 := 0]
  {
    BytesOfWord32(buf, 0);
    BytesOfWord16(buf, 6);
    assert buf[..HEARTBEAT_PAYLOAD_MIN][5 := 0] == buf[0..4] + [buf[4], 0] + buf[6..8] + buf[8..16];
  }

  lemma FiguresFit(p: PathStats, rtt: u16, tx: u32, rx: u32)
    requires p.rttMs == rtt && p.txBytes == tx && p.rxBytes == rx
    ensures FigureBytes(p) == Bytes16(rtt) + Bytes32(tx) + Bytes32(rx)
  {
    assert p.rttMs % 0x1_0000 == rtt;
    assert p.txBytes % TWO32 == tx;
    assert p.rxBytes % TWO32 == rx;
  }

  lemma JoinSlices(d: seq<u8>, n: nat)
    requires n + 10 <= |d|
    ensures d[n..n + 2] + d[n + 2..n + 6] + d[n + 6..n + 10] == d[n..n + 10]
  {
  }

  lemma FiguresDetermined(d: seq<u8>, n: nat, p: PathStats)
    requires n + 10 <= |d|
    requires p.rttMs == Word16(d, n) && p.txBytes == Word32(d, n + 2) && p.rxBytes == Word32(d, n + 6)
    ensures FigureBytes(p) == d[n..n + 10]
  {
    FiguresFit(p, p.rttMs, p.txBytes, p.rxBytes);
    BytesOfWord16(d, n);
    BytesOfWord32(d, n + 2);
    BytesOfWord32(d, n + 6);
    JoinSlices(d, n);
  }

  lemma PathDetermined(d: seq<u8>)
    requires DecodePath(d).Some?
    ensures PathBytes(DecodePath(d).value) <= [0] + d
  {
    var p, n := DecodePath(d).value, d[0] as int + 1;
    FiguresDetermined(d, n, p);
    SmallLength(d[0]);
    assert [0] + d == [0, d[0]] + d[1..n] + d[n..n + 10] + d[n + 10..];
  }

  lemma SmallLength(n: u8)
    ensures n % 0x100 == n
  {
  }

  // ----- acknowledgements -----

  function AckBytes(ack: HeartbeatAck): (bytes: seq<u8>)
    ensures |bytes| == HEARTBEAT_ACK_SIZE
  {
    Bytes32(ack.assignedIp) + [ack.prefixLen, ack.status] + Bytes16(ack.mtu)
  }

  /** Address, prefix length, status and MTU. */
  lemma AckLayout(ack: HeartbeatAck)
    ensures AckBytes(ack) == [ack.assignedIp / 0x100_0000, ack.assignedIp / 0x1_0000 % 256, ack.assignedIp / 256 % 256,
                              ack.assignedIp % 256, ack.prefixLen, ack.status, ack.mtu / 256, ack.mtu % 256]
  {
    BigEndian(ack.mtu, ack.assignedIp);
  }

  function DecodeHeartbeatAck(buf: seq<u8>): Result<HeartbeatAck> {
    if |buf| < HEARTBEAT_ACK_SIZE then Err(TooShort)
    else Ok(HeartbeatAck(Word32(buf, 0), buf[4], buf[5], Word16(buf, 6)))
  }

  /** Acknowledgements are read back as written, and determine the bytes they were read from. */
  lemma AckRoundTrip(ack: HeartbeatAck, buf: seq<u8>)
    ensures DecodeHeartbeatAck(AckBytes(ack) + buf) == Ok(ack)
    ensures match DecodeHeartbeatAck(buf)
            case Ok(a) => |buf| >= HEARTBEAT_ACK_SIZE && AckBytes(a) == buf[..HEARTBEAT_ACK_SIZE]
            case Err(e) => e == TooShort && |buf| < HEARTBEAT_ACK_SIZE
  {
    var all := AckBytes(ack) + buf;
    Word32OfBytes(ack.assignedIp, all, 0);
    Word16OfBytes(ack.mtu, all, 6);
    if |buf| >= HEARTBEAT_ACK_SIZE {
      BytesOfWord32(buf, 0);
      BytesOfWord16(buf, 6);
      assert buf[..HEARTBEAT_ACK_SIZE] == buf[0..4] + [buf[4], buf[5]] + buf[6..8];
    }
  }
}
