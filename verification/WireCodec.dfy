/** The encoders and decoders over byte buffers. */
module WireCodec {
  import opened Words
  import opened Messages
  import opened Wire

  /** `s` with the bytes from `off` on replaced by `bytes`. */
  ghost function Splice(s: seq<u8>, off: nat, bytes: seq<u8>): (r: seq<u8>)
    requires off + |bytes| <= |s|
    ensures |r| == |s|
  {
    s[..off] + bytes + s[off + |bytes|..]
  }

  lemma SpliceNext(s: seq<u8>, off: nat, a: seq<u8>, b: seq<u8>)
    requires off + |a| + |b| <= |s|
    ensures Splice(Splice(s, off, a), off + |a|, b) == Splice(s, off, a + b)
  {
  }

  lemma SpliceOneMore(s: seq<u8>, off: nat, bytes: seq<u8>, n: nat)
    requires n < |bytes| && off + n < |s|
    ensures Splice(s, off, bytes[..n + 1]) == Splice(s, off, bytes[..n])[off + n := bytes[n]]
  {
  }

  method Put16(buf: array<u8>, off: nat, x: u16)
    requires off + 2 <= buf.Length
    modifies buf
    ensures buf[..] == Splice(old(buf[..]), off, Bytes16(x))
  {
    buf[off] := x / 0x100;
    buf[off + 1] := x % 0x100;
  }

  method Put32(buf: array<u8>, off: nat, x: u32)
    requires off + 4 <= buf.Length
    modifies buf
    ensures buf[..] == Splice(old(buf[..]), off, Bytes32(x))
  {
    buf[off] := x / 0x1_0000 / 0x100;
    buf[off + 1] := x / 0x1_0000 % 0x100;
    buf[off + 2] := x % 0x1_0000 / 0x100;
    buf[off + 3] := x % 0x1_0000 % 0x100;
  }

  /** Copies as many bytes as fit. */
  method Copy(buf: array<u8>, off: nat, bytes: seq<u8>) returns (n: nat)
    requires off <= buf.Length
    modifies buf
    ensures n == if |bytes| <= buf.Length - off then |bytes| else buf.Length - off
    ensures buf[..] == Splice(old(buf[..]), off, bytes[..n])
  {
    n := 0;
    while n < |bytes| && off + n < buf.Length
      invariant 0 <= n <= |bytes| && off + n <= buf.Length
      invariant buf[..] == Splice(old(buf[..]), off, bytes[..n])
    {
      SpliceOneMore(old(buf[..]), off, bytes, n);
      buf[off + n] := bytes[n];
      n := n + 1;
    }
  }

  method EncodeHeader(buf: array<u8>, h: Header)
    requires buf.Length >= HEADER_SIZE
    modifies buf
    ensures buf[..] == Splice(old(buf[..]), 0, HeaderBytes(h))
  {
    buf[0] := VERSION1 + h.kind % 0x10;
    buf[1] := 0;
    Put16(buf, 2, h.clientId);
    Put32(buf, 4, h.number);
  }

  /** Writes the fixed part of a heartbeat at `off`. */
  method EncodeHeartbeat(buf: array<u8>, off: nat, hb: Heartbeat)
    requires off + HEARTBEAT_PAYLOAD_MIN <= buf.Length
    modifies buf
    ensures buf[..] == Splice(old(buf[..]), off, FixedBytes(hb))
  {
    ghost var was := buf[..];
    Put32(buf, off, hb.virtualIp);
    PutFlags(buf, off + 4, hb.prefixLen);
    SpliceNext(was, off, Bytes32(hb.virtualIp), [hb.prefixLen, 0]);
    Put16(buf, off + 6, hb.replyPort);
    SpliceNext(was, off, Bytes32(hb.virtualIp) + [hb.prefixLen, 0], Bytes16(hb.replyPort));
    var n := Copy(buf, off + 8, hb.teamKeyHash);
    assert hb.teamKeyHash[..n] == hb.teamKeyHash;
    SpliceNext(was, off, Bytes32(hb.virtualIp) + [hb.prefixLen, 0] + Bytes16(hb.replyPort), hb.teamKeyHash);
  }

  /** The prefix length, and the send mode byte that is always 0. */
  method PutFlags(buf: array<u8>, off: nat, prefixLen: u8)
    requires off + 2 <= buf.Length
    modifies buf
    ensures buf[..] == Splice(old(buf[..]), off, [prefixLen, 0])
  {
    buf[off] := prefixLen;
    buf[off + 1] := 0;
  }

  /** Writes the fixed part and as much of the device name as fits; returns the number of bytes written. */
  method EncodeHeartbeatFull(buf: array<u8>, off: nat, hb: Heartbeat) returns (n: nat)
    requires off + HEARTBEAT_PAYLOAD_MIN <= buf.Length
    modifies buf
    ensures HEARTBEAT_PAYLOAD_MIN <= n <= HEARTBEAT_PAYLOAD_MIN + |hb.deviceName| && off + n <= buf.Length
    ensures n < HEARTBEAT_PAYLOAD_MIN + |hb.deviceName| ==> off + n == buf.Length
    ensures buf[..] == Splice(old(buf[..]), off, FixedBytes(hb) + hb.deviceName[..n - HEARTBEAT_PAYLOAD_MIN])
  {
    EncodeHeartbeat(buf, off, hb);
    n := HEARTBEAT_PAYLOAD_MIN;
    if hb.deviceName != [] {
      var k := Copy(buf, off + n, hb.deviceName);
      SpliceNext(old(buf[..]), off, FixedBytes(hb), hb.deviceName[..k]);
      n := n + k;
    }
  }

  /** Writes what is appended for a path at `off`. */
  method AppendPath(buf: array<u8>, off: nat, p: PathStats)
    requires off + |p.name| + 12 <= buf.Length
    modifies buf
    ensures buf[..] == Splice(old(buf[..]), off, PathBytes(p))
  {
    ghost var was := buf[..];
    buf[off] := 0;
    buf[off + 1] := |p.name| % 0x100;
    assert buf[..] == Splice(was, off, [0, |p.name| % 0x100]);
    var n := Copy(buf, off + 2, p.name);
    SpliceNext(was, off, [0, |p.name| % 0x100], p.name);
    assert p.name[..n] == p.name;
    PutFigures(buf, off + 2 + n, p);
    SpliceNext(was, off, [0, |p.name| % 0x100] + p.name, FigureBytes(p));
  }

  method PutFigures(buf: array<u8>, off: nat, p: PathStats)
    requires off + 10 <= buf.Length
    modifies buf
    ensures buf[..] == Splice(old(buf[..]), off, FigureBytes(p))
  {
    ghost var was := buf[..];
    Put16(buf, off, p.rttMs % 0x1_0000);
    Put32(buf, off + 2, p.txBytes % TWO32);
    SpliceNext(was, off, Bytes16(p.rttMs % 0x1_0000), Bytes32(p.txBytes % TWO32));
    Put32(buf, off + 6, p.rxBytes % TWO32);
    SpliceNext(was, off, Bytes16(p.rttMs % 0x1_0000) + Bytes32(p.txBytes % TWO32), Bytes32(p.rxBytes % TWO32));
  }

  method EncodeHeartbeatAck(buf: array<u8>, off: nat, ack: HeartbeatAck)
    requires off + HEARTBEAT_ACK_SIZE <= buf.Length
    modifies buf
    ensures buf[..] == Splice(old(buf[..]), off, AckBytes(ack))
  {
    Put32(buf, off, ack.assignedIp);
    buf[off + 4] := ack.prefixLen;
    buf[off + 5] := ack.status;
    Put16(buf, off + 6, ack.mtu);
  }

  /** Header, fixed part and device name; the buffer is sized so that the device name fits. */
  method BuildBase(h: Header, hb: Heartbeat) returns (base: seq<u8>)
    ensures base == HeaderBytes(h) + (FixedBytes(hb) + hb.deviceName)
  {
    var buf := new u8[HEADER_SIZE + HEARTBEAT_PAYLOAD_MIN + |hb.deviceName| + 256](_ => 0);
    EncodeHeader(buf, h);
    ghost var was := buf[..];
    var n := EncodeHeartbeatFull(buf, HEADER_SIZE, hb);
    assert hb.deviceName[..n - HEARTBEAT_PAYLOAD_MIN] == hb.deviceName;
    base := buf[..HEADER_SIZE + n];
    assert base[..HEADER_SIZE] == was[..HEADER_SIZE] == HeaderBytes(h);
  }

  lemma SpliceHalves(s: seq<u8>, a: seq<u8>, b: seq<u8>)
    requires |s| == |a| + |b|
    ensures Splice(Splice(s, 0, a), |a|, b) == a + b
  {
    SpliceNext(s, 0, a, b);
  }

  /** A copy of the base packet with room for the figures of a path, and the figures in it. */
  method AttachPath(base: seq<u8>, path: PathStats) returns (pkt: array<u8>)
    ensures fresh(pkt) && pkt[..] == base + PathBytes(path)
  {
    pkt := new u8[|base| + (|path.name| + 12)](_ => 0);
    ghost var was := pkt[..];
    var k := Copy(pkt, 0, base);
    assert base[..k] == base;
    AppendPath(pkt, |base|, path);
    SpliceHalves(was, base, PathBytes(path));
  }

  /** Reads a heartbeat payload: the device name ends at the first zero byte, which a path entry may follow. */
  method ReadHeartbeat(buf: seq<u8>) returns (r: Result<Heartbeat>)
    ensures r == DecodeHeartbeat(buf)
  {
    if |buf| < HEARTBEAT_PAYLOAD_MIN {
      return Err(TooShort);
    }
    var hb := Heartbeat(Word32(buf, 0), buf[4], Word16(buf, 6), buf[8..16], [], None);
    if |buf| <= HEARTBEAT_PAYLOAD_MIN {
      assert buf[HEARTBEAT_PAYLOAD_MIN..] == [];
      return Ok(hb);
    }
    var ext := buf[HEARTBEAT_PAYLOAD_MIN..];
    var sep := 0;
    while sep < |ext| && ext[sep] != 0
      invariant 0 <= sep <= |ext|
      invariant FirstZero(ext, 0) == FirstZero(ext, sep)
    {
      sep := sep + 1;
    }
    if sep == |ext| {
      assert ext[..sep] == ext;
      return Ok(hb.(deviceName := ext));
    }
    hb := hb.(deviceName := ext[..sep]);
    var path := ReadPath(ext[sep + 1..]);
    return Ok(hb.(path := path));
  }

  /** Reads the figures of a path, with a moving position. */
  method ReadPath(d: seq<u8>) returns (path: Option<PathStats>)
    ensures path == DecodePath(d)
  {
    path := None;
    if |d| >= 1 {
      var nameLen: nat := d[0];
      var pos := 1;
      if pos + nameLen + 10 <= |d| {
        var name := d[pos..pos + nameLen];
        pos := pos + nameLen;
        var rtt := Word16(d, pos);
        pos := pos + 2;
        var tx := Word32(d, pos);
        pos := pos + 4;
        var rx := Word32(d, pos);
        path := Some(PathStats(name, rtt, tx, rx));
      }
    }
  }
}
