/** The IPv4 header checksum, recomputed in place. */
module Checksum {
  import opened Words

  // ----- one's complement sums -----

  /** One's complement addition: the carry out of the top bit is added back in at the bottom. */
  function AddOnes(a: u16, b: u16): (r: u16) {
    var s := (a as int) + b;
    if s > 0xFFFF then s - 0xFFFF else s
  }

  /** The one's complement sum of the words at i, i+2, ..., n-2, added one by one. */
  function OnesSum(bytes: seq<u8>, n: nat): (r: u16)
    requires n <= |bytes| && n % 2 == 0
  {
    if n == 0 then 0 else AddOnes(OnesSum(bytes, n - 2), Word16(bytes, n - 2))
  }

  /** The plain sum of the same words. */
  function PlainSum(bytes: seq<u8>, n: nat): (r: nat)
    requires n <= |bytes| && n % 2 == 0
    ensures r <= (n / 2) * 0xFFFF
  {
    if n == 0 then 0 else PlainSum(bytes, n - 2) + Word16(bytes, n - 2)
  }

  /** Adding the high half of a sum to its low half until it fits 16 bits. */
  function Fold(sum: nat): (r: u16)
    decreases sum
  {
    if sum <= 0xFFFF then sum else Fold(sum / 0x1_0000 + sum % 0x1_0000)
  }

  /** Folding gives the representative of the sum modulo 65535 in 1..65535, or 0 for 0. */
  function Representative(sum: nat): (r: u16) {
    if sum == 0 then 0 else (sum - 1) % 0xFFFF + 1
  }

  lemma {:induction false} FoldIsRepresentative(sum: nat)
    ensures Fold(sum) == Representative(sum)
    decreases sum
  {
    if sum > 0xFFFF {
      var next := sum / 0x1_0000 + sum % 0x1_0000;
      assert sum == 0xFFFF * (sum / 0x1_0000) + next;
      FoldIsRepresentative(next);
      SameRepresentative(next, sum / 0x1_0000);
    }
  }

  lemma SameRepresentative(sum: nat, k: nat)
    requires sum > 0
    ensures Representative(0xFFFF * k + sum) == Representative(sum)
  {
    AddMultiple(sum - 1, k, 0xFFFF);
    assert 0xFFFF * k + sum - 1 == 0xFFFF * k + (sum - 1);
  }

  lemma RepresentativeOfSum(a: nat, b: u16)
    ensures AddOnes(Representative(a), b) == Representative(a + b)
  {
    if a > 0 {
      var q := (a - 1) / 0xFFFF;
      assert a - 1 == 0xFFFF * q + (a - 1) % 0xFFFF;
      SameRepresentative(Representative(a) + b, q);
      assert a + b == 0xFFFF * q + (Representative(a) + b);
    }
  }

  /** Adding first and folding the carries in at the end gives the one's complement sum. */
  lemma {:induction false} DeferredCarries(bytes: seq<u8>, n: nat)
    requires n <= |bytes| && n % 2 == 0
    ensures Fold(PlainSum(bytes, n)) == OnesSum(bytes, n)
  {
    FoldIsRepresentative(PlainSum(bytes, n));
    if n > 0 {
      DeferredCarries(bytes, n - 2);
      FoldIsRepresentative(PlainSum(bytes, n - 2));
      RepresentativeOfSum(PlainSum(bytes, n - 2), Word16(bytes, n - 2));
    }
  }

  // ----- the header -----

  /** The header length in bytes that the first byte declares. */
  function HeaderLength(header: seq<u8>): nat
    requires header != []
  {
    header[0] % 0x10 * 4
  }

  /** The declared length is one that the code accepts. */
  predicate HasHeader(packet: seq<u8>) {
    packet != [] && 20 <= HeaderLength(packet) <= |packet|
  }

  /** A header is valid if the one's complement sum of all its words is all ones (RFC 791, section 3.1). */
  predicate Valid(packet: seq<u8>)
    requires HasHeader(packet)
  {
    OnesSum(packet, HeaderLength(packet)) == 0xFFFF
  }

  function Cleared(packet: seq<u8>): (r: seq<u8>)
    requires HasHeader(packet)
    ensures |r| == |packet| && HasHeader(r) && HeaderLength(r) == HeaderLength(packet)
  {
    packet[10 := 0][11 := 0]
  }

  /** The packet with its checksum field filled in. */
  function WithChecksum(packet: seq<u8>): (r: seq<u8>)
    requires HasHeader(packet)
    ensures |r| == |packet|
  {
    var cs := 0xFFFF - OnesSum(Cleared(packet), HeaderLength(packet));
    packet[10 := cs / 0x100][11 := cs % 0x100]
  }

  /** The sum with the checksum field set is the sum without it plus the field. */
  lemma {:induction false} PlainSumSplit(packet: seq<u8>, hi: u8, lo: u8, n: nat)
    requires n <= |packet| && n % 2 == 0 && |packet| >= 20
    ensures PlainSum(packet[10 := hi][11 := lo], n)
            == PlainSum(packet[10 := 0][11 := 0], n) + if n >= 12 then (hi as int) * 0x100 + lo else 0
  {
    if n > 0 {
      PlainSumSplit(packet, hi, lo, n - 2);
      var a, b := packet[10 := hi][11 := lo], packet[10 := 0][11 := 0];
      if n == 12 {
        assert Word16(a, 10) == (hi as int) * 0x100 + lo && Word16(b, 10) == 0;
      } else {
        assert a[n - 2] == b[n - 2] && a[n - 1] == b[n - 1];
      }
    }
  }

  /** The first word is not zero, as the header length in it is not. */
  lemma {:induction false} HeaderSumPositive(packet: seq<u8>, n: nat)
    requires packet != [] && packet[0] > 0 && 2 <= n <= |packet| && n % 2 == 0
    ensures PlainSum(packet, n) > 0
  {
    if n > 2 {
      HeaderSumPositive(packet, n - 2);
    } else {
      assert PlainSum(packet, 0) == 0;
    }
  }

  /** The sum after recomputation: what it was without the field, and the complement of that. */
  lemma SumWithChecksum(packet: seq<u8>)
    requires HasHeader(packet)
    ensures var n, s := HeaderLength(packet), PlainSum(Cleared(packet), HeaderLength(packet));
            && s > 0
            && n % 2 == 0 && n <= |packet|
            && PlainSum(WithChecksum(packet), n) == s + (0xFFFF - Representative(s))
  {
    var n, clear := HeaderLength(packet), Cleared(packet);
    DeferredCarries(clear, n);
    FoldIsRepresentative(PlainSum(clear, n));
    HeaderSumPositive(clear, n);
    var cs := 0xFFFF - OnesSum(clear, n);
    PlainSumSplit(packet, cs / 0x100, cs % 0x100, n);
  }

  /**
   After recomputation the header is valid, nothing but the checksum field has changed, and doing it again
   changes nothing.
   */
  lemma ChecksumIsValid(packet: seq<u8>)
    requires HasHeader(packet)
    ensures var r := WithChecksum(packet);
            && HasHeader(r) && Valid(r)
            && (forall i :: 0 <= i < |packet| && i != 10 && i != 11 ==> r[i] == packet[i])
            && WithChecksum(r) == r
  {
    var n, r := HeaderLength(packet), WithChecksum(packet);
    SumWithChecksum(packet);
    ComplementFolds(PlainSum(Cleared(packet), n));
    DeferredCarries(r, n);
    assert HeaderLength(r) == n;
    assert Cleared(r) == Cleared(packet);
  }

  lemma ComplementFolds(s: nat)
    requires s > 0
    ensures Fold(s + (0xFFFF - Representative(s))) == 0xFFFF
  {
    var q := (s - 1) / 0xFFFF;
    assert s - 1 == 0xFFFF * q + (s - 1) % 0xFFFF;
    FoldIsRepresentative(s + (0xFFFF - Representative(s)));
    SameRepresentative(0xFFFF, q);
  }

  /** Adds the words of the header. */
  method SumHeader(packet: array<u8>, ihl: nat) returns (sum: u32)
    requires ihl <= packet.Length && ihl <= 60 && ihl % 2 == 0
    ensures sum == PlainSum(packet[..], ihl)
  {
    sum := 0;
    var i := 0;
    while i < ihl
      invariant 0 <= i <= ihl && i % 2 == 0
      invariant sum == PlainSum(packet[..], i)
    {
      assert packet[..][i] == packet[i] && packet[..][i + 1] == packet[i + 1];
      sum := sum + (packet[i] as int) * 0x100 + packet[i + 1];
      i := i + 2;
    }
  }

  /** Adds the carries back in until the sum fits 16 bits. */
  method FoldCarries(sum: u32) returns (r: u16)
    ensures r == Fold(sum)
  {
    var folded := sum;
    while folded > 0xFFFF
      invariant Fold(folded) == Fold(sum)
      decreases folded
    {
      folded := folded / 0x1_0000 + folded % 0x1_0000;
    }
    r := folded;
  }

  /** Recomputes the header checksum in place; a packet without a proper header is left alone. */
  method RecalcIPv4Checksum(packet: array<u8>)
    requires packet.Length > 0
    modifies packet
    ensures packet[..] == if HasHeader(old(packet[..])) then WithChecksum(old(packet[..])) else old(packet[..])
  {
    var ihl := packet[0] % 0x10 * 4;
    if ihl < 20 || ihl > packet.Length {
      return;
    }
    ghost var was := packet[..];
    packet[10] := 0;
    packet[11] := 0;
    assert packet[..] == Cleared(was);
    var sum := SumHeader(packet, ihl);
    var folded := FoldCarries(sum);
    DeferredCarries(Cleared(was), ihl);
    var cs: u16 := 0xFFFF - folded;
    packet[10] := cs / 0x100;
    packet[11] := cs % 0x100;
    assert packet[..] == WithChecksum(was);
  }
}
