/** Fixed-width unsigned words and the 32-bit serial-number comparison. */
module Words {
  const TWO31 := 0x8000_0000
  const TWO32 := 0x1_0000_0000

  type u8 = x: int | 0 <= x < 0x100
  type u16 = x: int | 0 <= x < 0x1_0000
  type u32 = x: int | 0 <= x < 0x1_0000_0000

  /** Addition of uint32 values, with wrap-around. */
  function Add32(a: u32, b: u32): (r: u32) {
    (a + b) % TWO32
  }

  /** The distance from `max` to `number` normalised to [-2^31, 2^31], as IsDuplicate computes it in int64. */
  function SignedDiff(number: u32, max: u32): (d: int)
    ensures -TWO31 <= d <= TWO31
    ensures (max + d) % TWO32 == number
  {
    var d := number - max;
    if d > TWO31 then d - TWO32 else if d < -TWO31 then d + TWO32 else d
  }

  /** Big-endian words in a sequence of bytes. */
  function Word16(bytes: seq<u8>, i: nat): (r: u16)
    requires i + 2 <= |bytes|
  {
    (bytes[i] as int) * 0x100 + bytes[i + 1]
  }

  function Word32(bytes: seq<u8>, i: nat): (r: u32)
    requires i + 4 <= |bytes|
  {
    (Word16(bytes, i) as int) * 0x1_0000 + Word16(bytes, i + 2)
  }

  function Bytes16(x: u16): (bytes: seq<u8>)
    ensures |bytes| == 2
  {
    [x / 0x100, x % 0x100]
  }

  function Bytes32(x: u32): (bytes: seq<u8>)
    ensures |bytes| == 4
  {
    Bytes16(x / 0x1_0000) + Bytes16(x % 0x1_0000)
  }

  /** The words are read back from where they were written. */
  lemma Word16OfBytes(x: u16, bytes: seq<u8>, i: nat)
    requires i + 2 <= |bytes| && bytes[i..i + 2] == Bytes16(x)
    ensures Word16(bytes, i) == x
  {
    assert bytes[i] == bytes[i..i + 2][0] && bytes[i + 1] == bytes[i..i + 2][1];
  }

  lemma Word32OfBytes(x: u32, bytes: seq<u8>, i: nat)
    requires i + 4 <= |bytes| && bytes[i..i + 4] == Bytes32(x)
    ensures Word32(bytes, i) == x
  {
    assert bytes[i..i + 2] == bytes[i..i + 4][..2] && bytes[i + 2..i + 4] == bytes[i..i + 4][2..];
    Word16OfBytes(x / 0x1_0000, bytes, i);
    Word16OfBytes(x % 0x1_0000, bytes, i + 2);
  }

  /** Writing a word gives back the bytes it was read from. */
  lemma BytesOfWord16(bytes: seq<u8>, i: nat)
    requires i + 2 <= |bytes|
    ensures Bytes16(Word16(bytes, i)) == bytes[i..i + 2]
  {
  }

  lemma BytesOfWord32(bytes: seq<u8>, i: nat)
    requires i + 4 <= |bytes|
    ensures Bytes32(Word32(bytes, i)) == bytes[i..i + 4]
  {
    BytesOfWord16(bytes, i);
    BytesOfWord16(bytes, i + 2);
    HalvesOf(Word16(bytes, i), Word16(bytes, i + 2));
    assert bytes[i..i + 4] == bytes[i..i + 2] + bytes[i + 2..i + 4];
  }

  lemma HalvesOf(hi: u16, lo: u16)
    ensures ((hi as int) * 0x1_0000 + lo) / 0x1_0000 == hi
    ensures ((hi as int) * 0x1_0000 + lo) % 0x1_0000 == lo
  {
  }

  lemma {:induction false} MultipleAtLeast(w: int, d: int)
    requires w > 0
    ensures d > 0 ==> w * d >= w
    ensures d < 0 ==> w * d <= -w
    decreases if d < 0 then -d else d
  {
    if d > 1 {
      MultipleAtLeast(w, d - 1);
      assert w * d == w * (d - 1) + w;
    } else if d < -1 {
      MultipleAtLeast(w, d + 1);
      assert w * d == w * (d + 1) - w;
    }
  }

  /** Two integers less than m apart that are congruent mod m are equal. */
  lemma CongruentNear(x: int, y: int, m: int)
    requires m > 0 && x % m == y % m && -m < x - y < m
    ensures x == y
  {
    var p, q := x / m, y / m;
    assert x - y == m * (p - q) by {
      assert x == m * p + x % m && y == m * q + y % m;
    }
    MultipleAtLeast(m, p - q);
  }

  /** Reducing modulo a multiple of w first does not change the residue modulo w. */
  lemma ModMod(x: int, w: int, m: int)
    requires w > 0 && m > 0 && m % w == 0
    ensures (x % m) % w == x % w
  {
    var k := m / w;
    assert m == w * k;
    var q := x / m;
    assert x == m * q + x % m;
    assert x == w * (k * q) + x % m by {
      assert m * q == w * (k * q);
    }
    AddMultiple(x % m, k * q, w);
  }

  lemma AddMultiple(x: int, k: int, w: int)
    requires w > 0
    ensures (w * k + x) % w == x % w
  {
    var a, b := (w * k + x) / w, x / w;
    var ra, rb := (w * k + x) % w, x % w;
    assert w * k + x == w * a + ra && x == w * b + rb;
    var d := k + b - a;
    assert w * d == ra - rb by {
      assert w * d == w * k + w * b - w * a;
    }
    MultipleAtLeast(w, d);
  }

  /** Congruence is preserved by adding the same offset. */
  lemma ModAdd(x: int, y: int, d: int, m: int)
    requires m > 0 && x % m == y % m
    ensures (x + d) % m == (y + d) % m
  {
    var p, q := x / m, y / m;
    assert x == m * p + x % m && y == m * q + y % m;
    assert x + d == m * (p - q) + (y + d) by {
      assert m * (p - q) == m * p - m * q;
    }
    AddMultiple(y + d, p - q, m);
  }
}
