/** Single-bit updates of 64-bit words. */
module Bits {
  /** The word with only bit k set. */
  function Mask(k: nat): bv64 {
    if k == 0 then 1 else Mask(k - 1) << 1
  }

  function And(word: bv64, mask: bv64): bv64 {
    word & mask
  }

  function Or(word: bv64, mask: bv64): bv64 {
    word | mask
  }

  function AndNot(word: bv64, mask: bv64): bv64 {
    word & !mask
  }

  /** `1 << (i % 64)`. */
  function ShiftedOne(i: nat): bv64 {
    (1 as bv64) << ((i % 64) as bv6)
  }

  /** Bit k of `word`. */
  predicate BitAt(word: bv64, k: nat) {
    And(word, Mask(k)) != 0
  }

  lemma Value6(k: nat)
    requires k < 64
    ensures (k as bv6) as int == k
  {
  }

  lemma Plus6(a: bv6)
    requires a as int < 63
    ensures a < 63 && (a + 1) as int == a as int + 1
  {
  }

  lemma Injective6(a: bv6, b: bv6)
    requires a as int == b as int
    ensures a == b
  {
  }

  lemma Successor6(k: nat)
    requires 0 < k < 64
    ensures k as bv6 == (k - 1) as bv6 + 1 && (k - 1) as bv6 < 63
  {
    Value6(k);
    Value6(k - 1);
    Plus6((k - 1) as bv6);
    Injective6(k as bv6, (k - 1) as bv6 + 1);
  }

  lemma ShiftSuccessor(a: bv6)
    requires a < 63
    ensures (1 as bv64) << (a + 1) == ((1 as bv64) << a) << 1
  {
  }

  /** `1 << k` with k reduced to six bits is the mask of bit k. */
  lemma {:induction false} ShiftIsMask(k: nat)
    requires k < 64
    ensures (1 as bv64) << (k as bv6) == Mask(k)
  {
    if k > 0 {
      ShiftIsMask(k - 1);
      Successor6(k);
      ShiftSuccessor((k - 1) as bv6);
    }
  }

  lemma ShiftedOneIsMask(i: nat)
    ensures ShiftedOne(i) == Mask(i % 64)
  {
    ShiftIsMask(i % 64);
  }

  lemma ShiftNonzero(a: bv6)
    ensures (1 as bv64) << a != 0
  {
  }

  lemma MaskNonzero(k: nat)
    requires k < 64
    ensures Mask(k) != 0
  {
    ShiftNonzero(k as bv6);
    ShiftIsMask(k);
  }

  lemma OneMeetsEven(x: bv64)
    ensures And(1, x << 1) == 0
  {
  }

  lemma ShiftMeets(x: bv64, y: bv64)
    requires And(x, y) == 0
    ensures And(x << 1, y << 1) == 0
  {
  }

  lemma {:induction false} MasksDisjoint(j: nat, k: nat)
    requires j < k
    ensures And(Mask(j), Mask(k)) == 0
  {
    if j == 0 {
      OneMeetsEven(Mask(k - 1));
    } else {
      MasksDisjoint(j - 1, k - 1);
      ShiftMeets(Mask(j - 1), Mask(k - 1));
    }
  }

  lemma OrApart(word: bv64, m: bv64, n: bv64)
    requires And(m, n) == 0
    ensures And(Or(word, m), n) == And(word, n)
  {
  }

  lemma AndNotApart(word: bv64, m: bv64, n: bv64)
    requires And(m, n) == 0
    ensures And(AndNot(word, m), n) == And(word, n)
  {
  }

  lemma UpdateSame(word: bv64, m: bv64)
    requires m != 0
    ensures And(Or(word, m), m) != 0 && And(AndNot(word, m), m) == 0
  {
  }

  lemma Commutes(m: bv64, n: bv64)
    ensures And(m, n) == And(n, m)
  {
  }

  /** Setting bit k of a word changes bit k and no other bit; so does clearing it. */
  lemma UpdateEffect(word: bv64, k: nat, j: nat)
    requires k < 64
    ensures BitAt(Or(word, Mask(k)), j) == (j == k || BitAt(word, j))
    ensures BitAt(AndNot(word, Mask(k)), j) == (j != k && BitAt(word, j))
  {
    if j == k {
      MaskNonzero(k);
      UpdateSame(word, Mask(k));
    } else {
      if j < k {
        MasksDisjoint(j, k);
        Commutes(Mask(j), Mask(k));
      } else {
        MasksDisjoint(k, j);
      }
      OrApart(word, Mask(k), Mask(j));
      AndNotApart(word, Mask(k), Mask(j));
    }
  }

  lemma ZeroWord(k: nat)
    ensures !BitAt(0, k)
  {
    ZeroMeets(Mask(k));
  }

  lemma ZeroMeets(m: bv64)
    ensures And(0, m) == 0
  {
  }
}
