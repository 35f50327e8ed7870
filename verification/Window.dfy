/**
 The sliding-window state of one client as values, and the exact account of it.

 `Ring` is what the code keeps: a bit per residue modulo the window size.  `History` is the simple
 account: the set of all numbers accepted since the last restart, as unbounded integers, and their maximum.
 */
module Window {
  import opened Words

  datatype Ring = Ring(inited: bool, max: u32, bits: seq<bool>)

  /** The bit of a window of size w that stands for n. */
  function Slot(n: int, w: nat): (j: nat)
    requires w > 0
    ensures j < w
  {
    n % w
  }

  /** A freshly allocated window. */
  function EmptyRing(w: nat): Ring {
    Ring(false, 0, seq(w, _ => false))
  }

  /** The window of client `id`; a client never seen has an empty one. */
  function WindowOf(windows: map<u16, Ring>, id: u16, w: nat): Ring {
    if id in windows then windows[id] else EmptyRing(w)
  }

  /** The bits after clearing the residues of base+1, ..., base+n, with uint32 wrap-around. */
  function ClearAfter(bits: seq<bool>, base: u32, n: nat): (r: seq<bool>)
    requires |bits| > 0
    ensures |r| == |bits|
  {
    if n == 0 then bits else ClearAfter(bits, base, n - 1)[Slot(Add32(base, n % TWO32), |bits|) := false]
  }

  /** What a call does to the ring, and whether it reports a duplicate. */
  function RingStep(r: Ring, number: u32): (o: (Ring, bool))
    requires |r.bits| > 0
    ensures |o.0.bits| == |r.bits|
  {
    var w := |r.bits|;
    var d := SignedDiff(number, r.max);
    if !r.inited then
      (Ring(true, number, r.bits[Slot(number, w) := true]), false)
    else if d > 0 then
      var cleared := if d >= w then seq(w, _ => false) else ClearAfter(r.bits, r.max, d);
      (Ring(true, number, cleared[Slot(number, w) := true]), false)
    else if d == 0 then
      (r, true)
    else if -d >= w then
      (Ring(true, number, seq(w, _ => false)[Slot(number, w) := true]), false)
    else if r.bits[Slot(number, w)] then
      (r, true)
    else
      (r.(bits := r.bits[Slot(number, w) := true]), false)
  }

  /** The verdicts of a sequence of calls, in order. */
  function RingVerdicts(r: Ring, numbers: seq<u32>): (verdicts: seq<bool>)
    requires |r.bits| > 0
    ensures |verdicts| == |numbers|
    decreases |numbers|
  {
    if numbers == [] then []
    else
      var (r', dup) := RingStep(r, numbers[0]);
      [dup] + RingVerdicts(r', numbers[1..])
  }

  /** The ring after a sequence of calls. */
  function RingAfter(r: Ring, numbers: seq<u32>): (r': Ring)
    requires |r.bits| > 0
    ensures |r'.bits| == |r.bits|
    decreases |numbers|
  {
    if numbers == [] then r else RingAfter(RingStep(r, numbers[0]).0, numbers[1..])
  }

  // ----- the simple account -----

  /** `top` is the largest number accepted since the last restart, `accepted` all of them. */
  datatype History = Nothing | Epoch(top: int, accepted: set<int>)

  /** The unbounded number that `number` stands for next to `top`: the one closest to it. */
  function Lift(top: int, number: u32): (n: int)
    ensures n % TWO32 == number
    ensures top - TWO31 <= n <= top + TWO31
  {
    var n := top + SignedDiff(number, top % TWO32);
    ModAdd(top % TWO32, top, SignedDiff(number, top % TWO32), TWO32);
    n
  }

  /** True if the call starts a new epoch: the number is a whole window or more behind. */
  predicate Restarts(h: History, number: u32, w: nat) {
    h.Epoch? && h.top - Lift(h.top, number) >= w
  }

  /** The simple account of a call: a number is a duplicate iff it was accepted in this epoch. */
  function HistoryStep(h: History, number: u32, w: nat): (History, bool) {
    if h.Nothing? || Restarts(h, number, w) then
      (Epoch(number, {number}), false)
    else
      var n := Lift(h.top, number);
      (Epoch(if n > h.top then n else h.top, h.accepted + {n}), n in h.accepted)
  }

  function HistoryVerdicts(h: History, numbers: seq<u32>, w: nat): (verdicts: seq<bool>)
    ensures |verdicts| == |numbers|
    decreases |numbers|
  {
    if numbers == [] then []
    else
      var (h', dup) := HistoryStep(h, numbers[0], w);
      [dup] + HistoryVerdicts(h', numbers[1..], w)
  }

  /** The history after a sequence of calls. */
  function HistoryAfter(h: History, numbers: seq<u32>, w: nat): History
    decreases |numbers|
  {
    if numbers == [] then h else HistoryAfter(HistoryStep(h, numbers[0], w).0, numbers[1..], w)
  }

  /** The ring holds, for each of the w numbers ending at the maximum, whether it was accepted. */
  ghost predicate Agrees(r: Ring, h: History) {
    && |r.bits| > 0
    && match h
       case Nothing => r == EmptyRing(|r.bits|)
       case Epoch(top, accepted) =>
         && r.inited
         && r.max == top % TWO32
         && top in accepted
         && (forall n :: n in accepted ==> n <= top)
         && (forall n {:trigger n in accepted} ::
               top - |r.bits| < n <= top ==> (r.bits[Slot(n, |r.bits|)] <==> n in accepted))
  }

  /** Two different numbers of one window never share a bit. */
  lemma WindowInjective(m: int, n: int, w: int)
    requires w > 0 && -w < m - n < w && Slot(m, w) == Slot(n, w)
    ensures m == n
  {
    CongruentNear(m, n, w);
  }

  /**
   Numbers from `lo` to `hi` have the same slot before and after the reduction modulo 2^32: because the window size
   divides 2^32, or because the reduction does nothing to them.
   */
  predicate SameSlots(lo: int, hi: int, w: nat) {
    w > 0 && (TWO32 % w == 0 || (0 <= lo && hi < TWO32))
  }

  lemma SlotOfWord(n: int, w: nat)
    requires SameSlots(n, n, w)
    ensures Slot(n % TWO32, w) == Slot(n, w)
  {
    if TWO32 % w == 0 {
      ModMod(n, w, TWO32);
    }
  }

  /** Which bits ClearAfter clears: those of the numbers top+1..top+n. */
  lemma {:induction false} ClearAfterEffect(bits: seq<bool>, top: int, n: nat, j: nat)
    requires SameSlots(top, top + n, |bits|) && j < |bits|
    ensures ClearAfter(bits, top % TWO32, n)[j]
            <==> bits[j] && forall m :: top < m <= top + n ==> Slot(m, |bits|) != j
  {
    if n > 0 {
      ClearAfterEffect(bits, top, n - 1, j);
      ResidueOfSum(top, n, |bits|);
    }
  }

  lemma ResidueOfSum(top: int, n: nat, w: nat)
    requires SameSlots(top + n, top + n, w)
    ensures Slot(Add32(top % TWO32, n % TWO32), w) == Slot(top + n, w)
  {
    ModAdd(top % TWO32, top, n % TWO32, TWO32);
    ModAdd(n % TWO32, n, top, TWO32);
    SlotOfWord(top + n, w);
  }

  /**
   The call does not carry the history across a multiple of 2^32, or that does not matter, as the window size
   divides 2^32.
   */
  predicate WrapsSafely(h: History, number: u32, w: nat) {
    w > 0
    && (TWO32 % w == 0 || h.Nothing? || Restarts(h, number, w) || (0 <= h.top < TWO32 && Lift(h.top, number) == number))
  }

  /** One call keeps ring and history in agreement and gives the same verdict. */
  lemma StepAgrees(r: Ring, h: History, number: u32)
    requires Agrees(r, h) && WrapsSafely(h, number, |r.bits|)
    ensures var w := |r.bits|;
            && RingStep(r, number).1 == HistoryStep(h, number, w).1
            && Agrees(RingStep(r, number).0, HistoryStep(h, number, w).0)
  {
    var w := |r.bits|;
    match h
    case Nothing =>
      FirstAgrees(r.bits, number);
    case Epoch(top, accepted) =>
      var n := Lift(top, number);
      assert n - top == SignedDiff(number, r.max);
      if !Restarts(h, number, w) {
        SlotOfWord(n, w);
      }
      if n > top {
        AdvanceAgrees(r, h, n);
      } else if top - n >= w {
        FirstAgrees(seq(w, _ => false), number);
      } else {
        BehindAgrees(r, h, n);
      }
  }

  /** A number within the window: its bit says whether it was accepted, and is set afterwards. */
  lemma BehindAgrees(r: Ring, h: History, n: int)
    requires Agrees(r, h) && h.Epoch? && h.top - |r.bits| < n <= h.top
    ensures var seen := r.bits[Slot(n, |r.bits|)];
            && (seen <==> n in h.accepted)
            && Agrees(if seen then r else r.(bits := r.bits[Slot(n, |r.bits|) := true]), Epoch(h.top, h.accepted + {n}))
  {
    if n in h.accepted {
      assert h.accepted + {n} == h.accepted;
    } else {
      RecordAgrees(r.bits, h.top, h.accepted, n);
    }
  }

  /** Setting the bit of n records n, and disturbs no other number of the window. */
  lemma RecordAgrees(bits: seq<bool>, top: int, accepted: set<int>, n: int)
    requires |bits| > 0 && top - |bits| < n <= top && top in accepted + {n}
    requires forall m :: m in accepted ==> m <= top
    requires forall m {:trigger m in accepted} ::
               top - |bits| < m <= top && m != n ==> (bits[Slot(m, |bits|)] <==> m in accepted)
    ensures Agrees(Ring(true, top % TWO32, bits[Slot(n, |bits|) := true]), Epoch(top, accepted + {n}))
  {
    var bits' := bits[Slot(n, |bits|) := true];
    forall m {:trigger m in accepted + {n}} | top - |bits| < m <= top
      ensures bits'[Slot(m, |bits|)] <==> m in accepted + {n}
    {
      if Slot(m, |bits|) == Slot(n, |bits|) {
        WindowInjective(m, n, |bits|);
      }
      assert m != n ==> (bits[Slot(m, |bits|)] <==> m in accepted);
    }
  }

  lemma FreshAgrees(bits: seq<bool>, n: int)
    requires SameSlots(n, n, |bits|) && forall i :: 0 <= i < |bits| ==> !bits[i]
    ensures Agrees(Ring(true, n % TWO32, bits[Slot(n % TWO32, |bits|) := true]), Epoch(n, {n}))
  {
    SlotOfWord(n, |bits|);
    RecordAgrees(bits, n, {}, n);
    assert {} + {n} == {n};
  }

  lemma FirstAgrees(bits: seq<bool>, number: u32)
    requires |bits| > 0 && forall i :: 0 <= i < |bits| ==> !bits[i]
    ensures Agrees(Ring(true, number, bits[Slot(number, |bits|) := true]), Epoch(number, {number}))
  {
    assert number % TWO32 == number;
    FreshAgrees(bits, number);
  }

  /** The bits left after moving the maximum from top to n: those of the numbers still in the window. */
  lemma SurvivingBits(bits: seq<bool>, top: int, d: nat, m: int)
    requires 0 < d < |bits| && SameSlots(top, top + d, |bits|) && top + d - |bits| < m < top + d
    ensures ClearAfter(bits, top % TWO32, d)[Slot(m, |bits|)] <==> m <= top && bits[Slot(m, |bits|)]
  {
    ClearAfterEffect(bits, top, d, Slot(m, |bits|));
    if m <= top {
      forall k | top < k <= top + d
        ensures Slot(k, |bits|) != Slot(m, |bits|)
      {
        if Slot(k, |bits|) == Slot(m, |bits|) {
          WindowInjective(k, m, |bits|);
        }
      }
    }
  }

  lemma AdvanceAgrees(r: Ring, h: History, n: int)
    requires Agrees(r, h) && h.Epoch? && h.top < n && SameSlots(h.top, n, |r.bits|)
    ensures var w := |r.bits|;
            var cleared := if n - h.top >= w then seq(w, _ => false) else ClearAfter(r.bits, r.max, n - h.top);
            Agrees(Ring(true, n % TWO32, cleared[Slot(n, w) := true]), Epoch(n, h.accepted + {n}))
  {
    var w, top, d := |r.bits|, h.top, n - h.top;
    if d >= w {
      RecordAgrees(seq(w, _ => false), n, h.accepted, n);
    } else {
      var cleared := ClearAfter(r.bits, r.max, d);
      forall m {:trigger m in h.accepted} | n - w < m <= n && m != n
        ensures cleared[Slot(m, w)] <==> m in h.accepted
      {
        SurvivingBits(r.bits, top, d, m);
      }
      RecordAgrees(cleared, n, h.accepted, n);
    }
  }

  /** No call of the run carries the history across a multiple of 2^32, or the window size divides 2^32. */
  predicate RunWrapsSafely(h: History, numbers: seq<u32>, w: nat)
    decreases |numbers|
  {
    numbers == []
    || (WrapsSafely(h, numbers[0], w) && RunWrapsSafely(HistoryStep(h, numbers[0], w).0, numbers[1..], w))
  }

  /** For a window size that divides 2^32 every run is of this kind. */
  lemma {:induction false} DivisorsWrapSafely(h: History, numbers: seq<u32>, w: nat)
    requires w > 0 && TWO32 % w == 0
    ensures RunWrapsSafely(h, numbers, w)
    decreases |numbers|
  {
    if numbers != [] {
      DivisorsWrapSafely(HistoryStep(h, numbers[0], w).0, numbers[1..], w);
    }
  }

  /**
   Every run of calls gives the verdicts of the simple account: for a window size that divides 2^32, and for any size
   as long as the numbers do not wrap around.
   */
  lemma {:induction false} RunAgrees(r: Ring, h: History, numbers: seq<u32>)
    requires Agrees(r, h) && RunWrapsSafely(h, numbers, |r.bits|)
    ensures RingVerdicts(r, numbers) == HistoryVerdicts(h, numbers, |r.bits|)
    ensures Agrees(RingAfter(r, numbers), HistoryAfter(h, numbers, |r.bits|))
    decreases |numbers|
  {
    if numbers != [] {
      StepAgrees(r, h, numbers[0]);
      RunAgrees(RingStep(r, numbers[0]).0, HistoryStep(h, numbers[0], |r.bits|).0, numbers[1..]);
    }
  }
}
