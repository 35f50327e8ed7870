/** What the sliding window promises over whole runs. */
module WindowTheorems {
  import opened Words
  import opened Window

  // ----- when the ring is exact -----

  ghost predicate ExactOnAllRuns(w: nat)
    requires w > 0
  {
    forall numbers: seq<u32> :: RingVerdicts(EmptyRing(w), numbers) == HistoryVerdicts(Nothing, numbers, w)
  }

  /** The number that shares bit 0 with number 0 across the wrap at 2^32, when w does not divide 2^32. */
  function Collider(w: nat): (n: u32)
    requires 0 < w < TWO32 && TWO32 % w != 0
  {
    TWO32 - TWO32 % w
  }

  /** A number never seen before is reported as a duplicate. */
  lemma CollisionRun(w: nat)
    requires 0 < w < TWO32 && TWO32 % w != 0
    ensures RingVerdicts(EmptyRing(w), [0, Collider(w)]) == [false, true]
    ensures HistoryVerdicts(Nothing, [0, Collider(w)], w) == [false, false]
  {
    var n, k := Collider(w), TWO32 % w;
    assert Slot(n, w) == 0 by {
      assert n == w * (TWO32 / w) + 0;
      AddMultiple(0, TWO32 / w, w);
    }
    RemainderSmall(w);
    assert SignedDiff(n, 0) == -k;
    var r := RingStep(EmptyRing(w), 0).0;
    assert RingStep(r, n) == (r, true);
    assert [0, n][1..] == [n] && [n][1..] == [];
    assert RingVerdicts(r, [n]) == [true];
    assert Lift(0, n) == -k;
    assert HistoryVerdicts(Epoch(0, {0}), [n], w) == [false];
  }

  lemma RemainderSmall(w: nat)
    requires 0 < w < TWO32
    ensures TWO32 % w < TWO31
  {
    if w > TWO31 {
      assert TWO32 == w * 1 + (TWO32 - w);
      AddMultiple(TWO32 - w, 1, w);
    }
  }

  /** The ring gives the verdicts of the simple account on every run iff the window size divides 2^32. */
  lemma ExactIffDivides(w: nat)
    requires 0 < w < TWO32
    ensures ExactOnAllRuns(w) <==> TWO32 % w == 0
  {
    if TWO32 % w == 0 {
      forall numbers: seq<u32>
        ensures RingVerdicts(EmptyRing(w), numbers) == HistoryVerdicts(Nothing, numbers, w)
      {
        DivisorsWrapSafely(Nothing, numbers, w);
        RunAgrees(EmptyRing(w), Nothing, numbers);
      }
    } else {
      CollisionRun(w);
    }
  }

  // ----- unbounded sequence numbers -----

  function Max(a: int, b: int): int {
    if a > b then a else b
  }

  function MaxOf(s: seq<int>): int
    requires s != []
  {
    if |s| == 1 then s[0] else Max(MaxOf(s[..|s| - 1]), s[|s| - 1])
  }

  /** The low 32 bits of each number. */
  function Truncate(a: seq<int>): (t: seq<u32>)
    ensures |t| == |a|
  {
    seq(|a|, i requires 0 <= i < |a| => a[i] % TWO32)
  }

  /** Less than w behind the running maximum `top` and less than 2^31 ahead of it. */
  predicate Near(top: int, n: int, w: nat) {
    top - w < n < top + TWO31
  }

  ghost predicate NearRunningMax(past: seq<int>, a: seq<int>, w: nat)
    requires past != []
  {
    forall i :: 0 <= i < |a| ==> Near(MaxOf(past + a[..i]), a[i], w)
  }

  lemma LiftOfNear(top: int, n: int, w: nat)
    requires w <= TWO31 && Near(top, n, w)
    ensures Lift(top, n % TWO32) == n
  {
    CongruentNear(Lift(top, n % TWO32), n, TWO32);
  }

  function Elements(s: seq<int>): set<int> {
    set n | n in s
  }

  lemma UnboundedStep(r: Ring, past: seq<int>, n: int)
    requires past != [] && Agrees(r, Epoch(MaxOf(past), Elements(past)))
    requires TWO32 % |r.bits| == 0 && |r.bits| < TWO32 && Near(MaxOf(past), n, |r.bits|)
    ensures RingStep(r, n % TWO32).1 <==> n in past
    ensures Agrees(RingStep(r, n % TWO32).0, Epoch(MaxOf(past + [n]), Elements(past + [n])))
  {
    DivisorAtMostHalf(|r.bits|);
    LiftOfNear(MaxOf(past), n, |r.bits|);
    StepAgrees(r, Epoch(MaxOf(past), Elements(past)), n % TWO32);
    assert (past + [n])[..|past|] == past;
    assert Elements(past + [n]) == Elements(past) + {n};
  }

  lemma ShiftPast(past: seq<int>, a: seq<int>, i: nat)
    requires 0 < i <= |a|
    ensures past + [a[0]] + a[1..][..i - 1] == past + a[..i]
  {
  }

  lemma NearSplit(past: seq<int>, a: seq<int>, w: nat)
    requires past != [] && a != [] && NearRunningMax(past, a, w)
    ensures Near(MaxOf(past), a[0], w)
    ensures NearRunningMax(past + [a[0]], a[1..], w)
  {
    assert past + a[..0] == past;
    forall i | 0 <= i < |a[1..]|
      ensures Near(MaxOf(past + [a[0]] + a[1..][..i]), a[1..][i], w)
    {
      ShiftPast(past, a, i + 1);
      assert a[1..][i] == a[i + 1];
    }
  }

  lemma TruncateTail(a: seq<int>)
    requires a != []
    ensures Truncate(a)[0] == a[0] % TWO32 && Truncate(a)[1..] == Truncate(a[1..])
  {
  }

  lemma FirstVerdict(r: Ring, a: seq<int>)
    requires |r.bits| > 0 && a != []
    ensures RingVerdicts(r, Truncate(a))[0] == RingStep(r, a[0] % TWO32).1
  {
    TruncateTail(a);
  }

  lemma LaterVerdict(r: Ring, a: seq<int>, i: nat)
    requires |r.bits| > 0 && 0 < i < |a|
    ensures RingVerdicts(r, Truncate(a))[i] == RingVerdicts(RingStep(r, a[0] % TWO32).0, Truncate(a[1..]))[i - 1]
  {
    TruncateTail(a);
  }

  lemma {:induction false} UnboundedFrom(r: Ring, past: seq<int>, a: seq<int>, i: nat)
    requires past != [] && Agrees(r, Epoch(MaxOf(past), Elements(past)))
    requires TWO32 % |r.bits| == 0 && |r.bits| < TWO32 && NearRunningMax(past, a, |r.bits|) && i < |a|
    ensures RingVerdicts(r, Truncate(a))[i] <==> a[i] in past + a[..i]
    decreases i
  {
    NearSplit(past, a, |r.bits|);
    UnboundedStep(r, past, a[0]);
    if i == 0 {
      FirstVerdict(r, a);
      assert past + a[..0] == past;
    } else {
      UnboundedFrom(RingStep(r, a[0] % TWO32).0, past + [a[0]], a[1..], i - 1);
      LaterVerdict(r, a, i);
      ShiftPast(past, a, i);
      assert a[1..][i - 1] == a[i];
    }
  }

  lemma DivisorAtMostHalf(w: nat)
    requires 0 < w < TWO32 && TWO32 % w == 0
    ensures w <= TWO31
  {
    if w > TWO31 {
      assert TWO32 == w * 1 + (TWO32 - w);
      AddMultiple(TWO32 - w, 1, w);
    }
  }

  /**
   Feeding unbounded numbers modulo 2^32 reports exactly those already seen, across any number of wraps,
   when each is less than w behind and less than 2^31 ahead of the running maximum.
   */
  lemma UnboundedRefinement(w: nat, a: seq<int>, i: nat)
    requires 0 < w < TWO32 && TWO32 % w == 0 && i < |a|
    requires NearRunningMax([a[0]], a[1..], w)
    ensures RingVerdicts(EmptyRing(w), Truncate(a))[i] <==> a[i] in a[..i]
  {
    if i > 0 {
      FreshAgrees(seq(w, _ => false), a[0]);
      assert MaxOf([a[0]]) == a[0] && Elements([a[0]]) == {a[0]};
      UnboundedFrom(RingStep(EmptyRing(w), a[0] % TWO32).0, [a[0]], a[1..], i - 1);
      LaterVerdict(EmptyRing(w), a, i);
      assert a[1..][i - 1] == a[i];
      assert [a[0]] + a[1..][..i - 1] == a[..i];
    }
  }

  // ----- a sender that starts again -----

  /** n consecutive numbers from `start`, with uint32 wrap-around. */
  function Stream(start: u32, n: nat): (s: seq<u32>)
    ensures |s| == n
  {
    seq(n, k requires 0 <= k < n => (start + k) % TWO32)
  }

  /** How many numbers of a stream from `start` can still be taken for duplicates. */
  function Exposed(r: Ring, start: u32): nat {
    var d := SignedDiff(start, r.max);
    if r.inited && -|r.bits| < d <= 0 then 1 - d else 0
  }

  lemma StreamTail(start: u32, n: nat)
    requires n > 0
    ensures Stream(start, n)[0] == start
    ensures Stream(start, n)[1..] == Stream(Add32(start, 1), n - 1)
  {
    forall k | 0 <= k < n - 1
      ensures Stream(start, n)[1..][k] == Stream(Add32(start, 1), n - 1)[k]
    {
      ModAdd(start + 1, (start + 1) % TWO32, k, TWO32);
    }
  }

  lemma ExposedStep(r: Ring, start: u32)
    requires |r.bits| > 0
    ensures var e, e' := Exposed(r, start), Exposed(RingStep(r, start).0, Add32(start, 1));
            && (RingStep(r, start).1 ==> e > 0)
            && e' == if e > 0 then e - 1 else 0
  {
    var d := SignedDiff(start, r.max);
    if r.inited && d < 0 {
      assert SignedDiff(Add32(start, 1), r.max) == d + 1;
    }
    assert SignedDiff(Add32(start, 1), start) == 1;
  }

  /** From any state, a stream of consecutive numbers is accepted from its Exposed-th number on, for ever. */
  lemma {:induction false} LossEnds(r: Ring, start: u32, n: nat)
    requires |r.bits| > 0
    ensures forall k :: Exposed(r, start) <= k < n ==> !RingVerdicts(r, Stream(start, n))[k]
    decreases n
  {
    if n > 0 {
      StreamTail(start, n);
      ExposedStep(r, start);
      LossEnds(RingStep(r, start).0, Add32(start, 1), n - 1);
    }
  }

  /** At most w packets of the new stream are lost, all of them among its first w. */
  lemma BoundedLossAfterRestart(r: Ring, start: u32, n: nat, k: nat)
    requires |r.bits| > 0 && |r.bits| <= k < n
    ensures !RingVerdicts(r, Stream(start, n))[k]
  {
    LossEnds(r, start, n);
  }

  /** The bound is reached: a sender that sends its first w numbers again loses all w of them. */
  lemma BoundIsTight(w: nat, k: nat)
    requires 0 < w < TWO32 && TWO32 % w == 0 && k < w
    ensures RingVerdicts(EmptyRing(w), Stream(0, w) + Stream(0, w))[w + k]
  {
    var a := Twice(w);
    DivisorAtMostHalf(w);
    TwiceIsNear(w);
    UnboundedRefinement(w, a, w + k);
    assert a[..w + k][k] == k;
    assert Truncate(a) == Stream(0, w) + Stream(0, w);
  }

  function Twice(w: nat): (a: seq<int>)
    ensures |a| == 2 * w
  {
    seq(2 * w, i => if i < w then i else i - w)
  }

  lemma TwiceIsNear(w: nat)
    requires 0 < w <= TWO31
    ensures NearRunningMax([Twice(w)[0]], Twice(w)[1..], w)
  {
    var a := Twice(w);
    forall i | 0 <= i < |a[1..]|
      ensures Near(MaxOf([a[0]] + a[1..][..i]), a[1..][i], w)
    {
      assert [a[0]] + a[1..][..i] == a[..i + 1];
      MaxOfTwice(w, i + 1);
    }
  }

  lemma {:induction false} MaxOfTwice(w: nat, i: nat)
    requires 0 < i <= 2 * w
    ensures MaxOf(Twice(w)[..i]) == if i <= w then i - 1 else w - 1
    decreases i
  {
    var a := Twice(w);
    if i > 1 {
      MaxOfTwice(w, i - 1);
      assert a[..i][..i - 1] == a[..i - 1];
    }
  }
}
