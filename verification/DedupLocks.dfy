/**
 The deduplicator under its separate locks.

 A call looks its client's window up under the table's lock and checks the number under the window's own lock.  In
 between, a reset may take the window off the table; the call then goes on with the window it has found, and later calls
 of the client find a new one.  Every window that is ever made is an incarnation of its client's window.
 */
module DedupLocks {
  import opened Words
  import opened Window

  type ThreadId = nat
  type Ref = nat

  /** A call that has found its window and has still to check its number. */
  datatype Call = Call(id: u16, ref: Ref, number: u32)

  /** A window, the client it was made for, and the numbers checked against it with the verdicts, in order. */
  datatype Incarnation = Incarnation(id: u16, ring: Ring, numbers: seq<u32>, verdicts: seq<bool>)

  datatype Shared = Shared(clients: map<u16, Ref>, made: seq<Incarnation>, calls: map<ThreadId, Call>)

  datatype Action =
    | LookUp(t: ThreadId, id: u16, number: u32)
    | Check(t: ThreadId)
    | Reset(id: u16)

  const START := Shared(map[], [], map[])

  predicate Enabled(sh: Shared, act: Action) {
    match act
    case LookUp(t, _, _) => t !in sh.calls
    case Check(t) => t in sh.calls && sh.calls[t].ref < |sh.made| && |sh.made[sh.calls[t].ref].ring.bits| > 0
    case Reset(_) => true
  }

  function Checked(inc: Incarnation, number: u32): Incarnation
    requires |inc.ring.bits| > 0
  {
    var (r, dup) := RingStep(inc.ring, number);
    inc.(ring := r, numbers := inc.numbers + [number], verdicts := inc.verdicts + [dup])
  }

  function Step(sh: Shared, w: nat, act: Action): Shared
    requires Enabled(sh, act)
  {
    match act
    case LookUp(t, id, number) =>
      if id in sh.clients then sh.(calls := sh.calls[t := Call(id, sh.clients[id], number)])
      else
        sh.(clients := sh.clients[id := |sh.made|],
            made := sh.made + [Incarnation(id, EmptyRing(w), [], [])],
            calls := sh.calls[t := Call(id, |sh.made|, number)])
    case Check(t) =>
      var call := sh.calls[t];
      sh.(made := sh.made[call.ref := Checked(sh.made[call.ref], call.number)], calls := sh.calls - {t})
    case Reset(id) => sh.(clients := sh.clients - {id})
  }

  /** The state after a schedule; actions that are not enabled are skipped. */
  function Exec(sh: Shared, w: nat, acts: seq<Action>): Shared
    decreases |acts|
  {
    if acts == [] then sh
    else Exec(if Enabled(sh, acts[0]) then Step(sh, w, acts[0]) else sh, w, acts[1..])
  }

  /** The incarnation is what a run of its numbers, one by one, makes of a fresh window. */
  ghost predicate IsRun(inc: Incarnation, w: nat)
    requires w > 0
  {
    inc.ring == RingAfter(EmptyRing(w), inc.numbers) && inc.verdicts == RingVerdicts(EmptyRing(w), inc.numbers)
  }

  ghost predicate Inv(sh: Shared, w: nat) {
    && w > 0
    && (forall inc :: inc in sh.made ==> IsRun(inc, w))
    && (forall id :: id in sh.clients ==> sh.clients[id] < |sh.made| && sh.made[sh.clients[id]].id == id)
    && (forall t :: t in sh.calls ==> sh.calls[t].ref < |sh.made| && sh.made[sh.calls[t].ref].id == sh.calls[t].id)
  }

  lemma {:induction false} OneMore(r: Ring, numbers: seq<u32>, number: u32)
    requires |r.bits| > 0
    ensures RingAfter(r, numbers + [number]) == RingStep(RingAfter(r, numbers), number).0
    ensures RingVerdicts(r, numbers + [number]) == RingVerdicts(r, numbers) + 
                                                     [RingStep(RingAfter(r, numbers), number).1]
    decreases |numbers|
  {
    if numbers == [] {
      assert ([] + [number])[1..] == [];
    } else {
      assert (numbers + [number])[1..] == numbers[1..] + [number];
      OneMore(RingStep(r, numbers[0]).0, numbers[1..], number);
    }
  }

  lemma CheckedIsRun(inc: Incarnation, w: nat, number: u32)
    requires w > 0 && IsRun(inc, w)
    ensures |inc.ring.bits| > 0 && IsRun(Checked(inc, number), w)
  {
    OneMore(EmptyRing(w), inc.numbers, number);
  }

  lemma StepKeeps(sh: Shared, w: nat, act: Action)
    requires Inv(sh, w) && Enabled(sh, act)
    ensures Inv(Step(sh, w, act), w)
  {
    var sh' := Step(sh, w, act);
    if act.Check? {
      var call := sh.calls[act.t];
      CheckedIsRun(sh.made[call.ref], w, call.number);
    }
    forall inc | inc in sh'.made
      ensures IsRun(inc, w)
    {
      assert inc in sh.made || inc == Incarnation(inc.id, EmptyRing(w), [], [])
             || (act.Check? && inc == Checked(sh.made[sh.calls[act.t].ref], sh.calls[act.t].number));
    }
  }

  /**
   In every interleaving of calls and resets each incarnation of a window takes the numbers of its calls, in the order
   in which they are checked, as a fresh window takes them one by one, even after it has been taken off the table.
   */
  lemma {:induction false} EveryIncarnationIsARun(sh: Shared, w: nat, acts: seq<Action>)
    requires Inv(sh, w)
    ensures Inv(Exec(sh, w, acts), w)
    ensures forall inc :: inc in Exec(sh, w, acts).made ==> IsRun(inc, w)
    decreases |acts|
  {
    if acts != [] {
      if Enabled(sh, acts[0]) {
        StepKeeps(sh, w, acts[0]);
        EveryIncarnationIsARun(Step(sh, w, acts[0]), w, acts[1..]);
      } else {
        EveryIncarnationIsARun(sh, w, acts[1..]);
      }
    }
  }

  /** No call ever waits for a window that cannot be checked. */
  lemma CallsCanBeChecked(sh: Shared, w: nat, t: ThreadId)
    requires Inv(sh, w) && t in sh.calls
    ensures Enabled(sh, Check(t))
  {
    var inc := sh.made[sh.calls[t].ref];
    assert inc in sh.made && IsRun(inc, w);
  }

  /** After a reset a client's next call finds a fresh window. */
  lemma ResetStartsOver(sh: Shared, w: nat, id: u16, t: ThreadId, number: u32)
    requires t !in sh.calls
    ensures var sh' := Exec(sh, w, [Reset(id), LookUp(t, id, number)]);
            && sh'.made == sh.made + [Incarnation(id, EmptyRing(w), [], [])]
            && sh'.calls == sh.calls[t := Call(id, |sh.made|, number)]
  {
    var sh1 := Step(sh, w, Reset(id));
    assert [Reset(id), LookUp(t, id, number)][1..] == [LookUp(t, id, number)];
    assert [LookUp(t, id, number)][1..] == [];
    assert Exec(sh1, w, [LookUp(t, id, number)]) == Step(sh1, w, LookUp(t, id, number));
  }

  /** A client has one incarnation at most, the one that the table holds. */
  ghost predicate OnlyCurrent(sh: Shared, id: u16) {
    forall ref :: 0 <= ref < |sh.made| && sh.made[ref].id == id ==> id in sh.clients && sh.clients[id] == ref
  }

  /** Resets are the only thing that gives a client another incarnation: without one all its calls are a single run. */
  lemma {:induction false} OneIncarnationUnlessReset(sh: Shared, w: nat, acts: seq<Action>, id: u16)
    requires Inv(sh, w) && OnlyCurrent(sh, id) && Reset(id) !in acts
    ensures OnlyCurrent(Exec(sh, w, acts), id)
    decreases |acts|
  {
    if acts != [] {
      assert acts[0] in acts && forall act :: act in acts[1..] ==> act in acts;
      if Enabled(sh, acts[0]) {
        StepKeeps(sh, w, acts[0]);
        OneIncarnationUnlessReset(Step(sh, w, acts[0]), w, acts[1..], id);
      } else {
        OneIncarnationUnlessReset(sh, w, acts[1..], id);
      }
    }
  }

  /**
   Whatever is interleaved with it, an incarnation calls a number a duplicate iff it has accepted
   it since its last restart.
   */
  lemma IncarnationsAreExact(w: nat, acts: seq<Action>, inc: Incarnation)
    requires w > 0 && inc in Exec(START, w, acts).made && RunWrapsSafely(Nothing, inc.numbers, w)
    ensures inc.verdicts == HistoryVerdicts(Nothing, inc.numbers, w)
  {
    EveryIncarnationIsARun(START, w, acts);
    RunAgrees(EmptyRing(w), Nothing, inc.numbers);
  }
}
