/** What a path does, told from its past: when it carries data and heartbeats, and what the checks decide about it. */
module PathHistory {
  import opened Messages
  import opened PathHealth

  lemma {:induction false} AfterOneMore(m: Machine, past: seq<Event>, e: Event)
    ensures After(m, past + [e]) == Step(After(m, past), e)
    decreases |past|
  {
    if past == [] {
      assert ([] + [e])[1..] == [];
    } else {
      assert (past + [e])[1..] == past[1..] + [e];
      AfterOneMore(Step(m, past[0]), past[1..], e);
    }
  }

  /** All but the last event. */
  function Init(past: seq<Event>): (init: seq<Event>)
    requires past != []
    ensures |init| == |past| - 1
  {
    past[..|past| - 1]
  }

  function Last(past: seq<Event>): Event
    requires past != []
  {
    past[|past| - 1]
  }

  lemma SplitLast(m: Machine, past: seq<Event>)
    requires past != []
    ensures past == Init(past) + [Last(past)]
    ensures After(m, past) == Step(After(m, Init(past)), Last(past))
    ensures forall j :: 0 <= j < |past| ==> Init(past)[..j] == past[..j]
  {
    AfterOneMore(m, Init(past), Last(past));
  }

  // ----- data -----

  /** The event takes an active path out of use: it is recycled, a write on it fails, or it is declared down. */
  predicate Interrupts(m: Machine, e: Event) {
    IsAttempt(m, e) || e.WriteFailed? || (e.Commit? && m.pending == GoDown)
  }

  /** Event i is an acknowledgement, and nothing has interrupted the path since. */
  ghost predicate ConfirmedAt(m: Machine, past: seq<Event>, i: nat) {
    && i < |past| && past[i].Ack?
    && forall j :: i < j < |past| ==> !Interrupts(After(m, past[..j]), past[j])
  }

  ghost predicate Confirmed(m: Machine, past: seq<Event>) {
    exists i :: ConfirmedAt(m, past, i)
  }

  lemma ConfirmedStep(m: Machine, past: seq<Event>)
    requires past != []
    ensures Confirmed(m, past)
            <==> Last(past).Ack? || (Confirmed(m, Init(past)) && !Interrupts(After(m, Init(past)), Last(past)))
  {
    SplitLast(m, past);
    if Last(past).Ack? {
      assert ConfirmedAt(m, past, |past| - 1);
    }
    if i: nat :| ConfirmedAt(m, Init(past), i) {
      if !Interrupts(After(m, Init(past)), Last(past)) {
        assert ConfirmedAt(m, past, i);
      }
    }
    if i: nat :| ConfirmedAt(m, past, i) {
      assert i < |past| - 1 ==> ConfirmedAt(m, Init(past), i);
    }
  }

  lemma {:induction false} ActiveIff(m: Machine, past: seq<Event>)
    requires !m.p.status.Active?
    ensures After(m, past).p.status.Active? <==> Confirmed(m, past)
    decreases |past|
  {
    if past != [] {
      SplitLast(m, past);
      ActiveIff(m, Init(past));
      ConfirmedStep(m, past);
    }
  }

  /**
   In every run of a path from its creation, a data packet goes out on it exactly if it is in the map and an
   acknowledgement came after the last of these: its creation, a recycle, a failed write, a verdict of down carried out.
   */
  lemma CarriesDataIff(localAddr: Address, created: Time, pending: Verdict, past: seq<Event>, at: Time)
    ensures var m := Start(NewPath(localAddr, created), pending);
            CarriesData(After(m, past), Send(at)) <==> !After(m, past).gone && Confirmed(m, past)
  {
    ActiveIff(Start(NewPath(localAddr, created), pending), past);
  }

  // ----- heartbeats -----

  /** The event takes the path down: a verdict carried out, or a recycle whose socket cannot be created. */
  predicate TakesDown(m: Machine, e: Event) {
    (e.Commit? && m.pending == GoDown) || (IsAttempt(m, e) && !e.bindable)
  }

  /** The event brings a path up: an acknowledgement, a new socket, or the failure of a write begun before. */
  predicate BringsUp(m: Machine, e: Event) {
    e.Ack? || e.WriteFailed? || IsRecycle(m, e)
  }

  /** Event i has taken the path down, and nothing has brought it up since. */
  ghost predicate DownSince(m: Machine, past: seq<Event>, i: nat) {
    && i < |past| && TakesDown(After(m, past[..i]), past[i])
    && forall j :: i < j < |past| ==> !BringsUp(After(m, past[..j]), past[j])
  }

  ghost predicate IsDown(m: Machine, past: seq<Event>) {
    exists i :: DownSince(m, past, i)
  }

  lemma IsDownStep(m: Machine, past: seq<Event>)
    requires past != []
    ensures var m' := After(m, Init(past));
            IsDown(m, past) <==> TakesDown(m', Last(past)) || (IsDown(m, Init(past)) && !BringsUp(m', Last(past)))
  {
    SplitLast(m, past);
    if TakesDown(After(m, Init(past)), Last(past)) {
      assert DownSince(m, past, |past| - 1);
    }
    if i: nat :| DownSince(m, Init(past), i) {
      if !BringsUp(After(m, Init(past)), Last(past)) {
        assert DownSince(m, past, i);
      }
    }
    if i: nat :| DownSince(m, past, i) {
      assert i < |past| - 1 ==> DownSince(m, Init(past), i);
    }
  }

  lemma {:induction false} DownIff(m: Machine, past: seq<Event>)
    requires !m.p.status.Down?
    ensures After(m, past).p.status.Down? <==> IsDown(m, past)
    decreases |past|
  {
    if past != [] {
      SplitLast(m, past);
      DownIff(m, Init(past));
      IsDownStep(m, past);
    }
  }

  /**
   In every run of a path from its creation, a heartbeat goes out on it exactly if it is in the map and has not been
   taken down since it was last up.
   */
  lemma CarriesBeatIff(localAddr: Address, created: Time, pending: Verdict, past: seq<Event>, at: Time)
    ensures var m := Start(NewPath(localAddr, created), pending);
            CarriesBeat(After(m, past), Beat(at)) <==> !After(m, past).gone && !IsDown(m, past)
  {
    DownIff(Start(NewPath(localAddr, created), pending), past);
  }

  // ----- what checks decide -----

  /** When the path was last acknowledged, or created. */
  function HeardAt(created: Time, past: seq<Event>): Time
    decreases |past|
  {
    if past == [] then created
    else if Last(past).Ack? then Last(past).at
    else HeardAt(created, Init(past))
  }

  /** When the path's socket was last replaced. */
  function ReplacedAt(m: Machine, past: seq<Event>): Option<Time>
    decreases |past|
  {
    if past == [] then None
    else if IsRecycle(After(m, Init(past)), Last(past)) then Some(Last(past).at)
    else ReplacedAt(m, Init(past))
  }

  /** How often the path's socket was replaced since its last acknowledgement. */
  function ReplacedSince(m: Machine, past: seq<Event>): nat
    decreases |past|
  {
    if past == [] || Last(past).Ack? then 0
    else ReplacedSince(m, Init(past)) + if IsRecycle(After(m, Init(past)), Last(past)) then 1 else 0
  }

  lemma {:induction false} StateIsHistory(localAddr: Address, created: Time, pending: Verdict, past: seq<Event>)
    ensures var m := Start(NewPath(localAddr, created), pending);
            var p := After(m, past).p;
            && p.lastRecv == HeardAt(created, past)
            && p.lastRecycled == ReplacedAt(m, past)
            && p.recycleCount == ReplacedSince(m, past)
            && p.localAddr == localAddr
    decreases |past|
  {
    if past != [] {
      SplitLast(Start(NewPath(localAddr, created), pending), past);
      StateIsHistory(localAddr, created, pending, Init(past));
    }
  }

  /** More than `interval` has passed since `last`, or there was no last time. */
  predicate LongAgo(last: Option<Time>, now: Time, interval: Time) {
    last.None? || now > last.value + interval
  }

  /**
   In every run of a path from its creation, a check that begins while the path is in the map decides to recycle it
   exactly if it has been silent for more than 8 s with fewer than 2 recycles in that time and none in the last 10 s, or
   if it is down, with 2 recycles or more since it was last heard from and none in the last 60 s; and to declare it down
   exactly if it is not, has been silent for more than 8 s, and has been recycled 2 times or more in that time.
   */
  lemma DecisionIff(localAddr: Address, created: Time, pending: Verdict, past: seq<Event>, at: Time)
    requires !After(Start(NewPath(localAddr, created), pending), past).gone
    ensures var m := Start(NewPath(localAddr, created), pending);
            var verdict := Step(After(m, past), Decide(at)).pending;
            var silent := at - HeardAt(created, past) > 8 * SECOND;
            var used, last := ReplacedSince(m, past), ReplacedAt(m, past);
            && (verdict == Recycle <==>
                  if IsDown(m, past) then used >= 2 && LongAgo(last, at, 60 * SECOND)
                  else silent && used < 2 && LongAgo(last, at, 10 * SECOND))
            && (verdict == GoDown <==> !IsDown(m, past) && silent && used >= 2)
  {
    StateIsHistory(localAddr, created, pending, past);
    DownIff(Start(NewPath(localAddr, created), pending), past);
  }

  /** Such a check, once carried out on a socket that can be created, replaces the path's socket. */
  lemma StaleIsReplaced(localAddr: Address, created: Time, pending: Verdict, past: seq<Event>, now: Time, at: Time)
    requires var m := Start(NewPath(localAddr, created), pending);
             && !After(m, past).gone && !IsDown(m, past)
             && now - HeardAt(created, past) > 8 * SECOND
             && ReplacedSince(m, past) < 2 && LongAgo(ReplacedAt(m, past), now, 10 * SECOND)
    ensures var m := Start(NewPath(localAddr, created), pending);
            RecycleTimes(After(m, past), [Decide(now), Commit(at, true)]) == [at]
  {
    DecisionIff(localAddr, created, pending, past, now);
    var m := After(Start(NewPath(localAddr, created), pending), past);
    var m' := Step(m, Decide(now));
    assert [Decide(now), Commit(at, true)][1..] == [Commit(at, true)] && [Commit(at, true)][1..] == [];
    assert RecycleTimes(m', [Commit(at, true)]) == [at] + [];
  }

  // ----- healthy paths -----

  /** Every check comes at most 8 s after the path was last heard from, at `heard` to begin with. */
  predicate KeptFresh(heard: Time, events: seq<Event>)
    decreases |events|
  {
    events == []
    || ((events[0].Decide? ==> events[0].at - heard <= 8 * SECOND)
        && KeptFresh(if events[0].Ack? then events[0].at else heard, events[1..]))
  }

  /** No event of the run recycles the path or takes it down. */
  predicate Untouched(m: Machine, events: seq<Event>)
    decreases |events|
  {
    events == []
    || (!IsAttempt(m, events[0]) && !TakesDown(m, events[0]) && Untouched(Step(m, events[0]), events[1..]))
  }

  lemma {:induction false} FreshFrom(m: Machine, events: seq<Event>)
    requires m.pending == Keep && !m.p.status.Down? && KeptFresh(m.p.lastRecv, events)
    ensures Untouched(m, events)
    decreases |events|
  {
    if events != [] {
      FreshFrom(Step(m, events[0]), events[1..]);
    }
  }

  /** In every run of a path from its creation, checks leave it alone as long as it is heard from every 8 s. */
  lemma HealthyIsLeftAlone(localAddr: Address, created: Time, events: seq<Event>)
    requires KeptFresh(created, events)
    ensures Untouched(Start(NewPath(localAddr, created), Keep), events)
  {
    FreshFrom(Start(NewPath(localAddr, created), Keep), events);
  }
}
