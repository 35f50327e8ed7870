/** The health of one network path as a timed state machine. */
module PathHealth {
  import opened Messages

  type Time = int
  type Address = seq<int>

  const SECOND := 1_000_000_000
  const PATH_STALE_TIMEOUT := 8 * SECOND
  const RECYCLE_MIN_INTERVAL := 10 * SECOND
  const RECYCLE_MAX_ATTEMPTS := 2
  const RECYCLE_BACKOFF := 60 * SECOND

  datatype Status = Probing | Active | Suspect | Down

  /** `open` is false once the path's close signal has been given and not been replaced. */
  datatype PathState = PathState(
    localAddr: Address,
    status: Status,
    lastRecv: Time,
    lastRecycled: Option<Time>,
    recycleCount: nat,
    open: bool)

  datatype Verdict = Keep | GoDown | Recycle

  function NewPath(localAddr: Address, now: Time): PathState {
    PathState(localAddr, Probing, now, None, 0, true)
  }

  /** More than `interval` has passed since `last`, or there was no last time. */
  predicate Elapsed(last: Option<Time>, now: Time, interval: Time) {
    last.Some? ==> now - last.value > interval
  }

  /** What a check decides about a path. */
  function Judge(p: PathState, now: Time): Verdict {
    if p.status.Down? then
      if p.recycleCount >= RECYCLE_MAX_ATTEMPTS && Elapsed(p.lastRecycled, now, RECYCLE_BACKOFF) then Recycle else Keep
    else if now - p.lastRecv <= PATH_STALE_TIMEOUT then Keep
    else if p.recycleCount >= RECYCLE_MAX_ATTEMPTS then GoDown
    else if Elapsed(p.lastRecycled, now, RECYCLE_MIN_INTERVAL) then Recycle
    else Keep
  }

  function Acked(p: PathState, now: Time): PathState {
    p.(status := Active, lastRecv := now, recycleCount := 0)
  }

  function Recycled(p: PathState, now: Time): PathState {
    p.(status := Probing, lastRecycled := Some(now), recycleCount := p.recycleCount + 1, open := true)
  }

  /** A recycle whose new socket cannot be created leaves the path down and its old close signal given. */
  function RecycleFailed(p: PathState): PathState {
    p.(status := Down, open := false)
  }

  // ----- runs of one path -----

  /** How far the removal of a path has come: it looks the path up, gives its close signal, and takes it off the map. */
  datatype Removal = NotBegun | Found | Signalled

  /**
   The path, and what other threads have begun and not finished: a check, which reads the path and acts later on what it
   read, and a removal.  `gone` says that the path is no longer in the map.
   */
  datatype Machine = Machine(p: PathState, pending: Verdict, removal: Removal, gone: bool)

  /** A path in the map; a check may already be about to recycle it, as checks remember paths by their names. */
  function Start(p: PathState, pending: Verdict): Machine {
    Machine(p, pending, NotBegun, false)
  }

  /** What happens to a path, with its time. */
  datatype Event =
    | Ack(at: Time)
    | Send(at: Time)
    | Beat(at: Time)
    | WriteFailed(at: Time)
    | Decide(at: Time)
    | Commit(at: Time, bindable: bool)
    | Find(at: Time)
    | Signal(at: Time)
    | Forget(at: Time)
    | Stop(at: Time)

  /** The second half of a check. */
  function Carry(m: Machine, t: Time, bindable: bool): Machine {
    match m.pending
    case Keep => m
    case GoDown => m.(p := m.p.(status := Down), pending := Keep)
    case Recycle =>
      if m.gone then m.(pending := Keep)
      else m.(p := if bindable then Recycled(m.p, t) else RecycleFailed(m.p), pending := Keep)
  }

  /** One event.  Steps of a removal that is not under way, and events of a path that is gone, do nothing. */
  function Step(m: Machine, e: Event): Machine {
    match e
    case Ack(t) => m.(p := Acked(m.p, t))
    case Send(_) => m
    case Beat(_) => m
    case WriteFailed(_) => m.(p := m.p.(status := Suspect))
    case Decide(t) => if m.gone then m else m.(pending := Judge(m.p, t))
    case Commit(t, bindable) => Carry(m, t, bindable)
    case Find(_) => if m.removal.NotBegun? && !m.gone then m.(removal := Found) else m
    case Signal(_) => if m.removal.Found? then m.(p := m.p.(open := false), removal := Signalled) else m
    case Forget(_) => if m.removal.Signalled? then m.(removal := NotBegun, gone := true) else m
    case Stop(_) => if m.gone then m else m.(p := m.p.(open := false), gone := true)
  }

  function After(m: Machine, events: seq<Event>): Machine
    decreases |events|
  {
    if events == [] then m else After(Step(m, events[0]), events[1..])
  }

  /** Time does not run backwards, and a check starts only when the one before it is over. */
  predicate Legal(m: Machine, now: Time, events: seq<Event>)
    decreases |events|
  {
    events == []
    || (events[0].at >= now
        && (events[0].Decide? ==> m.pending == Keep)
        && Legal(Step(m, events[0]), events[0].at, events[1..]))
  }

  /** The event is a recycle of the path. */
  predicate IsAttempt(m: Machine, e: Event) {
    e.Commit? && m.pending == Recycle && !m.gone
  }

  /** The event replaces the path's socket. */
  predicate IsRecycle(m: Machine, e: Event) {
    IsAttempt(m, e) && e.bindable
  }

  /** The times at which a run replaces the path's socket. */
  function RecycleTimes(m: Machine, events: seq<Event>): seq<Time>
    decreases |events|
  {
    if events == [] then []
    else (if IsRecycle(m, events[0]) then [events[0].at] else []) + RecycleTimes(Step(m, events[0]), events[1..])
  }

  // ----- the recycle budget -----

  /**
   What is known at `now`: past recycles are past, and a pending recycle was decided long enough after the last one.
   */
  ghost predicate Timely(m: Machine, now: Time) {
    && (m.p.lastRecycled.Some? ==> m.p.lastRecycled.value <= now)
    && (m.pending == Recycle ==> Elapsed(m.p.lastRecycled, now, RECYCLE_MIN_INTERVAL))
  }

  lemma StepIsTimely(m: Machine, now: Time, e: Event)
    requires Timely(m, now) && e.at >= now
    ensures Timely(Step(m, e), e.at)
    ensures IsRecycle(m, e) ==> Elapsed(m.p.lastRecycled, e.at, RECYCLE_MIN_INTERVAL)
  {
  }

  /** The time of the last event, or `now` if there is none. */
  function LastTime(now: Time, events: seq<Event>): Time {
    if events == [] then now else events[|events| - 1].at
  }

  /** Every state of every run of a path from its creation is timely. */
  lemma {:induction false} RunIsTimely(m: Machine, now: Time, events: seq<Event>)
    requires Timely(m, now) && Legal(m, now, events)
    ensures Timely(After(m, events), LastTime(now, events))
    decreases |events|
  {
    if events != [] {
      StepIsTimely(m, now, events[0]);
      RunIsTimely(Step(m, events[0]), events[0].at, events[1..]);
      assert LastTime(events[0].at, events[1..]) == LastTime(now, events);
    }
  }

  ghost predicate Spaced(times: seq<Time>, interval: Time) {
    forall i, j :: 0 <= i < j < |times| ==> times[j] - times[i] > interval
  }

  lemma {:induction false} FirstRecycleIsLate(m: Machine, now: Time, events: seq<Event>)
    requires Timely(m, now) && Legal(m, now, events)
    ensures Spaced(RecycleTimes(m, events), RECYCLE_MIN_INTERVAL)
    ensures m.p.lastRecycled.Some? ==>
              forall i :: 0 <= i < |RecycleTimes(m, events)| ==>
                RecycleTimes(m, events)[i] - m.p.lastRecycled.value > RECYCLE_MIN_INTERVAL
    decreases |events|
  {
    if events != [] {
      StepIsTimely(m, now, events[0]);
      FirstRecycleIsLate(Step(m, events[0]), events[0].at, events[1..]);
    }
  }

  /** In every run of a path from its creation any two recycles are more than 10 s apart. */
  lemma RecyclesAreSpaced(localAddr: Address, now: Time, pending: Verdict, events: seq<Event>)
    requires Legal(Start(NewPath(localAddr, now), pending), now, events)
    ensures Spaced(RecycleTimes(Start(NewPath(localAddr, now), pending), events), 10 * SECOND)
  {
    FirstRecycleIsLate(Start(NewPath(localAddr, now), pending), now, events);
  }

  predicate AckFree(events: seq<Event>) {
    forall e :: e in events ==> !e.Ack?
  }

  /** A recycle decided with both attempts used up comes a whole back-off after the last one. */
  ghost predicate BackedOff(m: Machine, now: Time) {
    m.p.recycleCount >= RECYCLE_MAX_ATTEMPTS && m.pending == Recycle ==> Elapsed(m.p.lastRecycled, now, RECYCLE_BACKOFF)
  }

  ghost predicate BackedOffFrom(times: seq<Time>, last: Option<Time>) {
    && (times != [] ==> Elapsed(last, times[0], RECYCLE_BACKOFF))
    && (forall i :: 0 < i < |times| ==> times[i] - times[i - 1] > RECYCLE_BACKOFF)
  }

  lemma LateStep(m: Machine, now: Time, e: Event)
    requires BackedOff(m, now) && m.p.recycleCount >= RECYCLE_MAX_ATTEMPTS && e.at >= now && !e.Ack?
    ensures var m' := Step(m, e);
            && BackedOff(m', e.at) && m'.p.recycleCount >= RECYCLE_MAX_ATTEMPTS
            && m'.p.lastRecycled == (if IsRecycle(m, e) then Some(e.at) else m.p.lastRecycled)
            && (IsRecycle(m, e) ==> Elapsed(m.p.lastRecycled, e.at, RECYCLE_BACKOFF))
  {
  }

  /** Once both attempts are used up, further recycles of an ack-free run are a back-off apart. */
  lemma {:induction false} LateRecyclesAreBackedOff(m: Machine, now: Time, events: seq<Event>)
    requires BackedOff(m, now) && m.p.recycleCount >= RECYCLE_MAX_ATTEMPTS && Legal(m, now, events) && AckFree(events)
    ensures BackedOffFrom(RecycleTimes(m, events), m.p.lastRecycled)
    decreases |events|
  {
    if events != [] {
      var e, rest := events[0], events[1..];
      assert e in events && forall x :: x in rest ==> x in events;
      LateStep(m, now, e);
      LateRecyclesAreBackedOff(Step(m, e), e.at, rest);
      var times := RecycleTimes(Step(m, e), rest);
      if IsRecycle(m, e) {
        BackedOffOnce(e.at, times, m.p.lastRecycled);
        assert RecycleTimes(m, events) == [e.at] + times;
      } else {
        assert RecycleTimes(m, events) == [] + times == times;
      }
    }
  }

  lemma BackedOffOnce(t: Time, times: seq<Time>, last: Option<Time>)
    requires BackedOffFrom(times, Some(t)) && Elapsed(last, t, RECYCLE_BACKOFF)
    ensures BackedOffFrom([t] + times, last)
  {
    var all := [t] + times;
    forall i | 0 < i < |all|
      ensures all[i] - all[i - 1] > RECYCLE_BACKOFF
    {
      assert i > 1 ==> all[i - 1] == times[i - 2];
    }
  }

  ghost predicate BackedOffSince(times: seq<Time>, k: int) {
    forall i :: 0 < i < |times| && i >= k ==> times[i] - times[i - 1] > RECYCLE_BACKOFF
  }

  /** In an ack-free run that begins with `used` attempts used up, recycles are backed off once no attempt is left. */
  lemma {:induction false} EarlyRecycles(m: Machine, now: Time, events: seq<Event>, used: nat)
    requires Legal(m, now, events) && AckFree(events) && used <= RECYCLE_MAX_ATTEMPTS
    requires m.p.recycleCount >= used && (used == RECYCLE_MAX_ATTEMPTS ==> BackedOff(m, now))
    ensures BackedOffSince(RecycleTimes(m, events), RECYCLE_MAX_ATTEMPTS - used)
    ensures used == RECYCLE_MAX_ATTEMPTS ==> BackedOffFrom(RecycleTimes(m, events), m.p.lastRecycled)
    decreases |events|
  {
    if used == RECYCLE_MAX_ATTEMPTS {
      LateRecyclesAreBackedOff(m, now, events);
    } else if events != [] {
      var e, rest := events[0], events[1..];
      assert e in events && forall x :: x in rest ==> x in events;
      if IsRecycle(m, e) {
        EarlyRecycles(Step(m, e), e.at, rest, used + 1);
        RecycleFirst(e.at, RecycleTimes(Step(m, e), rest), RECYCLE_MAX_ATTEMPTS - used);
        assert RecycleTimes(m, events) == [e.at] + RecycleTimes(Step(m, e), rest);
      } else {
        EarlyRecycles(Step(m, e), e.at, rest, used);
        assert RecycleTimes(m, events) == RecycleTimes(Step(m, e), rest);
      }
    }
  }

  lemma RecycleFirst(t: Time, times: seq<Time>, k: int)
    requires k >= 1 && BackedOffSince(times, k - 1) && (k == 1 ==> BackedOffFrom(times, Some(t)))
    ensures BackedOffSince([t] + times, k)
  {
    var all := [t] + times;
    forall i | 0 < i < |all| && i >= k
      ensures all[i] - all[i - 1] > RECYCLE_BACKOFF
    {
      if i > 1 {
        assert all[i] == times[i - 1] && all[i - 1] == times[i - 2];
      }
    }
  }

  lemma {:induction false} TimesWithin(m: Machine, start: Time, events: seq<Event>, end: Time)
    requires Legal(m, start, events) && forall e :: e in events ==> e.at <= end
    ensures forall i :: 0 <= i < |RecycleTimes(m, events)| ==> start <= RecycleTimes(m, events)[i] <= end
    decreases |events|
  {
    if events != [] {
      assert events[0] in events && forall x :: x in events[1..] ==> x in events;
      TimesWithin(Step(m, events[0]), events[0].at, events[1..], end);
    }
  }

  lemma {:induction false} GapsAddUp(times: seq<Time>, k: nat)
    requires 2 <= k <= |times| && BackedOffSince(times, 2)
    ensures times[k - 1] - times[1] >= (k - 2) * RECYCLE_BACKOFF
    decreases k
  {
    if k > 2 {
      GapsAddUp(times, k - 1);
    }
  }

  /** In any ack-free part of any run, from `start` to `end`, there are at most 2 recycles and one per minute more. */
  lemma RecycleBudget(m: Machine, start: Time, events: seq<Event>, end: Time)
    requires start <= end && Legal(m, start, events) && AckFree(events) && forall e :: e in events ==> e.at <= end
    ensures |RecycleTimes(m, events)| <= 2 + (end - start) / (60 * SECOND)
  {
    var times := RecycleTimes(m, events);
    if |times| > 2 {
      EarlyRecycles(m, start, events, 0);
      TimesWithin(m, start, events, end);
      GapsAddUp(times, |times|);
      assert end - start >= (|times| - 2) * RECYCLE_BACKOFF;
    }
  }

  // ----- bounded failure detection -----

  /** When the path was last acknowledged, and when the last check began. */
  datatype Clock = Clock(acked: Time, checked: Time)

  /**
   Checks begin at most `gap` apart, the first at most `gap` after the acknowledgement, and each is carried out within
   `delay` of its beginning.
   */
  predicate Paced(m: Machine, c: Clock, events: seq<Event>, gap: Time, delay: Time)
    decreases |events|
  {
    events == []
    || (events[0].at <= c.checked + gap
        && (m.pending != Keep ==> events[0].at <= c.checked + delay)
        && Paced(Step(m, events[0]), if events[0].Decide? then c.(checked := events[0].at) else c,
                 events[1..], gap, delay))
  }

  /** The latest time by which a failed path has been declared down. */
  function Deadline(acked: Time, gap: Time, delay: Time): Time {
    acked + 20 * SECOND + 3 * gap + 3 * delay
  }

  /** Where a path without acknowledgements can be that has not been declared down. */
  ghost predicate OnTheWayDown(m: Machine, c: Clock, gap: Time, delay: Time) {
    var r := if m.p.lastRecycled.Some? then m.p.lastRecycled.value else c.acked;
    && m.p.lastRecv == c.acked <= c.checked
    && !m.p.status.Down?
    && !m.gone
    && (m.p.recycleCount > 0 ==> m.p.lastRecycled.Some?)
    && match m.p.recycleCount
       case 0 =>
         && r <= c.acked
         && (m.pending == Keep ==> c.checked <= c.acked + RECYCLE_MIN_INTERVAL)
         && (m.pending == Recycle ==> c.checked <= c.acked + RECYCLE_MIN_INTERVAL + gap)
         && (m.pending == GoDown ==> c.checked == c.acked)
       case 1 =>
         && c.acked <= r
         && r <= c.acked + RECYCLE_MIN_INTERVAL + gap + delay
         && (m.pending == Keep ==> c.checked <= r + RECYCLE_MIN_INTERVAL)
         && (m.pending == Recycle ==> r + RECYCLE_MIN_INTERVAL < c.checked <= r + RECYCLE_MIN_INTERVAL + gap)
         && m.pending != GoDown
       case 2 =>
         && c.acked + PATH_STALE_TIMEOUT < r
         && r <= c.acked + 2 * RECYCLE_MIN_INTERVAL + 2 * gap + 2 * delay
         && (m.pending == Keep ==> c.checked <= r)
         && (m.pending == GoDown ==> c.checked <= r + gap)
         && m.pending != Recycle
       case _ => false
  }

  lemma StepOnTheWayDown(m: Machine, now: Time, c: Clock, e: Event, gap: Time, delay: Time)
    requires OnTheWayDown(m, c, gap, delay) && 0 <= gap && 0 <= delay
    requires m.p.lastRecycled.Some? ==> m.p.lastRecycled.value <= now
    requires c.checked <= now <= e.at && !e.Ack? && (e.Decide? ==> m.pending == Keep)
    requires e.at <= c.checked + gap && (m.pending != Keep ==> e.at <= c.checked + delay)
    ensures e.at <= Deadline(c.acked, gap, delay)
    ensures var m' := Step(m, e);
            || m'.p.status.Down? || m'.gone
            || (OnTheWayDown(m', if e.Decide? then c.(checked := e.at) else c, gap, delay)
                && (m'.p.lastRecycled.Some? ==> m'.p.lastRecycled.value <= e.at))
  {
  }

  /**
   The path is down, or has been removed, after the first n events, and the last of them is not after the deadline.
   */
  ghost predicate DownBy(m: Machine, events: seq<Event>, n: nat, deadline: Time) {
    && 0 < n <= |events| && events[n - 1].at <= deadline
    && (After(m, events[..n]).p.status.Down? || After(m, events[..n]).gone)
  }

  lemma {:induction false} DetectedFrom(m: Machine, now: Time, c: Clock, events: seq<Event>, gap: Time, delay: Time)
    returns (n: nat)
    requires OnTheWayDown(m, c, gap, delay) && 0 <= gap && 0 <= delay && c.checked <= now
    requires m.p.lastRecycled.Some? ==> m.p.lastRecycled.value <= now
    requires Legal(m, now, events) && AckFree(events) && Paced(m, c, events, gap, delay)
    requires events != [] && events[|events| - 1].at > Deadline(c.acked, gap, delay)
    ensures DownBy(m, events, n, Deadline(c.acked, gap, delay))
    decreases |events|
  {
    var e, rest := events[0], events[1..];
    assert e in events && forall x :: x in rest ==> x in events;
    var c' := if e.Decide? then c.(checked := e.at) else c;
    StepOnTheWayDown(m, now, c, e, gap, delay);
    var m' := Step(m, e);
    if m'.p.status.Down? || m'.gone {
      n := 1;
      assert events[..1] == [e];
      assert [e][1..] == [];
    } else {
      assert |events| > 1;
      assert rest[|rest| - 1] == events[|events| - 1];
      var k := DetectedFrom(m', e.at, c', rest, gap, delay);
      n := k + 1;
      assert events[..n][1..] == rest[..k] && events[..n][0] == e;
    }
  }

  /**
   Whatever a path has been through since its creation and whatever happens to writes, once it is not acknowledged any
   more it is declared down at most 20 s and three check intervals (and the time the checks themselves take) after its
   last acknowledgement, even if that came in between the two halves of a check.
   */
  lemma FailureIsDetected(localAddr: Address, created: Time, pending: Verdict, past: seq<Event>, acked: Time,
                          events: seq<Event>, gap: Time, delay: Time)
    returns (n: nat)
    requires Legal(Start(NewPath(localAddr, created), pending), created, past) && LastTime(created, past) <= acked
    requires !After(Start(NewPath(localAddr, created), pending), past).gone && 0 <= gap && 0 <= delay
    requires var m := Step(After(Start(NewPath(localAddr, created), pending), past), Ack(acked));
             Legal(m, acked, events) && AckFree(events) && Paced(m, Clock(acked, acked), events, gap, delay)
    requires events != [] && events[|events| - 1].at > Deadline(acked, gap, delay)
    ensures var m := Step(After(Start(NewPath(localAddr, created), pending), past), Ack(acked));
            DownBy(m, events, n, Deadline(acked, gap, delay))
  {
    RunIsTimely(Start(NewPath(localAddr, created), pending), created, past);
    var m := Step(After(Start(NewPath(localAddr, created), pending), past), Ack(acked));
    n := DetectedFrom(m, acked, Clock(acked, acked), events, gap, delay);
  }

  /** The same for a path that has never been acknowledged, counted from its creation. */
  lemma SilenceIsDetected(localAddr: Address, created: Time, pending: Verdict, events: seq<Event>, gap: Time,
                          delay: Time)
    returns (n: nat)
    requires 0 <= gap && 0 <= delay
    requires var m := Start(NewPath(localAddr, created), pending);
             Legal(m, created, events) && AckFree(events) && Paced(m, Clock(created, created), events, gap, delay)
    requires events != [] && events[|events| - 1].at > Deadline(created, gap, delay)
    ensures DownBy(Start(NewPath(localAddr, created), pending), events, n, Deadline(created, gap, delay))
  {
    n := DetectedFrom(Start(NewPath(localAddr, created), pending), created, Clock(created, created), events, gap,
                      delay);
  }

  // ----- probe before data -----

  /** A data packet is written to the path's socket: only an active path is used. */
  predicate CarriesData(m: Machine, e: Event) {
    e.Send? && m.p.status.Active? && !m.gone
  }

  /** A heartbeat is written to the path's socket: a path that is down is not probed. */
  predicate CarriesBeat(m: Machine, e: Event) {
    e.Beat? && !m.p.status.Down? && !m.gone
  }

  /**
   No data packet is written to a socket before an acknowledgement has come in on the path since the socket was
   created.  `probed` says whether one has.
   */
  predicate ProbedBeforeData(m: Machine, probed: bool, events: seq<Event>)
    decreases |events|
  {
    events == []
    || ((CarriesData(m, events[0]) ==> probed)
        && ProbedBeforeData(Step(m, events[0]), events[0].Ack? || (probed && !IsRecycle(m, events[0])), events[1..]))
  }

  lemma {:induction false} ProbedFrom(m: Machine, probed: bool, events: seq<Event>)
    requires m.p.status.Active? ==> probed
    ensures ProbedBeforeData(m, probed, events)
    decreases |events|
  {
    if events != [] {
      ProbedFrom(Step(m, events[0]), events[0].Ack? || (probed && !IsRecycle(m, events[0])), events[1..]);
    }
  }

  /** In every run of a path from its creation, each new socket is probed before it carries data. */
  lemma ProbeBeforeData(localAddr: Address, now: Time, pending: Verdict, events: seq<Event>)
    ensures ProbedBeforeData(Start(NewPath(localAddr, now), pending), false, events)
  {
    ProbedFrom(Start(NewPath(localAddr, now), pending), false, events);
  }

  // ----- the close signal -----

  /** A recycle, a removal and a stop give the path's close signal. */
  predicate GivesSignal(m: Machine, e: Event) {
    IsAttempt(m, e) || (e.Signal? && m.removal.Found?) || (e.Stop? && !m.gone)
  }

  /** What became of the signal that was given: a successful recycle puts a new one in its place. */
  datatype Giving = Replaced | SocketFailed | PathClosed

  function GivingOf(m: Machine, e: Event): Giving
    requires GivesSignal(m, e)
  {
    if IsRecycle(m, e) then Replaced else if IsAttempt(m, e) then SocketFailed else PathClosed
  }

  /** How the signal was given in a run, each time. */
  function Givings(m: Machine, events: seq<Event>): seq<Giving>
    decreases |events|
  {
    if events == [] then []
    else (if GivesSignal(m, events[0]) then [GivingOf(m, events[0])] else []) + Givings(Step(m, events[0]), events[1..])
  }

  /** In some step of the run a signal is given that has been given before, which is an error. */
  predicate GivenTwice(m: Machine, events: seq<Event>)
    decreases |events|
  {
    events != []
    && ((GivesSignal(m, events[0]) && !m.p.open) || GivenTwice(Step(m, events[0]), events[1..]))
  }

  lemma SignalStep(m: Machine, e: Event)
    ensures Step(m, e).p.open == if GivesSignal(m, e) then GivingOf(m, e).Replaced? else m.p.open
  {
  }

  /** After any run the signal can still be given exactly if the last one given, if any, was replaced. */
  lemma {:induction false} OpenIff(m: Machine, events: seq<Event>)
    ensures var givings := Givings(m, events);
            After(m, events).p.open <==> if givings == [] then m.p.open else givings[|givings| - 1].Replaced?
    decreases |events|
  {
    if events != [] {
      SignalStep(m, events[0]);
      OpenIff(Step(m, events[0]), events[1..]);
    }
  }

  /**
   A run gives a signal twice exactly if the signal is given again after a time when it was not replaced: after a
   recycle whose socket could not be created, or while the path is being closed.
   */
  lemma {:induction false} GivenTwiceIff(m: Machine, events: seq<Event>)
    ensures var givings := Givings(m, events);
            GivenTwice(m, events)
            <==> (givings != [] && !m.p.open) || exists i :: 0 <= i < |givings| - 1 && !givings[i].Replaced?
    decreases |events|
  {
    if events != [] {
      var rest := Givings(Step(m, events[0]), events[1..]);
      SignalStep(m, events[0]);
      GivenTwiceIff(Step(m, events[0]), events[1..]);
      if GivesSignal(m, events[0]) {
        MoreGivings(GivingOf(m, events[0]), rest);
        assert Givings(m, events) == [GivingOf(m, events[0])] + rest;
      } else {
        assert Givings(m, events) == [] + rest == rest;
      }
    }
  }

  lemma MoreGivings(first: Giving, rest: seq<Giving>)
    ensures var all := [first] + rest;
            (exists i :: 0 <= i < |all| - 1 && !all[i].Replaced?)
            <==> (rest != [] && !first.Replaced?) || exists i :: 0 <= i < |rest| - 1 && !rest[i].Replaced?
  {
    var all := [first] + rest;
    if i :| 0 <= i < |rest| - 1 && !rest[i].Replaced? {
      assert !all[i + 1].Replaced?;
    }
    if i :| 0 <= i < |all| - 1 && !all[i].Replaced? {
      assert i > 0 ==> !rest[i - 1].Replaced?;
    }
    assert all[0] == first;
  }

  /**
   Whatever a path has been through since its creation without giving a signal twice, its next event does so exactly if
   it gives the signal and the path is not open, that is, if the path's last recycle failed or the path is being closed.
   */
  lemma NextGivesTwiceIff(localAddr: Address, created: Time, pending: Verdict, past: seq<Event>, e: Event)
    requires !GivenTwice(Start(NewPath(localAddr, created), pending), past)
    ensures var m := Start(NewPath(localAddr, created), pending);
            var givings := Givings(m, past);
            && (GivenTwice(m, past + [e]) <==> GivesSignal(After(m, past), e) && !After(m, past).p.open)
            && (!After(m, past).p.open <==> givings != [] && !givings[|givings| - 1].Replaced?)
  {
    OpenIff(Start(NewPath(localAddr, created), pending), past);
    GivenTwiceOneMore(Start(NewPath(localAddr, created), pending), past, e);
  }

  lemma {:induction false} GivenTwiceOneMore(m: Machine, past: seq<Event>, e: Event)
    ensures GivenTwice(m, past + [e]) <==> GivenTwice(m, past) || (GivesSignal(After(m, past), e)
                                                                   && !After(m, past).p.open)
    decreases |past|
  {
    if past == [] {
      assert (past + [e])[1..] == [];
    } else {
      assert (past + [e])[1..] == past[1..] + [e];
      GivenTwiceOneMore(Step(m, past[0]), past[1..], e);
    }
  }

  // ----- how it comes about -----

  lemma LegalFirst(m: Machine, now: Time, e: Event, rest: seq<Event>)
    requires e.at >= now && (e.Decide? ==> m.pending == Keep) && Legal(Step(m, e), e.at, rest)
    ensures Legal(m, now, [e] + rest)
    ensures GivenTwice(m, [e] + rest) <==> (GivesSignal(m, e) && !m.p.open) || GivenTwice(Step(m, e), rest)
  {
    assert ([e] + rest)[1..] == rest;
  }

  /** A path that has just failed to be recycled for the first time. */
  function FailedAt(localAddr: Address, created: Time): Machine {
    Start(RecycleFailed(NewPath(localAddr, created)), Keep)
  }

  lemma FirstRecycleFails(localAddr: Address, created: Time, t: Time, rest: seq<Event>)
    requires t - created > PATH_STALE_TIMEOUT && Legal(FailedAt(localAddr, created), t, rest)
    requires GivenTwice(FailedAt(localAddr, created), rest)
    ensures var m := Start(NewPath(localAddr, created), Keep);
            var events := [Decide(t)] + ([Commit(t, false)] + rest);
            Legal(m, created, events) && GivenTwice(m, events)
  {
    var m := Start(NewPath(localAddr, created), Keep);
    LegalFirst(Step(m, Decide(t)), t, Commit(t, false), rest);
    LegalFirst(m, created, Decide(t), [Commit(t, false)] + rest);
  }

  /** After a failed recycle, the interface goes or gets another address, and the path is removed. */
  lemma RemovalAfterFailure(localAddr: Address, created: Time, t: Time)
    requires t - created > PATH_STALE_TIMEOUT
    ensures var m := Start(NewPath(localAddr, created), Keep);
            var events := [Decide(t)] + ([Commit(t, false)] + ([Find(t)] + ([Signal(t)] + [])));
            Legal(m, created, events) && GivenTwice(m, events)
  {
    var m := FailedAt(localAddr, created);
    LegalFirst(Step(m, Find(t)), t, Signal(t), []);
    LegalFirst(m, t, Find(t), [Signal(t)] + []);
    FirstRecycleFails(localAddr, created, t, [Find(t)] + ([Signal(t)] + []));
  }

  /**
   After a failed recycle, an acknowledgement that was still on its way revives the path, which then goes stale again.
   */
  lemma AckAfterFailure(localAddr: Address, created: Time, t: Time, later: Time, bindable: bool)
    requires t - created > PATH_STALE_TIMEOUT && later - t > PATH_STALE_TIMEOUT
    ensures var m := Start(NewPath(localAddr, created), Keep);
            var events := [Decide(t)] + ([Commit(t, false)]
                          + ([Ack(t)] + ([Decide(later)] + ([Commit(later, bindable)] + []))));
            Legal(m, created, events) && GivenTwice(m, events)
  {
    var m := FailedAt(localAddr, created);
    var m1 := Step(m, Ack(t));
    var m2 := Step(m1, Decide(later));
    LegalFirst(m2, later, Commit(later, bindable), []);
    LegalFirst(m1, t, Decide(later), [Commit(later, bindable)] + []);
    LegalFirst(m, t, Ack(t), [Decide(later)] + ([Commit(later, bindable)] + []));
    FirstRecycleFails(localAddr, created, t, [Ack(t)] + ([Decide(later)] + ([Commit(later, bindable)] + [])));
  }

  /** No recycle has failed, but one runs between the two halves of a removal. */
  lemma RecycleDuringRemoval(localAddr: Address, created: Time, t: Time, bindable: bool)
    requires t - created > PATH_STALE_TIMEOUT
    ensures var m := Start(NewPath(localAddr, created), Keep);
            var events := [Decide(t)] + ([Find(t)] + ([Signal(t)] + ([Commit(t, bindable)] + [])));
            Legal(m, created, events) && GivenTwice(m, events)
  {
    var m := Start(NewPath(localAddr, created), Keep);
    var m1 := Step(m, Decide(t));
    var m2 := Step(m1, Find(t));
    LegalFirst(Step(m2, Signal(t)), t, Commit(t, bindable), []);
    LegalFirst(m2, t, Signal(t), [Commit(t, bindable)] + []);
    LegalFirst(m1, t, Find(t), [Signal(t)] + ([Commit(t, bindable)] + []));
    LegalFirst(m, created, Decide(t), [Find(t)] + ([Signal(t)] + ([Commit(t, bindable)] + [])));
  }

  // ----- a failed path that is left alone -----

  /** Nothing but checks, and data and heartbeats that go out on other paths. */
  predicate LeftAlone(events: seq<Event>) {
    forall e :: e in events ==> e.Send? || e.Beat? || e.Decide? || e.Commit?
  }

  /** Some run in which the path is left alone recycles it. */
  ghost predicate IsTriedAgain(m: Machine, now: Time) {
    exists events :: Legal(m, now, events) && LeftAlone(events) && Givings(m, events) != []
  }

  lemma {:induction false} StaysDown(m: Machine, now: Time, events: seq<Event>)
    requires m.p.status.Down? && m.p.recycleCount < RECYCLE_MAX_ATTEMPTS && m.pending == Keep
    requires Legal(m, now, events) && LeftAlone(events)
    ensures Givings(m, events) == [] && After(m, events) == m
    decreases |events|
  {
    if events != [] {
      assert events[0] in events && forall x :: x in events[1..] ==> x in events;
      StaysDown(Step(m, events[0]), events[0].at, events[1..]);
    }
  }

  /**
   Checks alone try a path whose recycle failed again, and so give its signal twice, iff both attempts
   had been used up.
   */
  lemma ChecksTryAgainIff(p: PathState, now: Time)
    ensures IsTriedAgain(Start(RecycleFailed(p), Keep), now) <==> p.recycleCount >= RECYCLE_MAX_ATTEMPTS
  {
    var m := Start(RecycleFailed(p), Keep);
    if p.recycleCount >= RECYCLE_MAX_ATTEMPTS {
      RetriedAfterBackOff(m, now);
    } else {
      forall events | Legal(m, now, events) && LeftAlone(events)
        ensures Givings(m, events) == []
      {
        StaysDown(m, now, events);
      }
    }
  }

  lemma RetriedAfterBackOff(m: Machine, now: Time)
    requires m.p.status.Down? && m.p.recycleCount >= RECYCLE_MAX_ATTEMPTS && m.pending == Keep && !m.gone
    ensures IsTriedAgain(m, now)
  {
    var t := if m.p.lastRecycled.Some? && m.p.lastRecycled.value + RECYCLE_BACKOFF >= now
             then m.p.lastRecycled.value + RECYCLE_BACKOFF + 1 else now;
    var events := [Decide(t), Commit(t, true)];
    var m' := Step(m, Decide(t));
    assert events[1..] == [Commit(t, true)] && [Commit(t, true)][1..] == [];
    assert Legal(m', t, [Commit(t, true)]);
    assert Givings(m', [Commit(t, true)]) == [Replaced] + [];
    assert Givings(m, events) == [] + Givings(m', [Commit(t, true)]);
  }
}
