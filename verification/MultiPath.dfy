/** The multipath sender: one path per network interface, updated in place. */
module MultiPath {
  import opened Messages
  import opened PathHealth

  type Name = string

  /** The usable addresses of one interface. */
  datatype IfaceInfo = IfaceInfo(addrs4: seq<Address>, addrs6: seq<Address>)

  // ----- the operations on values -----

  type Paths = map<Name, PathState>

  /** The address a path of this interface is bound to: the first one of the server's family. */
  function BindAddr(info: IfaceInfo, v4: bool): Option<Address> {
    var addrs := if v4 then info.addrs4 else info.addrs6;
    if addrs == [] then None else Some(addrs[0])
  }

  /** A check of one path: what it decides is carried out at `at`, on a socket that may fail to be created. */
  function CheckPath(p: PathState, now: Time, at: Time, bindable: bool): PathState {
    match Judge(p, now)
    case Keep => p
    case GoDown => p.(status := Down)
    case Recycle => if bindable then Recycled(p, at) else RecycleFailed(p)
  }

  function CheckPaths(paths: Paths, now: Time, at: Time, bindable: set<Name>): Paths {
    map name | name in paths :: CheckPath(paths[name], now, at, name in bindable)
  }

  /** Data goes out on active paths; one whose write fails becomes suspect. */
  function SendPath(p: PathState, fails: bool): PathState {
    if p.status.Active? && fails then p.(status := Suspect) else p
  }

  function SendPaths(paths: Paths, failing: set<Name>): Paths {
    map name | name in paths :: SendPath(paths[name], name in failing)
  }

  function Used(paths: Paths): set<Name> {
    set name | name in paths && paths[name].status.Active?
  }

  /** Heartbeats go out on all paths that are not down. */
  function BeatPath(p: PathState, fails: bool): PathState {
    if !p.status.Down? && fails then p.(status := Suspect) else p
  }

  function BeatPaths(paths: Paths, failing: set<Name>): Paths {
    map name | name in paths :: BeatPath(paths[name], name in failing)
  }

  function Probed(paths: Paths): set<Name> {
    set name | name in paths && !paths[name].status.Down?
  }

  /** The path of an interface after a scan that found it with `info`. */
  function ReconcilePath(paths: Paths, name: Name, info: IfaceInfo, v4: bool, bindable: set<Name>, now: Time)
    : Option<PathState>
  {
    var addr := BindAddr(info, v4);
    if name in paths && (addr.None? || addr.value == paths[name].localAddr) then Some(paths[name])
    else if addr.Some? && name in bindable then Some(NewPath(addr.value, now))
    else None
  }

  function Reconcile(paths: Paths, scan: map<Name, IfaceInfo>, v4: bool, bindable: set<Name>, now: Time): Paths {
    map name | name in scan && ReconcilePath(paths, name, scan[name], v4, bindable, now).Some? ::
      ReconcilePath(paths, name, scan[name], v4, bindable, now).value
  }

  // ----- the operations as events of a path -----

  /**
   A check of a path is a decision followed by its execution; it gives a signal twice exactly if the path is due for a
   recycle and not open.
   */
  lemma CheckIsTwoEvents(p: PathState, now: Time, at: Time, bindable: bool)
    ensures CheckPath(p, now, at, bindable) == After(Start(p, Keep), [Decide(now), Commit(at, bindable)]).p
    ensures GivenTwice(Start(p, Keep), [Decide(now), Commit(at, bindable)]) <==> Judge(p, now) == Recycle && !p.open
  {
    var m := Start(p, Keep);
    var m' := Step(m, Decide(now));
    assert [Decide(now), Commit(at, bindable)][1..] == [Commit(at, bindable)];
    assert [Commit(at, bindable)][1..] == [];
    assert After(m', [Commit(at, bindable)]) == Step(m', Commit(at, bindable));
    assert GivenTwice(m', [Commit(at, bindable)]) <==> GivesSignal(m', Commit(at, bindable)) && !p.open;
  }

  /** A check of all paths is a check of each, and adds or removes none. */
  lemma ChecksAreEvents(paths: Paths, now: Time, at: Time, bindable: set<Name>)
    ensures CheckPaths(paths, now, at, bindable).Keys == paths.Keys
    ensures forall name :: name in paths ==>
              CheckPaths(paths, now, at, bindable)[name]
              == After(Start(paths[name], Keep), [Decide(now), Commit(at, name in bindable)]).p
  {
    forall name | name in paths
      ensures CheckPath(paths[name], now, at, name in bindable)
              == After(Start(paths[name], Keep), [Decide(now), Commit(at, name in bindable)]).p
    {
      CheckIsTwoEvents(paths[name], now, at, name in bindable);
    }
  }

  /** A removal takes the path off the map; it gives a signal twice exactly if the path is not open. */
  lemma RemovalIsThreeEvents(p: PathState, at: Time)
    ensures After(Start(p, Keep), [Find(at), Signal(at), Forget(at)]).gone
    ensures GivenTwice(Start(p, Keep), [Find(at), Signal(at), Forget(at)]) <==> !p.open
  {
    var m := Start(p, Keep);
    var m1 := Step(m, Find(at));
    var m2 := Step(m1, Signal(at));
    assert [Find(at), Signal(at), Forget(at)][1..] == [Signal(at), Forget(at)];
    assert [Signal(at), Forget(at)][1..] == [Forget(at)] && [Forget(at)][1..] == [];
    assert After(m2, [Forget(at)]) == Step(m2, Forget(at)) && !GivenTwice(m2, [Forget(at)]);
    assert GivenTwice(m1, [Signal(at), Forget(at)]) <==> !p.open;
  }

  /** The interface has an address of the server's family, and the path is bound to another one. */
  predicate Moves(p: PathState, info: IfaceInfo, v4: bool) {
    BindAddr(info, v4).Some? && BindAddr(info, v4).value != p.localAddr
  }

  /** A scan that leads to the removal of the path: its interface is gone, or has another first address now. */
  predicate Closes(scan: map<Name, IfaceInfo>, v4: bool, name: Name, p: PathState) {
    name !in scan || Moves(p, scan[name], v4)
  }

  /** No path that the check recycles has a signal that has been given. */
  predicate CheckIsSafe(paths: Paths, now: Time) {
    forall name :: name in paths && Judge(paths[name], now) == Recycle ==> paths[name].open
  }

  /** No path that the scan closes has a signal that has been given. */
  predicate ScanIsSafe(paths: Paths, scan: map<Name, IfaceInfo>, v4: bool) {
    forall name :: name in paths && Closes(scan, v4, name, paths[name]) ==> paths[name].open
  }

  /** A path is taken off the map or replaced exactly by the scans that close it. */
  lemma ClosedIffReplaced(paths: Paths, scan: map<Name, IfaceInfo>, v4: bool, bindable: set<Name>, now: Time,
                          name: Name)
    requires name in paths
    ensures var paths' := Reconcile(paths, scan, v4, bindable, now);
            Closes(scan, v4, name, paths[name]) <==> name !in paths' || paths'[name].localAddr != paths[name].localAddr
  {
  }

  ghost predicate AllOpen(paths: Paths) {
    forall name :: name in paths ==> paths[name].open
  }

  /** As long as sockets can be created for recycled paths, every check and every scan is safe. */
  lemma OpenPathsStayOpen(paths: Paths, now: Time, at: Time, scan: map<Name, IfaceInfo>, v4: bool, bindable: set<Name>)
    requires AllOpen(paths)
    ensures CheckIsSafe(paths, now) && ScanIsSafe(paths, scan, v4)
    ensures AllOpen(CheckPaths(paths, now, at, bindable)) <==>
              forall name :: name in paths && Judge(paths[name], now) == Recycle ==> name in bindable
    ensures AllOpen(Reconcile(paths, scan, v4, bindable, now))
  {
    var paths' := CheckPaths(paths, now, at, bindable);
    forall name | name in paths
      ensures paths'[name].open <==> (Judge(paths[name], now) == Recycle ==> name in bindable)
    {
    }
  }

  /**
   A packet goes out exactly on the paths that may carry data, and a write that fails is such an event of its path.
   */
  lemma SendIsEvents(paths: Paths, failing: set<Name>, name: Name, at: Time)
    requires name in paths
    ensures SendPaths(paths, failing).Keys == paths.Keys && BeatPaths(paths, failing).Keys == paths.Keys
    ensures name in Used(paths) <==> CarriesData(Start(paths[name], Keep), PathHealth.Send(at))
    ensures name in Probed(paths) <==> CarriesBeat(Start(paths[name], Keep), Beat(at))
    ensures SendPaths(paths, failing)[name]
            == if name in Used(paths) && name in failing then Step(Start(paths[name], Keep), WriteFailed(at)).p
               else paths[name]
    ensures BeatPaths(paths, failing)[name]
            == if name in Probed(paths) && name in failing then Step(Start(paths[name], Keep), WriteFailed(at)).p
               else paths[name]
  {
  }

  /** A path that has just been acknowledged carries data. */
  lemma AckedIsUsed(paths: Paths, name: Name, now: Time)
    requires name in paths
    ensures name in Used(paths[name := Acked(paths[name], now)])
  {
  }

  /** A check leaves a path alone that is not down and has been heard from in the last 8 s. */
  lemma CheckSparesHealthy(p: PathState, now: Time, at: Time, bindable: bool)
    requires !p.status.Down? && now - p.lastRecv <= 8 * SECOND
    ensures CheckPath(p, now, at, bindable) == p
  {
  }

  // ----- what reconciliation achieves -----

  /**
   If sockets can be created, the paths are afterwards those of the interfaces that were known and are still there,
   and of the new ones that have an address of the server's family.
   */
  lemma ReconciledNames(paths: Paths, scan: map<Name, IfaceInfo>, v4: bool, bindable: set<Name>, now: Time)
    requires scan.Keys <= bindable
    ensures Reconcile(paths, scan, v4, bindable, now).Keys
            == (paths.Keys * scan.Keys)
               + set name | name in scan && (if v4 then scan[name].addrs4 else scan[name].addrs6) != []
  {
  }

  /**
   Whether or not sockets can be created: a path is there afterwards if its interface is, and it keeps its address
   or gets a new socket.
   */
  lemma ReconciledIff(paths: Paths, scan: map<Name, IfaceInfo>, v4: bool, bindable: set<Name>, now: Time, name: Name)
    ensures name in Reconcile(paths, scan, v4, bindable, now)
            <==> name in scan
                 && var addrs := if v4 then scan[name].addrs4 else scan[name].addrs6;
                    || (name in paths && (addrs == [] || addrs[0] == paths[name].localAddr))
                    || (addrs != [] && name in bindable)
  {
  }

  /**
   Every path whose interface has an address is bound to its first one, and only paths whose address
   changed are replaced.
   */
  lemma ReconciledPaths(paths: Paths, scan: map<Name, IfaceInfo>, v4: bool, bindable: set<Name>, now: Time, name: Name)
    requires name in Reconcile(paths, scan, v4, bindable, now)
    ensures name in scan
    ensures var p := Reconcile(paths, scan, v4, bindable, now)[name];
            var addrs := if v4 then scan[name].addrs4 else scan[name].addrs6;
            && (addrs != [] ==> p.localAddr == addrs[0])
            && (p == PathState(p.localAddr, Probing, now, None, 0, true) || (name in paths && p == paths[name]))
            && (name in paths && (addrs == [] || addrs[0] == paths[name].localAddr) ==> p == paths[name])
  {
  }

  /** A second run on the same scan changes nothing. */
  lemma ReconcileIsIdempotent(paths: Paths, scan: map<Name, IfaceInfo>, v4: bool, bindable: set<Name>, now: Time,
                              later: Time)
    requires scan.Keys <= bindable
    ensures var paths' := Reconcile(paths, scan, v4, bindable, now);
            Reconcile(paths', scan, v4, bindable, later) == paths'
  {
    var paths' := Reconcile(paths, scan, v4, bindable, now);
    forall name | name in scan
      ensures ReconcilePath(paths', name, scan[name], v4, bindable, later)
              == if name in paths' then Some(paths'[name]) else None
    {
    }
  }

  // ----- the sender -----

  class Path {
    const ifaceName: Name
    const localAddr: Address
    var status: Status
    var lastRecv: Time
    var lastRecycled: Option<Time>
    var recycleCount: nat
    var open: bool

    ghost function View(): PathState
      reads this
    {
      PathState(localAddr, status, lastRecv, lastRecycled, recycleCount, open)
    }

    constructor (ifaceName: Name, localAddr: Address, now: Time)
      ensures this.ifaceName == ifaceName && View() == NewPath(localAddr, now)
    {
      this.ifaceName, this.localAddr := ifaceName, localAddr;
      status, lastRecv, lastRecycled, recycleCount, open := Probing, now, None, 0, true;
    }
  }

  class Sender {
    const v4: bool
    var paths: map<Name, Path>

    /** The paths as values. */
    ghost var Views: Paths

    ghost predicate Filed(name: Name)
      reads this, paths.Values
      requires name in paths
    {
      paths[name].ifaceName == name && name in Views && paths[name].View() == Views[name]
    }

    ghost predicate Valid()
      reads this, paths.Values
    {
      Views.Keys == paths.Keys && forall name :: name in paths ==> Filed(name)
    }

    constructor (v4: bool)
      ensures Valid() && Views == map[] && this.v4 == v4
    {
      this.v4, paths, Views := v4, map[], map[];
    }

    /** Changing one path's fields leaves the others alone. */
    twostate lemma OnlyChanged(name: Name)
      requires old(Valid()) && name in paths && paths == old(paths)
      requires forall p :: p in paths.Values && p != paths[name] ==> unchanged(p)
      requires Views == old(Views)[name := paths[name].View()]
      ensures Valid()
    {
      assert old(Filed(name));
      forall other | other in paths
        ensures Filed(other)
      {
        assert old(Filed(other));
        assert paths[other] in paths.Values;
        assert other != name ==> unchanged(paths[other]);
      }
    }

    /** Records an acknowledgement that came in on the named path. */
    method UpdateRtt(name: Name, now: Time)
      requires Valid()
      modifies this`Views, paths.Values
      ensures Valid() && paths == old(paths)
      ensures Views == if name in old(Views) then old(Views)[name := Acked(old(Views)[name], now)] else old(Views)
    {
      if name !in paths {
        return;
      }
      assert Filed(name);
      var p := paths[name];
      p.lastRecv := now;
      p.recycleCount := 0;
      p.status := Active;
      Views := Views[name := p.View()];
      OnlyChanged(name);
    }

    method SetStatus(name: Name, status: Status)
      requires Valid() && name in paths
      modifies this`Views, paths[name]
      ensures Valid() && paths == old(paths)
      ensures Views == old(Views)[name := old(Views)[name].(status := status)]
    {
      assert Filed(name);
      paths[name].status := status;
      Views := Views[name := paths[name].View()];
      OnlyChanged(name);
    }

    /** Writes a data packet to one path's socket, if the path is active. */
    method SendOn(name: Name, failing: set<Name>) returns (wrote: bool)
      requires Valid() && name in paths
      modifies this`Views, paths[name]
      ensures Valid() && paths == old(paths)
      ensures Views == old(Views)[name := SendPath(old(Views)[name], name in failing)]
      ensures wrote <==> old(Views)[name].status.Active? && name !in failing
    {
      assert Filed(name);
      if paths[name].status != Active {
        return false;
      }
      if name in failing {
        SetStatus(name, Suspect);
        return false;
      }
      return true;
    }

    /** Sends a data packet on every active path; `failing` are the paths whose sockets refuse it. */
    method Send(failing: set<Name>) returns (sent: set<Name>, ok: bool)
      requires Valid()
      modifies this`Views, paths.Values
      ensures Valid() && paths == old(paths)
      ensures Views == SendPaths(old(Views), failing)
      ensures sent == Used(old(Views)) - failing
      ensures ok <==> sent != {}
    {
      ghost var was := Views;
      sent := {};
      var todo := paths.Keys;
      while todo != {}
        invariant Valid() && paths == old(paths) && todo <= paths.Keys
        invariant Views == Mix(was, SendPaths(was, failing), todo)
        invariant sent == Used(was) - failing - todo
        decreases todo
      {
        var name :| name in todo;
        MixStep(was, SendPaths(was, failing), todo, name);
        SetStep(Used(was) - failing, todo, name);
        var wrote := SendOn(name, failing);
        if wrote {
          sent := sent + {name};
        }
        todo := todo - {name};
      }
      MixAll(was, SendPaths(was, failing));
      ok := sent != {};
    }

    /** Writes a heartbeat to one path's socket, unless the path is down. */
    method BeatOn(name: Name, failing: set<Name>) returns (wrote: bool)
      requires Valid() && name in paths
      modifies this`Views, paths[name]
      ensures Valid() && paths == old(paths)
      ensures Views == old(Views)[name := BeatPath(old(Views)[name], name in failing)]
      ensures wrote <==> !old(Views)[name].status.Down? && name !in failing
    {
      assert Filed(name);
      if paths[name].status == Down {
        return false;
      }
      if name in failing {
        SetStatus(name, Suspect);
        return false;
      }
      return true;
    }

    /** Sends a heartbeat on every path that is not down. */
    method SendAllHeartbeat(failing: set<Name>) returns (sent: set<Name>)
      requires Valid()
      modifies this`Views, paths.Values
      ensures Valid() && paths == old(paths)
      ensures Views == BeatPaths(old(Views), failing)
      ensures sent == Probed(old(Views)) - failing
    {
      ghost var was := Views;
      sent := {};
      var todo := paths.Keys;
      while todo != {}
        invariant Valid() && paths == old(paths) && todo <= paths.Keys
        invariant Views == Mix(was, BeatPaths(was, failing), todo)
        invariant sent == Probed(was) - failing - todo
        decreases todo
      {
        var name :| name in todo;
        MixStep(was, BeatPaths(was, failing), todo, name);
        SetStep(Probed(was) - failing, todo, name);
        var wrote := BeatOn(name, failing);
        if wrote {
          sent := sent + {name};
        }
        todo := todo - {name};
      }
      MixAll(was, BeatPaths(was, failing));
    }

    // ----- stale paths -----

    /** Replaces one path's socket; if no socket can be created the path is down and its close signal stays given. */
    method RecyclePath(name: Name, at: Time, bindable: bool)
      requires Valid() && (name in paths ==> Views[name].open)
      modifies this`Views, paths.Values
      ensures Valid() && paths == old(paths)
      ensures Views == if name in old(Views)
                       then old(Views)[name := if bindable then Recycled(old(Views)[name], at)
                                       else RecycleFailed(old(Views)[name])]
                       else old(Views)
    {
      if name !in paths {
        return;
      }
      assert Filed(name);
      var p := paths[name];
      p.open := false;
      if bindable {
        p.open := true;
        p.status := Probing;
        p.lastRecycled := Some(at);
        p.recycleCount := p.recycleCount + 1;
      } else {
        p.status := Down;
      }
      Views := Views[name := p.View()];
      OnlyChanged(name);
    }

    /** Reads one path and marks it down if its attempts are used up; true if its socket is to be replaced. */
    method Inspect(name: Name, now: Time) returns (stale: bool)
      requires Valid() && name in paths
      modifies this`Views, paths[name]
      ensures Valid() && paths == old(paths)
      ensures Views == old(Views)[name := Inspected(old(Views)[name], now)]
      ensures stale <==> Judge(old(Views)[name], now) == Recycle
    {
      assert Filed(name);
      var p := paths[name];
      if p.status == Down {
        stale := p.recycleCount >= RECYCLE_MAX_ATTEMPTS && Elapsed(p.lastRecycled, now, RECYCLE_BACKOFF);
        return;
      }
      if now - p.lastRecv <= PATH_STALE_TIMEOUT {
        return false;
      }
      if p.recycleCount >= RECYCLE_MAX_ATTEMPTS {
        SetStatus(name, Down);
        return false;
      }
      if p.lastRecycled.Some? && now - p.lastRecycled.value <= RECYCLE_MIN_INTERVAL {
        return false;
      }
      return true;
    }

    /** The first pass of a check: the paths whose sockets are to be replaced are collected. */
    method CollectStale(now: Time) returns (stale: set<Name>)
      requires Valid()
      modifies this`Views, paths.Values
      ensures Valid() && paths == old(paths)
      ensures Views == InspectAll(old(Views), now)
      ensures stale == ToRecycle(old(Views), now)
    {
      ghost var was := Views;
      stale := {};
      var todo := paths.Keys;
      while todo != {}
        invariant Valid() && paths == old(paths) && todo <= paths.Keys
        invariant Views == Mix(was, InspectAll(was, now), todo)
        invariant stale == ToRecycle(was, now) - todo
        decreases todo
      {
        var name :| name in todo;
        MixStep(was, InspectAll(was, now), todo, name);
        SetStep(ToRecycle(was, now), todo, name);
        var b := Inspect(name, now);
        if b {
          stale := stale + {name};
        }
        todo := todo - {name};
      }
      MixAll(was, InspectAll(was, now));
    }

    /** The second pass of a check. */
    method RecycleStale(stale: set<Name>, at: Time, bindable: set<Name>)
      requires Valid() && stale <= paths.Keys && forall name :: name in stale ==> Views[name].open
      modifies this`Views, paths.Values
      ensures Valid() && paths == old(paths)
      ensures Views == RecycleAll(old(Views), stale, at, bindable)
    {
      ghost var was := Views;
      var todo := stale;
      MixAll(was, RecycleAll(was, stale, at, bindable));
      MixNone(was, RecycleAll(was, stale, at, bindable), stale);
      while todo != {}
        invariant Valid() && paths == old(paths) && todo <= stale
        invariant Views == Mix(was, RecycleAll(was, stale, at, bindable), todo)
        decreases todo
      {
        var name :| name in todo;
        MixStep(was, RecycleAll(was, stale, at, bindable), todo, name);
        RecyclePath(name, at, name in bindable);
        todo := todo - {name};
      }
      MixAll(was, RecycleAll(was, stale, at, bindable));
    }

    /** Marks the paths that have failed as down and replaces the sockets of those that are stale. */
    method CheckAndRecycleStalePaths(now: Time, at: Time, bindable: set<Name>)
      requires Valid() && CheckIsSafe(Views, now)
      modifies this`Views, paths.Values
      ensures Valid() && paths == old(paths)
      ensures Views == CheckPaths(old(Views), now, at, bindable)
    {
      var stale := CollectStale(now);
      RecycleStale(stale, at, bindable);
      TwoPasses(old(Views), now, at, bindable);
    }

    // ----- interface changes -----

    /** Adds a path for the interface, if it has an address of the server's family and a socket can be created. */
    method AddPath(name: Name, info: IfaceInfo, bindable: bool, now: Time)
      requires Valid() && name !in paths
      modifies this`paths, this`Views
      ensures Valid() && fresh(paths.Values - old(paths.Values))
      ensures Views == if BindAddr(info, v4).Some? && bindable
                       then old(Views)[name := NewPath(BindAddr(info, v4).value, now)]
                       else old(Views)
    {
      var addrs := if v4 then info.addrs4 else info.addrs6;
      if |addrs| == 0 {
        return;
      }
      if !bindable {
        return;
      }
      var p := new Path(name, addrs[0], now);
      paths, Views := paths[name := p], Views[name := p.View()];
      forall other | other in paths
        ensures Filed(other)
      {
        assert other != name ==> old(Filed(other));
      }
    }

    /** Closes and removes the named path. */
    method RemovePath(name: Name)
      requires Valid() && (name in paths ==> Views[name].open)
      modifies this`paths, this`Views, if name in paths then {paths[name]} else {}
      ensures Valid() && paths == old(paths) - {name} && Views == old(Views) - {name}
    {
      if name !in paths {
        return;
      }
      assert Filed(name);
      var p := paths[name];
      p.open := false;
      paths, Views := paths - {name}, Views - {name};
      forall other | other in paths
        ensures Filed(other)
      {
        assert old(Filed(other));
      }
    }

    method RemoveGone(scan: map<Name, IfaceInfo>)
      requires Valid() && forall name :: name in Views && name !in scan ==> Views[name].open
      modifies this`paths, this`Views, paths.Values
      ensures Valid() && paths.Values <= old(paths.Values)
      ensures Views == Remaining(old(Views), scan, {})
    {
      ghost var was := Views;
      var todo := paths.Keys;
      assert Remaining(was, scan, todo) == was;
      while todo != {}
        invariant Valid() && paths.Values <= old(paths.Values) && todo <= paths.Keys
        invariant Views == Remaining(was, scan, todo)
        decreases todo
      {
        var name :| name in todo;
        RemainingStep(was, scan, todo, name);
        if name !in scan {
          RemovePath(name);
        }
        todo := todo - {name};
      }
    }

    method AddNew(scan: map<Name, IfaceInfo>, known: set<Name>, ghost was: Paths, bindable: set<Name>, now: Time)
      requires Valid() && was.Keys == known && Views == Remaining(was, scan, {})
      modifies this`paths, this`Views
      ensures Valid() && fresh(paths.Values - old(paths.Values))
      ensures Views == Adding(was, scan, {}, v4, bindable, now)
    {
      var todo := scan.Keys;
      assert Adding(was, scan, todo, v4, bindable, now) == Views;
      while todo != {}
        invariant Valid() && todo <= scan.Keys && fresh(paths.Values - old(paths.Values))
        invariant Views == Adding(was, scan, todo, v4, bindable, now)
        decreases todo
      {
        var name :| name in todo;
        AddingStep(was, scan, todo, v4, bindable, now, name);
        if name !in known {
          AddPath(name, scan[name], name in bindable, now);
        }
        todo := todo - {name};
      }
    }

    /** Closes the named path and opens one bound to the interface's first address. */
    method ReplacePath(name: Name, info: IfaceInfo, bindable: bool, now: Time)
      requires Valid() && name in paths && Views[name].open && BindAddr(info, v4).Some?
      modifies this`paths, this`Views, paths[name]
      ensures Valid() && fresh(paths.Values - old(paths.Values))
      ensures Views == if bindable then old(Views)[name := NewPath(BindAddr(info, v4).value, now)]
                       else old(Views) - {name}
    {
      RemovePath(name);
      AddPath(name, info, bindable, now);
      UpdateRemoved(old(Views), name, NewPath(BindAddr(info, v4).value, now));
    }

    /** Replaces one path whose interface has another first address now. */
    method MoveOne(name: Name, info: IfaceInfo, bindable: bool, now: Time)
      requires Valid() && (name in Views && Moves(Views[name], info, v4) ==> Views[name].open)
      modifies this`paths, this`Views, paths.Values
      ensures Valid() && fresh(paths.Values - old(paths.Values))
      ensures Views == if name in old(Views) then Moved(old(Views), name, info, v4, bindable, now) else old(Views)
    {
      if name in paths {
        assert Filed(name);
        var addrs := if v4 then info.addrs4 else info.addrs6;
        if |addrs| > 0 && addrs[0] != paths[name].localAddr {
          ReplacePath(name, info, bindable, now);
        }
      }
    }

    /** One step of MoveChanged. */
    method MoveNext(scan: map<Name, IfaceInfo>, ghost was: Paths, bindable: set<Name>, now: Time,
                    ghost todo: set<Name>, name: Name)
      requires Valid() && name in scan && name in todo && Views == Moving(was, scan, todo, v4, bindable, now)
      requires ScanIsSafe(was, scan, v4)
      modifies this`paths, this`Views, paths.Values
      ensures Valid() && forall p :: p in paths.Values ==> p in old(paths.Values) || fresh(p)
      ensures Views == Moving(was, scan, todo - {name}, v4, bindable, now)
    {
      MovingStep(was, scan, todo, v4, bindable, now, name);
      MovingIsSafe(was, scan, todo, v4, bindable, now, name);
      MoveOne(name, scan[name], name in bindable, now);
    }

    method MoveChanged(scan: map<Name, IfaceInfo>, ghost was: Paths, bindable: set<Name>, now: Time)
      requires Valid() && Views == Moving(was, scan, scan.Keys, v4, bindable, now)
      requires ScanIsSafe(was, scan, v4)
      modifies this`paths, this`Views, paths.Values
      ensures Valid() && Views == Moving(was, scan, {}, v4, bindable, now)
    {
      var todo := scan.Keys;
      while todo != {}
        invariant Valid()
        invariant todo <= scan.Keys
        invariant forall p :: p in paths.Values ==> p in old(paths.Values) || fresh(p)
        invariant Views == Moving(was, scan, todo, v4, bindable, now)
        decreases todo
      {
        var name :| name in todo;
        MoveNext(scan, was, bindable, now, todo, name);
        todo := todo - {name};
      }
    }

    /** Brings the paths in line with the interfaces that a scan has found. */
    method DetectChanges(scan: map<Name, IfaceInfo>, bindable: set<Name>, now: Time)
      requires Valid() && ScanIsSafe(Views, scan, v4)
      modifies this`paths, this`Views, paths.Values
      ensures Valid()
      ensures Views == Reconcile(old(Views), scan, v4, bindable, now)
    {
      ghost var was := Views;
      var known := paths.Keys;
      RemoveGone(scan);
      AddNew(scan, known, was, bindable, now);
      MovingAll(was, scan, v4, bindable, now);
      MoveChanged(scan, was, bindable, now);
    }
  }

  // ----- loops over the paths -----

  /** The paths when all but those of `todo` have been treated. */
  ghost function Mix(was: Paths, treated: Paths, todo: set<Name>): Paths
    requires was.Keys <= treated.Keys
  {
    map name | name in was :: if name in todo then was[name] else treated[name]
  }

  lemma MixStep(was: Paths, treated: Paths, todo: set<Name>, name: Name)
    requires was.Keys <= treated.Keys && name in was && name in todo
    ensures Mix(was, treated, todo)[name] == was[name]
    ensures Mix(was, treated, todo - {name}) == Mix(was, treated, todo)[name := treated[name]]
  {
  }

  lemma MixAll(was: Paths, treated: Paths)
    requires was.Keys == treated.Keys
    ensures Mix(was, treated, {}) == treated
    ensures Mix(was, treated, was.Keys) == was
  {
  }

  lemma SetStep(all: set<Name>, todo: set<Name>, name: Name)
    requires name in todo
    ensures all - (todo - {name}) == if name in all then (all - todo) + {name} else all - todo
  {
  }

  /** Treating only the paths of `some`, when nothing else changes. */
  lemma MixNone(was: Paths, treated: Paths, some: set<Name>)
    requires was.Keys == treated.Keys && forall name :: name in was && name !in some ==> treated[name] == was[name]
    ensures Mix(was, treated, some) == was
  {
  }

  // ----- the two passes of a check -----

  function Inspected(p: PathState, now: Time): PathState {
    if Judge(p, now) == GoDown then p.(status := Down) else p
  }

  function InspectAll(paths: Paths, now: Time): Paths {
    map name | name in paths :: Inspected(paths[name], now)
  }

  function ToRecycle(paths: Paths, now: Time): set<Name> {
    set name | name in paths && Judge(paths[name], now) == Recycle
  }

  function RecycleAll(paths: Paths, stale: set<Name>, at: Time, bindable: set<Name>): Paths {
    map name | name in paths ::
      if name !in stale then paths[name]
      else if name in bindable then Recycled(paths[name], at) else RecycleFailed(paths[name])
  }

  /** The two passes together carry out the verdict on each path. */
  lemma TwoPasses(paths: Paths, now: Time, at: Time, bindable: set<Name>)
    ensures RecycleAll(InspectAll(paths, now), ToRecycle(paths, now), at, bindable)
            == CheckPaths(paths, now, at, bindable)
  {
  }

  // ----- the three passes over a scan -----

  /** The paths when those of `todo` have still to be looked up in the scan. */
  ghost function Remaining(was: Paths, scan: map<Name, IfaceInfo>, todo: set<Name>): Paths {
    map name | name in was && (name in todo || name in scan) :: was[name]
  }

  lemma RemainingStep(was: Paths, scan: map<Name, IfaceInfo>, todo: set<Name>, name: Name)
    requires name in todo && name in was
    ensures Remaining(was, scan, todo - {name})
            == if name in scan then Remaining(was, scan, todo) else Remaining(was, scan, todo) - {name}
  {
  }

  /** The paths when the interfaces of `todo` have still to be looked up among the known ones. */
  ghost function Adding(was: Paths, scan: map<Name, IfaceInfo>, todo: set<Name>, v4: bool, bindable: set<Name>,
                        now: Time): Paths
  {
    map name | name in scan && (name in was || (name !in todo && name in bindable && BindAddr(scan[name], v4).Some?)) ::
      if name in was then was[name] else NewPath(BindAddr(scan[name], v4).value, now)
  }

  lemma AddingStep(was: Paths, scan: map<Name, IfaceInfo>, todo: set<Name>, v4: bool, bindable: set<Name>, now: Time,
                   name: Name)
    requires name in todo && name in scan
    ensures var before := Adding(was, scan, todo, v4, bindable, now);
            var after := Adding(was, scan, todo - {name}, v4, bindable, now);
            && (name !in was ==> name !in before)
            && after == if name !in was && name in bindable && BindAddr(scan[name], v4).Some?
                        then before[name := NewPath(BindAddr(scan[name], v4).value, now)] else before
  {
  }

  /** The paths when the interfaces of `todo` have still to be compared with the addresses in use. */
  ghost function Moving(was: Paths, scan: map<Name, IfaceInfo>, todo: set<Name>, v4: bool, bindable: set<Name>,
                        now: Time): Paths
  {
    map name | name in scan && ((name in was && name in todo)
                                      || ReconcilePath(was, name, scan[name], v4, bindable, now).Some?) ::
      if name in was && name in todo then was[name] else ReconcilePath(was, name, scan[name], v4, bindable, now).value
  }

  lemma MovingAll(was: Paths, scan: map<Name, IfaceInfo>, v4: bool, bindable: set<Name>, now: Time)
    ensures Moving(was, scan, scan.Keys, v4, bindable, now) == Adding(was, scan, {}, v4, bindable, now)
    ensures Moving(was, scan, {}, v4, bindable, now) == Reconcile(was, scan, v4, bindable, now)
  {
  }

  /** The paths after the named one has been compared with its interface's first address. */
  function Moved(paths: Paths, name: Name, info: IfaceInfo, v4: bool, bindable: bool, now: Time): Paths
    requires name in paths
  {
    var addr := BindAddr(info, v4);
    if addr.None? || addr.value == paths[name].localAddr then paths
    else if bindable then paths[name := NewPath(addr.value, now)]
    else paths - {name}
  }

  lemma MovingStep(was: Paths, scan: map<Name, IfaceInfo>, todo: set<Name>, v4: bool, bindable: set<Name>, now: Time,
                   name: Name)
    requires name in todo && name in scan
    ensures var before := Moving(was, scan, todo, v4, bindable, now);
            var after := Moving(was, scan, todo - {name}, v4, bindable, now);
            after == if name in before then Moved(before, name, scan[name], v4, name in bindable, now) else before
  {
  }

  /** A path that is still to be compared is as it was, or one that has just been added and does not move. */
  lemma MovingIsSafe(was: Paths, scan: map<Name, IfaceInfo>, todo: set<Name>, v4: bool, bindable: set<Name>, now: Time,
                     name: Name)
    requires ScanIsSafe(was, scan, v4) && name in scan && name in todo
    ensures var views := Moving(was, scan, todo, v4, bindable, now);
            name in views && Moves(views[name], scan[name], v4) ==> views[name].open
  {
  }

  lemma UpdateRemoved<K, V>(m: map<K, V>, k: K, v: V)
    ensures (m - {k})[k := v] == m[k := v]
  {
  }
}
