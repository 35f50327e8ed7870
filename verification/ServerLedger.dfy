/** At-most-once forwarding: in no run does a data packet pass the server twice within one dedup epoch. */
module ServerLedger {
  import opened Words
  import opened Messages
  import opened Window
  import opened ServerState
  import opened ServerAtomic
  import opened ServerInvariants

  /** A packet that passed the server: its sender, the sender's dedup epoch, and its unbounded number in that epoch. */
  datatype Entry = Entry(c: ClientId, epoch: nat, n: int)

  /**
   The record kept beside a run.  A client's epoch ends when its window is dropped, with its session, and when
   a number a whole window behind makes the window start again.
   */
  datatype Ledger = Ledger(histories: map<ClientId, History>, epochs: map<ClientId, nat>, log: seq<Entry>)

  function HistoryOf(l: Ledger, c: ClientId): History {
    if c in l.histories then l.histories[c] else Nothing
  }

  function EpochOf(l: Ledger, c: ClientId): nat {
    if c in l.epochs then l.epochs[c] else 0
  }

  /** The epochs of the clients in `gone` are over. */
  function Close(l: Ledger, gone: set<ClientId>): Ledger {
    l.(histories := l.histories - gone,
       epochs := map c | c in l.epochs.Keys + gone :: EpochOf(l, c) + if c in gone then 1 else 0)
  }

  /** The epoch and the unbounded number of client c's next packet. */
  function EntryFor(l: Ledger, w: nat, c: ClientId, number: u32): Entry {
    var h := HistoryOf(l, c);
    if h.Nothing? then Entry(c, EpochOf(l, c), number)
    else if Restarts(h, number, w) then Entry(c, EpochOf(l, c) + 1, number)
    else Entry(c, EpochOf(l, c), Lift(h.top, number))
  }

  function Note(l: Ledger, w: nat, c: ClientId, number: u32, passed: bool): Ledger {
    var entry := EntryFor(l, w, c, number);
    Ledger(l.histories[c := HistoryStep(HistoryOf(l, c), number, w).0],
           l.epochs[c := entry.epoch],
           if passed then l.log + [entry] else l.log)
  }

  function Follow(s: State, cfg: Config, l: Ledger, e: Event): Ledger
    requires cfg.Valid() && (e.Data? ==> WindowFits(s, cfg, e.c))
  {
    match e
    case Beat(_, _, _, _) => l
    case Data(c, number, payload, from, now) => Note(l, cfg.window, c, number, Handle(s, cfg, e).1 != Dropped)
    case Clean(now) => Close(l, TimedOutSessions(s, cfg, now))
    case Kick(c) => if c in s.sessions then Close(l, {c}) else l
  }

  // ----- the invariant -----

  ghost predicate WindowsAgree(windows: map<ClientId, Ring>, w: nat, l: Ledger) {
    forall c: ClientId :: Agrees(WindowOf(windows, c, w), HistoryOf(l, c))
  }

  /** An entry of a client's current epoch is among the numbers accepted in it. */
  ghost predicate Recorded(l: Ledger, entry: Entry) {
    && entry.epoch <= EpochOf(l, entry.c)
    && (entry.epoch == EpochOf(l, entry.c) ==>
          HistoryOf(l, entry.c).Epoch? && entry.n in HistoryOf(l, entry.c).accepted)
  }

  ghost predicate Distinct(log: seq<Entry>) {
    forall i, j :: 0 <= i < j < |log| ==> log[i] != log[j]
  }

  ghost predicate LedgerOk(l: Ledger) {
    && (forall entry :: entry in l.log ==> Recorded(l, entry))
    && Distinct(l.log)
  }

  lemma CloseKeepsLedger(l: Ledger, gone: set<ClientId>)
    requires LedgerOk(l)
    ensures LedgerOk(Close(l, gone))
  {
    forall entry | entry in l.log
      ensures Recorded(Close(l, gone), entry)
    {
      assert Recorded(l, entry);
    }
  }

  lemma CloseKeepsAgreement(windows: map<ClientId, Ring>, w: nat, l: Ledger, gone: set<ClientId>)
    requires w > 0 && WindowsAgree(windows, w, l)
    ensures WindowsAgree(windows - gone, w, Close(l, gone))
  {
    forall c: ClientId
      ensures Agrees(WindowOf(windows - gone, c, w), HistoryOf(Close(l, gone), c))
    {
      assert Agrees(WindowOf(windows, c, w), HistoryOf(l, c));
    }
  }

  /** A packet that is not a duplicate has an entry that is not in the log. */
  lemma NewEntry(l: Ledger, w: nat, c: ClientId, number: u32)
    requires LedgerOk(l) && !HistoryStep(HistoryOf(l, c), number, w).1
    ensures EntryFor(l, w, c, number) !in l.log
  {
    var entry := EntryFor(l, w, c, number);
    forall e | e in l.log
      ensures e != entry
    {
      assert Recorded(l, e);
    }
  }

  lemma NoteRecords(l: Ledger, w: nat, c: ClientId, number: u32, passed: bool, entry: Entry)
    requires Recorded(l, entry) || entry == EntryFor(l, w, c, number)
    ensures Recorded(Note(l, w, c, number, passed), entry)
  {
  }

  lemma NoteKeepsLedger(l: Ledger, w: nat, c: ClientId, number: u32, passed: bool)
    requires LedgerOk(l) && (passed ==> !HistoryStep(HistoryOf(l, c), number, w).1)
    ensures LedgerOk(Note(l, w, c, number, passed))
  {
    var l' := Note(l, w, c, number, passed);
    forall entry | entry in l'.log
      ensures Recorded(l', entry)
    {
      NoteRecords(l, w, c, number, passed, entry);
    }
    if passed {
      NewEntry(l, w, c, number);
    }
  }

  lemma NoteKeepsAgreement(windows: map<ClientId, Ring>, w: nat, l: Ledger, c: ClientId, number: u32, passed: bool)
    requires 0 < w < TWO32 && TWO32 % w == 0 && WindowsAgree(windows, w, l)
    requires c in windows ==> |windows[c].bits| == w
    ensures RingStep(WindowOf(windows, c, w), number).1 == HistoryStep(HistoryOf(l, c), number, w).1
    ensures WindowsAgree(windows[c := RingStep(WindowOf(windows, c, w), number).0], w, Note(l, w, c, number, passed))
  {
    assert Agrees(WindowOf(windows, c, w), HistoryOf(l, c));
    StepAgrees(WindowOf(windows, c, w), HistoryOf(l, c), number);
    var r, l' := RingStep(WindowOf(windows, c, w), number).0, Note(l, w, c, number, passed);
    forall d: ClientId
      ensures Agrees(WindowOf(windows[c := r], d, w), HistoryOf(l', d))
    {
      assert Agrees(WindowOf(windows, d, w), HistoryOf(l, d));
    }
  }

  lemma DataStepsWindow(s: State, cfg: Config, c: ClientId, number: u32, payload: seq<u8>, from: Endpoint, now: Time)
    requires cfg.Valid() && WindowFits(s, cfg, c)
    ensures var (s', outcome) := HandleData(s, cfg, c, number, payload, from, now);
            && s'.windows == s.windows[c := RingStep(WindowOf(s.windows, c, cfg.window), number).0]
            && (outcome != Dropped ==> !RingStep(WindowOf(s.windows, c, cfg.window), number).1)
  {
  }

  lemma RemovalDropsWindows(s: State, cfg: Config, c: ClientId, now: Time)
    ensures RunCleanup(s, cfg, now).windows == s.windows - TimedOutSessions(s, cfg, now)
    ensures c in s.sessions ==> RunDelete(s, c).0.windows == s.windows - {c}
  {
  }

  lemma FollowKeeps(s: State, cfg: Config, l: Ledger, e: Event)
    requires cfg.Valid() && TWO32 % cfg.window == 0 && Exact(s, cfg)
    requires WindowsAgree(s.windows, cfg.window, l) && LedgerOk(l)
    ensures WindowsAgree(Handle(s, cfg, e).0.windows, cfg.window, Follow(s, cfg, l, e))
    ensures LedgerOk(Follow(s, cfg, l, e))
  {
    match e
    case Beat(c, hb, from, now) =>
      BeatKeepsWindows(s, cfg, c, hb, from, now);
    case Data(c, number, payload, from, now) =>
      DataStepsWindow(s, cfg, c, number, payload, from, now);
      var passed := Handle(s, cfg, e).1 != Dropped;
      NoteKeepsAgreement(s.windows, cfg.window, l, c, number, passed);
      NoteKeepsLedger(l, cfg.window, c, number, passed);
    case Clean(now) =>
      RemovalDropsWindows(s, cfg, 0, now);
      CloseKeepsAgreement(s.windows, cfg.window, l, TimedOutSessions(s, cfg, now));
      CloseKeepsLedger(l, TimedOutSessions(s, cfg, now));
    case Kick(c) =>
      RemovalDropsWindows(s, cfg, c, 0);
      CloseKeepsAgreement(s.windows, cfg.window, l, {c});
      CloseKeepsLedger(l, {c});
  }

  /** The record after a run. */
  function LedgerAfter(s: State, cfg: Config, l: Ledger, events: seq<Event>): Ledger
    requires cfg.Valid() && Exact(s, cfg)
    decreases |events|
  {
    if events == [] then l
    else
      HandleKeepsExact(s, cfg, events[0]);
      LedgerAfter(Handle(s, cfg, events[0]).0, cfg, Follow(s, cfg, l, events[0]), events[1..])
  }

  lemma {:induction false} RunKeepsLedger(s: State, cfg: Config, l: Ledger, events: seq<Event>)
    requires cfg.Valid() && TWO32 % cfg.window == 0 && Exact(s, cfg)
    requires WindowsAgree(s.windows, cfg.window, l) && LedgerOk(l)
    ensures LedgerOk(LedgerAfter(s, cfg, l, events))
    decreases |events|
  {
    if events != [] {
      FollowKeeps(s, cfg, l, events[0]);
      HandleKeepsExact(s, cfg, events[0]);
      RunKeepsLedger(Handle(s, cfg, events[0]).0, cfg, Follow(s, cfg, l, events[0]), events[1..]);
    }
  }

  /** In every run of a server that starts without dedup state, no packet passes twice in an epoch of its sender. */
  lemma PassesOncePerEpoch(s: State, cfg: Config, events: seq<Event>)
    requires cfg.Valid() && TWO32 % cfg.window == 0 && Exact(s, cfg) && s.windows == map[]
    ensures Distinct(LedgerAfter(s, cfg, Ledger(map[], map[], []), events).log)
  {
    RunKeepsLedger(s, cfg, Ledger(map[], map[], []), events);
  }
}
