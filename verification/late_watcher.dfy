/**
 Why a live window is not said to keep its access point: the deadline watcher of an
 earlier window, held up between closing it and tearing down, takes the access point of
 the next window with it.
 */
module LateWatcher {
  import opened Wrappers
  import opened BrokerWindow
  import opened BrokerMachine
  import opened HotspotLoss

  lemma {:induction false} RunOn(s: State, before: seq<Event>, after: seq<Event>)
    ensures Run(s, before + after) == Run(Run(s, before), after)
    decreases |before|
  {
    if before == [] {
      assert before + after == after;
    } else {
      assert (before + after)[1..] == before[1..] + after;
      RunOn(Next(s, before[0]), before[1..], after);
    }
  }

  /** Thread `t` makes `n` steps on its own. */
  function Advance(s: State, t: nat, n: nat): State {
    if n == 0 then s else Next(Advance(s, t, n - 1), Step(t, GOES_WELL))
  }

  lemma {:induction false} AdvanceIsRun(s: State, t: nat, n: nat)
    ensures Run(s, seq(n, _ => Step(t, GOES_WELL))) == Advance(s, t, n)
  {
    if n > 0 {
      var init := seq(n - 1, _ => Step(t, GOES_WELL));
      AdvanceIsRun(s, t, n - 1);
      assert seq(n, _ => Step(t, GOES_WELL)) == init + [Step(t, GOES_WELL)];
      RunOn(s, init, [Step(t, GOES_WELL)]);
      assert [Step(t, GOES_WELL)][1..] == [];
    }
  }

  /** After `n` steps thread `t` is at `pc`; `sh` is shared now, `more` has started, the others stood still. */
  predicate Stands(s: State, t: nat, n: nat, pc: Pc, sh: Shared, more: seq<Pc>) {
    t < |s.threads| && Advance(s, t, n) == State(sh, s.threads[t := pc] + more)
  }

  lemma StandsAtFirst(s: State, t: nat)
    requires t < |s.threads|
    ensures Stands(s, t, 0, s.threads[t], s.sh, [])
  {
    assert s.threads[t := s.threads[t]] + [] == s.threads;
  }

  lemma Goes(s: State, t: nat, n: nat, pc: Pc, sh: Shared, more: seq<Pc>, sh': Shared, pc': Pc)
    requires Stands(s, t, n, pc, sh, more) && Move(sh, t, pc, GOES_WELL) == To(sh', pc')
    ensures Stands(s, t, n + 1, pc', sh', more)
  {
    hide Move;
    assert (s.threads[t := pc] + more)[t := pc'] + [] == s.threads[t := pc'] + more;
  }

  /** The step that starts the watcher of window `g`. */
  lemma Spawns(s: State, n: nat, g: nat, sh: Shared)
    requires Stands(s, 0, n, OpenSpawn(g), sh, [])
    ensures Stands(s, 0, n + 1, OpenEnter(g), sh, [WatchLoop(g)])
  {
    assert (s.threads[0 := OpenSpawn(g)] + [])[0 := OpenEnter(g)] == s.threads[0 := OpenEnter(g)];
  }

  predicate Ready(s: State) {
    |s.threads| > 0 && s.threads[0].Idle? && s.sh.lock.None? && !Live(s.sh)
  }

  function Cleaned(sh: Shared): Shared {
    sh.(apUp := false, teardownFailed := !sh.apUp && sh.teardownFailed)
  }

  /** Left-over cleaning, then the permission. */
  lemma Cleans(s: State)
    requires Ready(s)
    ensures Stands(s, 0, 4, OpenConsume, Cleaned(s.sh), [])
  {
    StandsAtFirst(s, 0);
    hide Stands, Advance, MoveScan, MoveJoin, MoveClose, MoveWatch;
    var sh := s.sh;
    var locked := sh.(lock := Some(0));
    Goes(s, 0, 0, Idle, sh, [], sh, OpenLock);
    Goes(s, 0, 1, OpenLock, sh, [], locked, OpenClean);
    Goes(s, 0, 2, OpenClean, locked, [], Cleaned(locked), Releasing(OpenConsume));
    Goes(s, 0, 3, Releasing(OpenConsume), Cleaned(locked), [], Cleaned(sh), OpenConsume);
  }

  function NewWindow(sh: Shared): Window {
    Opened(sh.w, sh.now + PORTAL_LIFETIME_S, "", "")
  }

  /** A new window with its watcher. */
  lemma Opens(s: State)
    requires Ready(s)
    ensures var w := NewWindow(s.sh);
            Stands(s, 0, 7, OpenEnter(w.generation), Cleaned(s.sh).(w := w), [WatchLoop(w.generation)])
  {
    Cleans(s);
    hide Stands, Advance, MoveScan, MoveJoin, MoveClose, MoveWatch;
    var clean, w := Cleaned(s.sh), NewWindow(s.sh);
    Goes(s, 0, 4, OpenConsume, clean, [], clean, OpenArm(w.deadline));
    Goes(s, 0, 5, OpenArm(w.deadline), clean, [], clean.(w := w), OpenSpawn(w.generation));
    Spawns(s, 6, w.generation, clean.(w := w));
  }

  /** The scan, under the network lock. */
  lemma Scans(s: State)
    requires Ready(s)
    ensures var w := NewWindow(s.sh);
            Stands(s, 0, 11, OpenUp(w.generation), Cleaned(s.sh).(w := w, lock := Some(0)), [WatchLoop(w.generation)])
  {
    Opens(s);
    hide Stands, Advance, MoveScan, MoveJoin, MoveClose, MoveWatch;
    var w, sh := NewWindow(s.sh), Cleaned(s.sh).(w := NewWindow(s.sh));
    var g, more, locked := w.generation, [WatchLoop(w.generation)], sh.(lock := Some(0));
    Goes(s, 0, 7, OpenEnter(g), sh, more, locked, OpenCheck(g));
    Goes(s, 0, 8, OpenCheck(g), locked, more, locked, OpenScan(g));
    Goes(s, 0, 9, OpenScan(g), locked, more, locked, OpenPublish(g, []));
    Goes(s, 0, 10, OpenPublish(g, []), locked, more, locked, OpenUp(g));
  }

  /** The access point comes up, and the lock is released. */
  lemma Raises(s: State)
    requires Ready(s)
    ensures var w := NewWindow(s.sh);
            Stands(s, 0, 14, Idle, Cleaned(s.sh).(w := w, apUp := true), [WatchLoop(w.generation)])
  {
    Scans(s);
    hide Stands, Advance, MoveScan, MoveJoin, MoveClose, MoveWatch;
    var w, up := NewWindow(s.sh), Cleaned(s.sh).(w := NewWindow(s.sh), apUp := true);
    var g, more, locked := w.generation, [WatchLoop(w.generation)], up.(lock := Some(0));
    Goes(s, 0, 11, OpenUp(g), locked.(apUp := false), more, locked, OpenRecheck(g));
    Goes(s, 0, 12, OpenRecheck(g), locked, more, locked, Releasing(Idle));
    Goes(s, 0, 13, Releasing(Idle), locked, more, up, Idle);
  }

  /** The window of this watcher is over. */
  predicate Over(s: State, g: nat) {
    && |s.threads| > 1 && s.threads[1] == WatchLoop(g) && g == s.sh.w.generation
    && s.sh.w.active && !s.sh.stop && s.sh.now >= s.sh.w.deadline
  }

  lemma Looks(s: State, g: nat)
    requires Over(s, g)
    ensures Stands(s, 1, 1, WatchCheck(g), s.sh, [])
  {
    StandsAtFirst(s, 1);
    hide Stands, Advance, MoveScan, MoveJoin, MoveClose, MoveOpen;
    Goes(s, 1, 0, WatchLoop(g), s.sh, [], s.sh, WatchCheck(g));
  }

  lemma FindsItOver(s: State, g: nat)
    requires Over(s, g)
    ensures Stands(s, 1, 2, WatchClose(g), s.sh, [])
  {
    Looks(s, g);
    hide Stands, Advance, MoveScan, MoveJoin, MoveClose, MoveOpen;
    Goes(s, 1, 1, WatchCheck(g), s.sh, [], s.sh, WatchClose(g));
  }

  /** The watcher of a window that is over has closed it and stands before the network lock. */
  lemma Closes(s: State, g: nat)
    requires Over(s, g)
    ensures Stands(s, 1, 3, WatchLock, s.sh.(w := Closed(s.sh.w, None)), [])
  {
    FindsItOver(s, g);
    hide Stands, Advance, MoveScan, MoveJoin, MoveClose, MoveOpen;
    Goes(s, 1, 2, WatchClose(g), s.sh, [], s.sh.(w := Closed(s.sh.w, None)), WatchLock);
  }

  lemma TearsDown(s: State)
    requires |s.threads| > 1 && s.threads[1].WatchLock? && s.sh.lock.None?
    ensures Stands(s, 1, 3, Done, Cleaned(s.sh), [])
  {
    StandsAtFirst(s, 1);
    hide Stands, Advance, MoveScan, MoveJoin, MoveClose, MoveOpen, Opened, Published;
    var locked := s.sh.(lock := Some(1));
    Goes(s, 1, 0, WatchLock, s.sh, [], locked, WatchDown);
    Goes(s, 1, 1, WatchDown, locked, [], Cleaned(locked), Releasing(Done));
    Goes(s, 1, 2, Releasing(Done), Cleaned(locked), [], Cleaned(s.sh), Done);
  }

  function Turns(t: nat, n: nat): seq<Event> {
    seq(n, _ => Step(t, GOES_WELL))
  }

  lemma ThenTurns(s: State, before: seq<Event>, t: nat, n: nat)
    ensures Run(s, before + Turns(t, n)) == Advance(Run(s, before), t, n)
  {
    RunOn(s, before, Turns(t, n));
    AdvanceIsRun(Run(s, before), t, n);
  }

  lemma ThenTick(s: State, before: seq<Event>, elapsed: real)
    ensures Run(s, before + [Tick(elapsed)]) == Next(Run(s, before), Tick(elapsed))
  {
    RunOn(s, before, [Tick(elapsed)]);
    assert [Tick(elapsed)][1..] == [];
  }

  /** A first window has opened, run out, and been closed by its watcher, which has not torn down yet. */
  predicate HeldUp(s: State) {
    s.threads == [Idle, WatchLock] && s.sh.lock.None? && !s.sh.w.active && !s.sh.stop && !s.sh.teardownFailed
  }

  lemma FirstWindow(s0: State)
    requires Initial(s0) && |s0.threads| == 1
    ensures HeldUp(Advance(Next(Advance(s0, 0, 14), Tick(PORTAL_LIFETIME_S)), 1, 3))
  {
    Raises(s0);
    hide Advance, Move;
    var s1 := Advance(s0, 0, 14);
    assert s1.threads == [Idle, WatchLoop(1)];
    var s2 := Next(s1, Tick(PORTAL_LIFETIME_S));
    Closes(s2, 1);
    assert s2.threads[1 := WatchLock] + [] == [Idle, WatchLock];
  }

  lemma SecondWindow(s: State)
    requires HeldUp(s)
    ensures var s' := Advance(Advance(s, 0, 14), 1, 3);
            Current(s'.sh.w, s'.sh.w.generation, s'.sh.now) && s'.sh.lock.None? && !s'.sh.apUp && !s'.sh.teardownFailed
  {
    Raises(s);
    hide Advance, Move;
    var s1 := Advance(s, 0, 14);
    assert s1.threads[1].WatchLock?;
    TearsDown(s1);
  }

  /**
   A window opens and runs out; its watcher closes it and is held up; a second window
   opens and raises the access point; the first watcher then tears it down.
   */
  lemma LiveWindowCanLoseItsHotspot(s0: State) returns (events: seq<Event>)
    requires Initial(s0) && |s0.threads| == 1
    ensures var s := Run(s0, events);
            Current(s.sh.w, s.sh.w.generation, s.sh.now) && s.sh.lock.None? && !s.sh.apUp && !s.sh.teardownFailed
  {
    var e1 := [] + Turns(0, 14);
    var e2 := e1 + [Tick(PORTAL_LIFETIME_S)];
    var e3 := e2 + Turns(1, 3);
    var e4 := e3 + Turns(0, 14);
    events := e4 + Turns(1, 3);
    assert Run(s0, []) == s0;
    hide Run, Advance, Turns, Next, HeldUp, Initial;
    ThenTurns(s0, [], 0, 14);
    ThenTick(s0, e1, PORTAL_LIFETIME_S);
    ThenTurns(s0, e2, 1, 3);
    ThenTurns(s0, e3, 0, 14);
    ThenTurns(s0, e4, 1, 3);
    FirstWindow(s0);
    SecondWindow(Run(s0, e3));
  }

  /** A first window has opened and run out, and its watcher has seen that but not closed it yet. */
  predicate SeenOver(s: State) {
    s.threads == [Idle, WatchClose(1)] && s.sh.lock.None? && s.sh.w.generation == 1 && !Live(s.sh) && !s.sh.stop
  }

  lemma FirstWindowSeenOver(s0: State)
    requires Initial(s0) && |s0.threads| == 1
    ensures SeenOver(Advance(Next(Advance(s0, 0, 14), Tick(PORTAL_LIFETIME_S)), 1, 2))
  {
    Raises(s0);
    hide Advance, Move;
    var s1 := Advance(s0, 0, 14);
    assert s1.threads == [Idle, WatchLoop(1)];
    var s2 := Next(s1, Tick(PORTAL_LIFETIME_S));
    FindsItOver(s2, 1);
    assert s2.threads[1 := WatchClose(1)] + [] == [Idle, WatchClose(1)];
  }

  lemma SecondWindowOverIt(s: State)
    requires SeenOver(s)
    ensures var s' := Advance(s, 0, 14);
            HotspotLoss.Settled(s') && |s'.threads| > 1 && s'.threads[1] == WatchClose(1) && s'.sh.w.generation == 2
  {
    Raises(s);
    hide Advance, Move;
  }

  /** The watcher can be held up even before it closes its window: then it closes nothing, and still tears down. */
  lemma ReplacedWindowStillHasItsWatcher(s0: State) returns (events: seq<Event>)
    requires Initial(s0) && |s0.threads| == 1
    ensures var s := Run(s0, events);
            && HotspotLoss.Settled(s) && |s.threads| > 1 && s.threads[1] == WatchClose(1) && s.sh.w.generation == 2
            && CanLose(s)
  {
    var e1 := [] + Turns(0, 14);
    var e2 := e1 + [Tick(PORTAL_LIFETIME_S)];
    var e3 := e2 + Turns(1, 2);
    events := e3 + Turns(0, 14);
    assert Run(s0, []) == s0;
    ThenTurns(s0, [], 0, 14);
    ThenTick(s0, e1, PORTAL_LIFETIME_S);
    ThenTurns(s0, e2, 1, 2);
    ThenTurns(s0, e3, 0, 14);
    hide Run, Advance, Turns, Next, SeenOver, Initial, CanLose;
    FirstWindowSeenOver(s0);
    SecondWindowOverIt(Run(s0, e3));
    OnlyLateWatchersTakeIt(s0, events);
    assert IsLate(Run(s0, events).threads[1], 2);
  }
}
