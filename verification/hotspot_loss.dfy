/**
 When a live window can lose its access point without anyone joining a network, and who
 takes it: exactly, for any number of request threads and for the broker's single one.
 */
module HotspotLoss {
  import opened Wrappers
  import opened BrokerWindow
  import opened BrokerMachine

  // ------------------------------------------------------ what is said

  /** Window `g` is current all along, and nobody begins to join a network. */
  predicate Spares(s: State, events: seq<Event>, g: nat)
    decreases |events|
  {
    && Current(s.sh.w, g, s.sh.now)
    && (events != [] ==> !BeginsJoin(s, events[0]) && Spares(Next(s, events[0]), events[1..], g))
  }

  predicate BeginsJoin(s: State, e: Event) {
    e.Step? && e.thread < |s.threads| && s.threads[e.thread].Idle? && e.answer.request.Join?
  }

  /** The current window can lose its access point while it stays current. */
  ghost predicate CanLose(s: State) {
    exists events :: Spares(s, events, s.sh.w.generation) && !Run(s, events).sh.apUp
  }

  /**
   The thread is bound to tear down whatever is up: it is about to take the network lock
   for a teardown, or it still works for a window that window `g` has replaced.
   */
  predicate Bound(pc: Pc, g: nat) {
    || pc.OpenLock? || pc.OpenFailLock? || pc.CloseLock? || pc.WatchLock?
    || ((pc.OpenSpawn? || pc.OpenEnter? || pc.OpenFail? || pc.WatchClose?) && pc.g != g)
  }

  /** The access point of a current window is up, nobody is in the network lock and nobody joins. */
  predicate Settled(s: State) {
    && Current(s.sh.w, s.sh.w.generation, s.sh.now) && s.sh.apUp && s.sh.lock.None?
    && forall t | 0 <= t < |s.threads| :: !IsJoinPc(s.threads[t])
  }

  // ------------------------------------------------------ without a bound thread

  /** A thread that will not touch the access point while window `g` is current. */
  predicate Harmless(pc: Pc, g: nat) {
    match pc
    case Idle => true
    case Done => true
    case OpenConsume => true
    case OpenArm(_) => true
    case OpenSpawn(h) => h == g
    case OpenEnter(h) => h == g
    case OpenCheck(h) => h == g
    case OpenScan(h) => h == g
    case OpenPublish(h, _) => h == g
    case OpenUp(h) => h == g
    case OpenRecheck(h) => h == g
    case OpenFail(h) => h == g
    case ScanEnter(_) => true
    case ScanCheck(_) => true
    case ScanRun(_) => true
    case ScanPublish(_, _) => true
    case StopSet => true
    case CloseMark(_) => true
    case WatchLoop(_) => true
    case WatchCheck(_) => true
    case WatchSleep(_, _) => true
    case WatchClose(h) => h == g
    case Releasing(next) => Harmless(next, g)
    case _ => false
  }

  predicate AllHarmless(s: State, g: nat) {
    s.sh.apUp && Current(s.sh.w, g, s.sh.now) && forall t | 0 <= t < |s.threads| :: Harmless(s.threads[t], g)
  }

  lemma HarmlessMove(sh: Shared, t: nat, pc: Pc, a: Answer, g: nat)
    requires Harmless(pc, g) && sh.apUp && Current(sh.w, g, sh.now) && (pc.Idle? ==> !a.request.Join?)
    requires Current(Move(sh, t, pc, a).sh.w, g, Move(sh, t, pc, a).sh.now)
    ensures Move(sh, t, pc, a).sh.apUp && Harmless(Move(sh, t, pc, a).pc, g)
  {
  }

  lemma HarmlessStep(s: State, e: Event, g: nat)
    requires AllHarmless(s, g) && !BeginsJoin(s, e)
    requires Current(Next(s, e).sh.w, g, Next(s, e).sh.now)
    ensures AllHarmless(Next(s, e), g)
  {
    if e.Step? && e.thread < |s.threads| {
      HarmlessMove(s.sh, e.thread, s.threads[e.thread], e.answer, g);
      hide Move;
    }
  }

  lemma {:induction false} HarmlessRun(s: State, events: seq<Event>, g: nat)
    requires AllHarmless(s, g) && Spares(s, events, g)
    ensures Run(s, events).sh.apUp
    decreases |events|
  {
    if events != [] {
      assert Spares(Next(s, events[0]), events[1..], g);
      HarmlessStep(s, events[0], g);
      HarmlessRun(Next(s, events[0]), events[1..], g);
    }
  }

  // ------------------------------------------------------ with one

  const GOES_WELL := Answer(Open, false, false, false, false, [], "", "")

  /** How many steps a bound thread is from its teardown; 0 for any other. */
  function StepsLeft(pc: Pc, g: nat): nat {
    match pc
    case OpenClean => 1
    case OpenFailDown => 1
    case CloseDown(_) => 1
    case WatchDown => 1
    case OpenLock => 2
    case OpenFailLock => 2
    case CloseLock(_) => 2
    case WatchLock => 2
    case OpenFail(h) => if h == g then 0 else 3
    case WatchClose(h) => if h == g then 0 else 3
    case Releasing(OpenFail(h)) => if h == g then 0 else 4
    case OpenCheck(h) => if h == g then 0 else 5
    case OpenEnter(h) => if h == g then 0 else 6
    case OpenSpawn(h) => if h == g then 0 else 7
    case _ => 0
  }

  predicate Falling(s: State, t: nat, g: nat) {
    && t < |s.threads| && StepsLeft(s.threads[t], g) > 0 && Current(s.sh.w, g, s.sh.now)
    && (Holds(s.threads[t]) || s.sh.lock.None?)
  }

  /** What the next step of a bound thread leads to. */
  predicate Nearer(pc: Pc, e: Effect, g: nat) {
    && Current(e.sh.w, g, e.sh.now)
    && (if StepsLeft(pc, g) == 1 then !e.sh.apUp
        else StepsLeft(e.pc, g) == StepsLeft(pc, g) - 1 && (Holds(e.pc) || e.sh.lock.None?))
  }

  lemma FallingOpen(sh: Shared, t: nat, pc: Pc, g: nat)
    requires IsOpenPc(pc) && StepsLeft(pc, g) > 0 && Current(sh.w, g, sh.now) && (Holds(pc) || sh.lock.None?)
    ensures Nearer(pc, MoveOpen(sh, t, pc, GOES_WELL), g)
  {
  }

  lemma FallingMove(sh: Shared, t: nat, pc: Pc, g: nat)
    requires StepsLeft(pc, g) > 0 && Current(sh.w, g, sh.now) && (Holds(pc) || sh.lock.None?)
    ensures Nearer(pc, Move(sh, t, pc, GOES_WELL), g)
  {
    if IsOpenPc(pc) {
      FallingOpen(sh, t, pc, g);
    }
    hide MoveOpen, MoveScan, MoveJoin;
  }

  lemma FallsOn(s: State, t: nat, g: nat)
    requires Falling(s, t, g)
    ensures var s' := Next(s, Step(t, GOES_WELL));
            && t < |s'.threads| && Current(s'.sh.w, g, s'.sh.now)
            && (if StepsLeft(s.threads[t], g) == 1 then !s'.sh.apUp
                else Falling(s', t, g) && StepsLeft(s'.threads[t], g) == StepsLeft(s.threads[t], g) - 1)
  {
    FallingMove(s.sh, t, s.threads[t], g);
    hide Move, StepsLeft, Current, Holds;
  }

  lemma {:induction false} BoundLoses(s: State, t: nat, g: nat) returns (events: seq<Event>)
    requires Falling(s, t, g)
    ensures Spares(s, events, g) && !Run(s, events).sh.apUp
    decreases StepsLeft(s.threads[t], g)
  {
    var e := Step(t, GOES_WELL);
    var s' := Next(s, e);
    FallsOn(s, t, g);
    var rest := [];
    if StepsLeft(s.threads[t], g) > 1 {
      rest := BoundLoses(s', t, g);
    }
    events := [e] + rest;
    assert !s.threads[t].Idle?;
    assert events[1..] == rest;
  }

  // ------------------------------------------------------ main results

  /**
   In every reachable state, a current window whose access point is up can lose it,
   nobody joining and the window staying current, exactly when some thread is bound.
   */
  lemma LosesHotspotIff(s0: State, before: seq<Event>)
    requires Initial(s0) && Settled(Run(s0, before))
    ensures var s := Run(s0, before);
            CanLose(s) <==> exists t | 0 <= t < |s.threads| :: Bound(s.threads[t], s.sh.w.generation)
  {
    var s, g := Run(s0, before), Run(s0, before).sh.w.generation;
    RunKeepsInv(s0, before);
    hide Run, Next;
    if t :| 0 <= t < |s.threads| && Bound(s.threads[t], g) {
      var events := BoundLoses(s, t, g);
    } else {
      forall t | 0 <= t < |s.threads|
        ensures Harmless(s.threads[t], g)
      {
        assert !Holds(s.threads[t]) && !Bound(s.threads[t], g) && !IsJoinPc(s.threads[t]);
      }
      forall events | Spares(s, events, g)
        ensures Run(s, events).sh.apUp
      {
        HarmlessRun(s, events, g);
      }
    }
  }

  // ------------------------------------------------------ one request thread

  predicate Live(sh: Shared) {
    sh.w.active && sh.now < sh.w.deadline
  }

  /** Where the only request thread is, when a window is live: not between windows, and not busy with an old one. */
  predicate OnlyOpener(sh: Shared, pc: Pc) {
    match pc
    case OpenLock => !Live(sh)
    case OpenClean => !Live(sh)
    case OpenConsume => !Live(sh)
    case OpenArm(_) => !Live(sh)
    case OpenSpawn(g) => Live(sh) ==> g == sh.w.generation
    case OpenEnter(g) => Live(sh) ==> g == sh.w.generation
    case OpenCheck(g) => Live(sh) ==> g == sh.w.generation
    case OpenScan(g) => Live(sh) ==> g == sh.w.generation
    case OpenPublish(g, _) => Live(sh) ==> g == sh.w.generation
    case OpenUp(g) => Live(sh) ==> g == sh.w.generation
    case OpenRecheck(g) => Live(sh) ==> g == sh.w.generation
    case OpenUndo(g) => Live(sh) ==> g == sh.w.generation
    case OpenFail(g) => Live(sh) ==> g == sh.w.generation
    case OpenFailLock => !Live(sh)
    case OpenFailDown => !Live(sh)
    case CloseLock(_) => !Live(sh)
    case CloseDown(_) => !Live(sh)
    case Releasing(next) => OnlyOpener(sh, next)
    case _ => !IsWatchPc(pc)
  }

  predicate WatcherOnly(pc: Pc) {
    IsWatchPc(pc) || pc == Done || pc == Releasing(Done)
  }

  /** Thread 0 serves the requests, and every other thread is a watcher. */
  predicate Sole(s: State) {
    && |s.threads| > 0 && OnlyOpener(s.sh, s.threads[0])
    && forall t | 0 < t < |s.threads| :: WatcherOnly(s.threads[t])
  }

  lemma OpenerMove(sh: Shared, pc: Pc, a: Answer)
    requires OnlyOpener(sh, pc) && IsOpenPc(pc)
    ensures OnlyOpener(MoveOpen(sh, 0, pc, a).sh, MoveOpen(sh, 0, pc, a).pc)
  {
  }

  lemma OtherMove(sh: Shared, pc: Pc, a: Answer)
    requires OnlyOpener(sh, pc) && (IsScanPc(pc) || IsJoinPc(pc))
    ensures IsScanPc(pc) ==> OnlyOpener(MoveScan(sh, 0, pc, a).sh, MoveScan(sh, 0, pc, a).pc)
    ensures IsJoinPc(pc) ==> OnlyOpener(MoveJoin(sh, 0, pc, a).sh, MoveJoin(sh, 0, pc, a).pc)
  {
  }

  lemma CloserMove(sh: Shared, pc: Pc, a: Answer)
    requires OnlyOpener(sh, pc) && (IsClosePc(pc) || pc.Idle? || pc.Done?)
    ensures OnlyOpener(Move(sh, 0, pc, a).sh, Move(sh, 0, pc, a).pc)
  {
    hide MoveOpen, MoveScan, MoveWatch;
  }

  lemma RequesterMove(sh: Shared, pc: Pc, a: Answer)
    requires OnlyOpener(sh, pc)
    ensures OnlyOpener(Move(sh, 0, pc, a).sh, Move(sh, 0, pc, a).pc)
  {
    if pc.Releasing? {
      OnlyOpenerStays(sh, sh.(lock := None), pc.next);
    } else if IsOpenPc(pc) {
      OpenerMove(sh, pc, a);
    } else if IsScanPc(pc) || IsJoinPc(pc) {
      OtherMove(sh, pc, a);
    } else {
      CloserMove(sh, pc, a);
    }
    hide MoveOpen, MoveScan, MoveJoin, MoveClose, MoveWatch;
  }

  /** A watcher opens no window, and changes the generation only by closing one. */
  lemma WatcherMove(sh: Shared, t: nat, pc: Pc, a: Answer)
    requires WatcherOnly(pc)
    ensures var e := Move(sh, t, pc, a);
            && WatcherOnly(e.pc) && e.spawned.None?
            && (Live(e.sh) ==> Live(sh) && e.sh.w.generation == sh.w.generation)
  {
    hide MoveOpen, MoveScan, MoveClose;
  }

  lemma {:induction false} OnlyOpenerStays(sh: Shared, sh': Shared, pc: Pc)
    requires OnlyOpener(sh, pc) && (Live(sh') ==> Live(sh) && sh'.w.generation == sh.w.generation)
    ensures OnlyOpener(sh', pc)
    decreases pc
  {
    if pc.Releasing? {
      OnlyOpenerStays(sh, sh', pc.next);
    }
  }

  lemma SoleStep(s: State, e: Event)
    requires Sole(s)
    ensures Sole(Next(s, e))
  {
    match e
    case Tick(elapsed) =>
      OnlyOpenerStays(s.sh, Next(s, e).sh, s.threads[0]);
    case Step(t, a) =>
      if t == 0 {
        RequesterMove(s.sh, s.threads[0], a);
        hide Move, OnlyOpener;
      } else if t < |s.threads| {
        WatcherMove(s.sh, t, s.threads[t], a);
        OnlyOpenerStays(s.sh, Next(s, e).sh, s.threads[0]);
        hide Move, OnlyOpener;
      }
  }

  lemma {:induction false} SoleRun(s: State, events: seq<Event>)
    requires Sole(s)
    ensures Sole(Run(s, events))
    decreases |events|
  {
    if events != [] {
      SoleStep(s, events[0]);
      SoleRun(Next(s, events[0]), events[1..]);
    }
  }

  /** A watcher that has found its window over and has not torn down yet. */
  predicate IsLate(pc: Pc, g: nat) {
    pc.WatchLock? || (pc.WatchClose? && pc.g != g)
  }

  /**
   The broker serves its requests one after the other; then only a watcher that is late
   for an earlier window can take the access point of the current one.
   */
  lemma OnlyLateWatchersTakeIt(s0: State, before: seq<Event>)
    requires Initial(s0) && |s0.threads| == 1 && Settled(Run(s0, before))
    ensures var s := Run(s0, before);
            CanLose(s) <==> exists t | 0 < t < |s.threads| :: IsLate(s.threads[t], s.sh.w.generation)
  {
    var s, g := Run(s0, before), Run(s0, before).sh.w.generation;
    LosesHotspotIff(s0, before);
    SoleRun(s0, before);
    hide Run, CanLose;
    assert !Bound(s.threads[0], g);
    forall t | 0 < t < |s.threads|
      ensures Bound(s.threads[t], g) <==> IsLate(s.threads[t], g)
    {
      assert WatcherOnly(s.threads[t]);
    }
  }
}
