/**
 The broker as a set of threads.

 Any number of request threads run open, scan, join, close and stop, and every
 opened window starts a watcher thread.  A thread is a program counter, cut at
 every acquire and release of the network lock, at every section under the state
 lock, and at every effect on the radio, so that a run is any interleaving of
 those pieces with the passage of time.

 `apUp` is the broker's own record that the access point may be up: it is set
 before the first network mutation of `ap_up` and cleared only at the end of a
 successful `ap_down`.  `teardownFailed` records that the last `ap_down` that had
 something to tear down raised.
 */
module BrokerMachine {
  import opened Wrappers
  import opened BrokerWindow

  datatype Pc =
    | Idle
    | Done
    // open_window
    | OpenLock
    | OpenClean
    | OpenConsume
    | OpenArm(until: real)
    | OpenSpawn(g: nat)
    | OpenEnter(g: nat)
    | OpenCheck(g: nat)
    | OpenScan(g: nat)
    | OpenPublish(g: nat, found: seq<Network>)
    | OpenUp(g: nat)
    | OpenRecheck(g: nat)
    | OpenUndo(g: nat)
    | OpenFail(g: nat)
    | OpenFailLock
    | OpenFailDown
    // scan
    | ScanEnter(g: nat)
    | ScanCheck(g: nat)
    | ScanRun(g: nat)
    | ScanPublish(g: nat, found: seq<Network>)
    // join
    | JoinEnter(g: nat)
    | JoinCheck(g: nat)
    | JoinTry(g: nat)
    | JoinRaised(g: nat)
    | JoinSucceeded(g: nat)
    | JoinFailed(g: nat)
    | RestoreDown
    | RestoreUp
    // close and stop; `last` when the thread ends afterwards
    | StopSet
    | CloseMark(last: bool)
    | CloseLock(last: bool)
    | CloseDown(last: bool)
    // the deadline watcher of window g
    | WatchLoop(g: nat)
    | WatchCheck(g: nat)
    | WatchSleep(g: nat, until: real)
    | WatchClose(g: nat)
    | WatchLock
    | WatchDown
    // leaving a `with network_lock` block
    | Releasing(next: Pc)

  datatype Request = Open | Scan | Join | Close | Stop

  /** How the world answers one step: which request arrives, whether and how a call fails, what it returns. */
  datatype Answer = Answer(
    request: Request,
    raises: bool,
    late: bool,
    downRaises: bool,
    joined: bool,
    networks: seq<Network>,
    ssid: string,
    psk: string)

  datatype Event = Tick(elapsed: real) | Step(thread: nat, answer: Answer)

  /** Everything the threads share. */
  datatype Shared = Shared(
    now: real,
    w: Window,
    stop: bool,
    apUp: bool,
    teardownFailed: bool,
    lock: Option<nat>)

  datatype State = State(sh: Shared, threads: seq<Pc>)

  /** What one piece of a thread does: the shared state and its own counter after it, and the watcher it starts. */
  datatype Effect = Effect(sh: Shared, pc: Pc, spawned: Option<nat>)

  predicate Initial(s: State) {
    && s.sh.w == INITIAL
    && !s.sh.stop && !s.sh.apUp && !s.sh.teardownFailed && s.sh.lock.None?
    && forall t | 0 <= t < |s.threads| :: s.threads[t].Idle?
  }

  function To(sh: Shared, pc: Pc): Effect {
    Effect(sh, pc, None)
  }

  /** Blocks (nothing changes) while another thread holds the network lock. */
  function Acquire(sh: Shared, t: nat, pc: Pc, next: Pc): Effect {
    if sh.lock.None? then To(sh.(lock := Some(t)), next) else To(sh, pc)
  }

  /** `ap_down`: nothing to do when the access point cannot be up. */
  function ApDown(sh: Shared, raises: bool): Shared {
    if !sh.apUp then sh
    else if raises then sh.(teardownFailed := true)
    else sh.(apUp := false, teardownFailed := false)
  }

  predicate ApDownRaises(sh: Shared, raises: bool) {
    sh.apUp && raises
  }

  /** `ap_up`: it can raise before it marks the access point as possibly up, or after. */
  function ApUp(sh: Shared, a: Answer): Shared {
    if a.raises && !a.late then sh else sh.(apUp := true)
  }

  function StartRequest(sh: Shared, request: Request): Effect {
    var live := sh.w.active && sh.now < sh.w.deadline;
    match request
    case Open => To(sh, if live then Idle else OpenLock)
    case Scan => To(sh, if live then ScanEnter(sh.w.generation) else Idle)
    case Join => To(sh, if live then JoinEnter(sh.w.generation) else Idle)
    case Close => To(sh, CloseMark(false))
    case Stop => To(sh, StopSet)
  }

  function MoveOpen(sh: Shared, t: nat, pc: Pc, a: Answer): Effect {
    match pc
    case OpenLock => Acquire(sh, t, pc, OpenClean)
    case OpenClean =>
      To(ApDown(sh, a.downRaises), Releasing(if ApDownRaises(sh, a.downRaises) then Idle else OpenConsume))
    case OpenConsume => To(sh, if a.raises then Idle else OpenArm(sh.now + PORTAL_LIFETIME_S))
    case OpenArm(until) =>
      if a.raises then To(sh, Idle)
      else To(sh.(w := Opened(sh.w, until, a.ssid, a.psk)), OpenSpawn(sh.w.generation + 1))
    case OpenSpawn(g) => Effect(sh, OpenEnter(g), Some(g))
    case OpenEnter(g) => Acquire(sh, t, pc, OpenCheck(g))
    case OpenCheck(g) => To(sh, if Current(sh.w, g, sh.now) then OpenScan(g) else Releasing(OpenFail(g)))
    case OpenScan(g) => To(sh, if a.raises then Releasing(OpenFail(g)) else OpenPublish(g, a.networks))
    case OpenPublish(g, found) => To(sh.(w := Published(sh.w, g, found)), OpenUp(g))
    case OpenUp(g) => To(ApUp(sh, a), if a.raises then Releasing(OpenFail(g)) else OpenRecheck(g))
    case OpenRecheck(g) => To(sh, if Current(sh.w, g, sh.now) then Releasing(Idle) else OpenUndo(g))
    case OpenUndo(g) => To(ApDown(sh, a.downRaises), Releasing(OpenFail(g)))
    case OpenFail(g) => To(sh.(w := Closed(sh.w, Some(g))), OpenFailLock)
    case OpenFailLock => Acquire(sh, t, pc, OpenFailDown)
    case OpenFailDown => To(ApDown(sh, a.downRaises), Releasing(Idle))
    case _ => To(sh, pc)
  }

  function MoveScan(sh: Shared, t: nat, pc: Pc, a: Answer): Effect {
    match pc
    case ScanEnter(g) => Acquire(sh, t, pc, ScanCheck(g))
    case ScanCheck(g) => To(sh, if Current(sh.w, g, sh.now) then ScanRun(g) else Releasing(Idle))
    case ScanRun(g) => To(sh, if a.raises then Releasing(Idle) else ScanPublish(g, a.networks))
    case ScanPublish(g, found) => To(sh.(w := Published(sh.w, g, found)), Releasing(Idle))
    case _ => To(sh, pc)
  }

  /** `try_join` raises before its own teardown, in it, or after it; otherwise the teardown has succeeded. */
  function MoveJoin(sh: Shared, t: nat, pc: Pc, a: Answer): Effect {
    match pc
    case JoinEnter(g) => Acquire(sh, t, pc, JoinCheck(g))
    case JoinCheck(g) => To(sh, if Current(sh.w, g, sh.now) then JoinTry(g) else Releasing(Idle))
    case JoinTry(g) =>
      if a.raises && !a.late then To(sh, JoinRaised(g))
      else
        To(ApDown(sh, a.downRaises),
           if ApDownRaises(sh, a.downRaises) || a.raises then JoinRaised(g)
           else if a.joined then JoinSucceeded(g)
           else JoinFailed(g))
    case JoinRaised(g) => To(sh, if Current(sh.w, g, sh.now) then RestoreDown else Releasing(Idle))
    case JoinSucceeded(g) => To(sh.(w := Closed(sh.w, Some(g))), Releasing(Idle))
    case JoinFailed(g) => To(sh, if Current(sh.w, g, sh.now) then RestoreDown else Releasing(Idle))
    case RestoreDown =>
      To(ApDown(sh, a.downRaises), if ApDownRaises(sh, a.downRaises) then Releasing(Idle) else RestoreUp)
    case RestoreUp => To(ApUp(sh, a), Releasing(Idle))
    case _ => To(sh, pc)
  }

  function MoveClose(sh: Shared, t: nat, pc: Pc, a: Answer): Effect {
    match pc
    case StopSet => To(sh.(stop := true), CloseMark(true))
    case CloseMark(last) => To(sh.(w := Closed(sh.w, None)), CloseLock(last))
    case CloseLock(last) => Acquire(sh, t, pc, CloseDown(last))
    case CloseDown(last) => To(ApDown(sh, a.downRaises), Releasing(if last then Done else Idle))
    case _ => To(sh, pc)
  }

  /** A sleeping watcher ends when the stop flag is set; otherwise it wakes in time, late, or spuriously. */
  function MoveWatch(sh: Shared, t: nat, pc: Pc, a: Answer): Effect {
    match pc
    case WatchLoop(g) => To(sh, if sh.stop then Done else WatchCheck(g))
    case WatchCheck(g) =>
      To(sh,
         if !sh.w.active || sh.w.generation != g then Done
         else if sh.now < sh.w.deadline then WatchSleep(g, sh.w.deadline)
         else WatchClose(g))
    case WatchSleep(g, _) => To(sh, if sh.stop then Done else WatchLoop(g))
    case WatchClose(g) => To(sh.(w := Closed(sh.w, Some(g))), WatchLock)
    case WatchLock => Acquire(sh, t, pc, WatchDown)
    case WatchDown => To(ApDown(sh, a.downRaises), Releasing(Done))
    case _ => To(sh, pc)
  }

  predicate IsOpenPc(pc: Pc) {
    || pc.OpenLock? || pc.OpenClean? || pc.OpenConsume? || pc.OpenArm? || pc.OpenSpawn? || pc.OpenEnter?
    || pc.OpenCheck? || pc.OpenScan? || pc.OpenPublish? || pc.OpenUp? || pc.OpenRecheck? || pc.OpenUndo?
    || pc.OpenFail? || pc.OpenFailLock? || pc.OpenFailDown?
  }

  predicate IsScanPc(pc: Pc) {
    pc.ScanEnter? || pc.ScanCheck? || pc.ScanRun? || pc.ScanPublish?
  }

  predicate IsJoinPc(pc: Pc) {
    || pc.JoinEnter? || pc.JoinCheck? || pc.JoinTry? || pc.JoinRaised? || pc.JoinSucceeded? || pc.JoinFailed?
    || pc.RestoreDown? || pc.RestoreUp?
  }

  predicate IsClosePc(pc: Pc) {
    pc.StopSet? || pc.CloseMark? || pc.CloseLock? || pc.CloseDown?
  }

  predicate IsWatchPc(pc: Pc) {
    pc.WatchLoop? || pc.WatchCheck? || pc.WatchSleep? || pc.WatchClose? || pc.WatchLock? || pc.WatchDown?
  }

  function Move(sh: Shared, t: nat, pc: Pc, a: Answer): Effect {
    if pc.Idle? then StartRequest(sh, a.request)
    else if pc.Releasing? then To(sh.(lock := None), pc.next)
    else if IsOpenPc(pc) then MoveOpen(sh, t, pc, a)
    else if IsScanPc(pc) then MoveScan(sh, t, pc, a)
    else if IsClosePc(pc) then MoveClose(sh, t, pc, a)
    else if IsWatchPc(pc) then MoveWatch(sh, t, pc, a)
    else MoveJoin(sh, t, pc, a)
  }

  function Applied(s: State, t: nat, e: Effect): State
    requires t < |s.threads|
  {
    State(e.sh, s.threads[t := e.pc] + (if e.spawned.Some? then [WatchLoop(e.spawned.value)] else []))
  }

  function Next(s: State, e: Event): State {
    match e
    case Tick(elapsed) => if elapsed < 0.0 then s else s.(sh := s.sh.(now := s.sh.now + elapsed))
    case Step(t, a) => if t < |s.threads| then Applied(s, t, Move(s.sh, t, s.threads[t], a)) else s
  }

  function Run(s: State, events: seq<Event>): State
    decreases |events|
  {
    if events == [] then s else Run(Next(s, events[0]), events[1..])
  }

  // ------------------------------------------------ what a program counter means

  /** The thread is inside a `with network_lock` block. */
  predicate Holds(pc: Pc) {
    || pc.OpenClean? || pc.OpenCheck? || pc.OpenScan? || pc.OpenPublish? || pc.OpenUp? || pc.OpenRecheck?
    || pc.OpenUndo? || pc.OpenFailDown? || pc.ScanCheck? || pc.ScanRun? || pc.ScanPublish? || pc.JoinCheck?
    || pc.JoinTry? || pc.JoinRaised? || pc.JoinSucceeded? || pc.JoinFailed? || pc.RestoreDown?
    || pc.RestoreUp? || pc.CloseDown? || pc.WatchDown? || pc.Releasing?
  }

  /** The thread has closed a window and its teardown is still to come. */
  predicate Owes(pc: Pc) {
    pc.OpenFailLock? || pc.OpenFailDown? || pc.CloseLock? || pc.CloseDown? || pc.WatchLock? || pc.WatchDown?
  }

  /** The thread has seen the window current under the network lock and may still raise the access point. */
  predicate Armed(pc: Pc) {
    pc.OpenScan? || pc.OpenPublish? || pc.OpenUp? || pc.RestoreDown? || pc.RestoreUp?
  }

  /** The thread is bound to end window `g` at its deadline. */
  predicate Watches(pc: Pc, g: nat) {
    && (pc.OpenSpawn? || pc.WatchLoop? || pc.WatchCheck? || pc.WatchSleep? || pc.WatchClose?)
    && pc.g == g
  }

  /** After the lock is released a thread starts over, goes on opening, or ends. */
  predicate PlainNext(pc: Pc) {
    pc.Releasing? ==> pc.next.Idle? || pc.next.Done? || pc.next.OpenConsume? || pc.next.OpenFail?
  }

  predicate SomeoneOwes(s: State) {
    exists t | 0 <= t < |s.threads| :: Owes(s.threads[t])
  }

  predicate SomeoneWatches(s: State) {
    exists t | 0 <= t < |s.threads| :: Watches(s.threads[t], s.sh.w.generation)
  }

  // ---------------------------------------------------------------- invariants

  predicate LockInv(s: State) {
    && (s.sh.lock.Some? ==> s.sh.lock.value < |s.threads|)
    && (forall t | 0 <= t < |s.threads| :: Holds(s.threads[t]) <==> s.sh.lock == Some(t))
    && (forall t | 0 <= t < |s.threads| :: PlainNext(s.threads[t]))
  }

  predicate HotspotInv(s: State) {
    && (s.sh.apUp ==> s.sh.w.active || s.sh.teardownFailed || SomeoneOwes(s))
    && (forall t | 0 <= t < |s.threads| && Armed(s.threads[t]) :: s.sh.w.active || SomeoneOwes(s))
    && (forall t | 0 <= t < |s.threads| :: s.threads[t].JoinSucceeded? ==> !s.sh.apUp)
  }

  /** What a program counter promises about the shared clock and window. */
  predicate TimedPc(sh: Shared, pc: Pc) {
    && (pc.WatchSleep? ==> pc.g <= sh.w.generation)
    && (pc.WatchSleep? && sh.w.active && pc.g == sh.w.generation ==> pc.until == sh.w.deadline)
    && (pc.OpenArm? ==> pc.until <= sh.now + PORTAL_LIFETIME_S)
  }

  predicate WatchInv(s: State) {
    && (s.sh.w.active ==> s.sh.stop || SomeoneWatches(s))
    && (s.sh.w.active ==> s.sh.w.deadline <= s.sh.now + PORTAL_LIFETIME_S)
    && Scrubbed(s.sh.w)
    && (forall t | 0 <= t < |s.threads| :: TimedPc(s.sh, s.threads[t]))
  }

  predicate Inv(s: State) {
    LockInv(s) && HotspotInv(s) && WatchInv(s)
  }

  // ------------------------------------------------ one piece of one thread

  predicate LockLocal(t: nat, before: Shared, pc: Pc, e: Effect) {
    && (Holds(e.pc) <==> e.sh.lock == Some(t))
    && PlainNext(e.pc)
    && (e.sh.lock == before.lock || (before.lock.None? && e.sh.lock == Some(t)) || (Holds(pc) && e.sh.lock.None?))
  }

  predicate HotspotLocal(before: Shared, pc: Pc, e: Effect) {
    && (before.w.active && !e.sh.w.active ==> Owes(e.pc) || (Holds(pc) && !e.sh.apUp && !Armed(e.pc)))
    && (!before.apUp && e.sh.apUp ==> Armed(pc))
    && (Armed(e.pc) && !Armed(pc) ==> e.sh.w.active)
    && (Owes(pc) && !Owes(e.pc) ==> Holds(pc) && !Armed(e.pc) && (e.sh.apUp ==> e.sh.teardownFailed))
    && (before.teardownFailed && !e.sh.teardownFailed ==> !e.sh.apUp)
    && (e.pc.JoinSucceeded? ==> !e.sh.apUp)
  }

  predicate WatchLocal(before: Shared, pc: Pc, e: Effect) {
    && e.sh.now == before.now
    && (before.stop ==> e.sh.stop)
    && Scrubbed(e.sh.w)
    && WindowStep(before.w, e.sh.w)
    && TimedPc(e.sh, e.pc)
    && (e.sh.w.active ==> e.sh.w.deadline <= e.sh.now + PORTAL_LIFETIME_S)
    && (e.sh.w.active && e.sh.w.generation != before.w.generation ==> Watches(e.pc, e.sh.w.generation))
    && (forall g :: Watches(pc, g) && e.sh.w.active && e.sh.w.generation == g && !e.sh.stop ==>
                      Watches(e.pc, g) || e.spawned == Some(g))
  }

  /** The generation never falls, and while it stays the window is neither reopened nor given new terms. */
  predicate WindowGrows(before: Window, after: Window) {
    && before.generation <= after.generation
    && (after.generation == before.generation ==>
          && after.active == before.active && after.deadline == before.deadline
          && after.ssid == before.ssid && after.psk == before.psk)
  }

  /** One step opens or closes at most one window, and every open or close takes a fresh generation. */
  predicate WindowStep(before: Window, after: Window) {
    WindowGrows(before, after) && after.generation <= before.generation + 1
  }

  lemma LockMoveOpen(sh: Shared, t: nat, pc: Pc, a: Answer)
    requires IsOpenPc(pc)
    requires (Holds(pc) <==> sh.lock == Some(t)) && PlainNext(pc)
    ensures LockLocal(t, sh, pc, MoveOpen(sh, t, pc, a))
  {}

  lemma LockMoveScan(sh: Shared, t: nat, pc: Pc, a: Answer)
    requires IsScanPc(pc)
    requires (Holds(pc) <==> sh.lock == Some(t)) && PlainNext(pc)
    ensures LockLocal(t, sh, pc, MoveScan(sh, t, pc, a))
  {}

  lemma LockMoveJoin(sh: Shared, t: nat, pc: Pc, a: Answer)
    requires IsJoinPc(pc)
    requires (Holds(pc) <==> sh.lock == Some(t)) && PlainNext(pc)
    ensures LockLocal(t, sh, pc, MoveJoin(sh, t, pc, a))
  {}

  lemma LockMoveClose(sh: Shared, t: nat, pc: Pc, a: Answer)
    requires IsClosePc(pc)
    requires (Holds(pc) <==> sh.lock == Some(t)) && PlainNext(pc)
    ensures LockLocal(t, sh, pc, MoveClose(sh, t, pc, a))
  {}

  lemma LockMoveWatch(sh: Shared, t: nat, pc: Pc, a: Answer)
    requires IsWatchPc(pc)
    requires (Holds(pc) <==> sh.lock == Some(t)) && PlainNext(pc)
    ensures LockLocal(t, sh, pc, MoveWatch(sh, t, pc, a))
  {}

  lemma HotspotMoveOpen(sh: Shared, t: nat, pc: Pc, a: Answer)
    requires IsOpenPc(pc)
    requires (Holds(pc) <==> sh.lock == Some(t)) && (pc.JoinSucceeded? ==> !sh.apUp)
    ensures HotspotLocal(sh, pc, MoveOpen(sh, t, pc, a))
  {}

  lemma HotspotMoveScan(sh: Shared, t: nat, pc: Pc, a: Answer)
    requires IsScanPc(pc)
    requires (Holds(pc) <==> sh.lock == Some(t)) && (pc.JoinSucceeded? ==> !sh.apUp)
    ensures HotspotLocal(sh, pc, MoveScan(sh, t, pc, a))
  {}

  lemma HotspotMoveJoin(sh: Shared, t: nat, pc: Pc, a: Answer)
    requires IsJoinPc(pc)
    requires (Holds(pc) <==> sh.lock == Some(t)) && (pc.JoinSucceeded? ==> !sh.apUp)
    ensures HotspotLocal(sh, pc, MoveJoin(sh, t, pc, a))
  {}

  lemma HotspotMoveClose(sh: Shared, t: nat, pc: Pc, a: Answer)
    requires IsClosePc(pc)
    requires (Holds(pc) <==> sh.lock == Some(t)) && (pc.JoinSucceeded? ==> !sh.apUp)
    ensures HotspotLocal(sh, pc, MoveClose(sh, t, pc, a))
  {}

  lemma HotspotMoveWatch(sh: Shared, t: nat, pc: Pc, a: Answer)
    requires IsWatchPc(pc)
    requires (Holds(pc) <==> sh.lock == Some(t)) && (pc.JoinSucceeded? ==> !sh.apUp)
    ensures HotspotLocal(sh, pc, MoveWatch(sh, t, pc, a))
  {}

  lemma WatchMoveOpen(sh: Shared, t: nat, pc: Pc, a: Answer)
    requires IsOpenPc(pc)
    requires TimedPc(sh, pc) && Scrubbed(sh.w)
    requires sh.w.active ==> sh.w.deadline <= sh.now + PORTAL_LIFETIME_S
    ensures WatchLocal(sh, pc, MoveOpen(sh, t, pc, a))
  {}

  lemma WatchMoveScan(sh: Shared, t: nat, pc: Pc, a: Answer)
    requires IsScanPc(pc)
    requires TimedPc(sh, pc) && Scrubbed(sh.w)
    requires sh.w.active ==> sh.w.deadline <= sh.now + PORTAL_LIFETIME_S
    ensures WatchLocal(sh, pc, MoveScan(sh, t, pc, a))
  {}

  lemma WatchMoveJoin(sh: Shared, t: nat, pc: Pc, a: Answer)
    requires IsJoinPc(pc)
    requires TimedPc(sh, pc) && Scrubbed(sh.w)
    requires sh.w.active ==> sh.w.deadline <= sh.now + PORTAL_LIFETIME_S
    ensures WatchLocal(sh, pc, MoveJoin(sh, t, pc, a))
  {}

  lemma WatchMoveClose(sh: Shared, t: nat, pc: Pc, a: Answer)
    requires IsClosePc(pc)
    requires TimedPc(sh, pc) && Scrubbed(sh.w)
    requires sh.w.active ==> sh.w.deadline <= sh.now + PORTAL_LIFETIME_S
    ensures WatchLocal(sh, pc, MoveClose(sh, t, pc, a))
  {}

  lemma WatchMoveWatch(sh: Shared, t: nat, pc: Pc, a: Answer)
    requires IsWatchPc(pc)
    requires TimedPc(sh, pc) && Scrubbed(sh.w)
    requires sh.w.active ==> sh.w.deadline <= sh.now + PORTAL_LIFETIME_S
    ensures WatchLocal(sh, pc, MoveWatch(sh, t, pc, a))
  {}

  lemma LockMove(sh: Shared, t: nat, pc: Pc, a: Answer)
    requires (Holds(pc) <==> sh.lock == Some(t)) && PlainNext(pc)
    ensures LockLocal(t, sh, pc, Move(sh, t, pc, a))
  {
    if IsOpenPc(pc) {
      LockMoveOpen(sh, t, pc, a);
    } else if IsScanPc(pc) {
      LockMoveScan(sh, t, pc, a);
    } else if IsJoinPc(pc) {
      LockMoveJoin(sh, t, pc, a);
    } else if IsClosePc(pc) {
      LockMoveClose(sh, t, pc, a);
    } else if IsWatchPc(pc) {
      LockMoveWatch(sh, t, pc, a);
    }
  }

  lemma HotspotMove(sh: Shared, t: nat, pc: Pc, a: Answer)
    requires (Holds(pc) <==> sh.lock == Some(t)) && PlainNext(pc) && (pc.JoinSucceeded? ==> !sh.apUp)
    ensures HotspotLocal(sh, pc, Move(sh, t, pc, a))
  {
    if IsOpenPc(pc) {
      HotspotMoveOpen(sh, t, pc, a);
    } else if IsScanPc(pc) {
      HotspotMoveScan(sh, t, pc, a);
    } else if IsJoinPc(pc) {
      HotspotMoveJoin(sh, t, pc, a);
    } else if IsClosePc(pc) {
      HotspotMoveClose(sh, t, pc, a);
    } else if IsWatchPc(pc) {
      HotspotMoveWatch(sh, t, pc, a);
    }
  }

  lemma WatchMove(sh: Shared, t: nat, pc: Pc, a: Answer)
    requires PlainNext(pc) && TimedPc(sh, pc) && Scrubbed(sh.w)
    requires sh.w.active ==> sh.w.deadline <= sh.now + PORTAL_LIFETIME_S
    ensures WatchLocal(sh, pc, Move(sh, t, pc, a))
  {
    if IsOpenPc(pc) {
      WatchMoveOpen(sh, t, pc, a);
    } else if IsScanPc(pc) {
      WatchMoveScan(sh, t, pc, a);
    } else if IsJoinPc(pc) {
      WatchMoveJoin(sh, t, pc, a);
    } else if IsClosePc(pc) {
      WatchMoveClose(sh, t, pc, a);
    } else if IsWatchPc(pc) {
      WatchMoveWatch(sh, t, pc, a);
    }
  }

  // ------------------------------------------------ all threads together

  lemma LockStep(s: State, t: nat, e: Effect)
    requires t < |s.threads| && LockInv(s)
    requires LockLocal(t, s.sh, s.threads[t], e)
    ensures LockInv(Applied(s, t, e))
  {}

  /** A teardown that was owed still is, unless this very step carried it out. */
  lemma StillOwed(s: State, t: nat, e: Effect)
    requires t < |s.threads| && SomeoneOwes(s)
    requires Owes(s.threads[t]) ==> Owes(e.pc)
    ensures SomeoneOwes(Applied(s, t, e))
  {
    var u :| 0 <= u < |s.threads| && Owes(s.threads[u]);
    assert Owes(Applied(s, t, e).threads[u]);
  }

  lemma NowOwed(s: State, t: nat, e: Effect)
    requires t < |s.threads| && Owes(e.pc)
    ensures SomeoneOwes(Applied(s, t, e))
  {
    assert Owes(Applied(s, t, e).threads[t]);
  }

  lemma HotspotStep(s: State, t: nat, e: Effect)
    requires t < |s.threads| && LockInv(s) && HotspotInv(s)
    requires LockLocal(t, s.sh, s.threads[t], e) && HotspotLocal(s.sh, s.threads[t], e)
    ensures HotspotInv(Applied(s, t, e))
  {
    if Owes(e.pc) {
      NowOwed(s, t, e);
    } else if SomeoneOwes(s) && !Owes(s.threads[t]) {
      StillOwed(s, t, e);
    }
  }

  /** The open window is still watched, by the thread that watched it or by the watcher just started. */
  lemma StillWatched(s: State, t: nat, e: Effect)
    requires t < |s.threads| && WatchInv(s)
    requires WatchLocal(s.sh, s.threads[t], e)
    requires e.sh.w.active && !e.sh.stop
    ensures SomeoneWatches(Applied(s, t, e))
  {
    var s', g := Applied(s, t, e), e.sh.w.generation;
    if g == s.sh.w.generation {
      var u :| 0 <= u < |s.threads| && Watches(s.threads[u], g);
      if u != t {
        assert Watches(s'.threads[u], g);
      } else if Watches(e.pc, g) {
        assert Watches(s'.threads[t], g);
      } else {
        assert Watches(s'.threads[|s.threads|], g);
      }
    } else {
      assert Watches(s'.threads[t], g);
    }
  }

  lemma WatchStep(s: State, t: nat, e: Effect)
    requires t < |s.threads| && WatchInv(s)
    requires WatchLocal(s.sh, s.threads[t], e)
    ensures WatchInv(Applied(s, t, e))
  {
    if e.sh.w.active && !e.sh.stop {
      StillWatched(s, t, e);
    }
  }

  lemma NextKeepsInv(s: State, e: Event)
    requires Inv(s)
    ensures Inv(Next(s, e))
    ensures s.sh.now <= Next(s, e).sh.now
    ensures WindowStep(s.sh.w, Next(s, e).sh.w)
  {
    match e
    case Tick(elapsed) =>
      var s' := Next(s, e);
      assert s'.threads == s.threads;
      if SomeoneOwes(s) {
        var u :| 0 <= u < |s.threads| && Owes(s.threads[u]);
        assert Owes(s'.threads[u]);
      }
      if SomeoneWatches(s) {
        var u :| 0 <= u < |s.threads| && Watches(s.threads[u], s.sh.w.generation);
        assert Watches(s'.threads[u], s'.sh.w.generation);
      }
    case Step(t, a) =>
      if t < |s.threads| {
        var effect := Move(s.sh, t, s.threads[t], a);
        LockMove(s.sh, t, s.threads[t], a);
        HotspotMove(s.sh, t, s.threads[t], a);
        WatchMove(s.sh, t, s.threads[t], a);
        LockStep(s, t, effect);
        HotspotStep(s, t, effect);
        WatchStep(s, t, effect);
      }
  }

  /** Every reachable state satisfies the invariant, and time and the window generation only grow. */
  lemma {:induction false} RunKeepsInv(s: State, events: seq<Event>)
    requires Inv(s)
    ensures Inv(Run(s, events))
    ensures s.sh.now <= Run(s, events).sh.now
    ensures WindowGrows(s.sh.w, Run(s, events).sh.w)
    decreases |events|
  {
    if events != [] {
      NextKeepsInv(s, events[0]);
      RunKeepsInv(Next(s, events[0]), events[1..]);
    }
  }

  // ---------------------------------------------------------------- main results

  /**
   The hotspot never outlives its window: in every reachable state in which the
   network lock is free and the access point may be up, the window is open, or a
   thread that has already closed it still has its teardown to run, or the last
   teardown raised.
   */
  lemma HotspotNeverOutlivesWindow(s0: State, events: seq<Event>)
    requires Initial(s0)
    ensures var s := Run(s0, events);
            s.sh.lock.None? && s.sh.apUp ==>
              || s.sh.w.active
              || s.sh.teardownFailed
              || exists t :: 0 <= t < |s.threads|
                             && (s.threads[t].OpenFailLock? || s.threads[t].CloseLock? || s.threads[t].WatchLock?)
  {
    RunKeepsInv(s0, events);
    var s := Run(s0, events);
    if s.sh.lock.None? && s.sh.apUp && !s.sh.w.active && !s.sh.teardownFailed {
      var t :| 0 <= t < |s.threads| && Owes(s.threads[t]);
      assert !Holds(s.threads[t]);
    }
  }

  /** Nothing is left to run but the passage of time: no thread is between two pieces of a request. */
  predicate AtRest(s: State) {
    forall t | 0 <= t < |s.threads| ::
      s.threads[t].Idle? || s.threads[t].Done? || (s.threads[t].WatchSleep? && s.sh.now < s.threads[t].until)
  }

  /**
   Once every thread has come to rest and no teardown has failed, the access point
   is up only inside an open window whose deadline is still ahead, and at most
   900 seconds ahead.  (After `stop` watchers end early, and the request thread ends
   with its own teardown.)
   */
  lemma AtRestHotspotIsTimely(s0: State, events: seq<Event>)
    requires Initial(s0)
    requires AtRest(Run(s0, events))
    requires !Run(s0, events).sh.stop && !Run(s0, events).sh.teardownFailed
    ensures var s := Run(s0, events);
            s.sh.apUp ==> s.sh.w.active && s.sh.now < s.sh.w.deadline <= s.sh.now + PORTAL_LIFETIME_S
  {
    RunKeepsInv(s0, events);
    var s := Run(s0, events);
    if s.sh.apUp {
      assert !SomeoneOwes(s);
      var t :| 0 <= t < |s.threads| && Watches(s.threads[t], s.sh.w.generation);
      assert s.threads[t].until == s.sh.w.deadline;
    }
  }

  /**
   No window is revived: once an issued generation is no longer current, it is not
   current in any later state, whatever runs in between; and as long as it is, its
   deadline is the one it was opened with.
   */
  lemma WindowNeverRevived(s0: State, before: seq<Event>, after: seq<Event>, g: nat)
    requires Initial(s0)
    ensures var s := Run(s0, before);
            var s' := Run(s, after);
            && (g <= s.sh.w.generation && !Current(s.sh.w, g, s.sh.now) ==> !Current(s'.sh.w, g, s'.sh.now))
            && (s.sh.w.active && s.sh.w.generation == g && Current(s'.sh.w, g, s'.sh.now) ==>
                  s'.sh.w.deadline == s.sh.w.deadline)
  {
    RunKeepsInv(s0, before);
    RunKeepsInv(Run(s0, before), after);
  }

  /** No reachable state keeps hotspot credentials or a scan result without an open window. */
  lemma ClosedWindowKeepsNoSecrets(s0: State, events: seq<Event>)
    requires Initial(s0)
    ensures Scrubbed(Run(s0, events).sh.w)
  {
    RunKeepsInv(s0, events);
  }
}
