/**
 What the broker's requests may do: touch the radio only for a current window, open one
 only by using a permission, and keep it only for its term.
 */
module BrokerLimits {
  import opened Wrappers
  import opened BrokerWindow
  import opened BrokerMachine
  import opened BrokerService

  // ------------------------------------------------------ what a request is let near

  /** The thread is about to scan, to join, or to put the access point back, for window `g`. */
  predicate Begins(pc: Pc, pc': Pc, g: nat) {
    || pc' == OpenScan(g) || pc' == ScanRun(g) || pc' == JoinTry(g)
    || (pc' == RestoreDown && (pc == JoinRaised(g) || pc == JoinFailed(g)))
  }

  /** The radio is touched only for a window that is open, unexpired and the request's own, under the network lock. */
  lemma ServedWhileCurrent(s0: State, before: seq<Event>, t: nat, a: Answer, g: nat)
    requires Initial(s0) && t < |Run(s0, before).threads|
    requires Begins(Run(s0, before).threads[t], Next(Run(s0, before), Step(t, a)).threads[t], g)
    ensures var s := Run(s0, before);
            && s.sh.lock == Some(t)
            && s.sh.w.active && s.sh.w.generation == g && s.sh.now < s.sh.w.deadline
  {
    var s := Run(s0, before);
    RunKeepsInv(s0, before);
    BeginsWhileCurrent(s.sh, t, s.threads[t], a, g);
    hide Run, Begins;
    assert LockInv(s);
  }

  lemma OpenBegins(sh: Shared, t: nat, pc: Pc, a: Answer, g: nat)
    requires IsOpenPc(pc) && Begins(pc, MoveOpen(sh, t, pc, a).pc, g)
    ensures Current(sh.w, g, sh.now) && Holds(pc)
  {
  }

  lemma JoinBegins(sh: Shared, t: nat, pc: Pc, a: Answer, g: nat)
    requires IsJoinPc(pc) && Begins(pc, MoveJoin(sh, t, pc, a).pc, g)
    ensures Current(sh.w, g, sh.now) && Holds(pc)
  {
  }

  lemma ScanBegins(sh: Shared, t: nat, pc: Pc, a: Answer, g: nat)
    requires IsScanPc(pc) && Begins(pc, MoveScan(sh, t, pc, a).pc, g)
    ensures Current(sh.w, g, sh.now) && Holds(pc)
  {
  }

  lemma OthersBeginNothing(sh: Shared, t: nat, pc: Pc, a: Answer, g: nat)
    requires PlainNext(pc) && !IsOpenPc(pc) && !IsJoinPc(pc) && !IsScanPc(pc)
    ensures !Begins(pc, Move(sh, t, pc, a).pc, g)
  {
    hide MoveOpen, MoveScan;
  }

  lemma BeginsWhileCurrent(sh: Shared, t: nat, pc: Pc, a: Answer, g: nat)
    requires Begins(pc, Move(sh, t, pc, a).pc, g) && PlainNext(pc)
    ensures Current(sh.w, g, sh.now) && Holds(pc)
  {
    if IsOpenPc(pc) {
      MoveOfOpen(sh, t, pc, a);
      OpenBegins(sh, t, pc, a, g);
    } else if IsJoinPc(pc) {
      MoveOfJoin(sh, t, pc, a);
      JoinBegins(sh, t, pc, a, g);
    } else if IsScanPc(pc) {
      MoveOfScan(sh, t, pc, a);
      ScanBegins(sh, t, pc, a, g);
    } else {
      OthersBeginNothing(sh, t, pc, a, g);
    }
    hide *;
  }

  lemma MoveOfScan(sh: Shared, t: nat, pc: Pc, a: Answer)
    requires IsScanPc(pc)
    ensures Move(sh, t, pc, a) == MoveScan(sh, t, pc, a)
  {
    hide StartRequest, MoveOpen, MoveJoin, MoveScan, MoveClose, MoveWatch;
  }

  predicate WithoutStepsOf(t: nat, events: seq<Event>) {
    forall e | e in events :: e.Step? ==> e.thread != t
  }

  lemma {:induction false} ThreadWaits(s: State, t: nat, events: seq<Event>)
    requires Inv(s) && t < |s.threads| && WithoutStepsOf(t, events)
    ensures t < |Run(s, events).threads| && Run(s, events).threads[t] == s.threads[t]
    decreases |events|
  {
    if events != [] {
      assert events[0] in events && forall e | e in events[1..] :: e in events;
      OthersStandStill(s, events[0], t);
      NextKeepsInv(s, events[0]);
      hide Next, Inv;
      ThreadWaits(Next(s, events[0]), t, events[1..]);
    }
  }

  /**
   A window lasts 900 seconds from the moment its permission was used, however long the
   thread is held up in between; it is a new one, with the identity's credentials and no
   networks yet, and its watcher comes next.
   */
  lemma WindowLastsItsTerm(s0: State, before: seq<Event>, t: nat, a: Answer, meanwhile: seq<Event>, b: Answer)
    requires Initial(s0) && t < |Run(s0, before).threads| && Run(s0, before).threads[t].OpenConsume? && !a.raises
    requires WithoutStepsOf(t, meanwhile) && !b.raises
    ensures var s := Run(s0, before);
            var m := Run(Next(s, Step(t, a)), meanwhile);
            var s' := Next(m, Step(t, b));
            && s'.sh.w == Window(true, m.sh.w.generation + 1, s.sh.now + 900.0, b.ssid, b.psk, [])
            && t < |s'.threads| && s'.threads[t] == OpenSpawn(m.sh.w.generation + 1)
  {
    RunKeepsInv(s0, before);
    hide Inv, WindowGoesOn, Next, WithoutStepsOf;
    LastsItsTerm(Run(s0, before), t, a, meanwhile, b);
  }

  lemma LastsItsTerm(s: State, t: nat, a: Answer, meanwhile: seq<Event>, b: Answer)
    requires Inv(s) && t < |s.threads| && s.threads[t].OpenConsume? && !a.raises
    requires WithoutStepsOf(t, meanwhile) && !b.raises
    ensures var m := Run(Next(s, Step(t, a)), meanwhile);
            var s' := Next(m, Step(t, b));
            && s'.sh.w == Window(true, m.sh.w.generation + 1, s.sh.now + 900.0, b.ssid, b.psk, [])
            && t < |s'.threads| && s'.threads[t] == OpenSpawn(m.sh.w.generation + 1)
  {
    hide *;
    NextKeepsInv(s, Step(t, a));
    PermissionUsed(s, t, a);
    ThreadWaits(Next(s, Step(t, a)), t, meanwhile);
    WindowArmed(Run(Next(s, Step(t, a)), meanwhile), t, b, s.sh.now + 900.0);
  }

  lemma PermissionUsed(s: State, t: nat, a: Answer)
    requires t < |s.threads| && s.threads[t].OpenConsume? && !a.raises
    ensures t < |Next(s, Step(t, a)).threads| && Next(s, Step(t, a)).threads[t] == OpenArm(s.sh.now + 900.0)
  {
    MoveOfOpen(s.sh, t, s.threads[t], a);
    hide Move;
  }

  lemma WindowArmed(s: State, t: nat, b: Answer, until: real)
    requires t < |s.threads| && s.threads[t] == OpenArm(until) && !b.raises
    ensures var s' := Next(s, Step(t, b));
            && s'.sh.w == Window(true, s.sh.w.generation + 1, until, b.ssid, b.psk, [])
            && t < |s'.threads| && s'.threads[t] == OpenSpawn(s.sh.w.generation + 1)
  {
    MoveOfOpen(s.sh, t, s.threads[t], b);
    hide Move;
  }

  // ------------------------------------------------------ permissions

  /** How many windows a run opens, seen from the window alone. */
  function Openings(s: State, events: seq<Event>): nat
    decreases |events|
  {
    if events == [] then 0
    else
      var s' := Next(s, events[0]);
      (if s'.sh.w.active && s'.sh.w.generation != s.sh.w.generation then 1 else 0) + Openings(s', events[1..])
  }

  /** How many permissions it is granted: a consumption that does not fail. */
  function Grants(s: State, events: seq<Event>): nat
    decreases |events|
  {
    if events == [] then 0
    else
      var e := events[0];
      (if e.Step? && e.thread < |s.threads| && s.threads[e.thread].OpenConsume? && !e.answer.raises then 1 else 0)
      + Grants(Next(s, e), events[1..])
  }

  /** How many threads hold a permission that they have not used yet. */
  function Unused(threads: seq<Pc>): nat {
    if threads == [] then 0
    else Unused(threads[..|threads| - 1]) + if threads[|threads| - 1].OpenArm? then 1 else 0
  }

  lemma {:induction false} UnusedUpdate(threads: seq<Pc>, t: nat, pc: Pc)
    requires t < |threads|
    ensures Unused(threads[t := pc])
         == Unused(threads) - (if threads[t].OpenArm? then 1 else 0) + (if pc.OpenArm? then 1 else 0)
  {
    var n := |threads| - 1;
    if t < n {
      UnusedUpdate(threads[..n], t, pc);
      assert threads[t := pc][..n] == threads[..n][t := pc];
    } else {
      assert threads[t := pc][..n] == threads[..n];
    }
  }

  lemma UnusedMore(threads: seq<Pc>, pc: Pc)
    ensures Unused(threads + [pc]) == Unused(threads) + (if pc.OpenArm? then 1 else 0)
  {
    assert (threads + [pc])[..|threads|] == threads;
  }

  /** A move opens a window only by using a permission, and gets one only by consuming it. */
  predicate UsesPermission(sh: Shared, pc: Pc, a: Answer, e: Effect) {
    && (e.sh.w.active && e.sh.w.generation != sh.w.generation ==> pc.OpenArm? && !e.pc.OpenArm?)
    && (e.pc.OpenArm? ==> pc.OpenConsume? && !a.raises)
  }

  lemma OpenPermission(sh: Shared, t: nat, pc: Pc, a: Answer)
    requires IsOpenPc(pc)
    ensures UsesPermission(sh, pc, a, MoveOpen(sh, t, pc, a))
  {
  }

  lemma JoinPermission(sh: Shared, t: nat, pc: Pc, a: Answer)
    requires !IsOpenPc(pc)
    ensures UsesPermission(sh, pc, a, MoveJoin(sh, t, pc, a))
  {
  }

  lemma PermissionMove(sh: Shared, t: nat, pc: Pc, a: Answer)
    requires PlainNext(pc)
    ensures UsesPermission(sh, pc, a, Move(sh, t, pc, a))
  {
    if IsOpenPc(pc) {
      OpenPermission(sh, t, pc, a);
    } else {
      JoinPermission(sh, t, pc, a);
    }
    hide MoveOpen, MoveJoin;
  }

  lemma PermissionStep(s: State, e: Event)
    requires Inv(s)
    ensures var s' := Next(s, e);
            var opens := if s'.sh.w.active && s'.sh.w.generation != s.sh.w.generation then 1 else 0;
            var grants := if e.Step? && e.thread < |s.threads| && s.threads[e.thread].OpenConsume? && !e.answer.raises
                          then 1 else 0;
            opens + Unused(s'.threads) <= grants + Unused(s.threads)
  {
    if e.Step? && e.thread < |s.threads| {
      var pc := s.threads[e.thread];
      var m := Move(s.sh, e.thread, pc, e.answer);
      PermissionMove(s.sh, e.thread, pc, e.answer);
      UnusedUpdate(s.threads, e.thread, m.pc);
      hide Move, Unused;
      var after := s.threads[e.thread := m.pc];
      assert after + [] == after;
      if m.spawned.Some? {
        UnusedMore(after, WatchLoop(m.spawned.value));
      }
    }
  }

  lemma {:induction false} PermissionsAreUsedOnce(s: State, events: seq<Event>)
    requires Inv(s)
    ensures Openings(s, events) + Unused(Run(s, events).threads) <= Grants(s, events) + Unused(s.threads)
    decreases |events|
  {
    if events != [] {
      PermissionStep(s, events[0]);
      NextKeepsInv(s, events[0]);
      PermissionsAreUsedOnce(Next(s, events[0]), events[1..]);
    }
  }

  lemma {:induction false} IdleHoldNone(threads: seq<Pc>)
    requires forall t | 0 <= t < |threads| :: threads[t].Idle?
    ensures Unused(threads) == 0
  {
    if threads != [] {
      IdleHoldNone(threads[..|threads| - 1]);
    }
  }

  /** No run opens more windows than it was granted permissions. */
  lemma WindowsNeedPermissions(s0: State, events: seq<Event>)
    requires Initial(s0)
    ensures Openings(s0, events) <= Grants(s0, events)
  {
    RunKeepsInv(s0, []);
    PermissionsAreUsedOnce(s0, events);
    IdleHoldNone(s0.threads);
  }
}
