/**
 Any number of home connections against one registry, in any interleaving of their
 hellos, commits and closes with evictions.

 A connection says hello on its first frame and so registers at most once.  It is live
 when its registration has been committed and its tunnel is not closed.
 */
module Fencing {
  import opened Wrappers
  import opened Registry

  datatype Conn = Conn(reg: Option<nat>, committed: bool)

  /** `lastCommitted` is the generation committed last for a home since it entered the table. */
  datatype System = System(t: Tables, conns: seq<Conn>, lastCommitted: map<string, int>)

  const EMPTY := System(Tables(map[], [], []), [], map[])

  datatype Event =
    | Connect
    | SaysHello(conn: nat, home: string, generation: int)
    | Commits(conn: nat)
    | Closes(conn: nat)
    | Evicts(home: string)

  predicate Sane(s: System) {
    && WellFormed(s.t)
    && |s.conns| == |s.t.tunnels|
    && (forall c | 0 <= c < |s.conns| :: OwnsItsRegistration(s, c))
    && (forall r | 0 <= r < |s.t.regs| ::
          s.t.regs[r].tunnel < |s.conns| && s.conns[s.t.regs[r].tunnel].reg == Some(r))
  }

  predicate OwnsItsRegistration(s: System, c: nat)
    requires c < |s.conns|
  {
    && (s.conns[c].reg.Some? ==>
          s.conns[c].reg.value < |s.t.regs| && s.t.regs[s.conns[c].reg.value].tunnel == c)
    && (s.conns[c].committed ==> s.conns[c].reg.Some? && s.t.regs[s.conns[c].reg.value].previous.None?)
  }

  function Restricted(m: map<string, int>, homes: set<string>): map<string, int> {
    map h | h in m && h in homes :: m[h]
  }

  function Hellos(s: System, c: nat, home: string, generation: int): System
    requires Sane(s)
  {
    if c >= |s.conns| || s.conns[c].reg.Some? || !Accepts(s.t, home, generation) then s
    else s.(t := Registered(s.t, home, generation, c), conns := s.conns[c := Conn(Some(|s.t.regs|), false)])
  }

  predicate CanCommit(s: System, c: nat)
    requires Sane(s)
  {
    && c < |s.conns| && !s.conns[c].committed && s.conns[c].reg.Some?
    && OwnsItsRegistration(s, c)
    && IsCurrent(s.t, s.conns[c].reg.value)
  }

  function CommitsNow(s: System, c: nat): System
    requires Sane(s)
  {
    if !CanCommit(s, c) then s
    else
      var r := s.conns[c].reg.value;
      System(Committed(s.t, r),
             s.conns[c := Conn(Some(r), true)],
             s.lastCommitted[s.t.regs[r].home := s.t.regs[r].generation])
  }

  function CloseTables(s: System, c: nat): Tables
    requires Sane(s) && c < |s.conns|
  {
    ShutIsWellFormed(s.t, c);
    Withdrawn(Shut(s.t, c), c, s.conns[c].reg, s.conns[c].committed)
  }

  function ClosesNow(s: System, c: nat): System
    requires Sane(s)
  {
    if c >= |s.conns| then s
    else
      var t := CloseTables(s, c);
      s.(t := t, lastCommitted := Restricted(s.lastCommitted, t.homes.Keys))
  }

  function EvictsNow(s: System, home: string): System
    requires Sane(s)
  {
    var t := EvictedHome(s.t, home);
    s.(t := t, lastCommitted := Restricted(s.lastCommitted, t.homes.Keys))
  }

  function Next(s: System, e: Event): System
    requires Sane(s)
  {
    match e
    case Connect =>
      s.(t := s.t.(tunnels := s.t.tunnels + [Tunnel(false, false)]), conns := s.conns + [Conn(None, false)])
    case SaysHello(c, home, generation) => Hellos(s, c, home, generation)
    case Commits(c) => CommitsNow(s, c)
    case Closes(c) => ClosesNow(s, c)
    case Evicts(home) => EvictsNow(s, home)
  }

  lemma ShutIsWellFormed(t: Tables, c: nat)
    requires WellFormed(t) && c < |t.tunnels|
    ensures WellFormed(Shut(t, c))
  {
    assert forall r | 0 <= r < |t.regs| :: GoodPrevious(t, r) ==> GoodPrevious(Shut(t, c), r);
  }

  // ------------------------------------------------------ chains of pending registrations

  /** The oldest registration that the table entry still stands in front of. */
  function Tail(t: Tables, r: nat): (tail: nat)
    requires WellFormed(t) && r < |t.regs|
    ensures tail <= r && t.regs[tail].home == t.regs[r].home && t.regs[tail].previous.None?
    decreases r
  {
    assert GoodPrevious(t, r);
    match t.regs[r].previous
    case None => r
    case Some(p) => Tail(t, p)
  }

  /** Tables that agree on the registrations of a home have the same chains there. */
  lemma {:induction false} TailFrame(t: Tables, t': Tables, r: nat)
    requires WellFormed(t) && WellFormed(t') && r < |t.regs| <= |t'.regs|
    requires forall q | 0 <= q <= r && t.regs[q].home == t.regs[r].home :: t'.regs[q] == t.regs[q]
    ensures Tail(t', r) == Tail(t, r)
    decreases r
  {
    assert GoodPrevious(t, r);
    if t.regs[r].previous.Some? {
      TailFrame(t, t', t.regs[r].previous.value);
    }
  }

  predicate Live(s: System, c: nat)
    requires c < |s.conns| && |s.conns| == |s.t.tunnels|
  {
    s.conns[c].committed && !s.t.tunnels[c].closed
  }

  /** Every live connection of a home is the one at the end of the chain of its table entry. */
  predicate Fenced(s: System)
    requires Sane(s)
  {
    forall c | 0 <= c < |s.conns| && Live(s, c) :: AtTail(s, c)
  }

  predicate AtTail(s: System, c: nat)
    requires Sane(s) && c < |s.conns| && s.conns[c].committed
  {
    assert OwnsItsRegistration(s, c);
    var r := s.conns[c].reg.value;
    s.t.regs[r].home in s.t.homes && Tail(s.t, s.t.homes[s.t.regs[r].home]) == r
  }

  /** At most one live connection per home. */
  predicate OneLive(s: System)
    requires Sane(s)
  {
    forall c, d | 0 <= c < d < |s.conns| && Live(s, c) && Live(s, d) ::
      OwnsItsRegistration(s, c) && OwnsItsRegistration(s, d)
      && s.t.regs[s.conns[c].reg.value].home != s.t.regs[s.conns[d].reg.value].home
  }

  lemma FencedIsOneLive(s: System)
    requires Sane(s) && Fenced(s)
    ensures OneLive(s)
  {
    forall c, d | 0 <= c < d < |s.conns| && Live(s, c) && Live(s, d)
      ensures OwnsItsRegistration(s, c) && OwnsItsRegistration(s, d)
      ensures s.t.regs[s.conns[c].reg.value].home != s.t.regs[s.conns[d].reg.value].home
    {
      assert AtTail(s, c) && AtTail(s, d);
    }
  }

  // ------------------------------------------------------ Sane is kept

  lemma HelloIsSane(s: System, c: nat, home: string, generation: int)
    requires Sane(s)
    ensures Sane(Hellos(s, c, home, generation))
  {
    var s' := Hellos(s, c, home, generation);
    assert forall r | 0 <= r < |s.t.regs| :: GoodPrevious(s.t, r) ==> GoodPrevious(s'.t, r);
    assert forall d | 0 <= d < |s.conns| && d != c :: OwnsItsRegistration(s, d) ==> OwnsItsRegistration(s', d);
  }

  lemma CommittedIsWellFormed(t: Tables, r: nat)
    requires WellFormed(t) && r < |t.regs|
    ensures WellFormed(Committed(t, r))
  {
    if IsCurrent(t, r) {
      ForgettingIsWellFormed(t, r);
      var t' := Committed(t, r);
      assert forall q | 0 <= q < |t.regs| :: GoodPrevious(t.(regs := t'.regs), q) ==> GoodPrevious(t', q);
    }
  }

  lemma CommitKeepsLengths(t: Tables, r: nat)
    requires WellFormed(t) && r < |t.regs| && IsCurrent(t, r)
    ensures Committed(t, r).regs == Forgotten(t, r) && |Committed(t, r).tunnels| == |t.tunnels|
  {
  }

  lemma CommitIsSane(s: System, c: nat)
    requires Sane(s)
    ensures Sane(CommitsNow(s, c))
  {
    if CanCommit(s, c) {
      var s' := CommitsNow(s, c);
      CommittedIsWellFormed(s.t, s.conns[c].reg.value);
      CommitKeepsLengths(s.t, s.conns[c].reg.value);
      assert OwnsItsRegistration(s, c);
      hide WellFormed, GoodPrevious, Committed, IsCurrent;
      forall d | 0 <= d < |s.conns|
        ensures OwnsItsRegistration(s', d)
      {
        assert OwnsItsRegistration(s, d);
      }
    }
  }

  lemma WithdrawnIsWellFormed(t: Tables, c: nat, reg: Option<nat>, committed: bool)
    requires WellFormed(t)
    ensures WellFormed(Withdrawn(t, c, reg, committed))
  {
    var t' := Withdrawn(t, c, reg, committed);
    if reg.Some? && reg.value < |t.regs| && !committed {
      ForgettingIsWellFormed(t, reg.value);
      assert GoodPrevious(t, reg.value);
    }
    assert forall r | 0 <= r < |t.regs| :: GoodPrevious(t, r) ==> GoodPrevious(t', r);
  }

  lemma CloseIsSane(s: System, c: nat)
    requires Sane(s)
    ensures Sane(ClosesNow(s, c))
  {
    if c < |s.conns| {
      var s', t := ClosesNow(s, c), Shut(s.t, c);
      ShutIsWellFormed(s.t, c);
      WithdrawnIsWellFormed(t, c, s.conns[c].reg, s.conns[c].committed);
      assert OwnsItsRegistration(s, c);
      hide WellFormed, GoodPrevious;
      assert forall d | 0 <= d < |s.conns| :: OwnsItsRegistration(s, d) ==> OwnsItsRegistration(s', d);
    }
  }

  lemma OtherStepsAreSane(s: System, e: Event)
    requires Sane(s) && (e.Connect? || e.Evicts?)
    ensures Sane(Next(s, e))
  {
    var s' := Next(s, e);
    assert forall r | 0 <= r < |s.t.regs| :: GoodPrevious(s.t, r) ==> GoodPrevious(s'.t, r);
    assert forall d | 0 <= d < |s.conns| :: OwnsItsRegistration(s, d) ==> OwnsItsRegistration(s', d);
  }

  lemma NextIsSane(s: System, e: Event)
    requires Sane(s)
    ensures Sane(Next(s, e))
  {
    match e {
      case SaysHello(c, home, generation) => HelloIsSane(s, c, home, generation);
      case Commits(c) => CommitIsSane(s, c);
      case Closes(c) => CloseIsSane(s, c);
      case _ => OtherStepsAreSane(s, e);
    }
  }

  /** Every state the relay can be in after the given events. */
  function Run(events: seq<Event>): (s: System)
    ensures Sane(s)
  {
    if events == [] then EMPTY
    else
      var s := Run(events[..|events| - 1]);
      NextIsSane(s, events[|events| - 1]);
      Next(s, events[|events| - 1])
  }

  // ------------------------------------------------------ when a step keeps the fence

  /** The connection a pending chain goes back to is no longer live. */
  predicate TailIsDead(s: System, r: nat)
    requires Sane(s) && r < |s.t.regs|
  {
    !Live(s, s.t.regs[Tail(s.t, r)].tunnel)
  }

  /**
   A commit keeps the fence when the registration it replaces is the one the chain goes
   back to, and an eviction when the entry it drops is; or when that one is dead anyway.
   */
  predicate Guarded(s: System, e: Event)
    requires Sane(s)
  {
    match e
    case Commits(c) =>
      CanCommit(s, c) ==>
        var r := s.conns[c].reg.value;
        TailIsDead(s, r) || s.t.regs[r].previous.None? || s.t.regs[r].previous.value == Tail(s.t, r)
    case Evicts(home) =>
      home in s.t.homes ==> TailIsDead(s, s.t.homes[home]) || s.t.homes[home] == Tail(s.t, s.t.homes[home])
    case _ => true
  }

  lemma HelloKeepsFence(s: System, c: nat, home: string, generation: int)
    requires Sane(s) && Fenced(s)
    ensures Sane(Hellos(s, c, home, generation)) && Fenced(Hellos(s, c, home, generation))
  {
    var s' := Hellos(s, c, home, generation);
    HelloIsSane(s, c, home, generation);
    forall d | 0 <= d < |s'.conns| && Live(s', d)
      ensures AtTail(s', d)
    {
      assert Live(s, d) && AtTail(s, d) && OwnsItsRegistration(s, d);
      TailFrame(s.t, s'.t, s.t.homes[s.t.regs[s.conns[d].reg.value].home]);
    }
  }

  lemma CloseKeepsFence(s: System, c: nat)
    requires Sane(s) && Fenced(s)
    ensures Sane(ClosesNow(s, c)) && Fenced(ClosesNow(s, c))
  {
    var s' := ClosesNow(s, c);
    CloseIsSane(s, c);
    forall d | c < |s.conns| && 0 <= d < |s'.conns| && Live(s', d)
      ensures AtTail(s', d)
    {
      assert d != c && Live(s, d) && AtTail(s, d) && OwnsItsRegistration(s, d) && OwnsItsRegistration(s, c);
      var head := s.t.homes[s.t.regs[s.conns[d].reg.value].home];
      if s.conns[c].reg == Some(head) {
        assert GoodPrevious(s.t, head) && s.t.regs[head].previous.Some?;
        TailFrame(s.t, s'.t, s.t.regs[head].previous.value);
      } else {
        CloseTouchesOwnEntry(s, c);
        SameTail(s, c, head);
      }
    }
  }

  /** A close that does not own the entry `head` leaves the whole chain behind it alone. */
  lemma SameTail(s: System, c: nat, head: nat)
    requires Sane(s) && c < |s.conns| && head < |s.t.regs| && IsCurrent(s.t, head) && s.conns[c].reg != Some(head)
    ensures Sane(ClosesNow(s, c)) && Tail(ClosesNow(s, c).t, head) == Tail(s.t, head)
  {
    CloseIsSane(s, c);
    assert OwnsItsRegistration(s, c);
    TailFrame(s.t, ClosesNow(s, c).t, head);
  }

  lemma CommitFencesIff(s: System, c: nat)
    requires Sane(s) && Fenced(s)
    ensures Sane(CommitsNow(s, c)) && (Fenced(CommitsNow(s, c)) <==> Guarded(s, Commits(c)))
  {
    CommitIsSane(s, c);
    if CanCommit(s, c) {
      var s', r := CommitsNow(s, c), s.conns[c].reg.value;
      var tail := Tail(s.t, r);
      if Guarded(s, Commits(c)) {
        forall d | 0 <= d < |s'.conns| && Live(s', d)
          ensures AtTail(s', d)
        {
          GuardedCommitKeeps(s, c, d);
        }
      } else {
        var d := s.t.regs[tail].tunnel;
        assert GoodPrevious(s.t, r);
        assert Live(s', d) && !AtTail(s', d);
      }
    }
  }

  lemma GuardedCommitKeeps(s: System, c: nat, d: nat)
    requires Sane(s) && Fenced(s) && CanCommit(s, c) && Guarded(s, Commits(c))
    requires Sane(CommitsNow(s, c)) && d < |s.conns| && Live(CommitsNow(s, c), d)
    ensures AtTail(CommitsNow(s, c), d)
  {
    var s', r := CommitsNow(s, c), s.conns[c].reg.value;
    assert GoodPrevious(s.t, r);
    if d != c {
      assert Live(s, d) && AtTail(s, d) && OwnsItsRegistration(s, d) && OwnsItsRegistration(s, c);
      var q := s.conns[d].reg.value;
      assert s.t.regs[q].home != s.t.regs[r].home;
      TailFrame(s.t, s'.t, s.t.homes[s.t.regs[q].home]);
    }
  }

  lemma EvictFencesIff(s: System, home: string)
    requires Sane(s) && Fenced(s)
    ensures Sane(EvictsNow(s, home)) && (Fenced(EvictsNow(s, home)) <==> Guarded(s, Evicts(home)))
  {
    var s' := EvictsNow(s, home);
    OtherStepsAreSane(s, Evicts(home));
    assert s' == Next(s, Evicts(home));
    if home in s.t.homes {
      var d := s.t.regs[Tail(s.t, s.t.homes[home])].tunnel;
      if Guarded(s, Evicts(home)) {
        forall x | 0 <= x < |s'.conns| && Live(s', x)
          ensures AtTail(s', x)
        {
          assert Live(s, x) && AtTail(s, x) && OwnsItsRegistration(s, x);
          TailFrame(s.t, s'.t, s.t.homes[s.t.regs[s.conns[x].reg.value].home]);
        }
      } else {
        assert Live(s', d) && !AtTail(s', d);
      }
    } else {
      assert Restricted(s.lastCommitted, s.t.homes.Keys) == s'.lastCommitted;
      forall x | 0 <= x < |s'.conns| && Live(s', x)
        ensures AtTail(s', x)
      {
        assert Live(s, x) && AtTail(s, x);
      }
    }
  }

  lemma ConnectKeepsFence(s: System)
    requires Sane(s) && Fenced(s)
    ensures Sane(Next(s, Connect)) && Fenced(Next(s, Connect))
  {
    OtherStepsAreSane(s, Connect);
    var s' := Next(s, Connect);
    forall d | 0 <= d < |s'.conns| && Live(s', d)
      ensures AtTail(s', d)
    {
      assert Live(s, d) && AtTail(s, d) && OwnsItsRegistration(s, d);
      TailFrame(s.t, s'.t, s.t.homes[s.t.regs[s.conns[d].reg.value].home]);
    }
  }

  lemma StepFencesIff(s: System, e: Event)
    requires Sane(s) && Fenced(s)
    ensures Sane(Next(s, e)) && (Fenced(Next(s, e)) <==> Guarded(s, e))
  {
    match e {
      case Connect => ConnectKeepsFence(s);
      case SaysHello(c, home, generation) => HelloKeepsFence(s, c, home, generation);
      case Commits(c) => CommitFencesIff(s, c);
      case Closes(c) => CloseKeepsFence(s, c);
      case Evicts(home) => EvictFencesIff(s, home);
    }
  }

  lemma EmptyIsFenced()
    ensures Sane(EMPTY) && Fenced(EMPTY)
  {
  }

  predicate GuardedRun(events: seq<Event>) {
    forall k | 0 <= k < |events| :: Guarded(Run(events[..k]), events[k])
  }

  predicate FencedThroughout(events: seq<Event>) {
    forall k | 0 <= k <= |events| :: Fenced(Run(events[..k]))
  }

  /** A run is fenced throughout exactly when none of its commits and evictions goes over a live connection. */
  lemma {:induction false} FencedIffGuarded(events: seq<Event>)
    ensures FencedThroughout(events) <==> GuardedRun(events)
  {
    hide Fenced, Next, Guarded, Sane;
    if events == [] {
      EmptyIsFenced();
      assert events[..0] == [];
    } else {
      var init, last := events[..|events| - 1], events[|events| - 1];
      FencedIffGuarded(init);
      assert forall k | 0 <= k <= |init| :: init[..k] == events[..k];
      assert events[..|events|] == events;
      assert FencedThroughout(events) <==> FencedThroughout(init) && Fenced(Run(events));
      assert GuardedRun(events) <==> GuardedRun(init) && Guarded(Run(init), last);
      if FencedThroughout(init) {
        assert init[..|init|] == init;
        StepFencesIff(Run(init), last);
      }
    }
  }

  // ------------------------------------------------------ handshakes that do not overlap

  /** Nobody says hello or is evicted while another handshake for the home is unfinished. */
  predicate Orderly(s: System, e: Event)
    requires Sane(s)
  {
    match e
    case SaysHello(c, home, generation) => Settled(s, home)
    case Evicts(home) => Settled(s, home)
    case _ => true
  }

  predicate Settled(s: System, home: string)
    requires Sane(s)
  {
    home in s.t.homes ==> s.conns[s.t.regs[s.t.homes[home]].tunnel].committed
  }

  predicate OrderlyRun(events: seq<Event>) {
    forall k | 0 <= k < |events| :: Orderly(Run(events[..k]), events[k])
  }

  /** No table entry stands in front of another that is itself pending. */
  predicate Shallow(t: Tables)
    requires WellFormed(t)
  {
    forall h | h in t.homes :: ShallowAt(t, t.homes[h])
  }

  predicate ShallowAt(t: Tables, r: nat)
    requires WellFormed(t) && r < |t.regs|
  {
    assert GoodPrevious(t, r);
    t.regs[r].previous.Some? ==> t.regs[t.regs[r].previous.value].previous.None?
  }

  lemma HelloStaysShallow(s: System, c: nat, home: string, generation: int)
    requires Sane(s) && Shallow(s.t) && Settled(s, home)
    ensures Sane(Hellos(s, c, home, generation)) && Shallow(Hellos(s, c, home, generation).t)
  {
    HelloIsSane(s, c, home, generation);
    var s' := Hellos(s, c, home, generation);
    forall h | h in s'.t.homes
      ensures ShallowAt(s'.t, s'.t.homes[h])
    {
      assert h in s.t.homes ==> ShallowAt(s.t, s.t.homes[h]) && GoodPrevious(s.t, s.t.homes[h]);
      if h == home && home in s.t.homes {
        assert OwnsItsRegistration(s, s.t.regs[s.t.homes[home]].tunnel);
      }
    }
  }

  lemma CloseStaysShallow(s: System, c: nat)
    requires Sane(s) && Shallow(s.t) && c < |s.conns|
    ensures Sane(ClosesNow(s, c)) && Shallow(ClosesNow(s, c).t)
  {
    CloseIsSane(s, c);
    CloseTouchesOwnEntry(s, c);
    assert OwnsItsRegistration(s, c);
    var s' := ClosesNow(s, c);
    forall h | h in s'.t.homes
      ensures ShallowAt(s'.t, s'.t.homes[h])
    {
      assert ShallowAt(s.t, s.t.homes[h]) && GoodPrevious(s.t, s.t.homes[h]);
    }
  }

  lemma OthersStayShallow(s: System, e: Event)
    requires Sane(s) && Shallow(s.t) && !e.SaysHello? && !e.Closes?
    ensures Sane(Next(s, e)) && Shallow(Next(s, e).t)
  {
    NextIsSane(s, e);
    var s' := Next(s, e);
    forall h | h in s'.t.homes
      ensures ShallowAt(s'.t, s'.t.homes[h])
    {
      assert ShallowAt(s.t, s.t.homes[h]) && GoodPrevious(s.t, s.t.homes[h]);
    }
  }

  lemma OrderlyStaysShallow(s: System, e: Event)
    requires Sane(s) && Shallow(s.t) && Orderly(s, e)
    ensures Sane(Next(s, e)) && Shallow(Next(s, e).t)
  {
    match e {
      case SaysHello(c, home, generation) => HelloStaysShallow(s, c, home, generation);
      case Closes(c) => if c < |s.conns| { CloseStaysShallow(s, c); }
      case _ => OthersStayShallow(s, e);
    }
  }

  lemma OrderlyIsGuarded(s: System, e: Event)
    requires Sane(s) && Shallow(s.t) && Orderly(s, e)
    ensures Guarded(s, e)
  {
    if e.Commits? && CanCommit(s, e.conn) {
      assert ShallowAt(s.t, s.conns[e.conn].reg.value);
    } else if e.Evicts? && e.home in s.t.homes {
      assert OwnsItsRegistration(s, s.t.regs[s.t.homes[e.home]].tunnel);
    }
  }

  lemma OrderlySplits(events: seq<Event>)
    requires OrderlyRun(events) && events != []
    ensures OrderlyRun(events[..|events| - 1]) && Orderly(Run(events[..|events| - 1]), events[|events| - 1])
  {
    hide Run, Orderly;
    var init := events[..|events| - 1];
    forall k | 0 <= k < |init|
      ensures Orderly(Run(init[..k]), init[k])
    {
      assert init[..k] == events[..k];
    }
  }

  lemma GuardedJoins(events: seq<Event>)
    requires events != [] && GuardedRun(events[..|events| - 1])
    requires Guarded(Run(events[..|events| - 1]), events[|events| - 1])
    ensures GuardedRun(events)
  {
    hide Run, Guarded;
    var init := events[..|events| - 1];
    forall k | 0 <= k < |events|
      ensures Guarded(Run(events[..k]), events[k])
    {
      if k < |init| {
        assert init[..k] == events[..k] && Guarded(Run(init[..k]), init[k]);
      }
    }
  }

  lemma {:induction false} OrderlyRunsAreShallow(events: seq<Event>)
    requires OrderlyRun(events)
    ensures Shallow(Run(events).t) && GuardedRun(events)
  {
    if events != [] {
      hide Next, Guarded, Orderly, Shallow, OrderlyRun, GuardedRun, Sane;
      var init, last := events[..|events| - 1], events[|events| - 1];
      OrderlySplits(events);
      OrderlyRunsAreShallow(init);
      OrderlyStaysShallow(Run(init), last);
      OrderlyIsGuarded(Run(init), last);
      GuardedJoins(events);
    }
  }

  /** Without overlapping handshakes a home never has two live connections. */
  lemma OrderlyRunsHaveOneLive(events: seq<Event>)
    requires OrderlyRun(events)
    ensures OneLive(Run(events)) && Fenced(Run(events))
  {
    OrderlyRunsAreShallow(events);
    FencedIffGuarded(events);
    assert events[..|events|] == events;
    FencedIsOneLive(Run(events));
  }

  // ------------------------------------------------------ what holds in every run

  /** A closing connection shuts its own tunnel and no other. */
  lemma CloseShutsOwnTunnel(s: System, c: nat)
    requires Sane(s) && c < |s.conns|
    ensures ClosesNow(s, c).t.tunnels == s.t.tunnels[c := s.t.tunnels[c].(closed := true)]
  {
    assert OwnsItsRegistration(s, c);
  }

  /** It gives its own entry back to the one behind it, or withdraws it; every other entry stays. */
  lemma CloseTouchesOwnEntry(s: System, c: nat)
    requires Sane(s) && c < |s.conns|
    ensures var s' := ClosesNow(s, c);
            forall h | h in s.t.homes.Keys + s'.t.homes.Keys ::
              && h in s.t.homes
              && if s.conns[c].reg != Some(s.t.homes[h]) then h in s'.t.homes && s'.t.homes[h] == s.t.homes[h]
                 else match s.t.regs[s.t.homes[h]].previous
                      case None => h !in s'.t.homes
                      case Some(p) => h in s'.t.homes && s'.t.homes[h] == p
  {
    assert OwnsItsRegistration(s, c);
  }

  predicate TailIsLastCommitted(s: System, h: string)
    requires Sane(s)
  {
    h in s.lastCommitted ==>
      && h in s.t.homes
      && var tail := Tail(s.t, s.t.homes[h]);
         s.t.regs[tail].generation == s.lastCommitted[h] && s.conns[s.t.regs[tail].tunnel].committed
  }

  predicate TailsAreLastCommitted(s: System)
    requires Sane(s)
  {
    forall h | h in s.lastCommitted :: TailIsLastCommitted(s, h)
  }

  lemma {:induction false} TailIsOlder(t: Tables, r: nat)
    requires WellFormed(t) && r < |t.regs|
    ensures t.regs[Tail(t, r)].generation <= t.regs[r].generation
    ensures Tail(t, r) != r ==> t.regs[Tail(t, r)].generation < t.regs[r].generation
    decreases r
  {
    assert GoodPrevious(t, r);
    if t.regs[r].previous.Some? {
      TailIsOlder(t, t.regs[r].previous.value);
    }
  }

  lemma HelloKeepsTails(s: System, c: nat, home: string, generation: int)
    requires Sane(s) && TailsAreLastCommitted(s)
    ensures Sane(Hellos(s, c, home, generation)) && TailsAreLastCommitted(Hellos(s, c, home, generation))
  {
    var s' := Hellos(s, c, home, generation);
    HelloIsSane(s, c, home, generation);
    forall h | h in s'.lastCommitted
      ensures TailIsLastCommitted(s', h)
    {
      assert TailIsLastCommitted(s, h);
      TailFrame(s.t, s'.t, s.t.homes[h]);
    }
  }

  lemma CommitKeepsTails(s: System, c: nat)
    requires Sane(s) && TailsAreLastCommitted(s)
    ensures Sane(CommitsNow(s, c)) && TailsAreLastCommitted(CommitsNow(s, c))
  {
    var s' := CommitsNow(s, c);
    CommitIsSane(s, c);
    forall h | h in s'.lastCommitted
      ensures TailIsLastCommitted(s', h)
    {
      if CanCommit(s, c) && h == s.t.regs[s.conns[c].reg.value].home {
      } else {
        assert TailIsLastCommitted(s, h);
        TailFrame(s.t, s'.t, s.t.homes[h]);
      }
    }
  }

  lemma CloseKeepsTails(s: System, c: nat)
    requires Sane(s) && TailsAreLastCommitted(s) && c < |s.conns|
    ensures Sane(ClosesNow(s, c)) && TailsAreLastCommitted(ClosesNow(s, c))
  {
    CloseIsSane(s, c);
    forall h | h in ClosesNow(s, c).lastCommitted
      ensures TailIsLastCommitted(ClosesNow(s, c), h)
    {
      assert TailIsLastCommitted(s, h) && h in ClosesNow(s, c).t.homes;
      CloseKeepsTail(s, c, h);
      CloseOnlyForgets(s, c, Tail(s.t, s.t.homes[h]));
    }
  }

  lemma CloseOnlyForgets(s: System, c: nat, r: nat)
    requires Sane(s) && c < |s.conns| && r < |s.t.regs|
    ensures |ClosesNow(s, c).t.regs| == |s.t.regs| && ClosesNow(s, c).conns == s.conns
    ensures ClosesNow(s, c).t.regs[r] == s.t.regs[r].(previous := ClosesNow(s, c).t.regs[r].previous)
  {
  }

  lemma CloseKeepsTail(s: System, c: nat, h: string)
    requires Sane(s) && c < |s.conns| && h in s.t.homes
    requires Sane(ClosesNow(s, c)) && h in ClosesNow(s, c).t.homes
    ensures Tail(ClosesNow(s, c).t, ClosesNow(s, c).t.homes[h]) == Tail(s.t, s.t.homes[h])
  {
    CloseTouchesOwnEntry(s, c);
    var head := s.t.homes[h];
    assert OwnsItsRegistration(s, c);
    if s.conns[c].reg == Some(head) {
      assert GoodPrevious(s.t, head);
      SameTailBehind(s, c, head);
    } else {
      SameTail(s, c, head);
    }
  }

  /** A rollback leaves the chain behind the registration it takes back. */
  lemma SameTailBehind(s: System, c: nat, head: nat)
    requires Sane(s) && c < |s.conns| && head < |s.t.regs| && s.conns[c].reg == Some(head)
    requires s.t.regs[head].previous.Some? && s.t.regs[head].previous.value < head
    ensures Sane(ClosesNow(s, c))
    ensures Tail(ClosesNow(s, c).t, s.t.regs[head].previous.value) == Tail(s.t, s.t.regs[head].previous.value)
  {
    CloseIsSane(s, c);
    TailFrame(s.t, ClosesNow(s, c).t, s.t.regs[head].previous.value);
  }

  lemma OtherStepsKeepTails(s: System, e: Event)
    requires Sane(s) && TailsAreLastCommitted(s) && (e.Connect? || e.Evicts?)
    ensures Sane(Next(s, e)) && TailsAreLastCommitted(Next(s, e))
  {
    var s' := Next(s, e);
    OtherStepsAreSane(s, e);
    forall h | h in s'.lastCommitted
      ensures TailIsLastCommitted(s', h)
    {
      assert TailIsLastCommitted(s, h);
      TailFrame(s.t, s'.t, s.t.homes[h]);
    }
  }

  lemma {:induction false} RunKeepsTails(events: seq<Event>)
    ensures TailsAreLastCommitted(Run(events))
  {
    if events != [] {
      var s, last := Run(events[..|events| - 1]), events[|events| - 1];
      RunKeepsTails(events[..|events| - 1]);
      match last {
        case SaysHello(c, home, generation) => HelloKeepsTails(s, c, home, generation);
        case Commits(c) => CommitKeepsTails(s, c);
        case Closes(c) => if c < |s.conns| { CloseKeepsTails(s, c); }
        case _ => OtherStepsKeepTails(s, last);
      }
    }
  }

  /** While a home stays in the table, every commit has a greater generation than the one before, overlap or not. */
  lemma CommittedGenerationsGrow(events: seq<Event>, c: nat)
    requires CanCommit(Run(events), c)
    ensures var s := Run(events);
            var reg := s.t.regs[s.conns[c].reg.value];
            reg.home in s.lastCommitted ==> s.lastCommitted[reg.home] < reg.generation
  {
    var s := Run(events);
    var r := s.conns[c].reg.value;
    RunKeepsTails(events);
    if s.t.regs[r].home in s.lastCommitted {
      assert TailIsLastCommitted(s, s.t.regs[r].home) && OwnsItsRegistration(s, c);
      TailIsOlder(s.t, r);
    }
  }

  // ------------------------------------------------------ handshakes that overlap

  /** One home, three connections: the second is overtaken by the third before it commits. */
  function Overlap(): (events: seq<Event>)
    ensures |events| == 9
  {
    [Connect, Connect, Connect,
     SaysHello(0, "h", 1), Commits(0), SaysHello(1, "h", 2), SaysHello(2, "h", 3), Commits(1), Commits(2)]
  }

  lemma OneMore(events: seq<Event>, k: nat)
    requires k < |events|
    ensures Run(events[..k + 1]) == Next(Run(events[..k]), events[k])
    ensures Run(events[..0]) == EMPTY
  {
    assert events[..k + 1][..k] == events[..k];
  }

  const UP := Tunnel(false, false)
  const NEW := Conn(None, false)
  const FIRST := Registration("h", 1, 0, None)
  const SECOND := Registration("h", 2, 1, Some(0))

  const CONNECTED := System(Tables(map[], [], [UP, UP, UP]), [NEW, NEW, NEW], map[])

  const REGISTERED :=
    System(Tables(map["h" := 0], [FIRST], [UP, UP, UP]), [Conn(Some(0), false), NEW, NEW], map[])

  const COMMITTED_ONCE :=
    System(Tables(map["h" := 0], [FIRST], [UP, UP, UP]), [Conn(Some(0), true), NEW, NEW], map["h" := 1])

  const PENDING :=
    System(Tables(map["h" := 1], [FIRST, SECOND], [UP, UP, UP]),
           [Conn(Some(0), true), Conn(Some(1), false), NEW], map["h" := 1])

  const OVERTAKEN :=
    System(Tables(map["h" := 2], [FIRST, SECOND, Registration("h", 3, 2, Some(1))], [UP, UP, UP]),
           [Conn(Some(0), true), Conn(Some(1), false), Conn(Some(2), false)], map["h" := 1])

  const TWO_LIVE :=
    System(Tables(map["h" := 2], [FIRST, SECOND, Registration("h", 3, 2, None)], [UP, Tunnel(true, true), UP]),
           [Conn(Some(0), true), Conn(Some(1), false), Conn(Some(2), true)], map["h" := 3])

  lemma OverlapConnects()
    ensures Run(Overlap()[..3]) == CONNECTED
  {
    hide Run, ClosesNow, EvictsNow, WellFormed, GoodPrevious, OwnsItsRegistration;
    var e := Overlap();
    OneMore(e, 0);
    OneMore(e, 1);
    OneMore(e, 2);
  }

  lemma OverlapRegisters()
    ensures Run(Overlap()[..4]) == REGISTERED
  {
    hide Run, ClosesNow, EvictsNow, WellFormed, GoodPrevious, OwnsItsRegistration;
    var e := Overlap();
    OverlapConnects();
    OneMore(e, 3);
  }

  lemma OverlapCommits()
    ensures Run(Overlap()[..5]) == COMMITTED_ONCE
  {
    hide Run, ClosesNow, EvictsNow, WellFormed, GoodPrevious, OwnsItsRegistration;
    var e := Overlap();
    OverlapRegisters();
    OneMore(e, 4);
  }

  lemma OverlapPends()
    ensures Run(Overlap()[..6]) == PENDING
  {
    hide Run, ClosesNow, EvictsNow, WellFormed, GoodPrevious, OwnsItsRegistration;
    var e := Overlap();
    OverlapCommits();
    OneMore(e, 5);
  }

  lemma OverlapOvertakes()
    ensures Run(Overlap()[..7]) == OVERTAKEN
  {
    hide Run, ClosesNow, EvictsNow, WellFormed, GoodPrevious, OwnsItsRegistration;
    var e := Overlap();
    OverlapPends();
    OneMore(e, 6);
  }

  lemma OverlapGoesOn()
    ensures Run(Overlap()[..8]) == OVERTAKEN
  {
    hide Run, ClosesNow, EvictsNow, WellFormed, GoodPrevious, OwnsItsRegistration;
    var e := Overlap();
    OverlapOvertakes();
    OneMore(e, 7);
  }

  lemma OverlapEnds()
    ensures Run(Overlap()) == TWO_LIVE
  {
    hide Run, ClosesNow, EvictsNow, WellFormed, GoodPrevious, OwnsItsRegistration;
    var e := Overlap();
    OverlapGoesOn();
    OneMore(e, 8);
    assert e[..9] == e;
  }

  /** Of the registry alone: committing over a pending registration leaves the one behind it live and unfenced. */
  lemma OverlapLeavesTwoLive()
    ensures var s := Run(Overlap());
            |s.conns| == 3 && Live(s, 0) && Live(s, 2) && !OneLive(s) && !GuardedRun(Overlap())
  {
    hide Run, Next, Fenced, Guarded;
    OverlapEnds();
    var s := Run(Overlap());
    assert Live(s, 0) && Live(s, 2);
    assert s.t.regs[0].home == s.t.regs[2].home;
    if GuardedRun(Overlap()) {
      FencedIffGuarded(Overlap());
      assert Overlap()[..9] == Overlap();
      FencedIsOneLive(s);
    }
  }
}
