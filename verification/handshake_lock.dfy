/**
 The relay server takes one lock around a home's hello, its acknowledgement and its
 commit.  Under that lock only the eviction of a home whose handshake is under way can
 break the fence.
 */
module HandshakeLock {
  import opened Wrappers
  import opened Registry
  import opened Fencing

  /** Whether the hello registers, and so keeps the lock until the connection commits or closes. */
  predicate Registers(s: System, c: nat, home: string, generation: int)
    requires Sane(s)
  {
    c < |s.conns| && s.conns[c].reg.None? && Accepts(s.t, home, generation)
  }

  /** The connection that is between its registration and its commit or close. */
  function HolderAfter(s: System, holder: Option<nat>, e: Event): Option<nat>
    requires Sane(s)
  {
    match e
    case SaysHello(c, home, generation) => if Registers(s, c, home, generation) then Some(c) else holder
    case Commits(c) => if holder == Some(c) then None else holder
    case Closes(c) => if holder == Some(c) then None else holder
    case _ => holder
  }

  function Holder(events: seq<Event>): Option<nat> {
    if events == [] then None
    else HolderAfter(Run(events[..|events| - 1]), Holder(events[..|events| - 1]), events[|events| - 1])
  }

  /** A hello needs the lock free, and a commit belongs to the handshake that holds it. */
  predicate Respects(holder: Option<nat>, e: Event) {
    && (e.SaysHello? ==> holder.None?)
    && (e.Commits? ==> holder == Some(e.conn))
  }

  predicate Locked(events: seq<Event>) {
    events == []
    || var init, last := events[..|events| - 1], events[|events| - 1];
       Locked(init) && Respects(Holder(init), last)
  }

  // ------------------------------------------------------ what the lock gives

  /** An entry is committed or the holder's, and one that it stands in front of is committed. */
  predicate EntryInOrder(s: System, holder: Option<nat>, h: string)
    requires Sane(s) && h in s.t.homes
  {
    var r := s.t.homes[h];
    assert GoodPrevious(s.t, r);
    && (s.conns[s.t.regs[r].tunnel].committed || holder == Some(s.t.regs[r].tunnel))
    && (s.t.regs[r].previous.Some? ==> s.conns[s.t.regs[s.t.regs[r].previous.value].tunnel].committed)
  }

  predicate InOrder(s: System, holder: Option<nat>)
    requires Sane(s)
  {
    forall h | h in s.t.homes :: EntryInOrder(s, holder, h)
  }

  lemma HelloInOrder(s: System, c: nat, home: string, generation: int)
    requires Sane(s) && InOrder(s, None)
    ensures var e := SaysHello(c, home, generation);
            Sane(Next(s, e)) && InOrder(Next(s, e), HolderAfter(s, None, e))
  {
    HelloIsSane(s, c, home, generation);
    var e := SaysHello(c, home, generation);
    var s' := Next(s, e);
    forall h | h in s'.t.homes
      ensures EntryInOrder(s', HolderAfter(s, None, e), h)
    {
      assert h in s.t.homes ==> EntryInOrder(s, None, h) && GoodPrevious(s.t, s.t.homes[h]);
      if h in s.t.homes {
        assert OwnsItsRegistration(s, s.t.regs[s.t.homes[h]].tunnel);
      }
    }
  }

  lemma CommitInOrder(s: System, c: nat)
    requires Sane(s) && InOrder(s, Some(c))
    ensures Sane(CommitsNow(s, c)) && InOrder(CommitsNow(s, c), None)
  {
    CommitIsSane(s, c);
    var s' := CommitsNow(s, c);
    forall h | h in s'.t.homes
      ensures EntryInOrder(s', None, h)
    {
      assert EntryInOrder(s, Some(c), h) && GoodPrevious(s.t, s.t.homes[h]);
      if s.t.regs[s.t.homes[h]].tunnel == c {
        assert OwnsItsRegistration(s, c);
      }
    }
  }

  lemma CloseInOrder(s: System, holder: Option<nat>, c: nat)
    requires Sane(s) && InOrder(s, holder) && c < |s.conns|
    ensures Sane(ClosesNow(s, c)) && InOrder(ClosesNow(s, c), HolderAfter(s, holder, Closes(c)))
  {
    CloseIsSane(s, c);
    CloseTouchesOwnEntry(s, c);
    var s' := ClosesNow(s, c);
    forall h | h in s'.t.homes
      ensures EntryInOrder(s', HolderAfter(s, holder, Closes(c)), h)
    {
      assert EntryInOrder(s, holder, h) && GoodPrevious(s.t, s.t.homes[h]);
      CloseOnlyForgets(s, c, s'.t.homes[h]);
      CloseLeavesEntry(s, holder, c, h);
    }
  }

  lemma CloseLeavesEntry(s: System, holder: Option<nat>, c: nat, h: string)
    requires Sane(s) && InOrder(s, holder) && c < |s.conns| && Sane(ClosesNow(s, c)) && h in ClosesNow(s, c).t.homes
    requires h in s.t.homes && EntryInOrder(s, holder, h)
    ensures EntryInOrder(ClosesNow(s, c), HolderAfter(s, holder, Closes(c)), h)
  {
    var s', r := ClosesNow(s, c), s.t.homes[h];
    assert OwnsItsRegistration(s, c) && GoodPrevious(s.t, r);
    assert OwnsItsRegistration(s, s.t.regs[r].tunnel);
    CloseTouchesOwnEntry(s, c);
    CloseOnlyForgets(s, c, r);
    if s.conns[c].reg == Some(r) {
      var p := s.t.regs[r].previous.value;
      assert OwnsItsRegistration(s, s.t.regs[p].tunnel);
      CloseOnlyForgets(s, c, p);
      hide ClosesNow, WellFormed, TailIsDead;
    } else {
      SameEntry(s, c, r);
      hide ClosesNow, WellFormed, TailIsDead;
    }
  }

  lemma SameEntry(s: System, c: nat, r: nat)
    requires Sane(s) && c < |s.conns| && r < |s.t.regs| && s.conns[c].reg != Some(r)
    ensures |ClosesNow(s, c).t.regs| == |s.t.regs| && ClosesNow(s, c).t.regs[r] == s.t.regs[r]
  {
  }

  lemma OthersInOrder(s: System, holder: Option<nat>, e: Event)
    requires Sane(s) && InOrder(s, holder) && (e.Connect? || e.Evicts?)
    ensures Sane(Next(s, e)) && InOrder(Next(s, e), holder)
  {
    OtherStepsAreSane(s, e);
    var s' := Next(s, e);
    forall h | h in s'.t.homes
      ensures EntryInOrder(s', holder, h)
    {
      assert EntryInOrder(s, holder, h) && GoodPrevious(s.t, s.t.homes[h]);
    }
  }

  lemma StepInOrder(s: System, holder: Option<nat>, e: Event)
    requires Sane(s) && InOrder(s, holder) && Respects(holder, e)
    ensures Sane(Next(s, e)) && InOrder(Next(s, e), HolderAfter(s, holder, e))
  {
    match e {
      case SaysHello(c, home, generation) => HelloInOrder(s, c, home, generation);
      case Commits(c) => CommitInOrder(s, c);
      case Closes(c) =>
        if c < |s.conns| {
          CloseInOrder(s, holder, c);
        } else {
          StaleHolder(s, holder, c);
        }
      case _ => OthersInOrder(s, holder, e);
    }
  }

  lemma StaleHolder(s: System, holder: Option<nat>, c: nat)
    requires Sane(s) && InOrder(s, holder) && c >= |s.conns|
    ensures Sane(Next(s, Closes(c))) && InOrder(Next(s, Closes(c)), HolderAfter(s, holder, Closes(c)))
  {
    forall h | h in s.t.homes
      ensures EntryInOrder(s, HolderAfter(s, holder, Closes(c)), h)
    {
      assert EntryInOrder(s, holder, h);
    }
  }

  lemma {:induction false} LockedRunsAreInOrder(events: seq<Event>)
    requires Locked(events)
    ensures InOrder(Run(events), Holder(events))
  {
    if events != [] {
      hide Next, Respects, InOrder, Sane;
      LockedRunsAreInOrder(events[..|events| - 1]);
      StepInOrder(Run(events[..|events| - 1]), Holder(events[..|events| - 1]), events[|events| - 1]);
    }
  }

  // ------------------------------------------------------ main result

  /** Under the lock no commit goes over a live connection. */
  lemma LockedCommitsAreGuarded(s: System, holder: Option<nat>, e: Event)
    requires Sane(s) && InOrder(s, holder) && !e.Evicts?
    ensures Guarded(s, e)
  {
    if e.Commits? && CanCommit(s, e.conn) {
      var r := s.conns[e.conn].reg.value;
      assert EntryInOrder(s, holder, s.t.regs[r].home) && GoodPrevious(s.t, r);
      if s.t.regs[r].previous.Some? {
        var p := s.t.regs[r].previous.value;
        assert OwnsItsRegistration(s, s.t.regs[p].tunnel);
      }
    }
  }

  /** The eviction meets a handshake of the home, with a live connection behind it. */
  predicate EvictsHandshake(s: System, holder: Option<nat>, e: Event)
    requires Sane(s)
  {
    && e.Evicts? && e.home in s.t.homes
    && var r := s.t.homes[e.home];
       && holder == Some(s.t.regs[r].tunnel) && s.t.regs[r].previous.Some?
       && !TailIsDead(s, r)
  }

  lemma EvictionGuardedIff(s: System, holder: Option<nat>, e: Event)
    requires Sane(s) && InOrder(s, holder) && e.Evicts?
    ensures Guarded(s, e) <==> !EvictsHandshake(s, holder, e)
  {
    if e.home in s.t.homes {
      var r := s.t.homes[e.home];
      assert EntryInOrder(s, holder, e.home) && GoodPrevious(s.t, r);
      assert OwnsItsRegistration(s, s.t.regs[r].tunnel);
    }
  }

  predicate SparesHandshakes(events: seq<Event>) {
    forall k | 0 <= k < |events| :: !EvictsHandshake(Run(events[..k]), Holder(events[..k]), events[k])
  }

  lemma LockedStepGuardedIff(s: System, holder: Option<nat>, e: Event)
    requires Sane(s) && InOrder(s, holder)
    ensures Guarded(s, e) <==> !EvictsHandshake(s, holder, e)
  {
    if e.Evicts? {
      EvictionGuardedIff(s, holder, e);
    } else {
      LockedCommitsAreGuarded(s, holder, e);
    }
  }

  lemma {:induction false} LockedPrefix(events: seq<Event>, k: nat)
    requires Locked(events) && k <= |events|
    ensures Locked(events[..k])
  {
    hide Holder, Respects;
    if k < |events| {
      assert events[..|events| - 1][..k] == events[..k];
      LockedPrefix(events[..|events| - 1], k);
    } else {
      assert events[..k] == events;
    }
  }

  /**
   With the server's lock around each handshake, a run is fenced throughout exactly when
   no eviction meets a handshake of its home that has a live connection behind it.
   */
  lemma LockedIsFencedIff(events: seq<Event>)
    requires Locked(events)
    ensures FencedThroughout(events) <==> SparesHandshakes(events)
  {
    FencedIffGuarded(events);
    forall k | 0 <= k < |events|
      ensures Guarded(Run(events[..k]), events[k])
         <==> !EvictsHandshake(Run(events[..k]), Holder(events[..k]), events[k])
    {
      LockedPrefix(events, k);
      LockedRunsAreInOrder(events[..k]);
      LockedStepGuardedIff(Run(events[..k]), Holder(events[..k]), events[k]);
    }
    hide Run, Guarded, EvictsHandshake, Fenced;
  }

  // ------------------------------------------------------ the eviction that breaks it

  lemma HolderOneMore(events: seq<Event>, k: nat)
    requires k < |events|
    ensures Holder(events[..k + 1]) == HolderAfter(Run(events[..k]), Holder(events[..k]), events[k])
    ensures Holder(events[..0]) == None
  {
    assert events[..k + 1][..k] == events[..k];
  }

  /** Who holds the lock while the handshakes of `Overlap` begin. */
  lemma OverlapHolders()
    ensures var e := Overlap();
            && Holder(e[..0]) == Holder(e[..1]) == Holder(e[..2]) == Holder(e[..3]) == None
            && Holder(e[..4]) == Some(0) && Holder(e[..5]) == None && Holder(e[..6]) == Some(1)
  {
    var e := Overlap();
    OverlapConnects();
    OverlapCommits();
    hide Run, Holder, Sane;
    HolderOneMore(e, 0);
    HolderOneMore(e, 1);
    HolderOneMore(e, 2);
    HolderOneMore(e, 3);
    HolderOneMore(e, 4);
    HolderOneMore(e, 5);
  }

  /** The overlapping handshakes do not respect the lock, so the server never lets the registry see them. */
  lemma OverlapIsNotLocked()
    ensures !Locked(Overlap())
  {
    hide Holder, Overlap;
    OverlapEvents();
    OverlapHolders();
    assert Overlap()[..7][..6] == Overlap()[..6];
    if Locked(Overlap()) {
      LockedPrefix(Overlap(), 7);
    }
  }

  /** One handshake done, a second under way when the home is evicted. */
  function EvictedHandshake(): seq<Event> {
    Overlap()[..6] + [Evicts("h")]
  }

  lemma EvictsPending(s: System)
    requires s == PENDING && Sane(s)
    ensures Next(s, Evicts("h"))
         == System(Tables(map[], [FIRST, SECOND], [UP, Tunnel(true, true), UP]), PENDING.conns, map[])
  {
    hide Sane, WellFormed, CommitsNow, ClosesNow, Hellos;
    assert s.t.homes["h"] == 1;
  }

  lemma EvictedState()
    ensures Run(EvictedHandshake())
         == System(Tables(map[], [FIRST, SECOND], [UP, Tunnel(true, true), UP]), PENDING.conns, map[])
  {
    hide Run, Next, Overlap, EvictedHandshake;
    var e := EvictedHandshake();
    EvictedEvents();
    OverlapPends();
    OneMore(e, 6);
    EvictsPending(Run(Overlap()[..6]));
  }

  lemma LockedOneMore(events: seq<Event>, k: nat)
    requires k < |events| && Locked(events[..k]) && Respects(Holder(events[..k]), events[k])
    ensures Locked(events[..k + 1])
  {
    assert events[..k + 1][..k] == events[..k];
  }

  lemma OverlapEvents()
    ensures var e := Overlap();
            && |e| == 9 && e[..0] == [] && e[0] == e[1] == e[2] == Connect && e[3].SaysHello?
            && e[4] == Commits(0) && e[5].SaysHello? && e[6].SaysHello?
  {
  }

  lemma OverlapBeginsLocked()
    ensures Locked(Overlap()[..6])
  {
    hide Holder, Locked, Overlap;
    OverlapEvents();
    OverlapHolders();
    assert Locked([]) by { NothingIsLocked(); }
    LockedOneMore(Overlap(), 0);
    LockedOneMore(Overlap(), 1);
    LockedOneMore(Overlap(), 2);
    LockedOneMore(Overlap(), 3);
    LockedOneMore(Overlap(), 4);
    LockedOneMore(Overlap(), 5);
  }

  lemma NothingIsLocked()
    ensures Locked([])
  {
  }

  lemma EvictedEvents()
    ensures var e := EvictedHandshake();
            |e| == 7 && e[..6] == Overlap()[..6] && e[..7] == e && e[6] == Evicts("h")
  {
  }

  lemma EvictedIsLocked()
    ensures Locked(EvictedHandshake())
  {
    hide Holder, Locked, Overlap, EvictedHandshake;
    EvictedEvents();
    OverlapBeginsLocked();
    LockedOneMore(EvictedHandshake(), 6);
  }

  /** The lock is respected, and still the first connection is left live with no entry leading to it. */
  lemma EvictionBreaksTheFence()
    ensures Locked(EvictedHandshake())
    ensures var s := Run(EvictedHandshake());
            !Fenced(s) && "h" !in s.t.homes && |s.conns| > 0 && Live(s, 0) && OneLive(s)
  {
    EvictedIsLocked();
    EvictedState();
    hide Run, Next, Locked, EvictedHandshake;
    var s := Run(EvictedHandshake());
    assert Live(s, 0) && !AtTail(s, 0);
    assert forall c | 0 < c < |s.conns| :: !Live(s, c);
  }
}
