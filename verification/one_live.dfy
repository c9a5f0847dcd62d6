/**
 Exactly when the home registry, used by connections in any interleaving, keeps at most
 one live connection for each home.
 */
module OneLivePerHome {
  import opened Wrappers
  import opened Registry
  import opened Fencing

  function HomeOf(s: System, c: nat): string
    requires Sane(s) && c < |s.conns| && s.conns[c].reg.Some?
  {
    assert OwnsItsRegistration(s, c);
    s.t.regs[s.conns[c].reg.value].home
  }

  /** Another live connection of the same home, and not the one that this commit fences. */
  predicate Survives(s: System, c: nat, d: nat)
    requires Sane(s) && CanCommit(s, c) && d < |s.conns|
  {
    && d != c && Live(s, d) && OwnsItsRegistration(s, d) && HomeOf(s, d) == HomeOf(s, c)
    && s.t.regs[s.conns[c].reg.value].previous != s.conns[d].reg
  }

  /** An open connection commits beside a live one of its home that is not directly behind it. */
  predicate Clashes(s: System, e: Event)
    requires Sane(s)
  {
    && e.Commits? && CanCommit(s, e.conn) && !s.t.tunnels[e.conn].closed
    && exists d | 0 <= d < |s.conns| :: Survives(s, e.conn, d)
  }

  /** What a step does to live connections: it makes none but by a commit, and moves none to another home. */
  lemma LiveBefore(s: System, e: Event, d: nat)
    requires Sane(s) && Sane(Next(s, e)) && d < |Next(s, e).conns| && Live(Next(s, e), d)
    requires !(e.Commits? && CanCommit(s, e.conn) && e.conn == d)
    ensures d < |s.conns| && Live(s, d)
    ensures OwnsItsRegistration(s, d) && OwnsItsRegistration(Next(s, e), d) && HomeOf(Next(s, e), d) == HomeOf(s, d)
  {
    assert OwnsItsRegistration(Next(s, e), d);
    assert d < |s.conns| ==> OwnsItsRegistration(s, d);
  }

  predicate Apart(s: System, c: nat, d: nat)
    requires Sane(s) && c < |s.conns| && d < |s.conns| && Live(s, c) && Live(s, d)
  {
    OwnsItsRegistration(s, c) && OwnsItsRegistration(s, d) && HomeOf(s, c) != HomeOf(s, d)
  }

  lemma OneLiveIsApart(s: System)
    requires Sane(s)
    ensures OneLive(s) <==> forall c, d | 0 <= c < d < |s.conns| && Live(s, c) && Live(s, d) :: Apart(s, c, d)
  {
    if OneLive(s) {
      forall c, d | 0 <= c < d < |s.conns| && Live(s, c) && Live(s, d)
        ensures Apart(s, c, d)
      {
        assert OwnsItsRegistration(s, c) && OwnsItsRegistration(s, d);
      }
    }
    if forall c, d | 0 <= c < d < |s.conns| && Live(s, c) && Live(s, d) :: Apart(s, c, d) {
      forall c, d | 0 <= c < d < |s.conns| && Live(s, c) && Live(s, d)
        ensures OwnsItsRegistration(s, c) && OwnsItsRegistration(s, d)
        ensures s.t.regs[s.conns[c].reg.value].home != s.t.regs[s.conns[d].reg.value].home
      {
        assert Apart(s, c, d);
      }
    }
  }

  /** After a commit, a live connection other than the committing one was live before and is not the fenced one. */
  lemma AfterCommit(s: System, c: nat, d: nat)
    requires Sane(s) && CanCommit(s, c) && d < |s.conns| && d != c
    ensures Sane(CommitsNow(s, c))
    ensures OwnsItsRegistration(s, c) && OwnsItsRegistration(s, d)
    ensures Live(CommitsNow(s, c), d) <==> Live(s, d) && s.t.regs[s.conns[c].reg.value].previous != s.conns[d].reg
  {
    CommitIsSane(s, c);
    assert OwnsItsRegistration(s, c) && OwnsItsRegistration(s, d);
    assert GoodPrevious(s.t, s.conns[c].reg.value);
  }

  lemma StepKeepsOneLiveIff(s: System, e: Event)
    requires Sane(s) && OneLive(s)
    ensures Sane(Next(s, e)) && (OneLive(Next(s, e)) <==> !Clashes(s, e))
  {
    NextIsSane(s, e);
    OneLiveIsApart(s);
    OneLiveIsApart(Next(s, e));
    if Clashes(s, e) {
      ClashLeavesTwo(s, e);
    } else {
      forall c, d | 0 <= c < d < |Next(s, e).conns| && Live(Next(s, e), c) && Live(Next(s, e), d)
        ensures Apart(Next(s, e), c, d)
      {
        NoClashKeepsApart(s, e, c, d);
      }
    }
  }

  lemma Committing(s: System, c: nat, d: nat)
    requires Sane(s) && CanCommit(s, c) && d < |s.conns| && !s.t.tunnels[c].closed && Survives(s, c, d)
    requires Sane(CommitsNow(s, c))
    ensures Live(CommitsNow(s, c), c)
    ensures CommitsNow(s, c).conns[d].reg.Some? && HomeOf(CommitsNow(s, c), c) == HomeOf(CommitsNow(s, c), d)
  {
    assert OwnsItsRegistration(s, c) && GoodPrevious(s.t, s.conns[c].reg.value);
    assert OwnsItsRegistration(CommitsNow(s, c), c) && OwnsItsRegistration(CommitsNow(s, c), d);
  }

  lemma ClashLeavesTwo(s: System, e: Event)
    requires Sane(s) && Clashes(s, e)
    ensures Sane(Next(s, e)) && !OneLive(Next(s, e))
  {
    NextIsSane(s, e);
    var c, s' := e.conn, Next(s, e);
    var d :| 0 <= d < |s.conns| && Survives(s, c, d);
    AfterCommit(s, c, d);
    OneLiveIsApart(s');
    Committing(s, c, d);
    hide Next, Sane, HomeOf, OneLive;
    assert !Apart(s', if c < d then c else d, if c < d then d else c);
  }

  lemma NoClashKeepsApart(s: System, e: Event, c: nat, d: nat)
    requires Sane(s) && OneLive(s) && !Clashes(s, e) && Sane(Next(s, e))
    requires c < d < |Next(s, e).conns| && Live(Next(s, e), c) && Live(Next(s, e), d)
    ensures Apart(Next(s, e), c, d)
  {
    OneLiveIsApart(s);
    assert OwnsItsRegistration(Next(s, e), c) && OwnsItsRegistration(Next(s, e), d);
    if e.Commits? && CanCommit(s, e.conn) && (e.conn == c || e.conn == d) {
      var other := if e.conn == c then d else c;
      AfterCommit(s, e.conn, other);
      LiveBefore(s, e, other);
      assert !Survives(s, e.conn, other);
      assert HomeOf(Next(s, e), e.conn) == HomeOf(s, e.conn);
    } else {
      LiveBefore(s, e, c);
      LiveBefore(s, e, d);
      assert Apart(s, c, d);
    }
  }

  predicate OneLiveThroughout(events: seq<Event>) {
    forall k | 0 <= k <= |events| :: OneLive(Run(events[..k]))
  }

  predicate ClashFree(events: seq<Event>) {
    forall k | 0 <= k < |events| :: !Clashes(Run(events[..k]), events[k])
  }

  lemma EmptyHasOneLive()
    ensures Sane(EMPTY) && OneLive(EMPTY)
  {
  }

  /** In every run, at most one connection per home is live at every moment exactly when no commit clashes. */
  lemma {:induction false} OneLiveIffClashFree(events: seq<Event>)
    ensures OneLiveThroughout(events) <==> ClashFree(events)
  {
    hide OneLive, Next, Clashes, Sane;
    if events == [] {
      EmptyHasOneLive();
      assert events[..0] == [];
    } else {
      var init, last := events[..|events| - 1], events[|events| - 1];
      OneLiveIffClashFree(init);
      assert forall k | 0 <= k <= |init| :: init[..k] == events[..k];
      assert events[..|events|] == events;
      assert OneLiveThroughout(events) <==> OneLiveThroughout(init) && OneLive(Run(events));
      assert ClashFree(events) <==> ClashFree(init) && !Clashes(Run(init), last);
      if OneLiveThroughout(init) {
        assert init[..|init|] == init;
        StepKeepsOneLiveIff(Run(init), last);
      }
    }
  }
}
