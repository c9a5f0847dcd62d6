/**
 One home's dial-in from end to end, at any moment of any run: what a handshake that is
 completed, refused or abandoned leaves of the registry.
 */
module Handshakes {
  import opened Wrappers
  import opened Registry
  import opened Fencing

  /** The generation in force for a home. */
  function InForce(s: System, home: string): Option<int>
    requires Sane(s)
  {
    if home in s.t.homes then Some(s.t.regs[s.t.homes[home]].generation) else None
  }

  /** The connection whose registration is the home's entry. */
  function EntryOf(s: System, home: string): Option<nat>
    requires Sane(s)
  {
    if home in s.t.homes then Some(s.t.regs[s.t.homes[home]].tunnel) else None
  }

  predicate Newer(s: System, home: string, generation: int)
    requires Sane(s)
  {
    InForce(s, home) == None || generation > InForce(s, home).value
  }

  /** Nothing about any other home has changed. */
  ghost predicate OthersKept(s: System, s': System, home: string)
    requires Sane(s) && Sane(s')
  {
    forall h | h != home :: InForce(s', h) == InForce(s, h) && EntryOf(s', h) == EntryOf(s, h)
  }

  function Connected(s: System): (s': System)
    requires Sane(s)
    ensures Sane(s')
  {
    NextIsSane(s, Connect);
    Next(s, Connect)
  }

  function SaidHello(s: System, home: string, generation: int): (s': System)
    requires Sane(s)
    ensures Sane(s')
  {
    NextIsSane(Connected(s), SaysHello(|s.conns|, home, generation));
    Next(Connected(s), SaysHello(|s.conns|, home, generation))
  }

  /** A home dials in, its hello is taken, and its acknowledgement arrives. */
  function DialledIn(s: System, home: string, generation: int): (s': System)
    requires Sane(s)
    ensures Sane(s')
  {
    NextIsSane(SaidHello(s, home, generation), Commits(|s.conns|));
    Next(SaidHello(s, home, generation), Commits(|s.conns|))
  }

  /** A home dials in, and is gone before its acknowledgement arrives. */
  function GaveUp(s: System, home: string, generation: int): (s': System)
    requires Sane(s)
    ensures Sane(s')
  {
    NextIsSane(SaidHello(s, home, generation), Closes(|s.conns|));
    Next(SaidHello(s, home, generation), Closes(|s.conns|))
  }

  /** A hello that is not newer changes nothing at all. */
  lemma StaleHelloIsRefused(s: System, home: string, generation: int)
    requires Sane(s) && !Newer(s, home, generation)
    ensures SaidHello(s, home, generation) == Connected(s)
  {
  }

  lemma HelloEntersTable(s: System, home: string, generation: int)
    requires Sane(s) && Newer(s, home, generation)
    ensures var s', c := SaidHello(s, home, generation), |s.conns|;
            && |s'.conns| == c + 1 && s'.conns[c] == Conn(Some(|s.t.regs|), false)
            && s'.t.homes == s.t.homes[home := |s.t.regs|]
            && |s'.t.regs| == |s.t.regs| + 1 && s'.t.regs[..|s.t.regs|] == s.t.regs
            && s'.t.regs[|s.t.regs|] ==
                 Registration(home, generation, c, if home in s.t.homes then Some(s.t.homes[home]) else None)
            && s'.t.tunnels == s.t.tunnels + [Tunnel(false, false)]
  {
  }

  /**
   Until its acknowledgement has arrived a newer home is only waiting: it is the entry,
   but whoever was live still is.
   */
  lemma HelloFencesNobody(s: System, home: string, generation: int)
    requires Sane(s) && Newer(s, home, generation)
    ensures var s', c := SaidHello(s, home, generation), |s.conns|;
            && InForce(s', home) == Some(generation) && EntryOf(s', home) == Some(c) && !Live(s', c)
            && (forall d | 0 <= d < c :: Live(s', d) <==> Live(s, d))
            && OthersKept(s, s', home)
  {
    HelloEntersTable(s, home, generation);
    var s' := SaidHello(s, home, generation);
    assert forall r | 0 <= r < |s.t.regs| :: s'.t.regs[..|s.t.regs|][r] == s'.t.regs[r];
    hide WellFormed, GoodPrevious;
  }

  /** Registrations of one table that another still has, but for what is behind them. */
  predicate SameButPrevious(t: Tables, t': Tables) {
    && |t'.regs| == |t.regs|
    && forall r | 0 <= r < |t.regs| :: t'.regs[r].(previous := t.regs[r].previous) == t.regs[r]
  }

  lemma CommitEffects(s: System, c: nat)
    requires Sane(s) && CanCommit(s, c)
    ensures Sane(CommitsNow(s, c)) && s.conns[c].reg.value < |s.t.regs|
    ensures var s', r := CommitsNow(s, c), s.conns[c].reg.value;
            && s'.t.homes == s.t.homes && SameButPrevious(s.t, s'.t)
            && s'.conns == s.conns[c := Conn(Some(r), true)]
            && match s.t.regs[r].previous
               case None => s'.t.tunnels == s.t.tunnels
               case Some(p) =>
                 && p < |s.t.regs| && s.t.regs[p].tunnel < |s.t.tunnels|
                 && s'.t.tunnels == s.t.tunnels[s.t.regs[p].tunnel := Tunnel(true, true)]
  {
    CommitIsSane(s, c);
    assert OwnsItsRegistration(s, c) && GoodPrevious(s.t, s.conns[c].reg.value);
  }

  lemma SameEntries(s: System, s': System, home: string)
    requires Sane(s) && Sane(s') && s'.t.homes == s.t.homes && SameButPrevious(s.t, s'.t)
    ensures InForce(s', home) == InForce(s, home) && EntryOf(s', home) == EntryOf(s, home)
  {
    if home in s.t.homes {
      var r := s.t.homes[home];
      assert s'.t.regs[r].(previous := s.t.regs[r].previous) == s.t.regs[r];
    }
  }

  lemma HelloCanCommit(s: System, home: string, generation: int)
    requires Sane(s) && Newer(s, home, generation)
    ensures CanCommit(SaidHello(s, home, generation), |s.conns|)
    ensures DialledIn(s, home, generation) == CommitsNow(SaidHello(s, home, generation), |s.conns|)
  {
    HelloEntersTable(s, home, generation);
    var s' := SaidHello(s, home, generation);
    hide SaidHello, WellFormed, GoodPrevious;
    assert OwnsItsRegistration(s', |s.conns|);
  }

  /**
   A newer home that completes its handshake takes over: its connection is live and is the
   entry, with its own generation; the connection that was the entry is fenced, and every
   other one is as live as before.
   */
  lemma HandshakeTakesOver(s: System, home: string, generation: int)
    requires Sane(s) && Newer(s, home, generation)
    ensures var s', c := DialledIn(s, home, generation), |s.conns|;
            && |s'.conns| == c + 1
            && InForce(s', home) == Some(generation) && EntryOf(s', home) == Some(c) && Live(s', c)
            && (forall d | 0 <= d < c :: Live(s', d) <==> Live(s, d) && EntryOf(s, home) != Some(d))
            && (EntryOf(s, home).Some? ==> s'.t.tunnels[EntryOf(s, home).value] == Tunnel(true, true))
            && OthersKept(s, s', home)
  {
    var s1, s', c := SaidHello(s, home, generation), DialledIn(s, home, generation), |s.conns|;
    HelloEntersTable(s, home, generation);
    HelloFencesNobody(s, home, generation);
    HelloCanCommit(s, home, generation);
    CommitEffects(s1, c);
    assert home in s.t.homes ==> s1.t.regs[s.t.homes[home]] == s.t.regs[s.t.homes[home]] by {
      assert home in s.t.homes ==> s1.t.regs[..|s.t.regs|][s.t.homes[home]] == s1.t.regs[s.t.homes[home]];
    }
    hide SaidHello, DialledIn, WellFormed, GoodPrevious, CommitsNow, CanCommit, InForce, SameButPrevious;
    forall h: string
      ensures InForce(s', h) == InForce(s1, h) && EntryOf(s', h) == EntryOf(s1, h)
    {
      SameEntries(s1, s', h);
    }
    assert EntryOf(s, home) == if home in s.t.homes then Some(s1.t.regs[s.t.homes[home]].tunnel) else None;
  }

  lemma CloseEffects(s: System, c: nat)
    requires Sane(s) && c < |s.conns|
    ensures Sane(ClosesNow(s, c)) && ClosesNow(s, c).conns == s.conns
    ensures SameButPrevious(s.t, ClosesNow(s, c).t)
  {
    CloseIsSane(s, c);
  }

  /** What a table of entries shows of the homes does not depend on what is behind them. */
  lemma SameShown(s: System, s': System, s'': System)
    requires Sane(s) && Sane(s') && Sane(s'')
    requires s''.t.homes == s.t.homes && |s.t.regs| <= |s'.t.regs| && SameButPrevious(s'.t, s''.t)
    requires s'.t.regs[..|s.t.regs|] == s.t.regs
    ensures forall h :: InForce(s'', h) == InForce(s, h) && EntryOf(s'', h) == EntryOf(s, h)
  {
    forall h | h in s.t.homes
      ensures InForce(s'', h) == InForce(s, h) && EntryOf(s'', h) == EntryOf(s, h)
    {
      var r := s.t.homes[h];
      assert s'.t.regs[..|s.t.regs|][r] == s'.t.regs[r];
      assert s''.t.regs[r].(previous := s'.t.regs[r].previous) == s'.t.regs[r];
    }
  }

  lemma RefusedAndClosed(s: System, home: string, generation: int)
    requires Sane(s) && !Newer(s, home, generation)
    ensures GaveUp(s, home, generation).t.homes == s.t.homes
  {
    StaleHelloIsRefused(s, home, generation);
    hide SaidHello;
    CloseTouchesOwnEntry(Connected(s), |s.conns|);
    hide ClosesNow, WellFormed, GoodPrevious;
  }

  lemma GaveUpIsClosed(s: System, home: string, generation: int)
    requires Sane(s)
    ensures GaveUp(s, home, generation) == ClosesNow(SaidHello(s, home, generation), |s.conns|)
  {
  }

  lemma EntriesExist(s: System)
    requires Sane(s)
    ensures forall h | h in s.t.homes :: s.t.homes[h] < |s.t.regs|
  {
  }

  lemma TakenAndClosed(s: System, home: string, generation: int)
    requires Sane(s) && Newer(s, home, generation)
    ensures GaveUp(s, home, generation).t.homes == s.t.homes
  {
    var s1, c := SaidHello(s, home, generation), |s.conns|;
    HelloEntersTable(s, home, generation);
    GaveUpIsClosed(s, home, generation);
    EntriesExist(s);
    hide *;
    CloseTouchesOwnEntry(s1, c);
    var homes := ClosesNow(s1, c).t.homes;
    forall h | h in s1.t.homes.Keys + homes.Keys
      ensures h in homes <==> h in s.t.homes
      ensures h in homes ==> homes[h] == s.t.homes[h]
    {
    }
    assert homes.Keys == s.t.homes.Keys;
  }

  lemma HelloAddsNoLive(s: System, home: string, generation: int)
    requires Sane(s)
    ensures var s1, c := SaidHello(s, home, generation), |s.conns|;
            && |s1.conns| == c + 1 && |s1.t.tunnels| == c + 1 && !s1.conns[c].committed
            && s1.conns[..c] == s.conns && s1.t.tunnels[..c] == s.t.tunnels
            && |s.t.regs| <= |s1.t.regs| && s1.t.regs[..|s.t.regs|] == s.t.regs
  {
    if Newer(s, home, generation) {
      HelloEntersTable(s, home, generation);
    } else {
      StaleHelloIsRefused(s, home, generation);
    }
  }

  /** A handshake that is abandoned, or refused, leaves every home as it was, and nobody fenced. */
  lemma AbandonedHandshakeIsUndone(s: System, home: string, generation: int)
    requires Sane(s)
    ensures var s', c := GaveUp(s, home, generation), |s.conns|;
            && |s'.conns| == c + 1 && s'.t.homes == s.t.homes && !Live(s', c)
            && (forall d | 0 <= d < c :: Live(s', d) <==> Live(s, d))
            && InForce(s', home) == InForce(s, home) && OthersKept(s, s', home)
  {
    var s1, s', c := SaidHello(s, home, generation), GaveUp(s, home, generation), |s.conns|;
    GaveUpIsClosed(s, home, generation);
    HelloAddsNoLive(s, home, generation);
    CloseEffects(s1, c);
    CloseShutsOwnTunnel(s1, c);
    if Newer(s, home, generation) {
      TakenAndClosed(s, home, generation);
    } else {
      RefusedAndClosed(s, home, generation);
    }
    hide SaidHello, GaveUp, ClosesNow, WellFormed, GoodPrevious, SameButPrevious;
    SameShown(s, s1, s');
    hide InForce, EntryOf;
    forall d | 0 <= d < c
      ensures Live(s', d) <==> Live(s, d)
    {
      assert s1.conns[..c][d] == s1.conns[d] && s1.t.tunnels[..c][d] == s1.t.tunnels[d];
    }
  }

  /** A live connection that closes while it is the entry frees its home for any generation; other homes stay. */
  lemma ClosingFreesHome(s: System, c: nat, home: string, generation: int)
    requires Sane(s) && c < |s.conns| && s.conns[c].committed && EntryOf(s, home) == Some(c)
    ensures Sane(ClosesNow(s, c))
    ensures var s' := ClosesNow(s, c);
            InForce(s', home) == None && Newer(s', home, generation) && OthersKept(s, s', home)
  {
    CloseIsSane(s, c);
    CloseTouchesOwnEntry(s, c);
  }
}
