/**
 The relay's table of connected homes, and the connections that register in it.

 Registrations and tunnels are shared objects in the relay.  Here each is named by its
 place in a list that only grows, so that `is` is equality of places, a `previous`
 registration is a place, and updating one is updating the list at its place.
 */
module Registry {
  import opened Wrappers

  datatype Registration = Registration(home: string, generation: int, tunnel: nat, previous: Option<nat>)

  datatype Tunnel = Tunnel(closed: bool, evicted: bool)

  datatype Tables = Tables(homes: map<string, nat>, regs: seq<Registration>, tunnels: seq<Tunnel>)

  /** Every place that is named exists, and a previous registration is an older one of the same home. */
  predicate WellFormed(t: Tables) {
    && (forall h | h in t.homes :: t.homes[h] < |t.regs| && t.regs[t.homes[h]].home == h)
    && (forall r | 0 <= r < |t.regs| :: t.regs[r].tunnel < |t.tunnels| && GoodPrevious(t, r))
  }

  predicate GoodPrevious(t: Tables, r: nat)
    requires r < |t.regs|
  {
    t.regs[r].previous.Some? ==>
      var p := t.regs[r].previous.value;
      p < r && t.regs[p].home == t.regs[r].home && t.regs[p].generation < t.regs[r].generation
  }

  predicate IsCurrent(t: Tables, r: nat)
    requires r < |t.regs|
  {
    t.regs[r].home in t.homes && t.homes[t.regs[r].home] == r
  }

  predicate Accepts(t: Tables, home: string, generation: int)
    requires WellFormed(t)
  {
    home in t.homes ==> generation > t.regs[t.homes[home]].generation
  }

  function Registered(t: Tables, home: string, generation: int, tunnel: nat): Tables
    requires WellFormed(t)
  {
    if !Accepts(t, home, generation) then t
    else
      var previous := if home in t.homes then Some(t.homes[home]) else None;
      t.(homes := t.homes[home := |t.regs|], regs := t.regs + [Registration(home, generation, tunnel, previous)])
  }

  function Forgotten(t: Tables, r: nat): seq<Registration>
    requires r < |t.regs|
  {
    t.regs[r := t.regs[r].(previous := None)]
  }

  /** The previous registration's tunnel is fenced only when the new one is committed. */
  function Committed(t: Tables, r: nat): Tables
    requires WellFormed(t) && r < |t.regs|
  {
    if !IsCurrent(t, r) then t
    else
      t.(regs := Forgotten(t, r),
         tunnels := match t.regs[r].previous
                    case None => t.tunnels
                    case Some(p) => assert GoodPrevious(t, r); t.tunnels[t.regs[p].tunnel := Tunnel(true, true)])
  }

  function RolledBack(t: Tables, r: nat): Tables
    requires WellFormed(t) && r < |t.regs|
  {
    if !IsCurrent(t, r) then t
    else
      t.(regs := Forgotten(t, r),
         homes := match t.regs[r].previous
                  case None => t.homes - {t.regs[r].home}
                  case Some(p) => t.homes[t.regs[r].home := p])
  }

  predicate Holds(t: Tables, home: string, tunnel: nat)
    requires WellFormed(t)
  {
    home in t.homes && t.regs[t.homes[home]].tunnel == tunnel
  }

  function Unregistered(t: Tables, home: string, tunnel: nat): Tables
    requires WellFormed(t)
  {
    if Holds(t, home, tunnel) then t.(homes := t.homes - {home}) else t
  }

  function EvictedHome(t: Tables, home: string): Tables
    requires WellFormed(t)
  {
    if home !in t.homes then t
    else
      t.(homes := t.homes - {home}, tunnels := t.tunnels[t.regs[t.homes[home]].tunnel := Tunnel(true, true)])
  }

  function Shut(t: Tables, tunnel: nat): Tables
    requires tunnel < |t.tunnels|
  {
    t.(tunnels := t.tunnels[tunnel := t.tunnels[tunnel].(closed := true)])
  }

  // ------------------------------------------------------ the objects

  class HomeRegistry {
    var homes: map<string, nat>
    var regs: seq<Registration>
    var tunnels: seq<Tunnel>

    ghost function View(): Tables
      reads this
    {
      Tables(homes, regs, tunnels)
    }

    constructor ()
      ensures View() == Tables(map[], [], [])
    {
      homes, regs, tunnels := map[], [], [];
    }

    method NewTunnel() returns (tunnel: nat)
      requires WellFormed(View())
      modifies this
      ensures WellFormed(View()) && tunnel == |old(tunnels)|
      ensures View() == old(View()).(tunnels := old(tunnels) + [Tunnel(false, false)])
    {
      tunnel := |tunnels|;
      tunnels := tunnels + [Tunnel(false, false)];
    }

    /** Fences by generation and pins the tunnel; `home` is the one the device token maps to. */
    method Register(home: string, generation: int, tunnel: nat) returns (reg: Option<nat>)
      requires WellFormed(View()) && tunnel < |tunnels|
      modifies this
      ensures WellFormed(View()) && View() == Registered(old(View()), home, generation, tunnel)
      ensures reg == if Accepts(old(View()), home, generation) then Some(|old(regs)|) else None
    {
      var existing: Option<nat> := None;
      if home in homes {
        existing := Some(homes[home]);
        if generation <= regs[homes[home]].generation {
          return None;
        }
      }
      reg := Some(|regs|);
      homes := homes[home := |regs|];
      regs := regs + [Registration(home, generation, tunnel, existing)];
      assert forall r | 0 <= r < |regs| - 1 :: GoodPrevious(old(View()), r) ==> GoodPrevious(View(), r);
    }

    method Commit(reg: nat) returns (committed: bool)
      requires WellFormed(View()) && reg < |regs|
      modifies this
      ensures WellFormed(View()) && View() == Committed(old(View()), reg)
      ensures committed <==> IsCurrent(old(View()), reg)
    {
      var home := regs[reg].home;
      if home !in homes || homes[home] != reg {
        return false;
      }
      var previous := regs[reg].previous;
      assert GoodPrevious(View(), reg);
      regs := regs[reg := regs[reg].(previous := None)];
      if previous.Some? {
        tunnels := tunnels[regs[previous.value].tunnel := Tunnel(true, true)];
      }
      ForgettingIsWellFormed(old(View()), reg);
      return true;
    }

    method Rollback(reg: nat) returns (undone: bool)
      requires WellFormed(View()) && reg < |regs|
      modifies this
      ensures WellFormed(View()) && View() == RolledBack(old(View()), reg)
      ensures undone <==> IsCurrent(old(View()), reg)
    {
      var home := regs[reg].home;
      if home !in homes || homes[home] != reg {
        return false;
      }
      var previous := regs[reg].previous;
      assert GoodPrevious(View(), reg);
      regs := regs[reg := regs[reg].(previous := None)];
      if previous == None {
        homes := homes - {home};
      } else {
        homes := homes[home := previous.value];
      }
      ForgettingIsWellFormed(old(View()), reg);
      return true;
    }

    method Unregister(home: string, tunnel: nat) returns (removed: bool)
      requires WellFormed(View())
      modifies this
      ensures WellFormed(View()) && View() == Unregistered(old(View()), home, tunnel)
      ensures removed <==> Holds(old(View()), home, tunnel)
    {
      if home in homes && regs[homes[home]].tunnel == tunnel {
        homes := homes - {home};
        assert forall r | 0 <= r < |regs| :: GoodPrevious(old(View()), r) ==> GoodPrevious(View(), r);
        return true;
      }
      return false;
    }

    method EvictHome(home: string) returns (evicted: bool)
      requires WellFormed(View())
      modifies this
      ensures WellFormed(View()) && View() == EvictedHome(old(View()), home)
      ensures evicted <==> home in old(homes)
    {
      if home !in homes {
        return false;
      }
      var tunnel := regs[homes[home]].tunnel;
      homes := homes - {home};
      tunnels := tunnels[tunnel := Tunnel(true, true)];
      assert forall r | 0 <= r < |regs| :: GoodPrevious(old(View()), r) ==> GoodPrevious(View(), r);
      return true;
    }

    method ShutTunnel(tunnel: nat)
      requires WellFormed(View()) && tunnel < |tunnels|
      modifies this
      ensures WellFormed(View()) && View() == Shut(old(View()), tunnel)
    {
      tunnels := tunnels[tunnel := tunnels[tunnel].(closed := true)];
      assert forall r | 0 <= r < |regs| :: GoodPrevious(old(View()), r) ==> GoodPrevious(View(), r);
    }
  }

  lemma ForgettingIsWellFormed(t: Tables, r: nat)
    requires WellFormed(t) && r < |t.regs|
    ensures WellFormed(t.(regs := Forgotten(t, r)))
    ensures forall q | 0 <= q < |t.regs| :: GoodPrevious(t.(regs := Forgotten(t, r)), q)
  {
    forall q | 0 <= q < |t.regs|
      ensures GoodPrevious(t.(regs := Forgotten(t, r)), q)
    {
      assert GoodPrevious(t, q);
    }
  }

  /** Registering and then rolling back leaves the home table, the tunnels and every older registration as they were. */
  lemma RollbackUndoesRegister(t: Tables, home: string, generation: int, tunnel: nat)
    requires WellFormed(t) && tunnel < |t.tunnels| && Accepts(t, home, generation)
    ensures var t' := Registered(t, home, generation, tunnel);
            && WellFormed(t')
            && RolledBack(t', |t.regs|).homes == t.homes
            && RolledBack(t', |t.regs|).tunnels == t.tunnels
            && RolledBack(t', |t.regs|).regs[..|t.regs|] == t.regs
  {
    var t' := Registered(t, home, generation, tunnel);
    assert forall r | 0 <= r < |t.regs| :: GoodPrevious(t, r) ==> GoodPrevious(t', r);
  }

  // ------------------------------------------------------ connections

  const PROTO_VERSION: int := 1

  /** The first frame of a connection; `home` is `None` when its token is blank or unknown. */
  datatype Hello = Hello(isHello: bool, protoVersion: int, home: Option<string>, generation: int)

  class ScopeConnection {
    const registry: HomeRegistry
    const tunnel: nat
    var reg: Option<nat>
    var registered: bool
    var committed: bool

    ghost predicate Valid()
      reads this, registry
    {
      && WellFormed(registry.View())
      && tunnel < |registry.tunnels|
      && (reg.Some? ==> reg.value < |registry.regs|)
    }

    constructor (registry: HomeRegistry, tunnel: nat)
      requires WellFormed(registry.View()) && tunnel < |registry.tunnels|
      ensures this.registry == registry && this.tunnel == tunnel
      ensures Valid() && reg == None && !registered && !committed
    {
      this.registry, this.tunnel := registry, tunnel;
      reg, registered, committed := None, false, false;
    }

    /** The HELLO_ACK's `ok`: a first frame of the right type and version, a known token, a newer generation. */
    method HandleHello(frame: Hello, deferCommit: bool) returns (ok: bool)
      requires Valid()
      modifies this, registry
      ensures Valid()
      ensures ok <==> frame.isHello && frame.protoVersion == PROTO_VERSION && frame.home.Some?
                      && Accepts(old(registry.View()), frame.home.value, frame.generation)
      ensures !ok ==> registry.View() == old(registry.View()) && reg == old(reg)
                      && registered == old(registered) && committed == old(committed)
      ensures ok ==>
                var after := Registered(old(registry.View()), frame.home.value, frame.generation, tunnel);
                && registered && reg == Some(|old(registry.regs)|)
                && WellFormed(after)
                && registry.View() == (if deferCommit then after else Committed(after, reg.value))
                && committed == (!deferCommit || old(committed))
    {
      if !frame.isHello || frame.protoVersion != PROTO_VERSION || frame.home == None {
        return false;
      }
      var r := registry.Register(frame.home.value, frame.generation, tunnel);
      if r == None {
        return false;
      }
      reg := r;
      registered := true;
      if !deferCommit {
        var _ := CommitRegistration();
      }
      return true;
    }

    method CommitRegistration() returns (ok: bool)
      requires Valid()
      modifies this, registry
      ensures Valid() && reg == old(reg) && registered == old(registered)
      ensures ok <==> old(reg).Some? && IsCurrent(old(registry.View()), old(reg).value)
      ensures registry.View() == if old(reg).None? then old(registry.View())
                                 else Committed(old(registry.View()), old(reg).value)
      ensures committed == if old(reg).Some? then ok else old(committed)
    {
      if reg == None {
        return false;
      }
      ok := registry.Commit(reg.value);
      committed := ok;
    }

    /** The tunnel is shut; then the registration is withdrawn, or rolled back if it was never committed. */
    method Close()
      requires Valid()
      modifies this, registry
      ensures Valid() && reg == old(reg) && registered == old(registered) && committed == old(committed)
      ensures WellFormed(Shut(old(registry.View()), tunnel))
      ensures registry.View() == Withdrawn(Shut(old(registry.View()), tunnel), tunnel, reg, committed)
    {
      registry.ShutTunnel(tunnel);
      if reg.Some? {
        if committed {
          var _ := registry.Unregister(registry.regs[reg.value].home, tunnel);
        } else {
          var _ := registry.Rollback(reg.value);
        }
      }
    }
  }

  /** A home has dialled in: a new tunnel, and a connection that has not said hello yet. */
  method Accept(registry: HomeRegistry) returns (conn: ScopeConnection)
    requires WellFormed(registry.View())
    modifies registry
    ensures fresh(conn) && conn.registry == registry && conn.Valid()
    ensures conn.reg == None && !conn.registered && !conn.committed && conn.tunnel == |old(registry.tunnels)|
    ensures registry.View() == old(registry.View()).(tunnels := old(registry.tunnels) + [Tunnel(false, false)])
  {
    var tunnel := registry.NewTunnel();
    conn := new ScopeConnection(registry, tunnel);
  }

  function Withdrawn(t: Tables, tunnel: nat, reg: Option<nat>, committed: bool): Tables
    requires WellFormed(t)
  {
    if reg.None? || reg.value >= |t.regs| then t
    else if committed then Unregistered(t, t.regs[reg.value].home, tunnel)
    else RolledBack(t, reg.value)
  }
}
