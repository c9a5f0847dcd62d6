/**
 The setup window of the provisioning broker: the fields that `BrokerState` keeps
 under its state lock, and the sections of code that read or write them while
 holding that lock.

 `Window` is the value of those fields at one moment.  Each method of `BrokerState`
 is one locked section, specified by a function on windows; `BrokerMachine`
 interleaves the same functions between threads.
 */
module BrokerWindow {
  import opened Wrappers

  const PORTAL_LIFETIME_S: real := 900.0

  datatype Network = Network(ssid: string, signal: real, akm: seq<string>)

  datatype Window = Window(
    active: bool,
    generation: nat,
    deadline: real,
    ssid: string,
    psk: string,
    networks: seq<Network>)

  const INITIAL := Window(false, 0, 0.0, "", "", [])

  predicate Current(w: Window, generation: nat, now: real) {
    w.active && w.generation == generation && now < w.deadline
  }

  /** What a close leaves behind.  `None` closes whatever is open; `Some(g)` closes only window `g`. */
  function Closed(w: Window, generation: Option<nat>): Window {
    if generation.Some? && generation.value != w.generation then w
    else Window(false, w.generation + 1, 0.0, "", "", [])
  }

  function Opened(w: Window, deadline: real, ssid: string, psk: string): Window {
    Window(true, w.generation + 1, deadline, ssid, psk, [])
  }

  function Published(w: Window, generation: nat, networks: seq<Network>): Window {
    if w.active && w.generation == generation then w.(networks := networks) else w
  }

  /** A window that is not open keeps neither the hotspot credentials nor the scan result. */
  predicate Scrubbed(w: Window) {
    !w.active ==> w.ssid == "" && w.psk == "" && w.networks == []
  }

  class BrokerState {
    var active: bool
    var generation: nat
    var deadline: real
    var setupSsid: string
    var setupPsk: string
    var networks: seq<Network>

    ghost function View(): Window
      reads this
    {
      Window(active, generation, deadline, setupSsid, setupPsk, networks)
    }

    constructor ()
      ensures View() == INITIAL
    {
      active, generation, deadline := false, 0, 0.0;
      setupSsid, setupPsk, networks := "", "", [];
    }

    method IsCurrent(g: nat, now: real) returns (current: bool)
      ensures current <==> Current(View(), g, now)
    {
      current := active && generation == g && now < deadline;
    }

    /** `None` stands for `BrokerWindowClosed`; otherwise generation, credentials and remaining time. */
    method Snapshot(now: real) returns (snapshot: Option<(nat, string, string, real)>)
      ensures snapshot.Some? <==> Current(View(), View().generation, now)
      ensures snapshot.Some? ==>
                snapshot.value == (View().generation, View().ssid, View().psk, View().deadline - now)
                && 0.0 < snapshot.value.3
    {
      if !active || now >= deadline {
        return None;
      }
      return Some((generation, setupSsid, setupPsk, deadline - now));
    }

    method MarkClosed(g: Option<nat>) returns (wasActive: bool)
      modifies this
      ensures View() == Closed(old(View()), g)
      ensures wasActive <==> old(active) && (g.None? || g.value == old(generation))
    {
      if g.Some? && g.value != generation {
        return false;
      }
      wasActive := active;
      active := false;
      generation := generation + 1;
      deadline := 0.0;
      setupSsid := "";
      setupPsk := "";
      networks := [];
    }

    /** The locked section of `open_window` that starts a new window. */
    method Arm(until: real, ssid: string, psk: string) returns (g: nat)
      modifies this
      ensures View() == Opened(old(View()), until, ssid, psk)
      ensures g == View().generation
    {
      generation := generation + 1;
      g := generation;
      active := true;
      deadline := until;
      setupSsid := ssid;
      setupPsk := psk;
      networks := [];
    }

    /** The locked sections of `open_window` and `scan` that store a scan result. */
    method Publish(g: nat, found: seq<Network>) returns (stored: bool)
      modifies this
      ensures View() == Published(old(View()), g, found)
      ensures stored <==> old(active) && old(generation) == g
    {
      stored := active && generation == g;
      if stored {
        networks := found;
      }
    }
  }
}
