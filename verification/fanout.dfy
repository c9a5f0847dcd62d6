/**
 The `/ws` half of `TunnelMultiplexer`: many viewers behind one home tunnel, each
 event fanned out to exactly the viewer it names, and ids allocated by the home's
 registration.

 `Mux` keeps every viewer ever opened, so that a closed viewer can be spoken of; its
 `routed` flag says whether it is still in the multiplexer's tables.
 */
module FanOut {
  import opened ViewerEgress
  import opened Viewer

  datatype Mux = Mux(egressMax: int, nextWs: nat, nextStream: nat, viewers: map<nat, ViewerState>)

  function NewMux(egressMax: int): Mux {
    Mux(egressMax, 1, 1, map[])
  }

  /** A `/ws` opens, an HTTP exchange takes a stream id, or one viewer makes a step. */
  datatype MuxEvent = OpensWs | OpensRequest | ToViewer(wsId: nat, step: Step)

  function MuxNext(m: Mux, e: MuxEvent): Mux {
    match e
    case OpensWs =>
      m.(nextWs := m.nextWs + 1, nextStream := m.nextStream + 1,
         viewers := m.viewers[m.nextWs := NewView(m.egressMax)])
    case OpensRequest => m.(nextStream := m.nextStream + 1)
    case ToViewer(wsId, step) =>
      if wsId in m.viewers then m.(viewers := m.viewers[wsId := Next(m.viewers[wsId], step)]) else m
  }

  function MuxRun(m: Mux, events: seq<MuxEvent>): Mux
    decreases |events|
  {
    if events == [] then m else MuxRun(MuxNext(m, events[0]), events[1..])
  }

  /** A viewer's own share of a run. */
  function Project(events: seq<MuxEvent>, wsId: nat): seq<Step>
    decreases |events|
  {
    if events == [] then []
    else
      var rest := Project(events[1..], wsId);
      if events[0].ToViewer? && events[0].wsId == wsId then [events[0].step] + rest else rest
  }

  function StreamIds(m: Mux, events: seq<MuxEvent>): seq<nat>
    decreases |events|
  {
    if events == [] then []
    else
      (if events[0].ToViewer? then [] else [m.nextStream]) + StreamIds(MuxNext(m, events[0]), events[1..])
  }

  function WsIds(m: Mux, events: seq<MuxEvent>): seq<nat>
    decreases |events|
  {
    if events == [] then []
    else
      (if events[0].OpensWs? then [m.nextWs] else []) + WsIds(MuxNext(m, events[0]), events[1..])
  }

  predicate Allocated(m: Mux) {
    forall wsId | wsId in m.viewers :: wsId < m.nextWs
  }

  // ------------------------------------------------------ main results

  /**
   Fan-out isolation: whatever the siblings do, a viewer's buffer, flags, pump and
   history are those of the run in which it is alone with its own frames and sends.
   */
  lemma {:induction false} ViewersDoNotInterfere(m: Mux, events: seq<MuxEvent>, wsId: nat)
    requires Allocated(m) && wsId in m.viewers
    ensures wsId in MuxRun(m, events).viewers
    ensures MuxRun(m, events).viewers[wsId] == Run(m.viewers[wsId], Project(events, wsId))
    decreases |events|
  {
    hide Next;
    if events != [] {
      var m' := MuxNext(m, events[0]);
      ViewersDoNotInterfere(m', events[1..], wsId);
      var rest := Project(events[1..], wsId);
      if events[0].ToViewer? && events[0].wsId == wsId {
        assert ([events[0].step] + rest)[1..] == rest;
      }
    }
  }

  /**
   Hence what `ViewerEgress` proves of one viewer's runs holds of every viewer of every
   multiplexer run: it has made its own share of what came after it opened, and no more.
   */
  lemma EveryViewerIsARun(egressMax: int, events: seq<MuxEvent>, wsId: nat) returns (at: nat)
    requires wsId in MuxRun(NewMux(egressMax), events).viewers
    ensures at < |events| && events[at].OpensWs?
    ensures MuxRun(NewMux(egressMax), events[..at]).nextWs == wsId
    ensures MuxRun(NewMux(egressMax), events).viewers[wsId] == Run(NewView(egressMax), Project(events[at + 1..], wsId))
  {
    at := OwnRun(NewMux(egressMax), events, wsId);
  }

  lemma {:induction false} OwnRun(m: Mux, events: seq<MuxEvent>, wsId: nat) returns (at: nat)
    requires Allocated(m) && wsId !in m.viewers && wsId in MuxRun(m, events).viewers
    ensures at < |events| && events[at].OpensWs?
    ensures MuxRun(m, events[..at]).nextWs == wsId
    ensures MuxRun(m, events).viewers[wsId] == Run(NewView(m.egressMax), Project(events[at + 1..], wsId))
    decreases |events|
  {
    hide Next;
    var m' := MuxNext(m, events[0]);
    if wsId in m'.viewers {
      ViewersDoNotInterfere(m', events[1..], wsId);
      at := 0;
    } else {
      var later := OwnRun(m', events[1..], wsId);
      at := later + 1;
      assert events[..at][1..] == events[1..][..later];
      assert events[1..][later + 1..] == events[at + 1..];
    }
  }

  predicate Increasing(ids: seq<nat>) {
    forall i, j | 0 <= i < j < |ids| :: ids[i] < ids[j]
  }

  lemma IncreasingCons(id: nat, ids: seq<nat>)
    requires Increasing(ids) && forall other | other in ids :: id < other
    ensures Increasing([id] + ids)
  {
    forall i, j | 0 <= i < j < |[id] + ids|
      ensures ([id] + ids)[i] < ([id] + ids)[j]
    {
      assert ([id] + ids)[j] == ids[j - 1] && ids[j - 1] in ids;
      if i > 0 {
        assert ([id] + ids)[i] == ids[i - 1];
      }
    }
  }

  lemma NoIdsIncrease()
    ensures Increasing([])
  {}

  /** No stream id and no ws id is ever issued twice within a registration, and none is the reserved 0. */
  lemma {:induction false} IdsAreNeverReused(m: Mux, events: seq<MuxEvent>)
    requires m.nextWs > 0 && m.nextStream > 0
    ensures Increasing(StreamIds(m, events)) && Increasing(WsIds(m, events))
    ensures forall id | id in StreamIds(m, events) :: id >= m.nextStream > 0
    ensures forall id | id in WsIds(m, events) :: id >= m.nextWs > 0
    decreases |events|
  {
    hide Next, Increasing, NewView;
    if events == [] {
      assert Increasing([]) by { NoIdsIncrease(); }
    } else {
      var m' := MuxNext(m, events[0]);
      IdsAreNeverReused(m', events[1..]);
      var streams, sockets := StreamIds(m', events[1..]), WsIds(m', events[1..]);
      assert [] + streams == streams && [] + sockets == sockets;
      if !events[0].ToViewer? {
        IncreasingCons(m.nextStream, streams);
      }
      if events[0].OpensWs? {
        IncreasingCons(m.nextWs, sockets);
      }
    }
  }

  lemma StepIsOneEntry(m: Mux, wsId: nat, step: Step)
    requires wsId in m.viewers
    ensures MuxNext(m, ToViewer(wsId, step)) == m.(viewers := m.viewers[wsId := Next(m.viewers[wsId], step)])
  {}

  lemma StopIsOneEntry(m: Mux, wsId: nat)
    requires wsId in m.viewers
    ensures MuxNext(MuxNext(m, ToViewer(wsId, Unrouted)), ToViewer(wsId, Cancelled))
            == m.(viewers := m.viewers[wsId := Cancel(Unroute(m.viewers[wsId]))])
  {}

  // ------------------------------------------------------ the objects

  class TunnelMultiplexer {
    const egressMax: int
    var nextWs: nat
    var nextStream: nat
    /** The viewers in the routing tables. */
    var viewers: map<nat, WsViewer>
    /** Every viewer ever opened, and all their objects. */
    ghost var everOpened: map<nat, WsViewer>
    ghost var Repr: set<object>

    ghost predicate Owned(id: nat, viewer: WsViewer)
      reads this, Repr
    {
      && viewer in Repr && viewer.buffer in Repr
      && viewer.wsId == id && id < nextWs
      && viewer.Valid() && viewer.buffer.maxsize == egressMax
      && (viewer.routed <==> id in viewers)
    }

    ghost predicate Valid()
      reads this, Repr
    {
      && this !in Repr
      && (forall id | id in everOpened :: Owned(id, everOpened[id]))
      && (forall i, j | i in everOpened && j in everOpened && i != j :: everOpened[i].buffer != everOpened[j].buffer)
      && (forall id | id in viewers :: id in everOpened && viewers[id] == everOpened[id])
    }

    ghost function Model(): Mux
      requires Valid()
      reads this, Repr
    {
      Mux(egressMax, nextWs, nextStream,
          map id | id in everOpened :: assert Owned(id, everOpened[id]); everOpened[id].View())
    }

    constructor (egressMax: int)
      ensures Valid() && Model() == NewMux(egressMax)
    {
      this.egressMax := egressMax;
      nextWs, nextStream := 1, 1;
      viewers, everOpened, Repr := map[], map[], {};
    }

    /**
     Work on one viewer's objects, and on its place in the tables, leaves every sibling's
     view as it was: it is a change of one entry of the model.
     */
    twostate lemma OneEntryChanged(wsId: nat)
      requires old(Valid()) && wsId in everOpened && everOpened == old(everOpened) && Repr == old(Repr)
      requires nextWs == old(nextWs) && nextStream == old(nextStream)
      requires viewers - {wsId} == old(viewers) - {wsId}
      requires forall o | o in Repr && o != everOpened[wsId] && o != everOpened[wsId].buffer :: unchanged(o)
      requires Owned(wsId, everOpened[wsId])
      requires wsId in viewers ==> viewers[wsId] == everOpened[wsId]
      ensures Valid()
      ensures old(Model()).viewers.Keys == everOpened.Keys
      ensures Model() == old(Model()).(viewers := old(Model()).viewers[wsId := everOpened[wsId].View()])
    {
      hide WsViewer.View;
      forall id | id in everOpened && id != wsId
        ensures Owned(id, everOpened[id]) && everOpened[id].View() == old(everOpened[id].View())
        ensures id in viewers ==> viewers[id] == everOpened[id]
      {
        assert old(Owned(id, everOpened[id])) && old(Owned(wsId, everOpened[wsId]));
        assert id in viewers - {wsId} <==> id in old(viewers) - {wsId};
      }
      forall id | id in viewers
        ensures id in everOpened
      {
        assert id != wsId ==> id in viewers - {wsId};
        assert id != wsId ==> id in old(viewers) - {wsId};
      }
      assert Model().viewers == old(Model()).viewers[wsId := everOpened[wsId].View()];
    }

    twostate lemma EntryAdded(wsId: nat, new viewer: WsViewer)
      requires old(Valid()) && wsId == old(nextWs) && nextWs == wsId + 1
      requires everOpened == old(everOpened)[wsId := viewer] && viewers == old(viewers)[wsId := viewer]
      requires {this, viewer, viewer.buffer} !! old(Repr) && Repr == old(Repr) + {viewer, viewer.buffer}
      requires Owned(wsId, viewer)
      requires forall o | o in old(Repr) :: unchanged(o)
      ensures Valid()
      ensures Model().viewers == old(Model()).viewers[wsId := viewer.View()]
    {
      hide WsViewer.View;
      forall id | id in old(everOpened)
        ensures id != wsId
        ensures Owned(id, everOpened[id]) && everOpened[id].View() == old(everOpened[id].View())
        ensures everOpened[id].buffer in old(Repr)
      {
        assert old(Owned(id, everOpened[id]));
      }
    }

    /** `open_ws` up to its send of WS_OPEN. */
    method OpenWs() returns (wsId: nat)
      requires Valid()
      modifies this
      ensures Valid() && Model() == MuxNext(old(Model()), OpensWs)
      ensures wsId == old(nextWs) && wsId in viewers && viewers == old(viewers)[wsId := viewers[wsId]]
    {
      hide WsViewer.View, NewView;
      wsId := nextWs;
      var viewer := new WsViewer(wsId, nextStream, egressMax);
      nextWs := nextWs + 1;
      nextStream := nextStream + 1;
      viewers := viewers[wsId := viewer];
      everOpened := everOpened[wsId := viewer];
      Repr := Repr + {viewer, viewer.buffer};
      EntryAdded(wsId, viewer);
    }

    /** `_on_ws_data`: a frame for a viewer that is gone is dropped without error. */
    method OnWsData(wsId: nat, seqNo: int, payload: string, etype: string)
      requires Valid()
      modifies if wsId in viewers then {viewers[wsId], viewers[wsId].buffer} else {}
      ensures Valid() && Model() == MuxNext(old(Model()), ToViewer(wsId, Arrival(seqNo, payload, etype)))
    {
      if wsId in viewers {
        hide WsViewer.View, Arrive;
        var viewer := viewers[wsId];
        assert Owned(wsId, viewer);
        viewer.Enqueue(seqNo, payload, etype);
        OneEntryChanged(wsId);
      }
    }

    /** `close_ws`, `_on_ws_close`, and a failed `open_ws`: the viewer leaves the tables and its pump is stopped. */
    method CloseWs(wsId: nat) returns (found: bool)
      requires Valid()
      modifies this, if wsId in viewers then {viewers[wsId]} else {}
      ensures found <==> wsId in old(viewers)
      ensures Valid() && viewers == old(viewers) - {wsId}
      ensures Model() == if !found then old(Model())
                         else MuxNext(MuxNext(old(Model()), ToViewer(wsId, Unrouted)), ToViewer(wsId, Cancelled))
    {
      found := wsId in viewers;
      if found {
        StopIsOneEntry(Model(), wsId);
        hide WsViewer.View, Cancel, Unroute, MuxNext;
        var viewer := viewers[wsId];
        assert Owned(wsId, viewer);
        viewers := viewers - {wsId};
        viewer.Stop();
        OneEntryChanged(wsId);
      }
    }

    /** One piece of a viewer's pump: `get` returns, or its send or close returns or raises. */
    method ResumePump(wsId: nat, raised: bool)
      requires Valid() && wsId in viewers && !viewers[wsId].pump.Ended?
      requires viewers[wsId].pump.Waiting? ==> viewers[wsId].buffer.items != []
      modifies this, viewers[wsId], viewers[wsId].buffer
      ensures Valid()
      ensures Model() == MuxNext(old(Model()), ToViewer(wsId, ResumedBy(old(viewers[wsId].pump), raised)))
    {
      var viewer := viewers[wsId];
      assert Owned(wsId, viewer);
      ghost var step := ResumedBy(viewer.pump, raised);
      StepIsOneEntry(Model(), wsId, step);
      hide WsViewer.View, Next, MuxNext;
      var closes := viewer.Resume(raised);
      if closes {
        viewers := viewers - {wsId};
      }
      OneEntryChanged(wsId);
    }
  }
}
