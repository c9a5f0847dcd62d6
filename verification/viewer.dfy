/**
 The relay's objects for one browser `/ws`: the bounded buffer, which replaces and
 deletes queued events in place, and the viewer, whose methods are the arrival of an
 event and the pieces of the pump between its awaits.  Each is specified by the
 function of `ViewerEgress` of the same purpose.
 */
module Viewer {
  import opened ViewerEgress

  class EgressBuffer {
    const maxsize: int
    var items: seq<Event>

    constructor (maxsize: int)
      ensures this.maxsize == maxsize && items == []
    {
      this.maxsize := maxsize;
      items := [];
    }

    method IsFull() returns (full: bool)
      ensures full <==> Full(maxsize, items)
    {
      full := maxsize > 0 && |items| >= maxsize;
    }

    method Append(item: Event)
      modifies this
      ensures items == old(items) + [item]
    {
      items := items + [item];
    }

    /** Puts the item in the slot of the newest queued event of its type; false when there is none. */
    method ReplaceNewest(item: Event) returns (replaced: bool)
      modifies this
      ensures replaced <==> exists e :: e in old(items) && e.etype == item.etype
      ensures replaced ==> items == old(items)[NewestOf(old(items), item.etype) := item]
      ensures !replaced ==> items == old(items)
    {
      for i := |items| downto 0
        invariant items == old(items)
        invariant forall j | i <= j < |items| :: items[j].etype != item.etype
      {
        if items[i].etype == item.etype {
          assert items[i] in old(items);
          items := items[i := item];
          return true;
        }
      }
      return false;
    }

    /** Removes the oldest queued event whose type is not kept; false when every one is kept. */
    method DropOldest(keep: set<string>) returns (dropped: bool)
      modifies this
      ensures dropped <==> exists e :: e in old(items) && e.etype !in keep
      ensures dropped ==> OldestOutside(old(items), keep) < |old(items)|
                          && items == Without(old(items), OldestOutside(old(items), keep))
      ensures !dropped ==> items == old(items)
    {
      for i := 0 to |items|
        invariant items == old(items)
        invariant forall j | 0 <= j < i :: items[j].etype in keep
      {
        if items[i].etype !in keep {
          assert items[i] in old(items);
          assert OldestOutside(items, keep) == i;
          items := items[..i] + items[i + 1..];
          return true;
        }
      }
      return false;
    }

    /** `get`, once something is queued. */
    method PopLeft() returns (item: Event)
      requires items != []
      modifies this
      ensures item == old(items)[0] && items == old(items)[1..]
    {
      item := items[0];
      items := items[1..];
    }
  }

  class WsViewer {
    const wsId: nat
    const streamId: nat
    const buffer: EgressBuffer
    var lastSeq: int
    var overflowed: bool
    var gapPending: bool
    /** Where the pump coroutine is suspended. */
    var pump: Pump
    /** The number of arrivals so far, from which the model numbers events. */
    var arrivals: nat
    /** Whether the viewer is in the routing tables, and its history. */
    ghost var routed: bool
    ghost var history: History

    ghost predicate Valid()
      reads this
    {
      arrivals == |history.arrived|
    }

    ghost function View(): ViewerState
      reads this, buffer
    {
      ViewerState(buffer.maxsize, buffer.items, overflowed, gapPending, lastSeq, pump, routed, history)
    }

    constructor (wsId: nat, streamId: nat, egressMax: int)
      ensures this.wsId == wsId && this.streamId == streamId
      ensures fresh(buffer) && buffer.maxsize == egressMax
      ensures Valid() && routed && View() == NewView(egressMax)
    {
      this.wsId := wsId;
      this.streamId := streamId;
      buffer := new EgressBuffer(egressMax);
      lastSeq, overflowed, gapPending, pump := -1, false, false, Waiting;
      arrivals := 0;
      routed, history := true, History([], [], [], []);
    }

    /** `_enqueue_viewer`: one event from the home, with the bounded-buffer policy. */
    method Enqueue(seqNo: int, payload: string, etype: string)
      requires Valid() && routed
      modifies this, buffer
      ensures Valid() && View() == Arrive(old(View()), seqNo, payload, etype) && routed
    {
      ghost var before := View();
      var item := Event(arrivals, seqNo, payload, etype);
      arrivals := arrivals + 1;
      var full := buffer.IsFull();
      if !full {
        buffer.Append(item);
        history := history.(arrived := history.arrived + [item]);
        return;
      }
      overflowed := true;
      if etype in COALESCE_TYPES {
        var replaced := buffer.ReplaceNewest(item);
        if replaced {
          history := Replace(before, item, NewestOf(before.items, etype)).history;
          return;
        }
      }
      var dropped := buffer.DropOldest(COALESCE_TYPES);
      if !dropped {
        dropped := buffer.DropOldest({});
      }
      buffer.Append(item);
      gapPending := true;
      history := DropFor(before, item, Victim(before.items)).history;
    }

    /** The pump up to its first send: the gap frame when one is owed, else the event itself. */
    method TakeNext() returns (gapFirst: bool)
      requires Valid() && pump.Waiting? && buffer.items != []
      modifies this, buffer
      ensures Valid() && View() == Take(old(View()))
      ensures gapFirst <==> old(gapPending)
    {
      ghost var before := View();
      var queued := buffer.PopLeft();
      lastSeq := queued.seqNo;
      gapFirst := gapPending;
      if gapPending {
        gapPending := false;
        pump := SendingGap(queued);
      } else {
        pump := SendingEvent(queued);
      }
      history := Take(before).history;
    }

    /** The send of the gap frame returned, or raised; returns whether the pump closes the viewer. */
    method GapSendReturned(raised: bool) returns (closes: bool)
      requires Valid() && pump.SendingGap?
      modifies this
      ensures Valid() && View() == GapSent(old(View()), raised)
      ensures closes <==> raised
    {
      ghost var before := View();
      closes := raised;
      if raised {
        pump := Ended;
        routed := false;
      } else {
        pump := SendingEvent(pump.event);
      }
      history := GapSent(before, raised).history;
    }

    /** The send of the event returned, or raised; then the disconnect policy. */
    method EventSendReturned(raised: bool) returns (closes: bool)
      requires Valid() && pump.SendingEvent?
      modifies this
      ensures Valid() && View() == EventSent(old(View()), raised)
      ensures closes <==> raised
    {
      ghost var before := View();
      closes := raised;
      var full := buffer.IsFull();
      if raised {
        pump := Ended;
        routed := false;
      } else if overflowed && full {
        pump := Disconnecting;
      } else {
        pump := Waiting;
        if buffer.items == [] {
          overflowed := false;
        }
      }
      history := EventSent(before, raised).history;
    }

    /** `browser.close(1013)` returned, or raised, which kills the pump task. */
    method BrowserCloseReturned(raised: bool) returns (closes: bool)
      requires Valid() && pump.Disconnecting?
      modifies this
      ensures Valid() && View() == BrowserClosed(old(View()), raised)
      ensures closes <==> !raised
    {
      closes := !raised;
      pump := Ended;
      routed := routed && raised;
    }

    /** The pump goes on from where it is suspended; returns whether it closes the viewer. */
    method Resume(raised: bool) returns (closes: bool)
      requires Valid() && routed && !pump.Ended? && (pump.Waiting? ==> buffer.items != [])
      modifies this, buffer
      ensures Valid() && View() == Next(old(View()), ResumedBy(old(pump), raised))
      ensures closes <==> !routed
    {
      closes := false;
      match pump {
        case Waiting =>
          var gapFirst := TakeNext();
        case SendingGap(_) =>
          closes := GapSendReturned(raised);
        case SendingEvent(_) =>
          closes := EventSendReturned(raised);
        case Disconnecting =>
          closes := BrowserCloseReturned(raised);
      }
    }

    /** The viewer was taken out of the routing tables and its pump task cancelled. */
    method Stop()
      requires Valid()
      modifies this
      ensures Valid() && View() == Cancel(Unroute(old(View()))) && !routed
    {
      ghost var before := Unroute(View());
      routed := false;
      pump := Ended;
      history := Cancel(before).history;
    }
  }
}
