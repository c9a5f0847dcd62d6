/**
 The relay's bounded egress buffer toward one browser `/ws`, and the pump that drains it.

 A viewer's life is cut at every `await` of the pump: waiting in `get`, sending the
 gap frame, sending an event, closing the browser.  Arrivals, a close from either
 side, and the cancellation of the pump may fall between any two of those pieces.

 `ViewerState` is a viewer's whole state with its history.  The history is not kept by the
 relay; it exists to say what became of every event that arrived.
 */
module ViewerEgress {
  /** `at` numbers the arrivals of one viewer; `etype` is parsed from the payload once, on arrival. */
  datatype Event = Event(at: nat, seqNo: int, payload: string, etype: string)

  const COALESCE_TYPES: set<string> := {"preview", "sequence"}

  datatype Pump =
    | Waiting
    | SendingGap(event: Event)
    | SendingEvent(event: Event)
    | Disconnecting
    | Ended

  /** What happened on the way to the browser, in order. `GapStarted` is the start of a `relay_gap` send. */
  datatype Mark = Dropped(at: nat) | Taken(at: nat) | GapStarted | Sent(at: nat)

  /** An event that will not be delivered, and why. */
  datatype Loss =
    | ReplacedBy(event: Event, successor: Event)
    | Overflowed(event: Event)
    | Abandoned(event: Event)

  datatype History = History(
    arrived: seq<Event>,
    delivered: seq<Event>,
    losses: seq<Loss>,
    marks: seq<Mark>)

  datatype ViewerState = ViewerState(
    maxsize: int,
    items: seq<Event>,
    overflowed: bool,
    gapPending: bool,
    lastSeq: int,
    pump: Pump,
    routed: bool,
    history: History)

  function NewView(maxsize: int): ViewerState {
    ViewerState(maxsize, [], false, false, -1, Waiting, true, History([], [], [], []))
  }

  predicate Full(maxsize: int, items: seq<Event>) {
    maxsize > 0 && |items| >= maxsize
  }

  // ------------------------------------------------------ the overflow policy

  /** The position of the newest queued event of a type, or -1. */
  function NewestOf(items: seq<Event>, etype: string): (i: int)
    ensures -1 <= i < |items|
    ensures i >= 0 ==> items[i].etype == etype
    ensures forall j | i < j < |items| :: items[j].etype != etype
  {
    if items == [] then -1
    else if items[|items| - 1].etype == etype then |items| - 1
    else NewestOf(items[..|items| - 1], etype)
  }

  /** The position of the oldest queued event whose type is not kept, or the length. */
  function OldestOutside(items: seq<Event>, keep: set<string>): (i: nat)
    ensures i <= |items|
    ensures i < |items| ==> items[i].etype !in keep
    ensures forall j | 0 <= j < i :: items[j].etype in keep
  {
    if items == [] || items[0].etype !in keep then 0 else 1 + OldestOutside(items[1..], keep)
  }

  function Without(items: seq<Event>, i: nat): seq<Event>
    requires i < |items|
  {
    items[..i] + items[i + 1..]
  }

  /** Which queued event makes room for a newcomer that cannot replace one of its own type. */
  function Victim(items: seq<Event>): (i: nat)
    requires items != []
    ensures i < |items|
  {
    var i := OldestOutside(items, COALESCE_TYPES);
    if i < |items| then i else 0
  }

  /** The slot of the newest queued event of the newcomer's type goes to the newcomer. */
  function Replace(v: ViewerState, event: Event, slot: nat): ViewerState
    requires slot < |v.items|
  {
    v.(overflowed := true,
       items := v.items[slot := event],
       history := v.history.(arrived := v.history.arrived + [event],
                             losses := v.history.losses + [ReplacedBy(v.items[slot], event)]))
  }

  /** A queued event is dropped for the newcomer, and the browser is owed a gap frame. */
  function DropFor(v: ViewerState, event: Event, victim: nat): ViewerState
    requires victim < |v.items|
  {
    v.(overflowed := true,
       gapPending := true,
       items := Without(v.items, victim) + [event],
       history := v.history.(arrived := v.history.arrived + [event],
                             losses := v.history.losses + [Overflowed(v.items[victim])],
                             marks := v.history.marks + [Dropped(v.items[victim].at)]))
  }

  function Append(v: ViewerState, event: Event): ViewerState {
    v.(items := v.items + [event], history := v.history.(arrived := v.history.arrived + [event]))
  }

  /** One event from the home; `_enqueue_viewer` for a viewer that is still routed. */
  function Arrive(v: ViewerState, seqNo: int, payload: string, etype: string): ViewerState {
    var event := Event(|v.history.arrived|, seqNo, payload, etype);
    if !v.routed then v
    else if !Full(v.maxsize, v.items) then Append(v, event)
    else
      var newest := NewestOf(v.items, etype);
      if etype in COALESCE_TYPES && newest >= 0 then Replace(v, event, newest)
      else DropFor(v, event, Victim(v.items))
  }

  // ------------------------------------------------------ the pump

  /** `get` returns: the oldest event leaves the buffer, and an owed gap frame starts ahead of it. */
  function Take(v: ViewerState): ViewerState {
    if !v.pump.Waiting? || v.items == [] then v
    else
      var event := v.items[0];
      var h := v.history.(marks := v.history.marks + [Taken(event.at)]);
      var v1 := v.(items := v.items[1..], lastSeq := event.seqNo);
      if v.gapPending then
        v1.(gapPending := false, pump := SendingGap(event), history := h.(marks := h.marks + [GapStarted]))
      else
        v1.(pump := SendingEvent(event), history := h)
  }

  /** A send raised: the browser socket is gone, the viewer is closed from its own pump. */
  function FailSend(v: ViewerState): ViewerState
    requires v.pump.SendingGap? || v.pump.SendingEvent?
  {
    v.(pump := Ended, routed := false, history := v.history.(losses := v.history.losses + [Abandoned(v.pump.event)]))
  }

  function GapSent(v: ViewerState, raised: bool): ViewerState {
    if !v.pump.SendingGap? then v
    else if raised then FailSend(v)
    else v.(pump := SendingEvent(v.pump.event))
  }

  function EventSent(v: ViewerState, raised: bool): ViewerState {
    if !v.pump.SendingEvent? then v
    else if raised then FailSend(v)
    else
      var h := v.history.(delivered := v.history.delivered + [v.pump.event],
                          marks := v.history.marks + [Sent(v.pump.event.at)]);
      if v.overflowed && Full(v.maxsize, v.items) then v.(pump := Disconnecting, history := h)
      else v.(pump := Waiting, overflowed := v.overflowed && v.items != [], history := h)
  }

  /** The browser was closed with 1013; if that close raised, the pump task dies with the viewer still routed. */
  function BrowserClosed(v: ViewerState, raised: bool): ViewerState {
    if !v.pump.Disconnecting? then v
    else if raised then v.(pump := Ended)
    else v.(pump := Ended, routed := false)
  }

  /** The viewer leaves the routing tables: closed by the browser, by the home, or by a failed open. */
  function Unroute(v: ViewerState): ViewerState {
    v.(routed := false)
  }

  /** The pump task is cancelled, in whatever await it is. */
  function Cancel(v: ViewerState): ViewerState {
    if v.pump.SendingGap? || v.pump.SendingEvent? then
      v.(pump := Ended, history := v.history.(losses := v.history.losses + [Abandoned(v.pump.event)]))
    else
      v.(pump := Ended)
  }

  datatype Step =
    | Arrival(seqNo: int, payload: string, etype: string)
    | PumpTakes
    | PumpSentGap(raised: bool)
    | PumpSentEvent(raised: bool)
    | PumpClosedBrowser(raised: bool)
    | Unrouted
    | Cancelled

  function Next(v: ViewerState, step: Step): ViewerState {
    match step
    case Arrival(seqNo, payload, etype) => Arrive(v, seqNo, payload, etype)
    case PumpTakes => Take(v)
    case PumpSentGap(raised) => GapSent(v, raised)
    case PumpSentEvent(raised) => EventSent(v, raised)
    case PumpClosedBrowser(raised) => BrowserClosed(v, raised)
    case Unrouted => Unroute(v)
    case Cancelled => Cancel(v)
  }

  /** The step a pump makes when it is resumed where it is suspended. */
  function ResumedBy(pump: Pump, raised: bool): Step
    requires !pump.Ended?
  {
    match pump
    case Waiting => PumpTakes
    case SendingGap(_) => PumpSentGap(raised)
    case SendingEvent(_) => PumpSentEvent(raised)
    case Disconnecting => PumpClosedBrowser(raised)
  }

  function Run(v: ViewerState, steps: seq<Step>): ViewerState
    decreases |steps|
  {
    if steps == [] then v else Run(Next(v, steps[0]), steps[1..])
  }

  // ------------------------------------------------------ invariants

  function InFlight(v: ViewerState): seq<Event> {
    if v.pump.SendingGap? || v.pump.SendingEvent? then [v.pump.event] else []
  }

  /** What the browser has, is getting, and will get unless it is replaced or dropped. */
  function Line(v: ViewerState): seq<Event> {
    v.history.delivered + InFlight(v) + v.items
  }

  function Lost(losses: seq<Loss>): seq<Event> {
    seq(|losses|, i requires 0 <= i < |losses| => losses[i].event)
  }

  predicate Stamped(arrived: seq<Event>) {
    forall i | 0 <= i < |arrived| :: arrived[i].at == i
  }

  /** Every arrival is in exactly one place, counting places. */
  predicate Counted(arrived: seq<Event>, line: seq<Event>, losses: seq<Loss>) {
    multiset(arrived) == multiset(line) + multiset(Lost(losses))
  }

  /** An event is replaced only by a newer event of its own preview or sequence type. */
  predicate FairReplacement(loss: Loss) {
    loss.ReplacedBy? ==>
      && loss.event.etype == loss.successor.etype && loss.event.etype in COALESCE_TYPES
      && loss.event.at < loss.successor.at
  }

  predicate ConservationInv(v: ViewerState) {
    && Stamped(v.history.arrived)
    && Counted(v.history.arrived, Line(v), v.history.losses)
    && forall loss | loss in v.history.losses :: FairReplacement(loss)
  }

  /** The browser's view of order: events of one type, and all events that are never replaced in place. */
  predicate Related(a: Event, b: Event) {
    a.etype == b.etype || (a.etype !in COALESCE_TYPES && b.etype !in COALESCE_TYPES)
  }

  predicate Ordered(events: seq<Event>) {
    forall i, j | 0 <= i < j < |events| && Related(events[i], events[j]) :: events[i].at < events[j].at
  }

  predicate OrderInv(v: ViewerState) {
    && Ordered(Line(v))
    && forall e | e in Line(v) :: e.at < |v.history.arrived|
  }

  predicate BoundInv(v: ViewerState) {
    v.maxsize > 0 ==> |v.items| <= v.maxsize
  }

  /** A drop with no gap frame started after it. */
  predicate Owed(marks: seq<Mark>) {
    exists d | 0 <= d < |marks| ::
      marks[d].Dropped? && forall g | d < g < |marks| :: !marks[g].GapStarted?
  }

  predicate AnnouncedAt(marks: seq<Mark>, t: nat)
    requires t < |marks|
  {
    Owed(marks[..t]) <==> t + 1 < |marks| && marks[t + 1].GapStarted?
  }

  /** A gap frame starts exactly when an event is taken while a drop is unannounced, and right then. */
  predicate Announced(marks: seq<Mark>) {
    && (forall t | 0 <= t < |marks| && marks[t].Taken? :: AnnouncedAt(marks, t))
    && (forall g | 0 <= g < |marks| :: marks[g].GapStarted? ==> g > 0 && marks[g - 1].Taken?)
  }

  predicate SentWasTaken(marks: seq<Mark>, k: nat)
    requires k < |marks|
  {
    marks[k].Sent? ==> exists t :: 0 <= t < k && marks[t] == Taken(marks[k].at)
  }

  predicate GapInv(v: ViewerState) {
    && (v.gapPending <==> Owed(v.history.marks))
    && (v.gapPending ==> v.items != [])
    && Announced(v.history.marks)
    && (forall k | 0 <= k < |v.history.marks| :: SentWasTaken(v.history.marks, k))
    && (forall e | e in InFlight(v) :: Taken(e.at) in v.history.marks)
    && (forall loss | loss in v.history.losses && loss.Overflowed? :: Dropped(loss.event.at) in v.history.marks)
  }

  predicate Inv(v: ViewerState) {
    FlowInv(v) && BoundInv(v) && GapInv(v)
  }

  // ------------------------------------------------------ conservation and order of one step

  lemma CountedAppend(arrived: seq<Event>, line: seq<Event>, losses: seq<Loss>, event: Event)
    requires Counted(arrived, line, losses)
    ensures Counted(arrived + [event], line + [event], losses)
  {}

  lemma CountedReplace(arrived: seq<Event>, line: seq<Event>, losses: seq<Loss>, i: nat, event: Event, loss: Loss)
    requires Counted(arrived, line, losses) && i < |line| && loss.event == line[i]
    ensures Counted(arrived + [event], line[i := event], losses + [loss])
  {
    assert Lost(losses + [loss]) == Lost(losses) + [line[i]];
  }

  lemma CountedRemove(arrived: seq<Event>, line: seq<Event>, losses: seq<Loss>, i: nat, loss: Loss)
    requires Counted(arrived, line, losses) && i < |line| && loss.event == line[i]
    ensures Counted(arrived, Without(line, i), losses + [loss])
  {
    assert line == line[..i] + ([line[i]] + line[i + 1..]);
    assert Lost(losses + [loss]) == Lost(losses) + [line[i]];
  }

  lemma OrderedReplace(line: seq<Event>, i: nat, event: Event)
    requires Ordered(line) && i < |line|
    requires forall e | e in line :: e.at < event.at
    requires forall j | i < j < |line| :: !Related(event, line[j])
    ensures Ordered(line[i := event])
  {}

  lemma OrderedRemove(line: seq<Event>, i: nat)
    requires Ordered(line) && i < |line|
    ensures Ordered(Without(line, i))
  {}

  lemma OrderedAppend(line: seq<Event>, event: Event)
    requires Ordered(line)
    requires forall e | e in line :: e.at < event.at
    ensures Ordered(line + [event])
  {}

  predicate FlowInv(v: ViewerState) {
    ConservationInv(v) && OrderInv(v)
  }

  lemma AppendKeepsFlow(v: ViewerState, event: Event)
    requires FlowInv(v) && event.at == |v.history.arrived|
    ensures FlowInv(Append(v, event))
  {
    assert Line(Append(v, event)) == Line(v) + [event];
    CountedAppend(v.history.arrived, Line(v), v.history.losses, event);
    OrderedAppend(Line(v), event);
  }

  lemma ReplaceKeepsFlow(v: ViewerState, event: Event, slot: nat)
    requires FlowInv(v) && event.at == |v.history.arrived| && slot < |v.items|
    requires v.items[slot].etype == event.etype && event.etype in COALESCE_TYPES
    requires forall j | slot < j < |v.items| :: v.items[j].etype != event.etype
    ensures FlowInv(Replace(v, event, slot))
  {
    var line, i := Line(v), |v.history.delivered + InFlight(v)| + slot;
    assert Line(Replace(v, event, slot)) == line[i := event];
    assert line[i] == v.items[slot];
    CountedReplace(v.history.arrived, line, v.history.losses, i, event, ReplacedBy(line[i], event));
    OrderedReplace(line, i, event);
  }

  lemma DropMovesLine(v: ViewerState, event: Event, victim: nat)
    requires victim < |v.items|
    ensures var line, i := Line(v), |v.history.delivered + InFlight(v)| + victim;
            && i < |line| && line[i] == v.items[victim]
            && Line(DropFor(v, event, victim)) == Without(line, i) + [event]
            && forall e | e in Without(line, i) :: e in line
  {
  }

  lemma DropKeepsFlow(v: ViewerState, event: Event, victim: nat)
    requires FlowInv(v) && event.at == |v.history.arrived| && victim < |v.items|
    ensures FlowInv(DropFor(v, event, victim))
  {
    var line, i := Line(v), |v.history.delivered + InFlight(v)| + victim;
    DropMovesLine(v, event, victim);
    hide Line, Ordered, Without;
    CountedRemove(v.history.arrived, line, v.history.losses, i, Overflowed(line[i]));
    CountedAppend(v.history.arrived, Without(line, i), v.history.losses + [Overflowed(line[i])], event);
    OrderedRemove(line, i);
    OrderedAppend(Without(line, i), event);
  }

  lemma ArriveKeepsFlow(v: ViewerState, seqNo: int, payload: string, etype: string)
    requires FlowInv(v)
    ensures FlowInv(Arrive(v, seqNo, payload, etype))
  {
    hide FlowInv, Append, Replace, DropFor;
    var event := Event(|v.history.arrived|, seqNo, payload, etype);
    if v.routed && !Full(v.maxsize, v.items) {
      AppendKeepsFlow(v, event);
    } else if v.routed {
      var newest := NewestOf(v.items, etype);
      if etype in COALESCE_TYPES && newest >= 0 {
        ReplaceKeepsFlow(v, event, newest);
      } else {
        DropKeepsFlow(v, event, Victim(v.items));
      }
    }
  }

  lemma LineStays(v: ViewerState, step: Step)
    requires !step.Arrival? && Next(v, step).history.losses == v.history.losses
    ensures Line(Next(v, step)) == Line(v)
    ensures Next(v, step).history.arrived == v.history.arrived
  {}

  /** Taking an event, and sending it, move it along the line without changing the line. */
  lemma PumpKeepsFlow(v: ViewerState, step: Step)
    requires FlowInv(v) && !step.Arrival?
    requires Next(v, step).history.losses == v.history.losses
    ensures FlowInv(Next(v, step))
  {
    LineStays(v, step);
    hide Next, Line, Counted, Ordered;
  }

  /** A failed send or a cancelled pump takes the event in flight out of the line. */
  lemma AbandonKeepsFlow(v: ViewerState, routed: bool)
    requires FlowInv(v) && (v.pump.SendingGap? || v.pump.SendingEvent?)
    ensures FlowInv(FailSend(v).(routed := routed))
  {
    var line, i := Line(v), |v.history.delivered|;
    assert Line(FailSend(v).(routed := routed)) == Without(line, i);
    assert line[i] == v.pump.event;
    CountedRemove(v.history.arrived, line, v.history.losses, i, Abandoned(line[i]));
    OrderedRemove(line, i);
  }

  lemma NextKeepsFlow(v: ViewerState, step: Step)
    requires FlowInv(v)
    ensures FlowInv(Next(v, step))
  {
    hide FlowInv;
    if step.Arrival? {
      ArriveKeepsFlow(v, step.seqNo, step.payload, step.etype);
    } else if Next(v, step).history.losses == v.history.losses {
      PumpKeepsFlow(v, step);
    } else {
      AbandonKeepsFlow(v, Next(v, step).routed);
    }
  }

  lemma NextKeepsBound(v: ViewerState, step: Step)
    requires BoundInv(v)
    ensures BoundInv(Next(v, step)) && Next(v, step).maxsize == v.maxsize
  {}

  // ------------------------------------------------------ gap frames

  lemma OwedAfter(marks: seq<Mark>, mark: Mark)
    ensures Owed(marks + [mark]) <==> mark.Dropped? || (Owed(marks) && !mark.GapStarted?)
  {
    var marks' := marks + [mark];
    assert marks'[|marks|] == mark;
    if !mark.Dropped? && !mark.GapStarted? {
      if Owed(marks) {
        var d :| 0 <= d < |marks| && marks[d].Dropped? && forall g | d < g < |marks| :: !marks[g].GapStarted?;
        assert marks'[d].Dropped?;
      }
      if Owed(marks') {
        var d :| 0 <= d < |marks'| && marks'[d].Dropped? && forall g | d < g < |marks'| :: !marks'[g].GapStarted?;
        assert marks[d].Dropped? && forall g | d < g < |marks| :: marks'[g] == marks[g];
      }
    }
  }

  /** Marks other than takes and gap starts do not disturb the announcements before them. */
  lemma AnnouncedAfter(marks: seq<Mark>, mark: Mark)
    requires Announced(marks) && !mark.GapStarted?
    requires mark.Taken? ==> !Owed(marks)
    ensures Announced(marks + [mark])
  {
    hide Owed;
    var marks' := marks + [mark];
    forall t | 0 <= t < |marks'| && marks'[t].Taken?
      ensures AnnouncedAt(marks', t)
    {
      assert marks'[..t] == marks[..t];
      if t == |marks| {
        assert marks[..t] == marks;
      } else {
        assert AnnouncedAt(marks, t);
      }
    }
  }

  lemma AnnouncedAfterGap(marks: seq<Mark>, at: nat)
    requires Announced(marks) && Owed(marks)
    ensures Announced(marks + [Taken(at)] + [GapStarted])
  {
    hide Owed;
    var marks' := marks + [Taken(at)] + [GapStarted];
    forall t | 0 <= t < |marks'| && marks'[t].Taken?
      ensures AnnouncedAt(marks', t)
    {
      assert marks'[..t] == marks[..t];
      if t == |marks| {
        assert marks[..t] == marks;
      } else {
        assert AnnouncedAt(marks, t);
      }
    }
  }

  lemma SentAfter(marks: seq<Mark>, more: seq<Mark>)
    requires forall k | 0 <= k < |marks| :: SentWasTaken(marks, k)
    requires forall m | m in more && m.Sent? :: Taken(m.at) in marks
    ensures forall k | 0 <= k < |marks + more| :: SentWasTaken(marks + more, k)
  {
    var marks' := marks + more;
    forall k | 0 <= k < |marks'| && marks'[k].Sent?
      ensures SentWasTaken(marks', k)
    {
      if k < |marks| {
        assert SentWasTaken(marks, k);
        var t :| 0 <= t < k && marks[t] == Taken(marks[k].at);
        assert marks'[t] == marks[t];
      } else {
        assert marks'[k] == more[k - |marks|];
        var t :| 0 <= t < |marks| && marks[t] == Taken(marks'[k].at);
        assert marks'[t] == marks[t];
      }
    }
  }

  lemma ArriveKeepsGaps(v: ViewerState, seqNo: int, payload: string, etype: string)
    requires GapInv(v)
    ensures GapInv(Arrive(v, seqNo, payload, etype))
  {
    if v.routed && Full(v.maxsize, v.items) {
      var newest := NewestOf(v.items, etype);
      if !(etype in COALESCE_TYPES && newest >= 0) {
        var mark := Dropped(v.items[Victim(v.items)].at);
        OwedAfter(v.history.marks, mark);
        AnnouncedAfter(v.history.marks, mark);
        SentAfter(v.history.marks, [mark]);
      }
    }
  }

  lemma TakeKeepsGaps(v: ViewerState)
    requires GapInv(v)
    ensures GapInv(Take(v))
  {
    if v.pump.Waiting? && v.items != [] {
      var taken := Taken(v.items[0].at);
      OwedAfter(v.history.marks, taken);
      SentAfter(v.history.marks, [taken]);
      var marks := v.history.marks + [taken];
      assert marks[|v.history.marks|] == taken;
      if v.gapPending {
        OwedAfter(marks, GapStarted);
        AnnouncedAfterGap(v.history.marks, taken.at);
        SentAfter(marks, [GapStarted]);
        assert (marks + [GapStarted])[|v.history.marks|] == taken;
      } else {
        AnnouncedAfter(v.history.marks, taken);
      }
    }
  }

  lemma EventSentKeepsGaps(v: ViewerState, raised: bool)
    requires GapInv(v)
    ensures GapInv(EventSent(v, raised))
  {
    if v.pump.SendingEvent? && !raised {
      var sent := Sent(v.pump.event.at);
      assert v.pump.event in InFlight(v);
      OwedAfter(v.history.marks, sent);
      AnnouncedAfter(v.history.marks, sent);
      SentAfter(v.history.marks, [sent]);
    }
  }

  lemma NextKeepsGaps(v: ViewerState, step: Step)
    requires GapInv(v)
    ensures GapInv(Next(v, step))
  {
    match step {
      case Arrival(seqNo, payload, etype) => ArriveKeepsGaps(v, seqNo, payload, etype);
      case PumpTakes => TakeKeepsGaps(v);
      case PumpSentEvent(raised) => EventSentKeepsGaps(v, raised);
      case _ =>
    }
  }

  lemma NextKeepsInv(v: ViewerState, step: Step)
    requires Inv(v)
    ensures Inv(Next(v, step)) && Next(v, step).maxsize == v.maxsize
  {
    hide FlowInv, GapInv, BoundInv, Next;
    NextKeepsFlow(v, step);
    NextKeepsGaps(v, step);
    NextKeepsBound(v, step);
  }

  lemma {:induction false} RunKeepsInv(v: ViewerState, steps: seq<Step>)
    requires Inv(v)
    ensures Inv(Run(v, steps)) && Run(v, steps).maxsize == v.maxsize
    decreases |steps|
  {
    hide Inv, Next;
    if steps != [] {
      NextKeepsInv(v, steps[0]);
      RunKeepsInv(Next(v, steps[0]), steps[1..]);
    }
  }

  // ------------------------------------------------------ main results

  lemma NewViewInv(maxsize: int)
    ensures Inv(NewView(maxsize))
  {
    assert Lost([]) == [];
  }

  lemma CountOfStamp(arrived: seq<Event>, e: Event)
    requires Stamped(arrived)
    ensures multiset(arrived)[e] == if e in arrived then 1 else 0
  {
    if e in arrived {
      var i :| 0 <= i < |arrived| && arrived[i] == e;
      assert arrived == arrived[..i] + ([e] + arrived[i + 1..]);
    }
  }

  /**
   No silent loss: whatever interleaving of arrivals, pump pieces and closes, every
   event that arrived is in exactly one place, once: delivered, in flight, queued,
   replaced by a newer event of its own preview or sequence type, dropped on
   overflow, or abandoned in flight when the viewer closed.
   */
  lemma NoSilentLoss(maxsize: int, steps: seq<Step>)
    ensures var v := Run(NewView(maxsize), steps);
            && (forall e | e in v.history.arrived ::
                  multiset(v.history.delivered)[e] + multiset(InFlight(v))[e] + multiset(v.items)[e]
                  + multiset(Lost(v.history.losses))[e] == 1)
            && (forall loss | loss in v.history.losses :: loss.event in v.history.arrived && FairReplacement(loss))
  {
    NewViewInv(maxsize);
    RunKeepsInv(NewView(maxsize), steps);
    var v := Run(NewView(maxsize), steps);
    forall e | e in v.history.arrived
      ensures multiset(v.history.delivered)[e] + multiset(InFlight(v))[e] + multiset(v.items)[e]
              + multiset(Lost(v.history.losses))[e] == 1
    {
      CountOfStamp(v.history.arrived, e);
    }
    forall loss | loss in v.history.losses
      ensures loss.event in v.history.arrived
    {
      var i :| 0 <= i < |v.history.losses| && v.history.losses[i] == loss;
      assert Lost(v.history.losses)[i] in multiset(v.history.arrived);
    }
  }

  /**
   A drop is announced, not silent.  A gap frame is owed exactly while some drop has
   no gap frame after it, and then an event is queued to announce it ahead of.  And
   between a drop and the sending of any event taken after it, a gap frame starts.
   */
  lemma DropsAreAnnounced(maxsize: int, steps: seq<Step>)
    ensures var v := Run(NewView(maxsize), steps);
            var marks := v.history.marks;
            && (v.gapPending <==> Owed(marks))
            && (v.gapPending ==> v.items != [])
            && (forall loss | loss in v.history.losses && loss.Overflowed? :: Dropped(loss.event.at) in marks)
            && (forall d, t, k | 0 <= d < t < k < |marks| && marks[d].Dropped? && marks[t].Taken?
                                 && marks[k] == Sent(marks[t].at) ::
                  exists g :: d < g < k && marks[g].GapStarted?)
  {
    NewViewInv(maxsize);
    RunKeepsInv(NewView(maxsize), steps);
    var marks := Run(NewView(maxsize), steps).history.marks;
    hide Run, NewView, Next, Announced, FlowInv, BoundInv, Owed;
    forall d, t, k | 0 <= d < t < k < |marks| && marks[d].Dropped? && marks[t].Taken? && marks[k] == Sent(marks[t].at)
      ensures exists g :: d < g < k && marks[g].GapStarted?
    {
      var g := GapBetween(marks, d, t, k);
    }
  }

  lemma GapBetween(marks: seq<Mark>, d: nat, t: nat, k: nat) returns (g: nat)
    requires Announced(marks) && d < t < k < |marks|
    requires marks[d].Dropped? && marks[t].Taken? && marks[k].Sent?
    ensures d < g < k && marks[g].GapStarted?
  {
    assert AnnouncedAt(marks, t);
    if Owed(marks[..t]) {
      g := t + 1;
    } else {
      assert marks[..t][d].Dropped?;
      g :| d < g < t && marks[..t][g].GapStarted?;
    }
  }

  /** No gap frame starts without a drop since the last one, and every event sent was taken before. */
  lemma GapsOnlyAfterDrops(maxsize: int, steps: seq<Step>)
    ensures var marks := Run(NewView(maxsize), steps).history.marks;
            && (forall g | 0 <= g < |marks| && marks[g].GapStarted? :: g > 0 && Owed(marks[..g - 1]))
            && (forall k | 0 <= k < |marks| :: SentWasTaken(marks, k))
  {
    NewViewInv(maxsize);
    RunKeepsInv(NewView(maxsize), steps);
    var marks := Run(NewView(maxsize), steps).history.marks;
    hide Run, NewView, Next, FlowInv, BoundInv, Owed;
    forall g | 0 <= g < |marks| && marks[g].GapStarted?
      ensures g > 0 && Owed(marks[..g - 1])
    {
      assert AnnouncedAt(marks, g - 1);
    }
  }

  /** The buffer is bounded, and the browser sees each type, and all never-replaced types together, in arrival order. */
  lemma BoundedAndOrdered(maxsize: int, steps: seq<Step>)
    ensures var v := Run(NewView(maxsize), steps);
            && (maxsize > 0 ==> |v.items| <= maxsize)
            && Ordered(v.history.delivered)
            && (forall i, j | 0 <= i < |v.history.delivered| && 0 <= j < |v.items|
                              && Related(v.history.delivered[i], v.items[j]) ::
                  v.history.delivered[i].at < v.items[j].at)
  {
    NewViewInv(maxsize);
    RunKeepsInv(NewView(maxsize), steps);
    var v := Run(NewView(maxsize), steps);
    var line, ahead := Line(v), |v.history.delivered + InFlight(v)|;
    assert forall i | 0 <= i < |v.history.delivered| :: line[i] == v.history.delivered[i];
    assert forall j | 0 <= j < |v.items| :: line[ahead + j] == v.items[j];
  }
}
