/**
 What an overflow costs a browser, and when a browser is given up: the policy of the
 bounded buffer, said of the queue and of the run instead of the code.
 */
module ViewerPolicy {
  import opened ViewerEgress

  // ------------------------------------------------------ what an arrival does to the queue

  /** The types of which a browser wants only the latest. */
  predicate OnlyLatest(etype: string) {
    etype == "preview" || etype == "sequence"
  }

  /** Slot `i` has the newest queued event of the type. */
  predicate IsNewest(items: seq<Event>, etype: string, i: nat) {
    && i < |items| && items[i].etype == etype
    && forall j | i < j < |items| :: items[j].etype != etype
  }

  /** The oldest event that is neither a preview nor a sequence, or the oldest of all when every one is. */
  predicate IsExpendable(items: seq<Event>, i: nat) {
    && i < |items|
    && if OnlyLatest(items[i].etype) then i == 0 && forall j | 0 <= j < |items| :: OnlyLatest(items[j].etype)
       else forall j | 0 <= j < i :: OnlyLatest(items[j].etype)
  }

  predicate Coalesces(items: seq<Event>, etype: string) {
    OnlyLatest(etype) && exists j | 0 <= j < |items| :: items[j].etype == etype
  }

  lemma ExpendableIsOne(items: seq<Event>, i: nat, j: nat)
    requires IsExpendable(items, i) && IsExpendable(items, j)
    ensures i == j
  {
  }

  lemma VictimIsExpendable(items: seq<Event>)
    requires items != []
    ensures IsExpendable(items, Victim(items))
  {
  }

  /** Below the bound an arrival is queued last, and costs nothing. */
  lemma RoomForAll(v: ViewerState, seqNo: int, payload: string, etype: string)
    requires v.routed && !(v.maxsize > 0 && |v.items| >= v.maxsize)
    ensures var v' := Arrive(v, seqNo, payload, etype);
            && v'.items == v.items + [Event(|v.history.arrived|, seqNo, payload, etype)]
            && v'.history.losses == v.history.losses && v'.gapPending == v.gapPending && v'.overflowed == v.overflowed
  {
  }

  /** At the bound a preview or sequence with one of its type queued takes the newest such slot, and drops nothing. */
  lemma CoalescingDropsNothing(v: ViewerState, seqNo: int, payload: string, etype: string) returns (i: nat)
    requires v.routed && v.maxsize > 0 && |v.items| >= v.maxsize && Coalesces(v.items, etype)
    ensures IsNewest(v.items, etype, i)
    ensures var v', event := Arrive(v, seqNo, payload, etype), Event(|v.history.arrived|, seqNo, payload, etype);
            && v'.items == v.items[i := event]
            && v'.history.losses == v.history.losses + [ReplacedBy(v.items[i], event)]
            && v'.history.marks == v.history.marks && v'.gapPending == v.gapPending && v'.overflowed
  {
    var j :| 0 <= j < |v.items| && v.items[j].etype == etype;
    i := NewestOf(v.items, etype);
  }

  /** At the bound any other arrival costs exactly the expendable event, is queued last, and owes a gap frame. */
  lemma OverflowDropsTheExpendable(v: ViewerState, seqNo: int, payload: string, etype: string) returns (i: nat)
    requires v.routed && v.maxsize > 0 && |v.items| >= v.maxsize && !Coalesces(v.items, etype)
    ensures IsExpendable(v.items, i)
    ensures var v', event := Arrive(v, seqNo, payload, etype), Event(|v.history.arrived|, seqNo, payload, etype);
            && v'.items == v.items[..i] + v.items[i + 1..] + [event]
            && v'.history.losses == v.history.losses + [Overflowed(v.items[i])]
            && v'.history.marks == v.history.marks + [Dropped(v.items[i].at)] && v'.gapPending && v'.overflowed
  {
    VictimIsExpendable(v.items);
    i := Victim(v.items);
    assert NewestOf(v.items, etype) >= 0 ==> v.items[NewestOf(v.items, etype)].etype == etype;
  }

  // ------------------------------------------------------ when a browser is given up

  lemma {:induction false} RunMore(v: ViewerState, steps: seq<Step>, step: Step)
    ensures Run(v, steps + [step]) == Next(Run(v, steps), step)
    decreases |steps|
  {
    hide Next;
    if steps == [] {
      assert [step][1..] == [];
    } else {
      assert (steps + [step])[1..] == steps[1..] + [step];
      RunMore(Next(v, steps[0]), steps[1..], step);
    }
  }

  /** Step `k` of the run is an arrival that finds the buffer full. */
  predicate Overflows(v: ViewerState, steps: seq<Step>, k: nat)
    requires k < |steps|
  {
    var before := Run(v, steps[..k]);
    steps[k].Arrival? && before.routed && before.maxsize > 0 && |before.items| >= before.maxsize
  }

  /** Step `k` of the run delivers an event and leaves nothing queued. */
  predicate CatchesUp(v: ViewerState, steps: seq<Step>, k: nat)
    requires k < |steps|
  {
    var before := Run(v, steps[..k]);
    steps[k] == PumpSentEvent(false) && before.pump.SendingEvent? && before.items == []
  }

  /** The buffer has overflowed, and the browser has not caught up since. */
  predicate Behind(v: ViewerState, steps: seq<Step>) {
    exists k | 0 <= k < |steps| ::
      Overflows(v, steps, k) && forall j | k < j < |steps| :: !CatchesUp(v, steps, j)
  }

  lemma SamePast(v: ViewerState, steps: seq<Step>, step: Step, k: nat)
    requires k < |steps|
    ensures Overflows(v, steps + [step], k) <==> Overflows(v, steps, k)
    ensures CatchesUp(v, steps + [step], k) <==> CatchesUp(v, steps, k)
  {
    assert (steps + [step])[..k] == steps[..k];
  }

  lemma BehindMore(v: ViewerState, steps: seq<Step>, step: Step)
    ensures var all, n := steps + [step], |steps|;
            Behind(v, all) <==> Overflows(v, all, n) || (Behind(v, steps) && !CatchesUp(v, all, n))
  {
    var all, n := steps + [step], |steps|;
    forall k | 0 <= k < n
      ensures Overflows(v, all, k) <==> Overflows(v, steps, k)
      ensures CatchesUp(v, all, k) <==> CatchesUp(v, steps, k)
    {
      SamePast(v, steps, step, k);
    }
    hide Overflows, CatchesUp;
    if Behind(v, steps) && !CatchesUp(v, all, n) {
      var k :| 0 <= k < n && Overflows(v, steps, k) && forall j | k < j < n :: !CatchesUp(v, steps, j);
      assert Overflows(v, all, k) && forall j | k < j < |all| :: !CatchesUp(v, all, j);
    }
    if Behind(v, all) && !Overflows(v, all, n) {
      var k :| 0 <= k < |all| && Overflows(v, all, k) && forall j | k < j < |all| :: !CatchesUp(v, all, j);
      assert Overflows(v, steps, k) && forall j | k < j < n :: !CatchesUp(v, steps, j);
    }
  }

  lemma OneStepBehind(v: ViewerState, steps: seq<Step>, step: Step)
    requires Run(v, steps).overflowed <==> Behind(v, steps)
    ensures Run(v, steps + [step]).overflowed <==> Behind(v, steps + [step])
  {
    RunMore(v, steps, step);
    BehindMore(v, steps, step);
    assert (steps + [step])[..|steps|] == steps;
    hide Run, Behind;
  }

  lemma {:induction false} OverflowedMeansBehind(maxsize: int, steps: seq<Step>)
    ensures Run(NewView(maxsize), steps).overflowed <==> Behind(NewView(maxsize), steps)
    decreases |steps|
  {
    if steps != [] {
      var init, last := steps[..|steps| - 1], steps[|steps| - 1];
      OverflowedMeansBehind(maxsize, init);
      OneStepBehind(NewView(maxsize), init, last);
      assert init + [last] == steps;
    }
  }

  /**
   A browser is disconnected right after a delivery exactly when the buffer is at its
   bound and has overflowed without the browser having caught up since.
   */
  lemma DisconnectsIff(maxsize: int, steps: seq<Step>)
    requires Run(NewView(maxsize), steps).pump.SendingEvent?
    ensures var v := Run(NewView(maxsize), steps);
            Next(v, PumpSentEvent(false)).pump.Disconnecting?
            <==> v.maxsize > 0 && |v.items| >= v.maxsize && Behind(NewView(maxsize), steps)
  {
    OverflowedMeansBehind(maxsize, steps);
    hide Run, Behind;
  }

  // ------------------------------------------------------ a browser that keeps up

  lemma StepWithoutOverflow(v: ViewerState, step: Step)
    requires v.pump.Ended? || Line(v) == v.history.arrived
    requires step.Arrival? && v.routed ==> !(v.maxsize > 0 && |v.items| >= v.maxsize)
    ensures Next(v, step).pump.Ended? || Line(Next(v, step)) == Next(v, step).history.arrived
  {
    if step.Arrival? {
      ArrivalWithoutOverflow(v, step.seqNo, step.payload, step.etype);
    } else if Next(v, step).history.losses == v.history.losses {
      LineStays(v, step);
      EndedForGood(v, step);
      hide Next, Line;
    } else {
      LossEndsThePump(v, step);
    }
  }

  lemma ArrivalWithoutOverflow(v: ViewerState, seqNo: int, payload: string, etype: string)
    requires v.routed ==> !(v.maxsize > 0 && |v.items| >= v.maxsize)
    requires v.pump.Ended? || Line(v) == v.history.arrived
    ensures var v' := Arrive(v, seqNo, payload, etype);
            v'.pump.Ended? || Line(v') == v'.history.arrived
  {
    if v.routed {
      var event := Event(|v.history.arrived|, seqNo, payload, etype);
      assert Line(Append(v, event)) == Line(v) + [event];
    }
  }

  lemma EndedForGood(v: ViewerState, step: Step)
    ensures v.pump.Ended? ==> Next(v, step).pump.Ended?
  {
    hide Victim, NewestOf;
  }

  lemma LossEndsThePump(v: ViewerState, step: Step)
    requires !step.Arrival? && Next(v, step).history.losses != v.history.losses
    ensures Next(v, step).pump.Ended?
  {
  }

  /**
   As long as the buffer never overflows and the pump runs, nothing is lost or moved:
   what was delivered, is being sent and is queued is what arrived, in that order.
   */
  lemma {:induction false} WithoutOverflowAllComeInOrder(maxsize: int, steps: seq<Step>)
    requires forall k | 0 <= k < |steps| :: !Overflows(NewView(maxsize), steps, k)
    ensures var v := Run(NewView(maxsize), steps);
            v.pump.Ended? || v.history.delivered + InFlight(v) + v.items == v.history.arrived
    decreases |steps|
  {
    if steps != [] {
      var init, last := steps[..|steps| - 1], steps[|steps| - 1];
      assert init + [last] == steps;
      forall k | 0 <= k < |init|
        ensures !Overflows(NewView(maxsize), init, k)
      {
        SamePast(NewView(maxsize), init, last, k);
      }
      WithoutOverflowAllComeInOrder(maxsize, init);
      RunMore(NewView(maxsize), init, last);
      assert !Overflows(NewView(maxsize), steps, |init|);
      hide Run, Next;
      StepWithoutOverflow(Run(NewView(maxsize), init), last);
    }
  }

  // ------------------------------------------------------ a browser that takes what it is sent

  /** The pump is resumed where it waits; `get` does not return from an empty buffer. */
  function Resumed(v: ViewerState, raised: bool): ViewerState {
    if v.pump.Ended? then v else Next(v, ResumedBy(v.pump, raised))
  }

  function ResumedTimes(v: ViewerState, n: nat): ViewerState
    decreases n
  {
    if n == 0 then v else ResumedTimes(Resumed(v, false), n - 1)
  }

  /** One event, with the gap frame ahead of it if one is owed, in two or three pieces of the pump. */
  lemma OneIsDelivered(v: ViewerState)
    requires v.pump.Waiting? && v.items != [] && BoundInv(v)
    ensures var n := if v.gapPending then 3 else 2;
            var v', first, h := ResumedTimes(v, n), v.items[0], v.history;
            var gap := if v.gapPending then [GapStarted] else [];
            && v'.pump.Waiting? && v'.routed == v.routed && v'.maxsize == v.maxsize && !v'.gapPending
            && v'.items == v.items[1..] && v'.lastSeq == first.seqNo
            && v'.history == h.(delivered := h.delivered + [first],
                                marks := h.marks + [Taken(first.at)] + gap + [Sent(first.at)])
  {
    var v1 := Resumed(v, false);
    var v2 := Resumed(v1, false);
    assert ResumedTimes(v1, 1) == ResumedTimes(v2, 0);
    if v.gapPending {
      var v3 := Resumed(v2, false);
      assert ResumedTimes(v2, 1) == ResumedTimes(v3, 0);
      assert ResumedTimes(v1, 2) == v3;
    }
  }

  lemma {:induction false} ResumedMore(v: ViewerState, n: nat, m: nat)
    ensures ResumedTimes(v, n + m) == ResumedTimes(ResumedTimes(v, n), m)
    decreases n
  {
    hide Resumed;
    if n > 0 {
      ResumedMore(Resumed(v, false), n - 1, m);
    }
  }

  /**
   A browser whose sends return gets everything that is queued, in order, behind the gap
   frame it is owed: nothing is lost on the way, and the pump then waits for more.
   */
  lemma {:induction false} QueueIsDelivered(v: ViewerState)
    requires v.pump.Waiting? && v.items != [] && BoundInv(v)
    ensures var n := 2 * |v.items| + (if v.gapPending then 1 else 0);
            var v' := ResumedTimes(v, n);
            && v'.pump.Waiting? && v'.routed == v.routed && !v'.gapPending && v'.items == []
            && v'.history.delivered == v.history.delivered + v.items
            && v'.history.losses == v.history.losses && v'.history.arrived == v.history.arrived
            && v.history.marks <= v'.history.marks
            && (v.gapPending ==> v.history.marks + [Taken(v.items[0].at)] + [GapStarted] <= v'.history.marks)
    decreases |v.items|
  {
    OneIsDelivered(v);
    var n := if v.gapPending then 3 else 2;
    var v1 := ResumedTimes(v, n);
    hide ResumedTimes;
    assert v.history.delivered + v.items == v1.history.delivered + v1.items;
    assert v.history.marks <= v1.history.marks;
    assert v.gapPending ==> v.history.marks + [Taken(v.items[0].at)] + [GapStarted] <= v1.history.marks;
    if |v.items| > 1 {
      QueueIsDelivered(v1);
      ResumedMore(v, n, 2 * |v1.items|);
    }
  }

  /** Events are given up only with the viewer: as long as its pump runs, none has been abandoned. */
  lemma {:induction false} NoneAbandonedWhileRunning(maxsize: int, steps: seq<Step>)
    ensures var v := Run(NewView(maxsize), steps);
            v.pump.Ended? || forall loss | loss in v.history.losses :: !loss.Abandoned?
    decreases |steps|
  {
    if steps != [] {
      var init, last := steps[..|steps| - 1], steps[|steps| - 1];
      assert init + [last] == steps;
      NoneAbandonedWhileRunning(maxsize, init);
      RunMore(NewView(maxsize), init, last);
      hide Run;
      AbandoningEnds(Run(NewView(maxsize), init), last);
    }
  }

  lemma AbandoningEnds(v: ViewerState, step: Step)
    requires v.pump.Ended? || forall loss | loss in v.history.losses :: !loss.Abandoned?
    ensures var v' := Next(v, step);
            v'.pump.Ended? || forall loss | loss in v'.history.losses :: !loss.Abandoned?
  {
    hide Victim, NewestOf;
  }
}
