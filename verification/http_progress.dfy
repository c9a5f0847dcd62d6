/**
 What the relay does for a home that keeps to the order of an exchange, and at which
 frame it gives a home up: told from what a browser has heard, not from the tables.
 */
module HttpProgress {
  import opened HttpExchange

  /** The id was given to a request, and not to a viewer. */
  ghost predicate HandedOut(events: seq<Event>, id: nat) {
    exists k | 0 <= k < |events| :: events[k] == Opens && Run(events[..k]).nextId == id
  }

  /** Nothing has ended the exchange: no eof, abort, failed open or shutdown. */
  predicate NotEnded(trace: seq<Mark>, id: nat) {
    NoEndBefore(trace, |trace|, id)
  }

  lemma {:induction false} EndedByAMark(trace: seq<Mark>, id: nat)
    requires !PhaseOf(trace, id).Broken?
    ensures PhaseOf(trace, id).Ended? <==> !NotEnded(trace, id)
  {
    PhaseMeans(trace, id);
    if PhaseOf(trace, id).Ended? {
      var init, last := trace[..|trace| - 1], trace[|trace| - 1];
      if !Ends(last, id) {
        EndedByAMark(init, id);
        var i :| 0 <= i < |init| && Ends(init[i], id);
        assert Ends(trace[i], id);
      } else {
        assert Ends(trace[|trace| - 1], id);
      }
    }
  }

  // ------------------------------------------------------ which exchanges are live

  lemma HandedOutMore(events: seq<Event>, e: Event, id: nat)
    ensures HandedOut(events + [e], id) <==> HandedOut(events, id) || (e == Opens && Run(events).nextId == id)
  {
    var all := events + [e];
    assert forall k | 0 <= k < |events| :: all[k] == events[k] && all[..k] == events[..k];
    assert all[|events|] == e && all[..|events|] == events;
    hide Run;
  }

  /** An opened exchange leaves the table only with an end, and the last piece of data is such an end. */
  predicate LiveFits(s: Exchanges, id: nat, handedOut: bool) {
    && (id in s.live ==> handedOut)
    && (handedOut && !PhaseOf(s.trace, id).Ended? ==> id in s.live)
    && (s.reader == InData(id, true) ==> PhaseOf(s.trace, id).Ended?)
  }

  lemma NextKeepsLive(s: Exchanges, e: Event, id: nat, handedOut: bool)
    requires TablesAgree(s) && PhaseFits(s, id) && LiveFits(s, id, handedOut)
    ensures LiveFits(Next(s, e), id, handedOut || (e == Opens && s.nextId == id))
  {
    hide PhaseOf, Last;
    var s' := Next(s, e);
    if s'.trace != s.trace {
      OneMarkFits(s, s', s'.trace[|s.trace|], id);
    }
  }

  lemma {:induction false} LiveOnlyIfOpened(events: seq<Event>, id: nat)
    ensures LiveFits(Run(events), id, HandedOut(events, id))
  {
    if events != [] {
      var init, e := events[..|events| - 1], events[|events| - 1];
      hide Next, TablesAgree, PhaseFits, LiveFits;
      assert events == init + [e];
      LiveOnlyIfOpened(init, id);
      HandedOutMore(init, e, id);
      RunKeepsInv(init);
      NextKeepsLive(Run(init), e, id, HandedOut(init, id));
    }
  }

  /** Between frames an exchange is live exactly when it was opened and nothing has ended it. */
  lemma LiveBetweenFramesIff(events: seq<Event>, id: nat)
    requires Run(events).reader.Idle?
    ensures id in Run(events).live <==> HandedOut(events, id) && NotEnded(Run(events).trace, id)
  {
    RunKeepsInv(events);
    assert PhaseFits(Run(events), id);
    LiveOnlyIfOpened(events, id);
    EndedByAMark(Run(events).trace, id);
    hide Run, PhaseOf;
  }

  // ------------------------------------------------------ what a frame does

  /** A live exchange's flag says whether its head has been passed on. */
  lemma HeadSeenIff(events: seq<Event>, id: nat)
    requires Run(events).reader.Idle? && id in Run(events).live
    ensures Run(events).live[id] <==> HeadStarts(id) in Run(events).trace
  {
    var s := Run(events);
    RunKeepsInv(events);
    assert PhaseFits(s, id);
    hide Run, PhaseOf;
    PhaseMeans(s.trace, id);
    if HeadStarts(id) in s.trace {
      var i :| 0 <= i < |s.trace| && s.trace[i] == HeadStarts(id);
      assert Calls(s.trace[i], id);
    }
  }

  /** The first head of a live exchange is passed on; a second one ends the reader and is not. */
  lemma HeadIsPassedOnOnce(events: seq<Event>, id: nat)
    requires Run(events).reader.Idle? && HandedOut(events, id) && NotEnded(Run(events).trace, id)
    ensures var s, s' := Run(events), Next(Run(events), HeadArrives(id));
            if HeadStarts(id) in s.trace then s' == s.(reader := Dead)
            else s'.reader == InHead(id) && s'.trace == s.trace + [HeadStarts(id)]
  {
    LiveBetweenFramesIff(events, id);
    HeadSeenIff(events, id);
    hide Run;
  }

  /** Data of a live exchange is passed on, in full order, when its head was; before the head it ends the reader. */
  lemma DataIsPassedOnAfterHead(events: seq<Event>, id: nat, eof: bool)
    requires Run(events).reader.Idle? && HandedOut(events, id) && NotEnded(Run(events).trace, id)
    ensures var s, s' := Run(events), Next(Run(events), DataArrives(id, eof));
            if HeadStarts(id) !in s.trace then s' == s.(reader := Dead)
            else s'.reader == InData(id, eof) && s'.trace == s.trace + [DataStarts(id, eof)]
  {
    LiveBetweenFramesIff(events, id);
    HeadSeenIff(events, id);
    hide Run;
  }

  // ------------------------------------------------------ a whole reply

  function RunFrom(s: Exchanges, events: seq<Event>): Exchanges
    decreases |events|
  {
    if events == [] then s else RunFrom(Next(s, events[0]), events[1..])
  }

  /** A frame and the browser's callback for it, which returns normally. */
  function Passed(e: Event): seq<Event> {
    [e, CallbackReturns(false)]
  }

  /** The body of a reply: `n` pieces of data and then the last one. */
  function Body(id: nat, n: nat): seq<Event> {
    if n == 0 then Passed(DataArrives(id, true)) else Passed(DataArrives(id, false)) + Body(id, n - 1)
  }

  function Heard(id: nat, n: nat): seq<Mark> {
    if n == 0 then [DataStarts(id, true)] else [DataStarts(id, false)] + Heard(id, n - 1)
  }

  lemma RunFromTwo(s: Exchanges, e: Event, more: seq<Event>)
    ensures RunFrom(s, Passed(e) + more) == RunFrom(Next(Next(s, e), CallbackReturns(false)), more)
  {
    var all := Passed(e) + more;
    assert all[1..][1..] == more;
    hide Next;
  }

  lemma {:induction false} BodyIsPassedOn(s: Exchanges, id: nat, n: nat)
    requires s.reader.Idle? && id in s.live && s.live[id]
    ensures RunFrom(s, Body(id, n)) ==
              s.(live := s.live - {id}, routes := s.routes - {id}, trace := s.trace + Heard(id, n))
    decreases n
  {
    var e := DataArrives(id, n == 0);
    var s' := Next(Next(s, e), CallbackReturns(false));
    if n == 0 {
      RunFromTwo(s, e, []);
      assert Passed(e) + [] == Body(id, n);
    } else {
      RunFromTwo(s, e, Body(id, n - 1));
      BodyIsPassedOn(s', id, n - 1);
      assert s.trace + Heard(id, n) == s'.trace + Heard(id, n - 1);
    }
    hide RunFrom;
  }

  /**
   A reply in order is passed on whole, however long: its head, then every piece of data
   as it came.  After it the reader is between frames, the exchange is gone from both
   tables, and nothing else has changed.
   */
  lemma ReplyIsPassedOn(events: seq<Event>, id: nat, n: nat)
    requires Run(events).reader.Idle? && HandedOut(events, id) && NotEnded(Run(events).trace, id)
    requires HeadStarts(id) !in Run(events).trace
    ensures var s := Run(events);
            RunFrom(s, Passed(HeadArrives(id)) + Body(id, n)) ==
              s.(live := s.live - {id}, routes := s.routes - {id}, trace := s.trace + [HeadStarts(id)] + Heard(id, n))
  {
    var s := Run(events);
    LiveBetweenFramesIff(events, id);
    HeadSeenIff(events, id);
    hide Run;
    var s' := Next(Next(s, HeadArrives(id)), CallbackReturns(false));
    RunFromTwo(s, HeadArrives(id), Body(id, n));
    BodyIsPassedOn(s', id, n);
    assert s'.live - {id} == s.live - {id};
  }

  // ------------------------------------------------------ a reader that was given up


  /** Once a frame out of order or a raising callback ended the reader, no browser hears anything more. */
  lemma {:induction false} DeadHearsNothing(s: Exchanges, events: seq<Event>)
    requires s.reader.Dead?
    ensures var s' := RunFrom(s, events);
            && s'.reader.Dead? && s.trace <= s'.trace
            && forall i | |s.trace| <= i < |s'.trace| :: !s'.trace[i].HeadStarts? && !s'.trace[i].DataStarts?
    decreases |events|
  {
    if events != [] {
      DeadHearsNothing(Next(s, events[0]), events[1..]);
    }
  }
}
