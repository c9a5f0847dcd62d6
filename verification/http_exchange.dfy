/**
 Browser HTTP exchanges over one home tunnel: opening, aborting, and the frames the
 home answers with, cut at every await of the relay's coroutines.

 Frames are routed one at a time by the tunnel's single reader, so a callback that is
 still running holds up later frames but not opens, aborts or a shutdown.
 */
module HttpExchange {
  import opened Sequences

  /** Where the reader is: between frames, in a callback, or torn down by an error. */
  datatype Reader = Idle | InHead(id: nat) | InData(id: nat, eof: bool) | Dead

  /** What a browser can see, and the moments after which it must see nothing more. */
  datatype Mark =
    | HeadStarts(id: nat)
    | DataStarts(id: nat, eof: bool)
    | Aborted(id: nat)
    | OpenFailed(id: nat)
    | ShutDown(upTo: nat)

  const ABORTED_MEMORY := 1024

  /**
   `live` maps the exchanges to their `head_seen`; `aborted` has the remembered ids,
   oldest first.  `trace` and `log` (every insertion into `aborted`) are history.
   */
  datatype Exchanges = Exchanges(
    live: map<nat, bool>, routes: set<nat>, aborted: seq<nat>, nextId: nat,
    opening: set<nat>, reader: Reader, trace: seq<Mark>, log: seq<nat>)

  const NEW := Exchanges(map[], {}, [], 1, {}, Idle, [], [])

  datatype Event =
    | Opens
    | OpenReturns(id: nat, sent: bool)
    | OpensWs
    | Aborts(id: nat)
    | HeadArrives(id: nat)
    | DataArrives(id: nat, eof: bool)
    | CallbackReturns(raised: bool)
    | ShutsDown

  function Last(s: seq<nat>, n: nat): seq<nat> {
    if |s| <= n then s else s[|s| - n..]
  }

  function Remember(aborted: seq<nat>, id: nat): seq<nat> {
    if id in aborted then aborted else Last(aborted + [id], ABORTED_MEMORY)
  }

  function Drop(s: Exchanges, id: nat): Exchanges {
    s.(live := s.live - {id}, routes := s.routes - {id})
  }

  function Opened(s: Exchanges): Exchanges {
    s.(live := s.live[s.nextId := false], routes := s.routes + {s.nextId},
       opening := s.opening + {s.nextId}, nextId := s.nextId + 1)
  }

  function OpenReturned(s: Exchanges, id: nat, sent: bool): Exchanges {
    if id !in s.opening then s
    else
      var s' := s.(opening := s.opening - {id});
      if sent then s' else Drop(s', id).(trace := s.trace + [OpenFailed(id)])
  }

  /** Only ids that were handed out are aborted. */
  function AbortedNow(s: Exchanges, id: nat): Exchanges {
    if !(0 < id < s.nextId) then s
    else
      Drop(s, id).(aborted := Remember(s.aborted, id),
                   log := if id in s.aborted then s.log else s.log + [id],
                   trace := s.trace + [Aborted(id)])
  }

  function HeadArrived(s: Exchanges, id: nat): Exchanges {
    if id !in s.live then if id in s.aborted then s else s.(reader := Dead)
    else if s.live[id] then s.(reader := Dead)
    else s.(live := s.live[id := true], reader := InHead(id), trace := s.trace + [HeadStarts(id)])
  }

  function DataArrived(s: Exchanges, id: nat, eof: bool): Exchanges {
    if id !in s.live then if id in s.aborted then s else s.(reader := Dead)
    else if !s.live[id] then s.(reader := Dead)
    else s.(reader := InData(id, eof), trace := s.trace + [DataStarts(id, eof)])
  }

  function CallbackReturned(s: Exchanges, raised: bool): Exchanges {
    match s.reader
    case Idle => s
    case Dead => s
    case InHead(id) => s.(reader := if raised then Dead else Idle)
    case InData(id, eof) =>
      if raised then s.(reader := Dead)
      else if eof then Drop(s, id).(reader := Idle)
      else s.(reader := Idle)
  }

  function ShutNow(s: Exchanges): Exchanges {
    s.(live := map[], routes := {}, trace := s.trace + [ShutDown(s.nextId)])
  }

  function Next(s: Exchanges, e: Event): Exchanges {
    match e
    case Opens => Opened(s)
    case OpenReturns(id, sent) => OpenReturned(s, id, sent)
    case OpensWs => s.(nextId := s.nextId + 1)
    case Aborts(id) => AbortedNow(s, id)
    case HeadArrives(id) => if s.reader.Idle? then HeadArrived(s, id) else s
    case DataArrives(id, eof) => if s.reader.Idle? then DataArrived(s, id, eof) else s
    case CallbackReturns(raised) => CallbackReturned(s, raised)
    case ShutsDown => ShutNow(s)
  }

  function Run(events: seq<Event>): Exchanges {
    if events == [] then NEW else Next(Run(events[..|events| - 1]), events[|events| - 1])
  }

  // ------------------------------------------------------ what one browser may see

  /** How far one exchange has got; `Broken` when a callback came out of order. */
  datatype Phase = Unheard | Streaming | Ended | Broken

  predicate Ends(m: Mark, id: nat) {
    match m
    case HeadStarts(_) => false
    case DataStarts(other, eof) => other == id && eof
    case Aborted(other) => other == id
    case OpenFailed(other) => other == id
    case ShutDown(upTo) => id < upTo
  }

  predicate Calls(m: Mark, id: nat) {
    (m.HeadStarts? || m.DataStarts?) && m.id == id
  }

  function After(p: Phase, m: Mark, id: nat): Phase {
    if p.Broken? || (m.HeadStarts? && m.id == id && !p.Unheard?)
       || (m.DataStarts? && m.id == id && !p.Streaming?) then Broken
    else if Ends(m, id) then Ended
    else if m == HeadStarts(id) then Streaming
    else p
  }

  function PhaseOf(trace: seq<Mark>, id: nat): Phase {
    if trace == [] then Unheard
    else After(PhaseOf(trace[..|trace| - 1], id), trace[|trace| - 1], id)
  }

  lemma PhaseOfMore(trace: seq<Mark>, m: Mark, id: nat)
    ensures PhaseOf(trace + [m], id) == After(PhaseOf(trace, id), m, id)
  {
    assert (trace + [m])[..|trace|] == trace;
  }

  predicate NoEndBefore(trace: seq<Mark>, j: nat, id: nat)
    requires j <= |trace|
  {
    forall i | 0 <= i < j :: !Ends(trace[i], id)
  }

  predicate NoCallBefore(trace: seq<Mark>, j: nat, id: nat)
    requires j <= |trace|
  {
    forall i | 0 <= i < j :: !Calls(trace[i], id)
  }

  /** One head, before any data; and nothing once the exchange has ended. */
  predicate InOrder(trace: seq<Mark>, id: nat) {
    forall j | 0 <= j < |trace| && Calls(trace[j], id) ::
      && NoEndBefore(trace, j, id)
      && (if trace[j].HeadStarts? then NoCallBefore(trace, j, id)
          else exists i :: 0 <= i < j && trace[i] == HeadStarts(id))
  }

  lemma {:induction false} PhaseMeans(trace: seq<Mark>, id: nat)
    requires !PhaseOf(trace, id).Broken?
    ensures InOrder(trace, id)
    ensures PhaseOf(trace, id).Unheard? ==> NoCallBefore(trace, |trace|, id) && NoEndBefore(trace, |trace|, id)
    ensures PhaseOf(trace, id).Streaming? ==>
              NoEndBefore(trace, |trace|, id) && exists i :: 0 <= i < |trace| && trace[i] == HeadStarts(id)
  {
    if trace != [] {
      var init, n := trace[..|trace| - 1], |trace| - 1;
      PhaseMeans(init, id);
      assert forall j | 0 <= j < n :: init[j] == trace[j];
      assert forall j | 0 <= j < n :: NoEndBefore(init, j, id) ==> NoEndBefore(trace, j, id);
      assert forall j | 0 <= j < n :: NoCallBefore(init, j, id) ==> NoCallBefore(trace, j, id);
      if trace[n] == HeadStarts(id) {
        assert exists i :: 0 <= i < |trace| && trace[i] == HeadStarts(id);
      } else if PhaseOf(init, id).Streaming? {
        var i :| 0 <= i < n && init[i] == HeadStarts(id);
        assert trace[i] == HeadStarts(id);
      }
    }
  }

  // ------------------------------------------------------ the invariant

  predicate TablesAgree(s: Exchanges) {
    && s.nextId > 0
    && s.routes == s.live.Keys
    && (forall id | id in s.live :: id < s.nextId && id !in s.aborted)
    && (forall id | id in s.opening :: id < s.nextId)
  }

  predicate Remembers(s: Exchanges) {
    && s.aborted == Last(s.log, ABORTED_MEMORY)
    && (forall id | id in s.aborted :: id < s.nextId)
    && NoRepeats(s.aborted)
  }

  predicate PhaseFits(s: Exchanges, id: nat) {
    var p := PhaseOf(s.trace, id);
    && !p.Broken?
    && (id >= s.nextId ==> p.Unheard?)
    && (id in s.live && !s.live[id] ==> p.Unheard?)
    && (id in s.live && s.live[id] ==>
          p.Streaming? || (p.Ended? && (s.reader == InData(id, true) || s.reader.Dead?)))
  }

  ghost predicate Inv(s: Exchanges) {
    TablesAgree(s) && Remembers(s) && forall id: nat :: PhaseFits(s, id)
  }

  lemma LastOfMore(log: seq<nat>, id: nat, n: nat)
    requires n > 0
    ensures Last(Last(log, n) + [id], n) == Last(log + [id], n)
  {
    if |log| > n {
      assert (log[|log| - n..] + [id])[1..] == (log + [id])[|log| + 1 - n..];
    }
  }

  lemma LastIsInside(s: seq<nat>, n: nat)
    ensures forall id | id in Last(s, n) :: id in s
    ensures NoRepeats(s) ==> NoRepeats(Last(s, n))
  {
    if |s| > n {
      assert forall i | 0 <= i < n :: Last(s, n)[i] == s[|s| - n + i];
    }
  }

  lemma AbortKeepsMemory(s: Exchanges, id: nat)
    requires Remembers(s)
    ensures Remembers(AbortedNow(s, id))
  {
    if id !in s.aborted {
      LastOfMore(s.log, id, ABORTED_MEMORY);
      OneMoreIsDistinct(s.aborted, id);
      LastIsInside(s.aborted + [id], ABORTED_MEMORY);
      hide NoRepeats, Last;
    }
  }

  lemma AbortKeepsTables(s: Exchanges, id: nat)
    requires TablesAgree(s)
    ensures TablesAgree(AbortedNow(s, id))
  {
    LastIsInside(s.aborted + [id], ABORTED_MEMORY);
    hide NoRepeats, Last;
  }

  lemma OneMarkFits(s: Exchanges, s': Exchanges, m: Mark, id: nat)
    requires PhaseFits(s, id) && s'.trace == s.trace + [m]
    ensures PhaseOf(s'.trace, id) == After(PhaseOf(s.trace, id), m, id)
  {
    PhaseOfMore(s.trace, m, id);
  }

  lemma NextFits(s: Exchanges, e: Event, id: nat)
    requires TablesAgree(s) && PhaseFits(s, id)
    ensures PhaseFits(Next(s, e), id)
  {
    hide PhaseOf, Last;
    var s' := Next(s, e);
    if s'.trace != s.trace {
      var m := s'.trace[|s.trace|];
      OneMarkFits(s, s', m, id);
    }
  }

  lemma NextKeepsTables(s: Exchanges, e: Event)
    requires TablesAgree(s) && Remembers(s)
    ensures TablesAgree(Next(s, e)) && Remembers(Next(s, e))
  {
    hide NoRepeats, Last, Remember;
    if e.Aborts? {
      AbortKeepsMemory(s, e.id);
      AbortKeepsTables(s, e.id);
    }
  }

  lemma {:induction false} RunKeepsInv(events: seq<Event>)
    ensures Inv(Run(events))
  {
    if events != [] {
      var s, e := Run(events[..|events| - 1]), events[|events| - 1];
      RunKeepsInv(events[..|events| - 1]);
      NextKeepsTables(s, e);
      forall id: nat
        ensures PhaseFits(Next(s, e), id)
      {
        NextFits(s, e, id);
      }
    }
  }

  // ------------------------------------------------------ main results

  /** Of every stream: at most one head, then data; no callback starts after eof, abort, failed open or shutdown. */
  lemma CallbacksComeInOrder(events: seq<Event>, id: nat)
    ensures InOrder(Run(events).trace, id)
  {
    RunKeepsInv(events);
    assert PhaseFits(Run(events), id);
    PhaseMeans(Run(events).trace, id);
  }

  /** Exchanges and routes never part; an id is never both live and aborted; the memory of aborts is bounded. */
  lemma LiveAndAbortedAreDisjoint(events: seq<Event>)
    ensures var s := Run(events);
            && s.routes == s.live.Keys
            && (forall id | id in s.live :: id !in s.aborted)
            && |s.aborted| <= ABORTED_MEMORY
  {
    RunKeepsInv(events);
  }

  /** A reply to a stream that is not live is discarded exactly when its id is among the last 1024 remembered. */
  lemma LateReplyIff(events: seq<Event>, id: nat, reply: Event)
    requires Run(events).reader.Idle? && id !in Run(events).live
    requires reply == HeadArrives(id) || (reply.DataArrives? && reply.id == id)
    ensures var s := Run(events);
            && (id in Last(s.log, ABORTED_MEMORY) ==> Next(s, reply) == s)
            && (id !in Last(s.log, ABORTED_MEMORY) ==> Next(s, reply) == s.(reader := Dead))
  {
    RunKeepsInv(events);
  }

  /** The ids aborted, in order. */
  function AbortIds(events: seq<Event>): seq<nat> {
    if events == [] then []
    else AbortIds(events[..|events| - 1]) + if events[|events| - 1].Aborts? then [events[|events| - 1].id] else []
  }

  function AbortCount(events: seq<Event>): nat {
    |AbortIds(events)|
  }

  lemma {:induction false} LogOnlyGrows(events: seq<Event>, more: seq<Event>)
    ensures Run(events).log <= Run(events + more).log
    ensures |Run(events + more).log| <= |Run(events).log| + AbortCount(more)
  {
    hide Last, Remember;
    if more == [] {
      assert events + more == events;
    } else {
      LogOnlyGrows(events, more[..|more| - 1]);
      assert (events + more)[..|events + more| - 1] == events + more[..|more| - 1];
      assert (events + more)[|events + more| - 1] == more[|more| - 1];
    }
  }

  lemma StillInLast(ids: seq<nat>, more: seq<nat>, n: nat, i: nat)
    requires ids <= more && i < |Last(ids, n)| && |Last(ids, n)| - 1 - i + |more| - |ids| < n
    ensures Last(ids, n)[i] in Last(more, n)
  {
    var k := |ids| - |Last(ids, n)| + i;
    assert more[k] == Last(ids, n)[i];
    assert Last(more, n)[k - (|more| - |Last(more, n)|)] == more[k];
  }

  /** An id with `i` ids remembered before it outlives every run of aborts that leaves fewer than 1024 after it. */
  lemma RememberedLongEnough(events: seq<Event>, more: seq<Event>, i: nat)
    requires i < |Run(events).aborted|
    requires |Run(events).aborted| - 1 - i + AbortCount(more) < ABORTED_MEMORY
    ensures Run(events).aborted[i] in Run(events + more).aborted
  {
    RunKeepsInv(events);
    RunKeepsInv(events + more);
    LogOnlyGrows(events, more);
    hide Run, Last;
    StillInLast(Run(events).log, Run(events + more).log, ABORTED_MEMORY, i);
  }

  // ------------------------------------------------------ each id aborted once

  /** Every abort is of an id that was handed out, and of no id a second time. */
  predicate AbortsOnce(events: seq<Event>) {
    NoRepeats(AbortIds(events)) && AbortsHandedOut(events)
  }

  predicate AbortsHandedOut(events: seq<Event>) {
    events == []
    || var init, last := events[..|events| - 1], events[|events| - 1];
       AbortsHandedOut(init) && (last.Aborts? ==> 0 < last.id < Run(init).nextId)
  }

  lemma {:induction false} LogIsTheAborts(events: seq<Event>)
    requires AbortsOnce(events)
    ensures Run(events).log == AbortIds(events)
  {
    if events != [] {
      var init, last := events[..|events| - 1], events[|events| - 1];
      var ids := AbortIds(init);
      assert forall i | 0 <= i < |ids| :: AbortIds(events)[i] == ids[i];
      LogIsTheAborts(init);
      RunKeepsInv(init);
      if last.Aborts? {
        assert AbortIds(events)[|ids|] == last.id;
        assert last.id !in ids;
        LastIsInside(ids, ABORTED_MEMORY);
      }
      hide Remember, PhaseOf;
    }
  }

  lemma {:induction false} AbortIdsSplit(before: seq<Event>, after: seq<Event>)
    ensures AbortIds(before + after) == AbortIds(before) + AbortIds(after)
  {
    if after == [] {
      assert before + after == before;
    } else {
      var init := after[..|after| - 1];
      AbortIdsSplit(before, init);
      assert (before + after)[..|before + after| - 1] == before + init;
    }
  }

  lemma {:induction false} AbortedStaysEnded(events: seq<Event>, k: nat)
    requires k < |events| && events[k].Aborts? && AbortsHandedOut(events)
    ensures Aborted(events[k].id) in Run(events).trace
  {
    var n := |events| - 1;
    if k < n {
      AbortedStaysEnded(events[..n], k);
    }
    hide Remember;
  }

  lemma {:induction false} AbortedIsEnded(trace: seq<Mark>, id: nat)
    requires Aborted(id) in trace && !PhaseOf(trace, id).Broken?
    ensures PhaseOf(trace, id).Ended?
  {
    var init, last := trace[..|trace| - 1], trace[|trace| - 1];
    if last != Aborted(id) {
      AbortedIsEnded(init, id);
    }
  }

  /** A stream that was aborted is not live, once no callback is running. */
  lemma AbortedIsNotLive(events: seq<Event>, k: nat)
    requires k < |events| && events[k].Aborts? && AbortsHandedOut(events) && Run(events).reader.Idle?
    ensures events[k].id !in Run(events).live
  {
    RunKeepsInv(events);
    AbortedStaysEnded(events, k);
    assert PhaseFits(Run(events), events[k].id);
    AbortedIsEnded(Run(events).trace, events[k].id);
  }

  lemma InLastIff(ids: seq<nat>, p: nat, n: nat)
    requires NoRepeats(ids) && p < |ids|
    ensures ids[p] in Last(ids, n) <==> |ids| - p <= n
  {
    var last := Last(ids, n);
    var skipped := |ids| - |last|;
    assert forall i | 0 <= i < |last| :: last[i] == ids[skipped + i];
    if p >= skipped {
      assert last[p - skipped] == ids[p];
    }
  }

  /**
   Where each id is aborted at most once, as the relay does, a late reply to an aborted
   id is discarded exactly when fewer than 1024 aborts came after its own; else it ends
   the reader.
   */
  lemma LateReplyDiscardedIff(events: seq<Event>, k: nat, reply: Event)
    requires k < |events| && events[k].Aborts? && AbortsOnce(events) && Run(events).reader.Idle?
    requires reply == HeadArrives(events[k].id) || (reply.DataArrives? && reply.id == events[k].id)
    ensures var s := Run(events);
            if AbortCount(events[k + 1..]) < ABORTED_MEMORY then Next(s, reply) == s
            else Next(s, reply) == s.(reader := Dead)
  {
    AbortedIsNotLive(events, k);
    LateReplyIff(events, events[k].id, reply);
    LogIsTheAborts(events);
    AbortPlace(events, k);
    InLastIff(AbortIds(events), |AbortIds(events[..k])|, ABORTED_MEMORY);
    hide Next, Run, Last, AbortsHandedOut;
  }

  /** The place of an abort among all of them. */
  lemma AbortPlace(events: seq<Event>, k: nat)
    requires k < |events| && events[k].Aborts?
    ensures var p := |AbortIds(events[..k])|;
            && p < |AbortIds(events)| && AbortIds(events)[p] == events[k].id
            && |AbortIds(events)| - p == 1 + AbortCount(events[k + 1..])
  {
    var one := [events[k]];
    assert one[..0] == [];
    assert AbortIds(one) == [events[k].id];
    assert events == events[..k] + (one + events[k + 1..]);
    AbortIdsSplit(events[..k], one + events[k + 1..]);
    AbortIdsSplit(one, events[k + 1..]);
  }

  /** A home that answers a request whose `REQ_OPEN` send failed is taken for one that broke the protocol. */
  lemma FailedOpenIsNotRemembered(events: seq<Event>, id: nat, reply: Event)
    requires id in Run(events).opening && Run(events).reader.Idle? && id !in Run(events).aborted
    requires reply == HeadArrives(id) || (reply.DataArrives? && reply.id == id)
    ensures Next(Next(Run(events), OpenReturns(id, false)), reply).reader.Dead?
  {
  }

  // ------------------------------------------------------ aborting an id again

  function FirstIds(n: nat): seq<nat> {
    seq(n, i requires 0 <= i < n => i + 1)
  }

  lemma RunMore(events: seq<Event>, e: Event)
    ensures Run(events + [e]) == Next(Run(events), e)
  {
    assert (events + [e])[..|events|] == events;
  }

  lemma {:induction false} FillMemory(n: nat) returns (events: seq<Event>)
    requires n <= ABORTED_MEMORY
    ensures Run(events).aborted == FirstIds(n) && Run(events).nextId == n + 1 && Run(events).reader.Idle?
  {
    events := [];
    if n > 0 {
      events := FillMemory(n - 1);
      RunMore(events, Opens);
      RunMore(events + [Opens], Aborts(n));
      assert FirstIds(n) == FirstIds(n - 1) + [n];
      events := events + [Opens] + [Aborts(n)];
    }
  }

  /**
   Of `abort_request` alone, whose caller in the relay aborts each id at most once:
   aborting a remembered id again would not make it younger, and one other abort later
   its late reply would end the reader.
   */
  lemma AbortingAgainDoesNotRefresh() returns (events: seq<Event>, other: nat)
    ensures other != 1
    ensures var s := Run(events + [Aborts(1)] + [Aborts(other)]);
            1 !in s.aborted && Next(s, HeadArrives(1)).reader.Dead?
  {
    events := FillMemory(ABORTED_MEMORY);
    RunMore(events, Opens);
    events, other := events + [Opens], ABORTED_MEMORY + 1;
    RunMore(events, Aborts(1));
    RunMore(events + [Aborts(1)], Aborts(other));
    var full := FirstIds(ABORTED_MEMORY);
    assert full[0] == 1;
    var s := Run(events + [Aborts(1)] + [Aborts(other)]);
    assert s.aborted == full[1..] + [other];
    RunKeepsInv(events + [Aborts(1)]);
    assert 1 !in Run(events + [Aborts(1)]).live;
  }
}
