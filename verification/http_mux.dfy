/**
 The HTTP half of `TunnelMultiplexer` as the relay writes it: maps from stream id to
 exchange objects, whose `headSeen` is set in place, and an ordered memory of aborted
 ids.  Each method runs from one await to the next and is specified by `HttpExchange`.
 */
module HttpMux {
  import opened HttpExchange

  datatype ProxyError = Orphan | DuplicateHead | DataBeforeHead

  datatype Outcome = Called | Discarded | Refused(error: ProxyError)

  class Exchange {
    const streamId: nat
    var headSeen: bool

    constructor (streamId: nat)
      ensures this.streamId == streamId && !headSeen
    {
      this.streamId := streamId;
      headSeen := false;
    }
  }

  class HttpMultiplexer {
    var exchanges: map<nat, Exchange>
    var reqRoutes: map<nat, Exchange>
    var aborted: seq<nat>
    var nextStreamId: nat
    ghost var opening: set<nat>
    ghost var reader: Reader
    ghost var trace: seq<Mark>
    ghost var log: seq<nat>

    /** Routes and exchanges are one and the same table, each object under its own id. */
    ghost predicate Valid()
      reads this
    {
      && reqRoutes == exchanges
      && (forall id | id in exchanges :: exchanges[id].streamId == id < nextStreamId)
      && nextStreamId > 0
      && |aborted| <= ABORTED_MEMORY
    }

    ghost function View(): Exchanges
      reads this, exchanges.Values
    {
      Exchanges(map id | id in exchanges :: exchanges[id].headSeen, reqRoutes.Keys, aborted, nextStreamId,
                opening, reader, trace, log)
    }

    constructor ()
      ensures Valid() && View() == NEW
    {
      exchanges, reqRoutes, aborted, nextStreamId := map[], map[], [], 1;
      opening, reader, trace, log := {}, Idle, [], [];
    }

    /** `open_request` up to the send of its `REQ_OPEN`. */
    method OpenRequest() returns (streamId: nat)
      requires Valid()
      modifies this
      ensures Valid() && View() == Next(old(View()), Opens)
      ensures streamId == old(nextStreamId) && fresh(exchanges[streamId])
    {
      streamId := nextStreamId;
      nextStreamId := nextStreamId + 1;
      var ex := new Exchange(streamId);
      exchanges := exchanges[streamId := ex];
      reqRoutes := reqRoutes[streamId := ex];
      opening := opening + {streamId};
      assert View().live == old(View()).live[streamId := false];
    }

    method DropExchange(streamId: nat)
      requires Valid()
      modifies this`exchanges, this`reqRoutes
      ensures Valid() && View() == Drop(old(View()), streamId)
      ensures exchanges == old(exchanges) - {streamId}
    {
      exchanges := exchanges - {streamId};
      reqRoutes := reqRoutes - {streamId};
    }

    /** The send returns or raises; either way the open is over. */
    method OpenSendReturned(streamId: nat, sent: bool)
      requires Valid() && streamId in opening
      modifies this
      ensures Valid() && View() == Next(old(View()), OpenReturns(streamId, sent))
    {
      opening := opening - {streamId};
      if !sent {
        DropExchange(streamId);
        trace := trace + [OpenFailed(streamId)];
      }
    }

    /** `abort_request` up to the send of its `REQ_ABORT`. */
    method AbortRequest(streamId: nat)
      requires Valid() && 0 < streamId < nextStreamId
      modifies this
      ensures Valid() && View() == Next(old(View()), Aborts(streamId))
    {
      DropExchange(streamId);
      trace := trace + [Aborted(streamId)];
      log := if streamId in aborted then log else log + [streamId];
      if streamId !in aborted {
        aborted := aborted + [streamId];
      }
      ghost var grown := aborted;
      while |aborted| > ABORTED_MEMORY
        invariant |aborted| <= |grown| && aborted == grown[|grown| - |aborted|..]
        invariant |aborted| >= ABORTED_MEMORY || aborted == grown
        invariant exchanges == old(exchanges) - {streamId} && reqRoutes == exchanges
        invariant nextStreamId == old(nextStreamId)
        invariant opening == old(opening) && reader == old(reader) && trace == old(trace) + [Aborted(streamId)]
        invariant log == if streamId in old(aborted) then old(log) else old(log) + [streamId]
      {
        aborted := aborted[1..];
      }
      assert aborted == Remember(old(aborted), streamId);
      assert View().live == old(View()).live - {streamId};
    }

    method OnRespHead(streamId: nat) returns (outcome: Outcome)
      requires Valid() && reader.Idle?
      modifies this`reader, this`trace, if streamId in exchanges then {exchanges[streamId]} else {}
      ensures Valid() && View() == Next(old(View()), HeadArrives(streamId))
      ensures outcome.Called? <==> streamId in old(View()).live && !old(View()).live[streamId]
      ensures outcome == Refused(DuplicateHead) <==> streamId in old(View()).live && old(View()).live[streamId]
      ensures outcome == Discarded <==> streamId !in old(View()).live && streamId in aborted
    {
      if streamId !in exchanges {
        if streamId in aborted {
          return Discarded;
        }
        reader := Dead;
        return Refused(Orphan);
      }
      var ex := exchanges[streamId];
      if ex.headSeen {
        reader := Dead;
        return Refused(DuplicateHead);
      }
      ex.headSeen := true;
      reader, trace := InHead(streamId), trace + [HeadStarts(streamId)];
      assert View().live == old(View()).live[streamId := true];
      return Called;
    }

    method OnRespData(streamId: nat, eof: bool) returns (outcome: Outcome)
      requires Valid() && reader.Idle?
      modifies this`reader, this`trace
      ensures Valid() && View() == Next(old(View()), DataArrives(streamId, eof))
      ensures outcome.Called? <==> streamId in View().live && View().live[streamId]
      ensures outcome == Refused(DataBeforeHead) <==> streamId in View().live && !View().live[streamId]
      ensures outcome == Discarded <==> streamId !in View().live && streamId in aborted
    {
      if streamId !in exchanges {
        if streamId in aborted {
          return Discarded;
        }
        reader := Dead;
        return Refused(Orphan);
      }
      if !exchanges[streamId].headSeen {
        reader := Dead;
        return Refused(DataBeforeHead);
      }
      reader, trace := InData(streamId, eof), trace + [DataStarts(streamId, eof)];
      return Called;
    }

    method HeadCallbackReturned(streamId: nat, raised: bool)
      requires Valid() && reader == InHead(streamId)
      modifies this`reader
      ensures Valid() && View() == Next(old(View()), CallbackReturns(raised))
    {
      reader := if raised then Dead else Idle;
    }

    /** What `_on_resp_data` does after its callback: an exchange that has ended leaves the tables. */
    method DataCallbackReturned(streamId: nat, eof: bool, raised: bool)
      requires Valid() && reader == InData(streamId, eof)
      modifies this
      ensures Valid() && View() == Next(old(View()), CallbackReturns(raised))
    {
      reader := if raised then Dead else Idle;
      if !raised && eof {
        DropExchange(streamId);
      }
    }

    method Shutdown()
      requires Valid()
      modifies this
      ensures Valid() && View() == Next(old(View()), ShutsDown)
    {
      exchanges, reqRoutes := map[], map[];
      trace := trace + [ShutDown(nextStreamId)];
    }
  }
}
