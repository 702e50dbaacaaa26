/**
 The serve loop of a server connection: every frame received, every frame written and every
 message from a handler is one method. Each keeps the accounting of connection-level credit,
 the life cycle of streams and the stream counts.
 */
module ServeLoop {
  import opened Flow
  import opened Wrappers
  import opened ServerModel

  datatype Result = Fine | StreamError | ConnectionError | Panic

  ghost function Lens(streams: map<nat, Stream>): (m: map<nat, nat>) {
    map id | id in streams :: BodyLen(streams[id].body)
  }

  ghost function States(streams: map<nat, Stream>): (m: map<nat, StreamState>) {
    map id | id in streams :: streams[id].state
  }

  ghost function OfParity(keys: set<nat>, parity: nat): (r: set<nat>) {
    set id <- keys | id % 2 == parity
  }

  /** How many streams the client (parity 1) or the server (parity 0) opened. */
  ghost function Count(keys: set<nat>, parity: nat): (n: nat) {
    |OfParity(keys, parity)|
  }

  lemma {:induction false} CountWith(keys: set<nat>, id: nat, parity: nat)
    requires id !in keys
    ensures Count(keys + {id}, parity) == Count(keys, parity) + if id % 2 == parity then 1 else 0
  {
    assert OfParity(keys + {id}, parity) == OfParity(keys, parity) + if id % 2 == parity then {id} else {};
  }

  lemma {:induction false} CountWithout(keys: set<nat>, id: nat, parity: nat)
    requires id in keys
    ensures Count(keys - {id}, parity) == Count(keys, parity) - if id % 2 == parity then 1 else 0
  {
    CountWith(keys - {id}, id, parity);
    assert keys - {id} + {id} == keys;
  }

  /**
   What holds of every stream in the map. A stream that is half closed by the server waits for
   its RST_STREAM; one that is open has a body unless a reset is queued; and no stream was
   granted more than its window, counting pending, the reads not yet noted.
   */
  ghost predicate StreamOk(id: nat, st: Stream, pending: nat, maxClient: nat, maxPush: nat, window: int) {
    && id != 0 && (if id % 2 == 1 then id <= maxClient else id <= maxPush)
    && st.state != Idle && st.state != Closed
    && (id % 2 == 0 ==> st.state == HalfClosedRemote)
    && (st.state == HalfClosedLocal ==> st.resetQueued)
    && (st.state == Open ==> st.body.Some? || st.resetQueued)
    && BodyOk(st.body) && (st.declBodyBytes != -1 ==> st.bodyBytes <= st.declBodyBytes)
    && st.inflow.avail >= 0 && st.inflow.unsent >= 0
    && st.inflow.avail + st.inflow.unsent + BodyLen(st.body) + pending <= window
  }

  ghost predicate StreamsOk(streams: map<nat, Stream>, notes: seq<Note>, maxClient: nat, maxPush: nat, window: int) {
    forall id <- streams :: StreamOk(id, streams[id], NotesOf(notes, id), maxClient, maxPush, window)
  }

  /** Identifiers in notes and orphans were used before. */
  ghost predicate Used(id: nat, maxClient: nat, maxPush: nat) {
    if id % 2 == 1 then id <= maxClient else id <= maxPush
  }

  ghost predicate AllUsed(notes: seq<Note>, orphans: map<nat, Body>, maxClient: nat, maxPush: nat) {
    && (forall x <- notes :: Used(x.id, maxClient, maxPush))
    && (forall id <- orphans :: Used(id, maxClient, maxPush) && BodyOk(Some(orphans[id])))
  }

  /** A stream whose identifier was not used before joins, with or without a place in the map. */
  lemma {:induction false} Newcomer(streams: map<nat, Stream>, notes: seq<Note>, maxClient: nat, maxPush: nat,
                                    maxClient': nat, maxPush': nat, window: int, id: nat, st: Stream)
    requires StreamsOk(streams, notes, maxClient, maxPush, window) && maxClient <= maxClient' && maxPush <= maxPush'
    requires StreamOk(id, st, NotesOf(notes, id), maxClient', maxPush', window) && !Used(id, maxClient, maxPush) && id !in streams
    ensures StreamsOk(streams, notes, maxClient', maxPush', window) && StreamsOk(streams[id := st], notes, maxClient', maxPush', window)
    ensures Ahead(Lives(States(streams), maxClient, maxPush), Lives(States(streams), maxClient', maxPush'))
    ensures Ahead(Lives(States(streams), maxClient, maxPush), Lives(States(streams[id := st]), maxClient', maxPush'))
  {
    hide NotesOf;
  }

  class ServerConn {
    const inflow: InFlow
    const advMaxStreams: nat
    const initialRecvWindow: Int32
    var streams: map<nat, Stream>
    var orphans: map<nat, Body>
    var notes: seq<Note>
    var curClientStreams: nat
    var curPushedStreams: nat
    var maxClientStreamID: nat
    var maxPushPromiseID: nat
    var clientMaxStreams: nat
    var pushEnabled: bool
    var unackedSettings: nat
    var inGoAway: bool
    var goAwayError: bool
    var panicFrame: Option<nat>
    ghost const granted: int
    ghost var late: nat

    ghost function View(): (l: Lives)
      reads this
    {
      Lives(States(streams), maxClientStreamID, maxPushPromiseID)
    }

    /** state: a stream not in the map is closed if its identifier, or a larger one, was used. */
    function StateOf(id: nat): (s: StreamState)
      reads this
      ensures s == StateIn(View(), id)
    {
      if id in streams then streams[id].state
      else if id % 2 == 1 then (if id <= maxClientStreamID then Closed else Idle)
      else (if id <= maxPushPromiseID then Closed else Idle)
    }

    /** Credit: the announced and unannounced window, what open streams buffer and the reads not yet noted. */
    ghost function Credit(): (n: int)
      reads this, inflow
    {
      inflow.avail + inflow.unsent + Sum(Lens(streams)) + NoteSum(notes)
    }

    /** The invariant within a step, while the step still holds extra octets of credit. */
    ghost predicate Holds(extra: int)
      reads this, inflow
    {
      && inflow.avail >= 0 && inflow.unsent >= 0 && inflow.avail + inflow.unsent <= MAX_WINDOW && 0 <= initialRecvWindow
      && Credit() + extra == granted + late
      && StreamsOk(streams, notes, maxClientStreamID, maxPushPromiseID, initialRecvWindow)
      && AllUsed(notes, orphans, maxClientStreamID, maxPushPromiseID)
      && curClientStreams == Count(streams.Keys, 1) && curPushedStreams == Count(streams.Keys, 0)
      && curClientStreams <= advMaxStreams && maxPushPromiseID % 2 == 0
    }

    ghost predicate Valid()
      reads this, inflow
    {
      Holds(0)
    }

    constructor (advMaxStreams: nat, initialRecvWindow: Int32, granted: Int32)
      requires 0 <= initialRecvWindow && 0 <= granted
      ensures Valid() && streams == map[] && orphans == map[] && notes == [] && late == 0 && this.granted == granted
      ensures this.advMaxStreams == advMaxStreams && this.initialRecvWindow == initialRecvWindow
      ensures fresh(inflow) && inflow.Window() == Inbound(granted, 0) && !inGoAway && curClientStreams == 0 && maxClientStreamID == 0
      ensures panicFrame == None
    {
      this.advMaxStreams, this.initialRecvWindow, this.granted, late := advMaxStreams, initialRecvWindow, granted, 0;
      streams, orphans, notes, curClientStreams, curPushedStreams := map[], map[], [], 0, 0;
      maxClientStreamID, maxPushPromiseID, clientMaxStreams := 0, 0, 0xffff_ffff;
      pushEnabled, unackedSettings, inGoAway, goAwayError, panicFrame := true, 1, false, false, None;
      inflow := new InFlow(granted);
      assert Lens(map[]) == map[];
    }

    /** No credit is lost, and none is made up unless a handler reads a body after its stream closed. */
    lemma {:induction false} CreditNeverLost()
      requires Valid()
      ensures Credit() == granted + late && Credit() >= granted && (late == 0 <==> Credit() == granted)
    {
    }

    //
    // Single changes
    //

    /** Takes n octets of connection credit for a frame. */
    method TakeConn(n: nat, ghost extra: int) returns (ok: bool)
      requires Holds(extra)
      modifies inflow
      ensures ok == (n <= old(inflow.avail)) && Holds(if ok then extra + n else extra)
      ensures inflow.unsent == old(inflow.unsent) && inflow.avail == if ok then old(inflow.avail) - n else old(inflow.avail)
    {
      ok := inflow.Take(n);
    }

    /** The connection's window, announced or not. */
    function Window(): (n: int)
      reads inflow
    {
      inflow.avail + inflow.unsent
    }

    /** sendWindowUpdate for the connection. Not ok is the panic of inflow.add. */
    method RefundConn(n: nat, ghost extra: int) returns (ok: bool)
      requires Holds(extra) && n <= extra
      modifies inflow
      ensures Holds(if ok then extra - n else extra)
      ensures ok == (old(Window()) + n <= MAX_WINDOW) && Window() == if ok then old(Window()) + n else old(Window())
      ensures granted + late <= MAX_WINDOW ==> ok
    {
      var sent;
      if CanAdd(inflow.Window(), n) {
        CreditedConserves(inflow.Window(), n);
      }
      ok, sent := inflow.Add(n);
    }

    /** A stream's record changes. */
    method Update(id: nat, st: Stream, ghost extra: int)
      requires Holds(extra) && id in streams && Follows(streams[id].state, st.state)
      requires StreamOk(id, st, NotesOf(notes, id), maxClientStreamID, maxPushPromiseID, initialRecvWindow)
      modifies this`streams
      ensures Holds(extra + BodyLen(old(streams[id].body)) - BodyLen(st.body))
      ensures streams == old(streams)[id := st] && Ahead(old(View()), View())
    {
      hide Sum, NoteSum, NotesOf, StreamOk, AllUsed, Count;
      SumWith(Lens(streams), id, BodyLen(st.body));
      streams := streams[id := st];
      assert Lens(streams) == old(Lens(streams))[id := BodyLen(st.body)];
      assert streams.Keys == old(streams.Keys);
    }

    /** Whether the window has room for what the stream's body buffers. */
    predicate CanClose(id: nat)
      reads this, inflow
    {
      id in streams ==> Window() + BodyLen(streams[id].body) <= MAX_WINDOW
    }

    /** closeStream. Not ok is the panic of inflow.add. The handler can go on reading all that the body buffers. */
    method CloseStream(id: nat) returns (ok: bool)
      requires Valid() && id in streams
      modifies this`streams, this`orphans, this`curClientStreams, this`curPushedStreams, inflow
      ensures ok ==> Valid() && Ahead(old(View()), View()) && streams == old(streams) - {id}
      ensures ok == old(CanClose(id)) && (granted + late <= MAX_WINDOW ==> ok)
      ensures ok ==> Window() == old(Window()) + BodyLen(old(streams[id].body)) && orphans == Orphans(old(streams), old(orphans), id)
    {
      hide Sum, NoteSum, NotesOf, Count, StreamOk;
      var st := streams[id];
      Forget(id);
      if id % 2 == 0 {
        curPushedStreams := curPushedStreams - 1;
      } else {
        curClientStreams := curClientStreams - 1;
      }
      streams := streams - {id};
      ok := true;
      if st.body.Some? {
        orphans := orphans[id := st.body.value.(closed := true)];
        ok := RefundConn(Len(st.body.value), BodyLen(st.body));
      }
    }

    /** The sums and counts without one stream. */
    lemma {:induction false} Forget(id: nat)
      requires Valid() && id in streams
      ensures Sum(Lens(streams)) == BodyLen(streams[id].body) + Sum(Lens(streams - {id}))
      ensures Count((streams - {id}).Keys, 1) == curClientStreams - id % 2
      ensures Count((streams - {id}).Keys, 0) == curPushedStreams - (1 - id % 2)
      ensures BodyOk(streams[id].body) && Used(id, maxClientStreamID, maxPushPromiseID)
      ensures Ahead(View(), View().(states := States(streams - {id})))
    {
      hide Sum, NoteSum, NotesOf, Count;
      SumWithout(Lens(streams), id);
      assert Lens(streams) - {id} == Lens(streams - {id});
      CountWithout(streams.Keys, id, 0);
      CountWithout(streams.Keys, id, 1);
      assert (streams - {id}).Keys == streams.Keys - {id};
      assert StreamOk(id, streams[id], NotesOf(notes, id), maxClientStreamID, maxPushPromiseID, initialRecvWindow);
    }

    //
    // DATA frames
    //

    /** A DATA frame that is not for the handler: its connection credit goes back at once, and can. */
    method Discard(length: nat) returns (r: Result)
      requires Valid()
      modifies inflow
      ensures Valid() && Window() == old(Window()) && r == if length > old(inflow.avail) then StreamError else Fine
    {
      hide Sum, NoteSum, NotesOf, Count, StreamsOk, AllUsed, Lens;
      var ok := TakeConn(length, 0);
      if !ok {
        return StreamError;
      }
      ok := RefundConn(length, length);
      return Fine;
    }

    lemma {:induction false} StreamFacts(id: nat)
      requires Valid() && id in streams
      ensures StreamOk(id, streams[id], NotesOf(notes, id), maxClientStreamID, maxPushPromiseID, initialRecvWindow)
      ensures Ahead(View(), View())
    {
    }

    /** endStream: the body ends, whether or not its length is the declared one. */
    method EndStream(id: nat)
      requires Valid() && id in streams && streams[id].state == Open && streams[id].body.Some?
      modifies this`streams
      ensures Valid() && Ahead(old(View()), View())
      ensures streams == old(streams)[id := old(streams[id]).(state := HalfClosedRemote, body := Some(old(streams[id].body.value).(closed := true)))]
    {
      hide Sum, NoteSum, NotesOf, Count, StreamsOk, AllUsed, Lens, Ahead;
      StreamFacts(id);
      Update(id, streams[id].(state := HalfClosedRemote, body := Some(streams[id].body.value.(closed := true))), 0);
    }

    /** processData, which never panics. */
    method ProcessData(id: nat, length: nat, dataLen: nat, endStream: bool) returns (r: Result)
      requires Valid() && dataLen <= length
      modifies this`streams, inflow
      ensures Valid() && Ahead(old(View()), View()) && streams.Keys == old(streams.Keys)
      ensures r == Verdict(StateIn(old(View()), id), old(streams), old(inflow.avail), id, length, dataLen)
      ensures !Receiving(old(streams), id) ==> streams == old(streams)
      ensures Receiving(old(streams), id) ==>
        && streams == old(streams)[id := streams[id]]
        && Changed(old(streams[id]), streams[id], old(inflow.avail), length, dataLen, endStream)
      ensures Window() == old(Window()) - (if Buffers(old(streams), old(inflow.avail), id, length, dataLen) then dataLen else 0)
    {
      hide Sum, NoteSum, NotesOf, Count, StreamsOk, AllUsed, Lens, Ahead;
      Same();
      if id in streams {
        StreamFacts(id);
      }
      if id == 0 || StateOf(id) == Idle {
        return ConnectionError;
      }
      if id !in streams || streams[id].state != Open || streams[id].gotTrailer || streams[id].resetQueued {
        r := Discard(length);
        if r == Fine {
          r := if id in streams && streams[id].resetQueued then Fine else StreamError;
        }
        return;
      }
      var st := streams[id];
      assert streams == streams[id := st];
      if TooMuch(st, dataLen) {
        r := Discard(length);
        if r == Fine {
          Update(id, st.(body := Some(st.body.value.(closed := true))), 0);
          r := StreamError;
        }
        return;
      }
      r := Fine;
      if length > 0 {
        var more;
        r, more := Buffer(id, length, dataLen);
        if r != Fine || !more {
          return;
        }
      }
      if endStream {
        ghost var mid := View();
        EndStream(id);
        AheadTransitive(old(View()), mid, View());
      }
    }

    lemma {:induction false} Same()
      ensures Ahead(View(), View())
    {
    }

    /** The part of processData for a stream whose handler may still read; more tells whether it goes on. */
    method Buffer(id: nat, length: nat, dataLen: nat) returns (r: Result, more: bool)
      requires Valid() && id in streams && streams[id].state == Open && !streams[id].resetQueued && dataLen <= length
      requires streams[id].declBodyBytes != -1 ==> streams[id].bodyBytes + dataLen <= streams[id].declBodyBytes
      modifies this`streams, inflow
      ensures Valid() && Ahead(old(View()), View()) && id in streams && streams == old(streams)[id := streams[id]]
      ensures r == if length > old(inflow.avail) || length > old(streams[id].inflow.avail) then StreamError else Fine
      ensures r == StreamError ==> streams == old(streams) && Window() == old(Window())
      ensures r == Fine ==> more == (old(streams[id].body.Some?) && (dataLen == 0 || Writable(old(streams[id].body.value))))
      ensures r == Fine && more ==> Accepted(old(streams[id]), streams[id], dataLen, false) && Window() == old(Window()) - dataLen
      ensures r == Fine && !more ==> Dropped(old(streams[id]), streams[id], length, dataLen) && Window() == old(Window())
    {
      hide Sum, NoteSum, NotesOf, Count, StreamsOk, AllUsed, Lens, Ahead, StreamOk, Accepted, BufferedIn, CountedIn;
      StreamFacts(id);
      var st := streams[id];
      OpenFacts(id, st, NotesOf(notes, id), maxClientStreamID, maxPushPromiseID, initialRecvWindow);
      if length > inflow.avail || length > st.inflow.avail {
        assert streams == streams[id := st];
        return StreamError, false;
      }
      var ok := TakeConn(length, 0);
      BufferFacts(id, st, NotesOf(notes, id), maxClientStreamID, maxPushPromiseID, initialRecvWindow, length, dataLen);
      if dataLen > 0 && !Writable(st.body.value) {
        Update(id, CountedIn(st, length, dataLen), length);
        ok := RefundConn(length, length);
        return Fine, false;
      }
      Update(id, BufferedIn(st, length, dataLen), length);
      ok := RefundConn(length - dataLen, length - dataLen);
      return Fine, true;
    }

    //
    // HEADERS frames
    //

    /** A larger identifier from the client closes every idle stream below it. */
    method RaiseClient(id: nat)
      requires Valid()
      modifies this`maxClientStreamID
      ensures Valid() && Ahead(old(View()), View())
      ensures maxClientStreamID == if id > old(maxClientStreamID) then id else old(maxClientStreamID)
    {
      hide Sum, NoteSum, NotesOf, Count, Lens;
      if id > maxClientStreamID {
        maxClientStreamID := id;
      }
    }

    /** The new stream of processHeaders, unless there are too many. */
    method Admit(id: nat, st: Stream) returns (ok: bool)
      requires Valid() && id % 2 == 1 && id !in streams && id > maxClientStreamID && st.state in {Open, HalfClosedRemote}
      requires st.inflow == Inbound(initialRecvWindow, 0) && BodyLen(st.body) == 0 && BodyOk(st.body) && (st.state == Open ==> st.body.Some? || st.resetQueued)
      requires st.declBodyBytes != -1 ==> st.bodyBytes <= st.declBodyBytes
      modifies this`maxClientStreamID, this`streams, this`curClientStreams
      ensures Valid() && Ahead(old(View()), View()) && ok == (old(curClientStreams) < advMaxStreams) && maxClientStreamID == id
      ensures streams == if ok then old(streams)[id := st] else old(streams)
    {
      hide Sum, NoteSum, NotesOf, Count, Lens, StreamsOk, Ahead, States;
      Fresh(id, st);
      Newcomer(streams, notes, maxClientStreamID, maxPushPromiseID, id, maxPushPromiseID, initialRecvWindow, id, st);
      maxClientStreamID := id;
      if curClientStreams + 1 > advMaxStreams {
        return false;
      }
      streams := streams[id := st];
      curClientStreams := curClientStreams + 1;
      return true;
    }

    /** The sums and counts with one stream more. */
    lemma {:induction false} Fresh(id: nat, st: Stream)
      requires Valid() && !Used(id, maxClientStreamID, maxPushPromiseID) && id !in streams && BodyLen(st.body) == 0
      ensures Sum(Lens(streams[id := st])) == Sum(Lens(streams)) && NotesOf(notes, id) == 0
      ensures Count(streams[id := st].Keys, 1) == curClientStreams + id % 2
      ensures Count(streams[id := st].Keys, 0) == curPushedStreams + (1 - id % 2)
    {
      hide Sum, NoteSum, NotesOf, Count;
      SumWith(Lens(streams), id, 0);
      assert Lens(streams)[id := 0] == Lens(streams[id := st]);
      CountWith(streams.Keys, id, 0);
      CountWith(streams.Keys, id, 1);
      assert streams[id := st].Keys == streams.Keys + {id};
      NoNotes(notes, id);
    }

    /** processTrailerHeaders, for a stream without a queued reset. bad stands for fields not allowed in trailers. */
    method ProcessTrailers(id: nat, endStream: bool, bad: bool) returns (r: Result)
      requires Valid() && id in streams && !streams[id].resetQueued && streams[id].state != HalfClosedRemote
      modifies this`streams
      ensures Valid() && Ahead(old(View()), View()) && streams.Keys == old(streams.Keys)
      ensures r == (if old(streams[id].gotTrailer) then ConnectionError else if !endStream || bad then StreamError else Fine)
      ensures r == Fine ==> old(streams[id].state) == Open && streams[id].state == HalfClosedRemote
      ensures streams == old(streams)[id := Trailed(old(streams[id]), endStream && !bad)]
    {
      hide Sum, NoteSum, NotesOf, Count, StreamsOk, AllUsed, Lens, Ahead;
      StreamFacts(id);
      if streams[id].gotTrailer {
        assert streams == streams[id := streams[id]];
        return ConnectionError;
      }
      Update(id, streams[id].(gotTrailer := true), 0);
      if !endStream || bad {
        return StreamError;
      }
      ghost var mid := View();
      EndStream(id);
      AheadTransitive(old(View()), mid, View());
      return Fine;
    }

    /**
     processHeaders. badRequest stands for the checks of priority and request, contentLength for
     the declared length or -1, tooManyHandlers for the refusal of scheduleHandler. The reset
     that follows a bad request is queued at once.
     */
    method ProcessHeaders(id: nat, endStream: bool, badTrailers: bool, badRequest: bool, contentLength: int, tooManyHandlers: bool) returns (r: Result)
      requires Valid() && -1 <= contentLength
      modifies this`streams, this`maxClientStreamID, this`curClientStreams
      ensures Valid() && Ahead(old(View()), View())
      ensures r == Answer(old(streams), old(maxClientStreamID), old(curClientStreams) == advMaxStreams, id, endStream, badTrailers, badRequest, tooManyHandlers)
      ensures streams == Requested(old(streams), old(maxClientStreamID), old(curClientStreams) == advMaxStreams, id,
                                   NewRecord(initialRecvWindow, endStream, badRequest, contentLength), endStream && !badTrailers)
      ensures maxClientStreamID == if Opens(old(streams), old(maxClientStreamID), id) then id else old(maxClientStreamID)
    {
      hide Sum, NoteSum, NotesOf, Count, StreamsOk, AllUsed, Lens, Ahead;
      Same();
      if id % 2 != 1 {
        return ConnectionError;
      }
      if id in streams {
        if streams[id].resetQueued {
          return Fine;
        }
        if streams[id].state == HalfClosedRemote {
          return StreamError;
        }
        r := ProcessTrailers(id, endStream, badTrailers);
        return;
      }
      if id <= maxClientStreamID {
        return ConnectionError;
      }
      var ok := Admit(id, NewRecord(initialRecvWindow, endStream, badRequest, contentLength));
      return if !ok || badRequest then StreamError else if tooManyHandlers then ConnectionError else Fine;
    }

    //
    // Resets, and frames that were written
    //

    /** resetStream, as far as the stream's record goes. */
    method ResetStream(id: nat)
      requires Valid()
      modifies this`streams
      ensures Valid() && Ahead(old(View()), View())
      ensures streams == if id in old(streams) then old(streams)[id := old(streams[id]).(resetQueued := true)] else old(streams)
    {
      hide Sum, NoteSum, NotesOf, Count, StreamsOk, AllUsed, Lens, Ahead;
      Same();
      if id in streams {
        StreamFacts(id);
        Update(id, streams[id].(resetQueued := true), 0);
      }
    }

    /** processFrameFromReader, once the frame was processed: errors become resets or GOAWAY. */
    method HandleResult(r: Result, id: nat)
      requires Valid()
      modifies this`streams, this`maxClientStreamID, this`inGoAway, this`goAwayError
      ensures Valid() && Ahead(old(View()), View())
      ensures streams == Resets(old(streams), r, id)
      ensures r == ConnectionError ==>
        inGoAway && goAwayError && maxClientStreamID == if id > old(maxClientStreamID) then id else old(maxClientStreamID)
      ensures r != ConnectionError ==> maxClientStreamID == old(maxClientStreamID) && inGoAway == old(inGoAway) && goAwayError == old(goAwayError)
    {
      Same();
      if r == StreamError {
        ResetStream(id);
      } else if r == ConnectionError {
        RaiseClient(id);
        inGoAway, goAwayError := true, true;
      }
    }

    /** processResetStream */
    method ProcessResetStream(id: nat) returns (r: Result)
      requires Valid()
      modifies this`streams, this`orphans, this`curClientStreams, this`curPushedStreams, inflow
      ensures r != Panic ==> Valid() && Ahead(old(View()), View()) && streams == old(streams) - {id} && orphans == Orphans(old(streams), old(orphans), id)
      ensures r == if StateIn(old(View()), id) == Idle then ConnectionError else if old(CanClose(id)) then Fine else Panic
      ensures granted + late <= MAX_WINDOW ==> r != Panic
      ensures r == Fine && id in old(streams) ==> Window() == old(Window()) + BodyLen(old(streams[id].body))
    {
      hide Sum, NoteSum, NotesOf, Count, StreamsOk, AllUsed, Lens, Ahead;
      Same();
      if id in streams {
        StreamFacts(id);
      } else {
        assert streams - {id} == streams;
      }
      if StateOf(id) == Idle {
        return ConnectionError;
      }
      if id !in streams {
        return Fine;
      }
      var ok := CloseStream(id);
      return if ok then Fine else Panic;
    }

    /** wroteFrame, for a frame with END_STREAM. */
    method WroteEndStream(id: nat) returns (ok: bool)
      requires Valid()
      modifies this`streams, this`orphans, this`curClientStreams, this`curPushedStreams, inflow
      ensures ok ==> Valid() && Ahead(old(View()), View())
      ensures ok && StateIn(old(View()), id) == Open && id in old(streams) ==> id in streams && streams[id].state == HalfClosedLocal && streams[id].resetQueued
      ensures ok && StateIn(old(View()), id) == HalfClosedRemote ==> StateOf(id) == Closed
      ensures ok && StateIn(old(View()), id) in {Idle, HalfClosedLocal, Closed} ==> streams == old(streams)
      ensures ok == (StateIn(old(View()), id) == HalfClosedRemote ==> old(CanClose(id))) && (granted + late <= MAX_WINDOW ==> ok)
    {
      hide Sum, NoteSum, NotesOf, Count, StreamsOk, AllUsed, Lens, Ahead;
      Same();
      if id !in streams {
        return true;
      }
      StreamFacts(id);
      if streams[id].state == Open {
        Update(id, streams[id].(state := HalfClosedLocal, resetQueued := true), 0);
        return true;
      }
      if streams[id].state == HalfClosedRemote {
        ok := CloseStream(id);
        return;
      }
      return true;
    }

    /** wroteFrame, for RST_STREAM. */
    method WroteReset(id: nat) returns (ok: bool)
      requires Valid()
      modifies this`streams, this`orphans, this`curClientStreams, this`curPushedStreams, inflow
      ensures ok ==> Valid() && Ahead(old(View()), View()) && streams == old(streams) - {id} && orphans == Orphans(old(streams), old(orphans), id)
      ensures ok == old(CanClose(id)) && (granted + late <= MAX_WINDOW ==> ok)
    {
      hide Holds, Ahead;
      Same();
      if id !in streams {
        assert streams - {id} == streams;
        return true;
      }
      ok := CloseStream(id);
    }

    /** wroteFrame, for the reset after a handler panicked. Not ok is a panic: the stream may be closed by then. */
    method WroteHandlerPanic(id: nat) returns (ok: bool)
      requires Valid()
      modifies this`streams, this`orphans, this`curClientStreams, this`curPushedStreams, inflow
      ensures ok ==> Valid() && Ahead(old(View()), View()) && streams == old(streams) - {id} && orphans == Orphans(old(streams), old(orphans), id)
      ensures ok <==> id in old(streams) && old(CanClose(id))
      ensures granted + late <= MAX_WINDOW ==> (ok <==> id in old(streams))
    {
      if id !in streams {
        return false;
      }
      ok := CloseStream(id);
    }

    /** The frame of a panicked handler is written, if one is being written. */
    method WrotePanicFrame() returns (ok: bool)
      requires Valid()
      modifies this`streams, this`orphans, this`curClientStreams, this`curPushedStreams, this`panicFrame, inflow
      ensures ok ==> Valid() && Ahead(old(View()), View())
      ensures ok <==> (old(panicFrame).Some? ==> old(panicFrame).value in old(streams) && old(CanClose(panicFrame.value)))
      ensures granted + late <= MAX_WINDOW ==> (ok <==> (old(panicFrame).Some? ==> old(panicFrame).value in old(streams)))
      ensures panicFrame == None
    {
      hide Sum, NoteSum, NotesOf, Count, StreamsOk, AllUsed, Lens, Ahead;
      Same();
      ok := true;
      if panicFrame.Some? {
        ok := WroteHandlerPanic(panicFrame.value);
        panicFrame := None;
      }
    }

    /**
     startFrameWrite, for the reset after a handler panicked. The frame of a stream that is closed
     is not written; of another it is written by a goroutine, one frame at a time.
     */
    method StartHandlerPanic(id: nat)
      requires Valid()
      modifies this`panicFrame
      ensures Valid() && panicFrame == if id in streams && old(panicFrame).None? then Some(id) else old(panicFrame)
    {
      hide Sum, NoteSum, NotesOf, Count, StreamsOk, AllUsed, Lens;
      if id in streams && panicFrame.None? {
        panicFrame := Some(id);
      }
    }

    //
    // Handlers
    //

    /** A handler read n octets of a body: the serve loop will be told. Reads after the close of the stream are late. */
    method HandlerRead(id: nat, n: nat) returns (ok: bool)
      requires Valid() && n > 0
      modifies this`streams, this`orphans, this`notes, this`late
      ensures Valid() && Ahead(old(View()), View())
      ensures ok <==> old(BodyOf(id)).Some? && Readable(old(BodyOf(id)).value, n)
      ensures late == if ok && id !in old(streams) then old(late) + n else old(late)
      ensures ok ==> BodyOf(id) == Some(old(BodyOf(id)).value.(buffered := old(BodyOf(id)).value.buffered - n))
      ensures notes == (if ok then old(notes) + [Note(id, n)] else old(notes)) && streams.Keys == old(streams.Keys)
    {
      hide Sum, NoteSum, NotesOf, Count, StreamsOk, Lens, Ahead;
      Same();
      if id in streams {
        StreamFacts(id);
        var st := streams[id];
        if st.body.None? || !Readable(st.body.value, n) {
          return false;
        }
        Update(id, st.(body := Some(st.body.value.(buffered := st.body.value.buffered - n))), 0);
        TakeNote(id, n, n);
        return true;
      }
      if id !in orphans || !Readable(orphans[id], n) {
        return false;
      }
      orphans := orphans[id := orphans[id].(buffered := orphans[id].buffered - n)];
      late := late + n;
      TakeNote(id, n, n);
      return true;
    }

    method TakeNote(id: nat, n: nat, ghost extra: int)
      requires Holds(extra) && n == extra && Used(id, maxClientStreamID, maxPushPromiseID)
      requires id in streams ==> StreamOk(id, streams[id], NotesOf(notes, id) + n, maxClientStreamID, maxPushPromiseID, initialRecvWindow)
      modifies this`notes
      ensures Valid() && notes == old(notes) + [Note(id, n)]
    {
      hide Sum, NoteSum, NotesOf, Count, Lens, StreamOk;
      notes := notes + [Note(id, n)];
      forall j: nat
        ensures NoteSum(notes) == NoteSum(old(notes)) + n
        ensures NotesOf(notes, j) == NotesOf(old(notes), j) + if j == id then n else 0
      {
        NoteAdded(old(notes), Note(id, n), j);
      }
      assert NoteSum(notes) == NoteSum(old(notes)) + n by { NoteAdded(old(notes), Note(id, n), 0); }
    }

    /** The body of a stream changes without a change of its length. */
    method ChangeBody(id: nat, b: Body)
      requires Valid() && (b.hasBuffer ==> b.unread == 0)
      requires id in streams ==> streams[id].body.Some? && Len(b) == Len(streams[id].body.value)
      requires id in streams || id in orphans
      modifies this`streams, this`orphans
      ensures Valid() && Ahead(old(View()), View())
      ensures id in old(streams) ==> streams == old(streams)[id := old(streams[id]).(body := Some(b))] && orphans == old(orphans)
      ensures id !in old(streams) ==> streams == old(streams) && orphans == old(orphans)[id := b]
    {
      hide Sum, NoteSum, NotesOf, Count, StreamsOk, Lens, Ahead;
      Same();
      if id in streams {
        StreamFacts(id);
        Update(id, streams[id].(body := Some(b)), 0);
      } else {
        orphans := orphans[id := b];
      }
    }

    function BodyOf(id: nat): (b: Option<Body>)
      reads this
    {
      if id in streams then streams[id].body else if id in orphans then Some(orphans[id]) else None
    }

    lemma {:induction false} BodyFacts(id: nat)
      requires Valid()
      ensures BodyOk(BodyOf(id)) && Ahead(View(), View())
    {
    }

    /** requestBody.Close: what is unread stays charged until the stream closes. */
    method HandlerClose(id: nat)
      requires Valid()
      modifies this`streams, this`orphans
      ensures Valid() && Ahead(old(View()), View()) && streams.Keys == old(streams.Keys)
      ensures old(BodyOf(id)).Some? ==> BodyOf(id) == Some(Broken(old(BodyOf(id)).value))
    {
      hide Holds, Ahead;
      BodyFacts(id);
      if BodyOf(id).Some? {
        ChangeBody(id, Broken(BodyOf(id).value));
      }
    }

    /** CloseWithError on a body, as on a read timeout. */
    method CloseBody(id: nat)
      requires Valid()
      modifies this`streams, this`orphans
      ensures Valid() && Ahead(old(View()), View()) && streams.Keys == old(streams.Keys)
      ensures old(BodyOf(id)).Some? ==> BodyOf(id) == Some(old(BodyOf(id)).value.(closed := true))
    {
      hide Holds, Ahead;
      BodyFacts(id);
      if BodyOf(id).Some? {
        ChangeBody(id, BodyOf(id).value.(closed := true));
      }
    }

    /** A read that finds a closed body drained lets go of its buffer. */
    method HandlerReadEnd(id: nat) returns (ended: bool)
      requires Valid()
      modifies this`streams, this`orphans
      ensures Valid() && Ahead(old(View()), View()) && streams.Keys == old(streams.Keys)
      ensures ended <==> old(BodyOf(id)).Some? && Drained(old(BodyOf(id)).value)
      ensures ended ==> BodyOf(id) == Some(old(BodyOf(id)).value.(hasBuffer := false))
      ensures !ended ==> BodyOf(id) == old(BodyOf(id))
    {
      hide Holds, Ahead;
      BodyFacts(id);
      if BodyOf(id).None? {
        return false;
      }
      var b := BodyOf(id).value;
      if !Drained(b) {
        return false;
      }
      ChangeBody(id, b.(hasBuffer := false));
      return true;
    }

    /** noteBodyRead for the i-th read the serve loop was not told of yet. */
    method NoteBodyRead(i: nat) returns (ok: bool)
      requires Valid() && i < |notes|
      modifies this`streams, this`notes, inflow
      ensures ok ==> Valid() && Ahead(old(View()), View()) && streams.Keys == old(streams.Keys)
      ensures ok ==> notes == old(notes)[..i] + old(notes)[i + 1..] && Window() == old(Window()) + old(notes)[i].n
      ensures ok == (old(Window()) + old(notes)[i].n <= MAX_WINDOW)
      ensures ok ==> forall id <- streams ::
        Total(streams[id]) == Total(old(streams)[id])
          + (if id == old(notes)[i].id && old(streams)[id].state != HalfClosedRemote then old(notes)[i].n else 0)
      ensures granted + late <= MAX_WINDOW ==> ok
    {
      hide Sum, NoteSum, NotesOf, Count, StreamsOk, Lens, Ahead, AllUsed;
      var x := notes[i];
      Same();
      if x.id in streams {
        StreamFacts(x.id);
      }
      NoteTaken(notes, i, x.id);
      DropNote(i);
      ok := RefundConn(x.n, x.n);
      if ok && x.id in streams && streams[x.id].state != HalfClosedRemote {
        var st := streams[x.id];
        CreditedConserves(st.inflow, x.n);
        Update(x.id, st.(inflow := Credited(st.inflow, x.n).0), 0);
      }
    }

    method DropNote(i: nat)
      requires Valid() && i < |notes|
      modifies this`notes
      ensures Holds(old(notes)[i].n) && notes == old(notes)[..i] + old(notes)[i + 1..]
    {
      hide Sum, NoteSum, NotesOf, Count, Lens;
      notes := notes[..i] + notes[i + 1..];
      NoteTaken(old(notes), i, 0);
      forall id | id in streams
        ensures NotesOf(notes, id) <= NotesOf(old(notes), id)
      {
        NoteTaken(old(notes), i, id);
      }
    }

    //
    // Push
    //

    /** allocatePromisedID */
    method AllocatePromisedID() returns (ok: bool, id: nat)
      requires Valid()
      modifies this`streams, this`curPushedStreams, this`maxPushPromiseID, this`inGoAway
      ensures Valid() && Ahead(old(View()), View())
      ensures ok == (pushEnabled && old(curPushedStreams) < clientMaxStreams && old(maxPushPromiseID) + 2 < 0x8000_0000)
      ensures ok ==> id == old(maxPushPromiseID) + 2 == maxPushPromiseID && StateIn(old(View()), id) == Idle
      ensures ok ==> streams.Keys == old(streams.Keys) + {id} && streams[id].state == HalfClosedRemote
      ensures !ok ==> streams == old(streams) && maxPushPromiseID == old(maxPushPromiseID)
    {
      hide Sum, NoteSum, NotesOf, Count, Lens, StreamsOk, Ahead, States;
      Same();
      id := 0;
      if !pushEnabled || curPushedStreams + 1 > clientMaxStreams {
        return false, id;
      }
      if maxPushPromiseID + 2 >= 0x8000_0000 {
        inGoAway := true;
        return false, id;
      }
      id := maxPushPromiseID + 2;
      var st := Stream(HalfClosedRemote, Inbound(initialRecvWindow, 0), None, 0, 0, false, false);
      Unused(id);
      Fresh(id, st);
      Newcomer(streams, notes, maxClientStreamID, maxPushPromiseID, maxClientStreamID, id, initialRecvWindow, id, st);
      maxPushPromiseID := id;
      streams := streams[id := st];
      curPushedStreams := curPushedStreams + 1;
      ok := true;
    }

    lemma {:induction false} Unused(id: nat)
      requires Valid() && !Used(id, maxClientStreamID, maxPushPromiseID)
      ensures id !in streams && StateIn(View(), id) == Idle
    {
    }

    //
    // A frame received
    //

    lemma {:induction false} Known(id: nat)
      requires Valid()
      ensures curClientStreams <= advMaxStreams
      ensures id in streams ==> id != 0 && StateIn(View(), id) != Idle
    {
      hide Sum, NoteSum, NotesOf, Count, Lens;
    }

    /** Frames are dropped after an error, and for streams above the last one of a GOAWAY. */
    predicate Ignores(id: nat)
      reads this
    {
      inGoAway && (goAwayError || id > maxClientStreamID)
    }

    /** processFrame and processFrameFromReader on a DATA frame; dropped frames cost no credit. */
    method ReceiveData(id: nat, length: nat, dataLen: nat, endStream: bool) returns (r: Result)
      requires Valid() && dataLen <= length
      modifies this`streams, this`maxClientStreamID, this`inGoAway, this`goAwayError, inflow
      ensures Valid() && Ahead(old(View()), View()) && streams.Keys == old(streams.Keys)
      ensures r == if old(Ignores(id)) then (if length > old(inflow.avail) then StreamError else Fine)
                   else Verdict(StateIn(old(View()), id), old(streams), old(inflow.avail), id, length, dataLen)
      ensures r == Fine ==> maxClientStreamID == old(maxClientStreamID) && inGoAway == old(inGoAway) && goAwayError == old(goAwayError)
      ensures !old(Ignores(id)) && Receiving(old(streams), id) ==>
        && streams == old(streams)[id := streams[id]] && streams[id].resetQueued == (r == StreamError)
        && Changed(old(streams[id]), streams[id].(resetQueued := false), old(inflow.avail), length, dataLen, endStream)
      ensures old(Ignores(id)) || !Receiving(old(streams), id) ==> streams == Resets(old(streams), r, id)
      ensures r == ConnectionError ==> inGoAway && goAwayError
      ensures Window() == old(Window())
                - if !old(Ignores(id)) && Buffers(old(streams), old(inflow.avail), id, length, dataLen) then dataLen else 0
    {
      hide Holds, Ahead, Changed;
      Known(id);
      Same();
      if Ignores(id) {
        r := Discard(length);
      } else {
        r := ProcessData(id, length, dataLen, endStream);
        if Receiving(old(streams), id) {
          NoReset(old(streams[id]), streams[id], old(inflow.avail), length, dataLen, endStream);
        }
      }
      ghost var mid := View();
      HandleResult(r, id);
      AheadTransitive(old(View()), mid, View());
    }

    method ReceiveHeaders(id: nat, endStream: bool, badTrailers: bool, badRequest: bool, contentLength: int, tooManyHandlers: bool) returns (r: Result)
      requires Valid() && -1 <= contentLength
      modifies this`streams, this`maxClientStreamID, this`curClientStreams, this`inGoAway, this`goAwayError
      ensures Valid() && Ahead(old(View()), View())
      ensures old(Ignores(id)) ==> r == Fine && streams == old(streams) && maxClientStreamID == old(maxClientStreamID)
      ensures r != ConnectionError ==> inGoAway == old(inGoAway) && goAwayError == old(goAwayError)
      ensures r == ConnectionError ==> inGoAway && goAwayError && maxClientStreamID >= id
      ensures !old(Ignores(id)) ==>
        && r == Answer(old(streams), old(maxClientStreamID), old(curClientStreams) == advMaxStreams, id, endStream, badTrailers, badRequest, tooManyHandlers)
        && streams == Resets(Requested(old(streams), old(maxClientStreamID), old(curClientStreams) == advMaxStreams, id,
                                       NewRecord(initialRecvWindow, endStream, badRequest, contentLength), endStream && !badTrailers), r, id)
        && (r != ConnectionError ==> maxClientStreamID == if Opens(old(streams), old(maxClientStreamID), id) then id else old(maxClientStreamID))
    {
      hide Holds, Ahead;
      Known(id);
      Same();
      if Ignores(id) {
        return Fine;
      }
      r := ProcessHeaders(id, endStream, badTrailers, badRequest, contentLength, tooManyHandlers);
      ghost var mid := View();
      HandleResult(r, id);
      AheadTransitive(old(View()), mid, View());
    }

    method ReceiveReset(id: nat) returns (ok: bool)
      requires Valid()
      modifies this`streams, this`orphans, this`curClientStreams, this`curPushedStreams, this`maxClientStreamID, this`inGoAway, this`goAwayError, inflow
      ensures ok ==> Valid() && Ahead(old(View()), View())
      ensures ok == (old(Ignores(id)) || old(CanClose(id))) && (granted + late <= MAX_WINDOW ==> ok)
      ensures ok && old(Ignores(id)) ==> streams == old(streams) && orphans == old(orphans)
      ensures ok && !old(Ignores(id)) ==> streams == old(streams) - {id} && orphans == Orphans(old(streams), old(orphans), id)
      ensures ok && id in old(streams) && !old(Ignores(id)) ==> Window() == old(Window()) + BodyLen(old(streams[id].body))
      ensures ok && !old(Ignores(id)) && StateIn(old(View()), id) == Idle ==> inGoAway && goAwayError
    {
      hide Holds, Ahead;
      Known(id);
      Same();
      if Ignores(id) {
        return true;
      }
      var r := ProcessResetStream(id);
      if r == Panic {
        return false;
      }
      ghost var mid := View();
      HandleResult(r, id);
      AheadTransitive(old(View()), mid, View());
      return true;
    }

    //
    // Runs
    //

    /** SETTINGS that bear on push, and the start of a graceful shutdown. */
    method Configure(enablePush: bool, maxStreams: nat, shutdown: bool)
      requires Valid()
      modifies this`pushEnabled, this`clientMaxStreams, this`inGoAway
      ensures Valid() && pushEnabled == enablePush && clientMaxStreams == maxStreams && inGoAway == (old(inGoAway) || shutdown)
    {
      pushEnabled, clientMaxStreams, inGoAway := enablePush, maxStreams, inGoAway || shutdown;
    }

    /** goAway with an error code, for a frame that could not be read or a connection window that overflowed. */
    method GoAway()
      requires Valid()
      modifies this`inGoAway, this`goAwayError
      ensures Valid() && inGoAway && goAwayError
    {
      inGoAway, goAwayError := true, true;
    }

    /** Whether the event is one that ends the program: a late close, or a credit above the largest window. */
    predicate Fatal(e: Event)
      reads this, inflow
    {
      match e
      case Reset(id) => !Ignores(id) && !CanClose(id)
      case EndWritten(id) => id in streams && streams[id].state == HalfClosedRemote && !CanClose(id)
      case ResetWritten(id) => !CanClose(id)
      case PanicWritten => panicFrame.Some? && (panicFrame.value !in streams || !CanClose(panicFrame.value))
      case Noted(i) => i < |notes| && Window() + notes[i].n > MAX_WINDOW
      case _ => false
    }

    /** One turn of the serve loop, or one step of a handler. */
    method Handle(e: Event) returns (ok: bool)
      requires Valid() && EventOk(e)
      modifies this, inflow
      ensures ok == !old(Fatal(e)) && (ok ==> Valid() && Ahead(old(View()), View()))
      ensures granted + late <= MAX_WINDOW && !ok ==> e.PanicWritten? && old(panicFrame).Some? && old(panicFrame).value !in old(streams)
      ensures panicFrame == old(NextFrame(e))
      ensures late == old(late) + old(LateBytes(e)) && (!ok ==> late == old(late))
    {
      hide Holds, Ahead, Verdict, Changed, Accepted, Orphans, NewRecord, Readable;
      Same();
      ok := true;
      match e
      case Data(id, length, dataLen, endStream) =>
        var r := ReceiveData(id, length, dataLen, endStream);
      case Headers(id, endStream, badTrailers, badRequest, contentLength, tooMany) =>
        var r := ReceiveHeaders(id, endStream, badTrailers, badRequest, contentLength, tooMany);
      case Reset(id) =>
        ok := ReceiveReset(id);
      case EndWritten(id) =>
        Known(id);
        ok := WroteEndStream(id);
      case ResetWritten(id) =>
        ok := WroteReset(id);
      case PanicStarted(id) =>
        StartHandlerPanic(id);
      case PanicWritten =>
        ok := WrotePanicFrame();
      case Read(id, n) =>
        var read := HandlerRead(id, n);
      case ReadEnd(id) =>
        var ended := HandlerReadEnd(id);
      case BodyClosed(id) =>
        HandlerClose(id);
      case TimedOut(id) =>
        CloseBody(id);
      case Noted(i) =>
        if i < |notes| {
          ok := NoteBodyRead(i);
        }
      case Push =>
        var pushed, id := AllocatePromisedID();
      case Settings(enablePush, maxStreams, shutdown) =>
        Configure(enablePush, maxStreams, shutdown);
      case ResetAsked(id) =>
        ResetStream(id);
      case Refused(id, r) =>
        HandleResult(r, id);
      case ConnFailed =>
        GoAway();
    }

    /** The panic frame being written after an event. */
    function NextFrame(e: Event): (r: Option<nat>)
      reads this
    {
      if e.PanicWritten? then None
      else if e.PanicStarted? && e.id in streams && panicFrame.None? then Some(e.id)
      else panicFrame
    }

    /** The octets that an event reads from the body of a closed stream. */
    ghost function LateBytes(e: Event): (n: nat)
      reads this
    {
      if e.Read? && e.id !in streams && BodyOf(e.id).Some? && Readable(BodyOf(e.id).value, e.n) then e.n else 0
    }

    /** A late read is of a closed stream. */
    lemma {:induction false} LateIsClosed(e: Event)
      requires Valid() && LateBytes(e) > 0
      ensures e.Read? && LateBytes(e) == e.n && StateIn(View(), e.id) == Closed
    {
      hide Sum, NoteSum, NotesOf, Count, StreamsOk, Lens;
    }

    /**
     The serve loop, up to the first panic: n events were handled, trace tells the states of all
     streams before each and after the last, and lates the octets that each read from the body of
     a closed stream. Over the whole run a closed stream stays closed, none becomes idle again, and
     the credit is exactly the grant and the late reads. The counts and the limit on streams are
     part of Valid. While the credit is a window, one thing ends the run: the frame of a panicked
     handler was written after its stream, open when the write began, was closed.
     */
    method Serve(events: seq<Event>) returns (n: nat, ghost trace: seq<Lives>, ghost lates: seq<nat>)
      requires Valid() && forall e <- events :: EventOk(e)
      modifies this, inflow
      ensures n <= |events| && |trace| == n + 1 && trace[0] == old(View())
      ensures forall i, j, id | 0 <= i <= j <= n ::
        && (StateIn(trace[i], id) == Closed ==> StateIn(trace[j], id) == Closed)
        && (StateIn(trace[i], id) != Idle ==> StateIn(trace[j], id) != Idle)
      ensures |lates| == n && late == old(late) + Octets(lates)
      ensures forall i | 0 <= i < n && lates[i] > 0 ::
        events[i].Read? && lates[i] == events[i].n && StateIn(trace[i], events[i].id) == Closed
      ensures n == |events| ==> Valid() && View() == trace[n] && Credit() == granted + old(late) + Octets(lates)
      ensures n < |events| && granted + late <= MAX_WINDOW ==>
        && events[n].PanicWritten?
        && (old(panicFrame).None? ==> exists k: nat, id: nat | k < n :: Begun(trace[k], events[k], id) && StateIn(trace[n], id) == Closed)
    {
      hide Holds, Ahead, Credit, Fatal, LateBytes, StateIn, NextFrame, Story, Octets;
      n, trace, lates := 0, [View()], [];
      ghost var k := 0;
      ghost var first := panicFrame;
      StoryBegins(events, View(), first, k);
      while n < |events|
        invariant n <= |events| && |trace| == n + 1 && |lates| == n && Valid() && trace[0] == old(View()) && trace[n] == View()
        invariant late == old(late) + Octets(lates) && Story(events, n, trace, lates, first, panicFrame, k)
      {
        assert events[n] in events;
        ghost var frame, x := panicFrame, LateBytes(events[n]);
        if x > 0 {
          LateIsClosed(events[n]);
        }
        OctetsPlus(lates, x);
        FrameBegins(events[n]);
        var ok := Handle(events[n]);
        if !ok {
          StoryEnds(events, n, trace, lates, first, frame, k);
          if granted + late <= MAX_WINDOW && first.None? {
            StoryGone(events, n, trace, lates, frame, k);
          }
          return;
        }
        ghost var k' := if frame.None? then n else k;
        StoryGoesOn(events, n, trace, lates, first, frame, k, View(), x, panicFrame, k');
        k, lates, trace, n := k', lates + [x], trace + [View()], n + 1;
      }
      StoryEnds(events, n, trace, lates, first, panicFrame, k);
      CreditNeverLost();
    }

    /** The frame of a panicked handler is begun on a stream in the map. */
    lemma {:induction false} FrameBegins(e: Event)
      requires Valid()
      ensures NextFrame(e).Some? && panicFrame.None? ==> Begun(View(), e, NextFrame(e).value)
      ensures e.PanicWritten? ==> NextFrame(e).None?
      ensures panicFrame.Some? && NextFrame(e).Some? ==> NextFrame(e) == panicFrame
    {
      hide Sum, NoteSum, NotesOf, Count, Lens;
    }
  }

  /** What the serve loop handles: frames read, frames written, and what handlers do. */
  datatype Event =
    | Data(id: nat, length: nat, dataLen: nat, endStream: bool)
    | Headers(id: nat, endStream: bool, badTrailers: bool, badRequest: bool, contentLength: int, tooManyHandlers: bool)
    | Reset(id: nat)
    | EndWritten(id: nat)
    | ResetWritten(id: nat)
    | PanicStarted(id: nat)
    | PanicWritten
    | Read(id: nat, n: nat)
    | ReadEnd(id: nat)
    | BodyClosed(id: nat)
    | TimedOut(id: nat)
    | Noted(i: nat)
    | Push
    | Settings(enablePush: bool, maxStreams: nat, shutdown: bool)
    | ResetAsked(id: nat)
    | Refused(id: nat, r: Result)
    | ConnFailed

  predicate EventOk(e: Event) {
    match e
    case Data(_, length, dataLen, _) => dataLen <= length
    case Headers(_, _, _, _, contentLength, _) => -1 <= contentLength
    case Read(_, n) => n > 0
    case _ => true
  }

  /** The event reads x octets from the body of a closed stream. */
  ghost predicate LateRead(l: Lives, e: Event, x: nat) {
    e.Read? && x == e.n && StateIn(l, e.id) == Closed
  }

  /** The write of a panic frame begins on a stream that is not closed. */
  ghost predicate Begun(l: Lives, e: Event, id: nat) {
    e == PanicStarted(id) && StateIn(l, id) != Idle && StateIn(l, id) != Closed
  }

  /** A run so far: each step goes ahead, late reads are late, and the panic frame is the first or was begun at step k. */
  ghost predicate Story(events: seq<Event>, n: nat, trace: seq<Lives>, lates: seq<nat>, first: Option<nat>, frame: Option<nat>, k: nat) {
    && n <= |events| && |trace| == n + 1 && |lates| == n
    && (forall i :: 0 <= i < |trace| - 1 ==> Ahead(trace[i], trace[i + 1]))
    && (forall i | 0 <= i < n && lates[i] > 0 :: LateRead(trace[i], events[i], lates[i]))
    && (frame.Some? ==> frame == first || (k < n && Begun(trace[k], events[k], frame.value)))
  }

  lemma {:induction false} StoryGoesOn(events: seq<Event>, n: nat, trace: seq<Lives>, lates: seq<nat>, first: Option<nat>, frame: Option<nat>, k: nat,
                                       l: Lives, x: nat, frame': Option<nat>, k': nat)
    requires Story(events, n, trace, lates, first, frame, k) && n < |events|
    requires Ahead(trace[n], l) && (x > 0 ==> LateRead(trace[n], events[n], x))
    requires frame'.Some? ==> (frame' == frame && k' == k) || (k' == n && Begun(trace[n], events[n], frame'.value))
    ensures Story(events, n + 1, trace + [l], lates + [x], first, frame', k')
  {
    hide Ahead, LateRead, Begun;
  }

  lemma {:induction false} StoryBegins(events: seq<Event>, l: Lives, first: Option<nat>, k: nat)
    ensures Story(events, 0, [l], [], first, first, k) && Octets([]) == 0
  {
  }

  lemma {:induction false} StoryEnds(events: seq<Event>, n: nat, trace: seq<Lives>, lates: seq<nat>, first: Option<nat>, frame: Option<nat>, k: nat)
    requires Story(events, n, trace, lates, first, frame, k)
    ensures n <= |events| && |trace| == n + 1 && |lates| == n
    ensures forall i, j, id | 0 <= i <= j <= n ::
      && (StateIn(trace[i], id) == Closed ==> StateIn(trace[j], id) == Closed)
      && (StateIn(trace[i], id) != Idle ==> StateIn(trace[j], id) != Idle)
    ensures forall i | 0 <= i < n && lates[i] > 0 ::
      events[i].Read? && lates[i] == events[i].n && StateIn(trace[i], events[i].id) == Closed
  {
    hide Ahead, StateIn, Begun;
    WholeRun(trace);
  }

  /** A panic frame whose stream has left the map: the stream was closed after the write began. */
  lemma {:induction false} StoryGone(events: seq<Event>, n: nat, trace: seq<Lives>, lates: seq<nat>, frame: Option<nat>, k: nat)
    requires Story(events, n, trace, lates, None, frame, k) && frame.Some? && frame.value !in trace[n].states
    ensures k < n && Begun(trace[k], events[k], frame.value) && StateIn(trace[n], frame.value) == Closed
  {
    hide Ahead, LateRead;
    GoneIsClosed(trace, k, frame.value);
  }

  function Octets(lates: seq<nat>): (n: nat) {
    if lates == [] then 0 else Octets(lates[..|lates| - 1]) + lates[|lates| - 1]
  }

  lemma {:induction false} OctetsPlus(lates: seq<nat>, x: nat)
    ensures Octets(lates + [x]) == Octets(lates) + x
  {
    assert (lates + [x])[..|lates|] == lates;
  }

  lemma {:induction false} WholeRun(trace: seq<Lives>)
    requires forall k :: 0 <= k < |trace| - 1 ==> Ahead(trace[k], trace[k + 1])
    ensures forall i, j, id | 0 <= i <= j < |trace| ::
      && (StateIn(trace[i], id) == Closed ==> StateIn(trace[j], id) == Closed)
      && (StateIn(trace[i], id) != Idle ==> StateIn(trace[j], id) != Idle)
  {
    hide Ahead, StateIn;
    forall i: nat, j: nat, id: nat | i <= j < |trace|
      ensures (StateIn(trace[i], id) == Closed ==> StateIn(trace[j], id) == Closed)
           && (StateIn(trace[i], id) != Idle ==> StateIn(trace[j], id) != Idle)
    {
      ClosedStaysClosed(trace, i, j, id);
    }
  }

  /** A stream that had begun and has left the map is closed. */
  lemma {:induction false} GoneIsClosed(trace: seq<Lives>, k: nat, id: nat)
    requires k < |trace| && forall k :: 0 <= k < |trace| - 1 ==> Ahead(trace[k], trace[k + 1])
    requires StateIn(trace[k], id) != Idle && id !in trace[|trace| - 1].states
    ensures StateIn(trace[|trace| - 1], id) == Closed
  {
    hide Ahead;
    ClosedStaysClosed(trace, k, |trace| - 1, id);
  }

  /**
   The surplus is real: ten octets that a handler reads after the client reset its stream leave a
   new connection with a window ten octets larger than it was granted.
   */
  method DoubleCredit() returns (granted: int, window: int)
    ensures granted == 65535 && window == granted + 10
  {
    hide ServerConn.Holds, Ahead, ServerConn.Credit;
    var sc := new ServerConn(100, 65535, 65535);
    granted := sc.inflow.avail;
    Request(sc);
    var ok := sc.ReceiveReset(1);
    ok := sc.HandlerRead(1, 10);
    ok := sc.NoteBodyRead(0);
    window := sc.inflow.avail + sc.inflow.unsent;
  }

  /**
   The panic is real too: a handler panics, the write of its frame begins, the client resets the
   stream, and the frame comes back written.
   */
  method PanicAfterReset() returns (before: bool, after: bool)
    ensures before && !after
  {
    hide ServerConn.Holds, Ahead, ServerConn.Credit;
    var sc := new ServerConn(100, 65535, 65535);
    Request(sc);
    sc.StartHandlerPanic(1);
    before := sc.ReceiveReset(1);
    after := sc.WrotePanicFrame();
  }

  /** A request on a new connection, with ten octets of its body. */
  method Request(sc: ServerConn)
    requires sc.Valid() && sc.streams == map[] && !sc.inGoAway && sc.maxClientStreamID == 0 && sc.curClientStreams == 0
    requires sc.advMaxStreams == 100 && sc.initialRecvWindow == 65535 && sc.inflow.Window() == Inbound(65535, 0)
    modifies sc`streams, sc`maxClientStreamID, sc`curClientStreams, sc`inGoAway, sc`goAwayError, sc.inflow
    ensures sc.Valid() && 1 in sc.streams && sc.streams[1].body.Some? && BodyLen(sc.streams[1].body) == 10 && Readable(sc.streams[1].body.value, 10)
    ensures !sc.inGoAway && sc.Window() == 65525
  {
    hide ServerConn.Holds, Ahead, ServerConn.Credit;
    var r := sc.ReceiveHeaders(1, false, false, false, -1, false);
    r := sc.ReceiveData(1, 10, 10, false);
  }

  /** A stream's own window, announced or not. */
  function Total(st: Stream): (n: int) {
    st.inflow.avail + st.inflow.unsent
  }

  lemma {:induction false} OpenFacts(id: nat, st: Stream, pending: nat, maxClient: nat, maxPush: nat, window: Int32)
    requires StreamOk(id, st, pending, maxClient, maxPush, window)
    ensures st.inflow.avail >= 0 && st.inflow.unsent >= 0 && st.inflow.avail + st.inflow.unsent <= MAX_WINDOW
    ensures st.state == Open && !st.resetQueued ==> st.body.Some?
  {
  }

  /** The record of a stream whose handler does not read any more. */
  function CountedIn(st: Stream, length: nat, dataLen: nat): (r: Stream)
    requires 0 <= length <= st.inflow.avail
  {
    st.(inflow := st.inflow.(avail := st.inflow.avail - length), bodyBytes := st.bodyBytes + dataLen)
  }

  /** The record of a stream whose body takes the octets; the padding goes back to the stream's window. */
  function BufferedIn(st: Stream, length: nat, dataLen: nat): (r: Stream)
    requires 0 <= dataLen <= length <= st.inflow.avail && st.inflow.unsent >= 0 && st.body.Some?
    requires st.inflow.avail + st.inflow.unsent <= MAX_WINDOW
  {
    var c := CountedIn(st, length, dataLen);
    c.(body := Some(st.body.value.(buffered := st.body.value.buffered + dataLen)), inflow := Credited(c.inflow, length - dataLen).0)
  }

  lemma {:induction false} BufferFacts(id: nat, st: Stream, pending: nat, maxClient: nat, maxPush: nat, window: Int32, length: nat, dataLen: nat)
    requires StreamOk(id, st, pending, maxClient, maxPush, window) && st.state == Open && !st.resetQueued && st.body.Some?
    requires !TooMuch(st, dataLen) && dataLen <= length <= st.inflow.avail && st.inflow.unsent >= 0 && st.inflow.avail + st.inflow.unsent <= MAX_WINDOW
    ensures var c := CountedIn(st, length, dataLen);
            StreamOk(id, c, pending, maxClient, maxPush, window) && Dropped(st, c, length, dataLen) && c.body == st.body && c.state == st.state
    ensures dataLen == 0 || Writable(st.body.value) ==>
      var b := BufferedIn(st, length, dataLen);
      && StreamOk(id, b, pending, maxClient, maxPush, window) && Accepted(st, b, dataLen, false)
      && BodyLen(b.body) == BodyLen(st.body) + dataLen && b.state == st.state
  {
    var c := CountedIn(st, length, dataLen);
    CreditedConserves(c.inflow, length - dataLen);
  }

  /** Whether HEADERS on id are a new request. */
  predicate Opens(streams: map<nat, Stream>, maxClient: nat, id: nat) {
    id % 2 == 1 && id !in streams && id > maxClient
  }

  /** The record of a new request; one that is bad gets no body, and its reset is queued. */
  function NewRecord(window: Int32, endStream: bool, badRequest: bool, contentLength: int): (st: Stream) {
    Stream(if endStream then HalfClosedRemote else Open, Inbound(window, 0), if endStream || badRequest then None else Some(NEW_BODY), 0,
           if endStream then 0 else contentLength, badRequest, false)
  }

  /** The record of a stream after trailers; only good ones end it. */
  function Trailed(st: Stream, ends: bool): (r: Stream) {
    if st.gotTrailer then st
    else if !ends || st.body.None? then st.(gotTrailer := true)
    else st.(gotTrailer := true, state := HalfClosedRemote, body := Some(st.body.value.(closed := true)))
  }

  /** Whether HEADERS are trailers of a request that is still being received. */
  predicate Trails(streams: map<nat, Stream>, id: nat) {
    id % 2 == 1 && id in streams && !streams[id].resetQueued && streams[id].state != HalfClosedRemote
  }

  /** What the client is told about HEADERS; full tells that it has as many streams as it may. */
  function Answer(streams: map<nat, Stream>, maxClient: nat, full: bool, id: nat, endStream: bool, badTrailers: bool, badRequest: bool, tooManyHandlers: bool): (r: Result) {
    if Opens(streams, maxClient, id) then
      (if full || badRequest then StreamError else if tooManyHandlers then ConnectionError else Fine)
    else if Trails(streams, id) then
      (if streams[id].gotTrailer then ConnectionError else if !endStream || badTrailers then StreamError else Fine)
    else if id % 2 == 1 && id in streams then
      (if streams[id].resetQueued then Fine else StreamError)
    else ConnectionError
  }

  /** The streams after HEADERS, before an error is acted on. */
  function Requested(streams: map<nat, Stream>, maxClient: nat, full: bool, id: nat, st: Stream, ends: bool): (r: map<nat, Stream>) {
    if Opens(streams, maxClient, id) then (if full then streams else streams[id := st])
    else if Trails(streams, id) then streams[id := Trailed(streams[id], ends)]
    else streams
  }

  /** A stream error resets the stream, if there is one. */
  function Resets(streams: map<nat, Stream>, r: Result, id: nat): (s: map<nat, Stream>) {
    if r == StreamError && id in streams then streams[id := streams[id].(resetQueued := true)] else streams
  }

  /** The bodies of closed streams, which handlers may still read, once id is closed too. */
  function Orphans(streams: map<nat, Stream>, orphans: map<nat, Body>, id: nat): (r: map<nat, Body>) {
    if id !in streams || streams[id].body.None? then orphans else orphans[id := streams[id].body.value.(closed := true)]
  }

  /** Whether DATA on a stream is for its handler. */
  predicate Receiving(streams: map<nat, Stream>, id: nat) {
    id in streams && streams[id].state == Open && !streams[id].gotTrailer && !streams[id].resetQueued
  }

  /** More than the request declared. */
  predicate TooMuch(st: Stream, dataLen: nat) {
    st.declBodyBytes != -1 && st.bodyBytes + dataLen > st.declBodyBytes
  }

  predicate OverWindow(st: Stream, avail: int, length: nat) {
    length > avail || length > st.inflow.avail
  }

  /** What the client is told about a DATA frame. */
  function Verdict(state: StreamState, streams: map<nat, Stream>, avail: int, id: nat, length: nat, dataLen: nat): (r: Result) {
    if id == 0 || state == Idle then ConnectionError
    else if !Receiving(streams, id) then
      (if length <= avail && id in streams && streams[id].resetQueued then Fine else StreamError)
    else if TooMuch(streams[id], dataLen) || (length > 0 && OverWindow(streams[id], avail, length)) then StreamError
    else Fine
  }

  /** Whether the octets of the frame reach the handler's buffer. */
  predicate Buffers(streams: map<nat, Stream>, avail: int, id: nat, length: nat, dataLen: nat) {
    && Receiving(streams, id) && !TooMuch(streams[id], dataLen) && length > 0 && !OverWindow(streams[id], avail, length)
    && streams[id].body.Some? && (dataLen == 0 || Writable(streams[id].body.value))
  }

  /** What a DATA frame does to the stream it is for. */
  predicate Changed(before: Stream, after: Stream, avail: int, length: nat, dataLen: nat, endStream: bool) {
    if TooMuch(before, dataLen) then
      after == if length > avail || before.body.None? then before else before.(body := Some(before.body.value.(closed := true)))
    else if length > 0 && OverWindow(before, avail, length) then after == before
    else if dataLen > 0 && before.body.Some? && !Writable(before.body.value) then Dropped(before, after, length, dataLen)
    else Accepted(before, after, dataLen, endStream)
  }

  lemma {:induction false} NoReset(before: Stream, after: Stream, avail: int, length: nat, dataLen: nat, endStream: bool)
    requires Changed(before, after, avail, length, dataLen, endStream) && !before.resetQueued
    ensures !after.resetQueued && after.(resetQueued := true).(resetQueued := false) == after
  {
  }

  /** The handler closed the body: the frame is only counted. */
  predicate Dropped(before: Stream, after: Stream, length: nat, dataLen: nat) {
    after == before.(bodyBytes := before.bodyBytes + dataLen, inflow := before.inflow.(avail := after.inflow.avail))
    && after.inflow.avail == before.inflow.avail - length
  }

  /** The handler gets the octets; padding is no part of them. */
  predicate Accepted(before: Stream, after: Stream, dataLen: nat, endStream: bool) {
    && before.body.Some? && after.body.Some?
    && after.body.value.buffered == before.body.value.buffered + dataLen && after.bodyBytes == before.bodyBytes + dataLen
    && after.state == (if endStream then HalfClosedRemote else before.state)
    && after.body.value.closed == (endStream || before.body.value.closed) && after.body.value.hasBuffer == before.body.value.hasBuffer
    && after.body.value.broken == before.body.value.broken && after.declBodyBytes == before.declBodyBytes
    && after.resetQueued == before.resetQueued && after.gotTrailer == before.gotTrailer
    && Total(after) == Total(before) - dataLen
  }
}
