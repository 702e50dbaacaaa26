/**
 The queues of the streams of a connection: which stream has which queue, what they hold, and
 the pool of queues for reuse.
 */
module QueueStores {
  import opened Sequences
  import opened Flow
  import opened WriteQueues
  import opened SchedulerModel

  type Streams = map<nat, WriteQueue>

  /** Each stream has its own queue. */
  ghost predicate OwnQueues(streams: Streams) {
    forall i <- streams, j <- streams :: i != j ==> streams[i] != streams[j]
  }

  ghost predicate QueuesValid(all: set<WriteQueue>)
    reads all`currPos, all`currQueue
  {
    forall q <- all :: q.Valid()
  }

  ghost function QueuesOf(streams: Streams): (m: map<nat, seq<Frame>>)
    requires QueuesValid(streams.Values)
    reads streams.Values`currQueue, streams.Values`nextQueue, streams.Values`currPos
  {
    map id | id in streams :: streams[id].Contents()
  }

  ghost function Pooled(pool: seq<WriteQueue>): (r: set<WriteQueue>) {
    set q <- pool
  }

  /** The pool holds empty queues that no stream uses. */
  ghost predicate PoolOk(pool: seq<WriteQueue>, streams: Streams)
    requires QueuesValid(Pooled(pool))
    reads pool`currQueue, pool`nextQueue, pool`currPos
  {
    NoDup(pool) && forall q <- pool :: q !in streams.Values && q.Contents() == []
  }

  method PushTo(streams: Streams, id: nat, wr: Frame)
    requires QueuesValid(streams.Values) && OwnQueues(streams) && id in streams
    modifies {streams[id]}`nextQueue
    ensures QueuesValid(streams.Values)
    ensures QueuesOf(streams) == old(QueuesOf(streams))[id := old(QueuesOf(streams))[id] + [wr]]
  {
    streams[id].Push(wr);
    assert QueuesOf(streams) == old(QueuesOf(streams))[id := old(QueuesOf(streams))[id] + [wr]];
  }

  /** consume on the queue of a stream, up to the largest window. */
  method ServeQueue(ghost streams: Streams, ghost id: nat, q: WriteQueue, side: SendSide, maxFrame: Int32) returns (wr: Frame, ok: bool)
    requires QueuesValid(streams.Values) && OwnQueues(streams) && id in streams && streams[id] == q && side.Valid()
    modifies q`currQueue, q`nextQueue, q`currPos, side.conn`n, side.streams.Values`n
    ensures QueuesValid(streams.Values) && side.Valid()
    ensures var s := Serve(old(QueuesOf(streams))[id], old(WindowsOf(side, maxFrame)), MAX_WINDOW);
            && ok == s.Served?
            && (!ok ==> QueuesOf(streams) == old(QueuesOf(streams)) && WindowsOf(side, maxFrame) == old(WindowsOf(side, maxFrame)))
            && (ok ==> wr == s.frame && QueuesOf(streams) == old(QueuesOf(streams))[id := s.queue] && WindowsOf(side, maxFrame) == s.w)
  {
    hide Serve, SendSide.Valid, WindowsOf;
    wr, ok := q.ConsumeFirst(MAX_WINDOW, side, maxFrame);
    ghost var now := streams[id].Contents();
    assert QueuesOf(streams) == old(QueuesOf(streams))[id := now];
  }

  /** The fields both ring schedulers have: the control queue, the streams' queues and the pool. */
  class QueueStore {
    const control: WriteQueue
    const side: SendSide
    var maxFrameSize: Int32
    var streams: Streams
    var pool: seq<WriteQueue>
    ghost var all: set<WriteQueue>

    ghost predicate Valid()
      reads this, all`currQueue, all`nextQueue, all`currPos, control`currQueue, control`nextQueue, control`currPos
      reads side, side.conn, side.streams.Values
    {
      && control !in all && control.Valid() && QueuesValid(all) && OwnQueues(streams)
      && all == streams.Values + Pooled(pool)
      && PoolOk(pool, streams) && side.Valid()
    }

    ghost function Contents(): (c: Core)
      requires Valid()
      reads this, all`currQueue, all`nextQueue, all`currPos, control`currQueue, control`nextQueue, control`currPos
      reads side, side.conn, side.streams.Values
    {
      Core(control.Contents(), QueuesOf(streams), WindowsOf(side, maxFrameSize))
    }

    constructor (side: SendSide, maxFrame: Int32)
      requires side.Valid()
      ensures Valid() && this.side == side && maxFrameSize == maxFrame && fresh(control) && all == {} && streams == map[]
      ensures Contents() == Core([], map[], WindowsOf(side, maxFrame))
    {
      this.side, maxFrameSize, streams, pool, all := side, maxFrame, map[], [], {};
      control := new WriteQueue();
    }

    /** Push. Not ok is the panic on DATA for a stream that is not open. */
    method Push(wr: Frame) returns (ok: bool)
      requires Valid()
      modifies all`nextQueue, control`nextQueue
      ensures Valid() && ok == !PushPanics(old(Contents()), wr)
      ensures Contents() == if ok then Pushed(old(Contents()), wr) else old(Contents())
    {
      hide Valid, Contents;
      KeysOf();
      if wr.Control? {
        PushControl(wr);
        return true;
      }
      if wr.id !in streams {
        if DataSize(wr) > 0 {
          return false;
        }
        PushControl(wr);
        return true;
      }
      PushStream(wr);
      return true;
    }

    lemma {:induction false} KeysOf()
      requires Valid()
      ensures Contents().queues.Keys == streams.Keys
    {
    }

    method PushControl(wr: Frame)
      requires Valid()
      modifies control`nextQueue
      ensures Valid() && Contents() == old(Contents()).(control := old(Contents()).control + [wr])
    {
      hide SendSide.Valid, WindowsOf;
      control.Push(wr);
    }

    method PushStream(wr: Frame)
      requires Valid() && wr.id in streams
      modifies all`nextQueue
      ensures Valid() && wr.id in old(Contents()).queues
      ensures Contents() == old(Contents()).(queues := old(Contents()).queues[wr.id := old(Contents()).queues[wr.id] + [wr]])
    {
      hide SendSide.Valid, WindowsOf, NoDup, OwnQueues;
      PushTo(streams, wr.id, wr);
    }

    /** The first frame of the control queue. */
    method ShiftControl() returns (wr: Frame)
      requires Valid() && Contents().control != []
      modifies control`currQueue, control`nextQueue, control`currPos
      ensures Valid() && wr == old(Contents()).control[0]
      ensures Contents() == old(Contents()).(control := old(Contents()).control[1..])
    {
      hide SendSide.Valid, WindowsOf;
      var ok;
      ok, wr := control.Shift();
    }

    /** consume on one stream's queue. */
    method Serve(q: WriteQueue, ghost id: nat) returns (wr: Frame, ok: bool)
      requires Valid() && id in streams && streams[id] == q
      modifies all`currQueue, all`nextQueue, all`currPos, side.conn`n, side.streams.Values`n
      ensures Valid() && ok == Ready(old(Contents()), id)
      ensures !ok ==> Contents() == old(Contents())
      ensures ok ==> Enabled(old(Contents()).(control := []), PopStream(id)) && wr == ServeStream(old(Contents()), id).frame
      ensures ok ==> Contents() == old(Contents()).(queues := old(Contents()).queues[id := ServeStream(old(Contents()), id).queue], w := ServeStream(old(Contents()), id).w)
    {
      hide SendSide.Valid, WindowsOf, WriteQueues.Serve, Consumable;
      ServedIffConsumable(Contents().queues[id], Contents().w, MAX_WINDOW);
      wr, ok := ServeQueue(streams, id, q, side, maxFrameSize);
    }

    /** queuePool.get: a queue from the pool, or a new one. */
    method Get() returns (q: WriteQueue)
      requires Valid()
      modifies this`pool, this`all
      ensures control !in all && QueuesValid(all) && all == streams.Values + Pooled(pool) + {q} && PoolOk(pool, streams)
      ensures q.Contents() == [] && q !in streams.Values && q !in pool
      ensures (all == old(all) && q in all) || (all == old(all) + {q} && fresh(q))
    {
      hide SendSide.Valid, WindowsOf, NoDup, OwnQueues;
      if |pool| == 0 {
        q := new WriteQueue();
        all := all + {q};
      } else {
        q := pool[|pool| - 1];
        LastOfPool(pool);
        pool := pool[..|pool| - 1];
      }
    }

    /** The queue of a new stream. */
    method NewQueue(id: nat) returns (q: WriteQueue)
      requires Valid() && id !in streams
      modifies this`streams, this`pool, this`all
      ensures Valid() && streams == old(streams)[id := q] && q !in old(streams).Values
      ensures (all == old(all) && q in all) || (all == old(all) + {q} && fresh(q))
      ensures Contents() == old(Contents()).(queues := old(Contents()).queues[id := []])
    {
      hide SendSide.Valid, WindowsOf, NoDup, OwnQueues, PoolOk;
      q := Get();
      AddValues(streams, id, q);
      PoolKeeps(pool, streams, id, q);
      streams := streams[id := q];
      assert QueuesOf(streams) == old(QueuesOf(streams))[id := []];
    }

    /** The entry of a stream deleted and its queue put, emptied, into the pool. */
    method DropQueue(id: nat)
      requires Valid() && id in streams
      modifies this`streams, this`pool, all`currQueue, all`nextQueue, all`currPos
      ensures Valid() && streams == old(streams) - {id}
      ensures Contents() == old(Contents()).(queues := old(Contents()).queues - {id})
    {
      hide SendSide.Valid, WindowsOf, NoDup, OwnQueues, PoolOk;
      var q := streams[id];
      DropValues(streams, id);
      PoolMembers();
      q.Clear();
      PoolTakes(pool, streams, id);
      streams := streams - {id};
      pool := pool + [q];
      assert QueuesOf(streams) == old(QueuesOf(streams)) - {id};
    }

    lemma {:induction false} OwnedQueues()
      requires Valid()
      ensures OwnQueues(streams) && streams.Values <= all
    {
    }

    lemma {:induction false} PoolMembers()
      requires Valid()
      ensures forall q <- pool :: q in all && q !in streams.Values && q.Contents() == []
      ensures NoDup(pool)
    {
    }
  }

  lemma {:induction false} PoolKeeps(pool: seq<WriteQueue>, streams: Streams, id: nat, q: WriteQueue)
    requires QueuesValid(Pooled(pool)) && PoolOk(pool, streams) && q !in pool
    ensures PoolOk(pool, streams[id := q])
  {
  }

  lemma {:induction false} PoolTakes(pool: seq<WriteQueue>, streams: Streams, id: nat)
    requires NoDup(pool) && OwnQueues(streams) && id in streams && streams[id].Valid() && streams[id].Contents() == []
    requires forall q <- pool :: q.Valid() && q !in streams.Values && q.Contents() == []
    ensures Pooled(pool + [streams[id]]) == Pooled(pool) + {streams[id]}
    ensures QueuesValid(Pooled(pool + [streams[id]])) && PoolOk(pool + [streams[id]], streams - {id})
  {
    PoolGrows(pool, streams[id]);
    DropValues(streams, id);
  }

  lemma {:induction false} AddValues(streams: Streams, id: nat, q: WriteQueue)
    requires OwnQueues(streams) && id !in streams && q !in streams.Values
    ensures streams[id := q].Values == streams.Values + {q} && OwnQueues(streams[id := q])
  {
    assert streams[id := q][id] == q;
    forall x | x in streams.Values
      ensures x in streams[id := q].Values
    {
      var j :| j in streams && streams[j] == x;
      assert streams[id := q][j] == x;
    }
  }

  lemma {:induction false} DropValues(streams: Streams, id: nat)
    requires OwnQueues(streams) && id in streams
    ensures (streams - {id}).Values == streams.Values - {streams[id]} && OwnQueues(streams - {id})
  {
    forall x | x in streams.Values && x != streams[id]
      ensures x in (streams - {id}).Values
    {
      var j :| j in streams && streams[j] == x;
      assert (streams - {id})[j] == x;
    }
  }

  lemma {:induction false} PoolGrows(pool: seq<WriteQueue>, q: WriteQueue)
    requires NoDup(pool) && q !in pool
    ensures Pooled(pool + [q]) == Pooled(pool) + {q} && NoDup(pool + [q])
  {
  }

  lemma {:induction false} LastOfPool(pool: seq<WriteQueue>)
    requires pool != [] && NoDup(pool)
    ensures Pooled(pool) == Pooled(pool[..|pool| - 1]) + {pool[|pool| - 1]}
    ensures pool[|pool| - 1] !in pool[..|pool| - 1] && NoDup(pool[..|pool| - 1])
  {
    assert pool == pool[..|pool| - 1] + [pool[|pool| - 1]];
  }
}
