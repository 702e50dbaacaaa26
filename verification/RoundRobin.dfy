/**
 The round-robin scheduler: the queues in a circular list. Every operation is one step of
 RoundRobinModel on the queues' contents.
 */
module RoundRobinScheduler {
  import opened Sequences
  import opened Flow
  import opened WriteQueues
  import opened Rings
  import opened QueueStores
  import opened SchedulerModel
  import opened RoundRobinModel
  import opened StreamRings

  /** What Pop may answer: a control frame, a frame of the stream the policy picks, or nothing. */
  ghost predicate PopResult(before: RoundRobin, after: RoundRobin, wr: Frame, ok: bool) {
    var c := before.core;
    if c.control != [] then ok && wr == c.control[0] && after == Turn(before, PopControl)
    else if FirstReady(before.ring, c) < |before.ring| then
      var id := before.ring[FirstReady(before.ring, c)];
      ok && Allows(before, PopStream(id)) && wr == ServeStream(c, id).frame && after == Turn(before, PopStream(id))
    else !ok && after == before
  }

  class Scheduler {
    const store: QueueStore
    var head: WriteQueue?
    ghost var ring: seq<nat>

    ghost function State(): (r: RoundRobin)
      requires store.Valid()
      reads this, store, store.all`currQueue, store.all`nextQueue, store.all`currPos
      reads store.control`currQueue, store.control`nextQueue, store.control`currPos
      reads store.side, store.side.conn, store.side.streams.Values
    {
      RoundRobin(store.Contents(), ring)
    }

    ghost predicate Valid()
      reads this, store, store.all, store.control, store.side, store.side.conn, store.side.streams.Values
    {
      store.Valid() && Linked(store, head, ring) && RingOk(State())
    }

    constructor (side: SendSide, maxFrame: Int32)
      requires side.Valid()
      ensures Valid() && fresh(store) && store.side == side && fresh(store.control) && store.all == {}
      ensures State() == RoundRobin(Core([], map[], WindowsOf(side, maxFrame)), [])
    {
      store := new QueueStore(side, maxFrame);
      head, ring := null, [];
    }

    /** OpenStream. Not ok is the panic on a stream that is open. */
    method OpenStream(id: nat) returns (ok: bool)
      requires Valid()
      modifies this, store`streams, store`pool, store`all, store.all`next, store.all`prev
      ensures Valid() && fresh(store.all - old(store.all)) && ok == (id !in old(State()).core.queues)
      ensures !ok ==> State() == old(State())
      ensures ok ==> Allows(old(State()), OpenQueue(id)) && State() == Turn(old(State()), OpenQueue(id))
    {
      hide QueueStore.Valid, QueueStore.Contents, Linked, IsRing, Snapshot, RingQueues, RingOk;
      store.KeysOf();
      if id in store.streams {
        return false;
      }
      TurnKeepsRing(State(), OpenQueue(id));
      LinkedDomain(store, head, ring);
      var q := store.NewQueue(id);
      LinkedGrows(store, old(store.all), old(store.streams), head, ring, id, q);
      head := Enter(store, head, q, ring, id);
      ring := ring + [id];
      return true;
    }

    /** CloseStream */
    method CloseStream(id: nat)
      requires Valid()
      modifies this, store`streams, store`pool, store.all
      ensures Valid() && store.all == old(store.all)
      ensures Allows(old(State()), CloseQueue(id)) && State() == Turn(old(State()), CloseQueue(id))
    {
      hide QueueStore.Valid, QueueStore.Contents, Linked, IsRing, Snapshot, RingQueues, RingOk, Without;
      store.KeysOf();
      TurnKeepsRing(State(), CloseQueue(id));
      if id !in store.streams {
        ClosedAlready(id);
        return;
      }
      var i := Position(id);
      WithoutAt(ring, i);
      SplitMembers(ring, i, id);
      head := Leave(store, head, store.streams[id], ring, i);
      ring := Without(ring, id);
      LinkedDomain(store, head, ring);
      LinkedWithout(store, store.streams, head, ring, id);
      store.DropQueue(id);
      LinkedAgain(store, head, ring);
    }

    lemma {:induction false} ClosedAlready(id: nat)
      requires Valid() && id !in store.streams
      ensures Allows(State(), CloseQueue(id)) && Turn(State(), CloseQueue(id)) == State()
    {
      WithoutAbsent(ring, id);
      assert State().core.queues - {id} == State().core.queues;
    }

    lemma {:induction false} Position(id: nat) returns (i: nat)
      requires Valid() && id in store.streams
      ensures i < |ring| && ring[i] == id && NoDup(ring)
    {
      store.KeysOf();
      i :| 0 <= i < |ring| && ring[i] == id;
    }

    method Push(wr: Frame) returns (ok: bool)
      requires Valid()
      modifies store.all`nextQueue, store.control`nextQueue
      ensures Valid() && ok == !PushPanics(old(State()).core, wr)
      ensures !ok ==> State() == old(State())
      ensures ok ==> Allows(old(State()), PushFrame(wr)) && State() == Turn(old(State()), PushFrame(wr))
    {
      hide QueueStore.Valid, QueueStore.Contents, Linked, IsRing, Snapshot, RingQueues, RingOk;
      if !PushPanics(State().core, wr) {
        TurnKeepsRing(State(), PushFrame(wr));
      }
      ok := store.Push(wr);
    }

    /** Pop: a control frame if there is one, else a frame of the first stream of the ring that can send. */
    method Pop() returns (wr: Frame, ok: bool)
      requires Valid()
      modifies this, store.all`currQueue, store.all`nextQueue, store.all`currPos
      modifies store.control`currQueue, store.control`nextQueue, store.control`currPos
      modifies store.side.conn`n, store.side.streams.Values`n
      ensures Valid()
      ensures PopResult(old(State()), State(), wr, ok)
    {
      hide QueueStore.Valid, QueueStore.Contents, Linked, IsRing, Snapshot, RingQueues, RingOk, Ready, FirstReady, Turned, WriteQueues.Serve;
      ghost var r := State();
      var empty := ControlEmpty();
      if !empty {
        TurnKeepsRing(r, PopControl);
        wr := store.ShiftControl();
        return wr, true;
      }
      HeadIs(store, head, ring);
      if head == null {
        return Control(0, 0), false;
      }
      wr, ok := PopFromRing();
    }

    /** Pop with no control frame to send and at least one open stream. */
    method PopFromRing() returns (wr: Frame, ok: bool)
      requires Valid() && head != null && State().core.control == []
      modifies this, store.all`currQueue, store.all`nextQueue, store.all`currPos
      modifies store.side.conn`n, store.side.streams.Values`n
      ensures Valid() && PopResult(old(State()), State(), wr, ok)
    {
      hide QueueStore.Valid, QueueStore.Contents, Linked, IsRing, Snapshot, RingQueues, RingOk, Ready, FirstReady, Turned, WriteQueues.Serve;
      ghost var r := State();
      FirstReadyIs(ring, r.core);
      RingDistinct();
      var q;
      wr, ok, q := Scan(store, head, ring);
      if ok {
        ghost var i := FirstReady(ring, r.core);
        TurnKeepsRing(r, PopStream(ring[i]));
        NextIs(store, head, ring, i);
        head := q.next;
        ring := Turned(ring, i + 1);
      }
    }

    lemma {:induction false} RingDistinct()
      requires Valid()
      ensures NoDup(ring)
    {
    }

    method ControlEmpty() returns (empty: bool)
      requires Valid()
      ensures empty == (State().core.control == [])
    {
      empty := store.control.Empty();
    }
  }
}
