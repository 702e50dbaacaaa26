/**
 Rings of streams: the circular list of the queues of some streams, and the search through it
 for the first stream that can send.
 */
module StreamRings {
  import opened Sequences
  import opened WriteQueues
  import opened Rings
  import opened QueueStores
  import opened SchedulerModel
  import opened RoundRobinModel

  /** The queues of a ring of streams. */
  ghost function RingQueues(ring: seq<nat>, streams: Streams): (s: seq<WriteQueue>)
    requires forall id <- ring :: id in streams
  {
    seq(|ring|, i requires 0 <= i < |ring| => streams[ring[i]])
  }

  lemma {:induction false} RingQueuesAdd(ring: seq<nat>, streams: Streams, id: nat, q: WriteQueue)
    requires (forall x <- ring :: x in streams) && id !in streams && q !in streams.Values
    ensures RingQueues(ring + [id], streams[id := q]) == RingQueues(ring, streams) + [q]
    ensures q !in RingQueues(ring, streams)
  {
    var s := RingQueues(ring, streams);
    forall i | 0 <= i < |ring|
      ensures s[i] != q
    {
      assert ring[i] in ring;
    }
  }

  lemma {:induction false} RingQueuesDrop(ring: seq<nat>, streams: Streams, i: nat)
    requires (forall x <- ring :: x in streams) && i < |ring| && NoDup(ring)
    ensures RingQueues(ring, streams)[i] == streams[ring[i]]
    ensures forall x <- ring[..i] + ring[i + 1..] :: x in streams - {ring[i]}
    ensures RingQueues(ring[..i] + ring[i + 1..], streams - {ring[i]}) == RingQueues(ring, streams)[..i] + RingQueues(ring, streams)[i + 1..]
  {
    forall x | x in ring[..i] + ring[i + 1..]
      ensures x in streams - {ring[i]}
    {
      SplitMembers(ring, i, x);
    }
  }

  lemma {:induction false} RingQueuesTurn(ring: seq<nat>, streams: Streams, i: nat)
    requires (forall x <- ring :: x in streams) && i < |ring| && NoDup(ring)
    ensures forall x <- Turned(ring, i) :: x in streams
    ensures RingQueues(Turned(ring, i), streams) == RingQueues(ring, streams)[i..] + RingQueues(ring, streams)[..i]
    ensures RingQueues(ring, streams)[i] == streams[ring[i]]
    ensures Turned(ring, |ring|) == Turned(ring, 0) == ring
  {
    TurnedMembers(ring, i);
  }

  /** A queue more does not disturb a ring it is not in. */
  lemma {:induction false} RingGrows(all: set<WriteQueue>, head: WriteQueue?, s: seq<WriteQueue>, q: WriteQueue)
    requires IsRing(all, Snapshot(all), head, s)
    ensures IsRing(all + {q}, Snapshot(all + {q}), head, s)
  {
    forall i | 0 <= i < |s|
      ensures CellOk(all + {q}, Snapshot(all + {q}), s, i)
    {
      assert CellOk(all, Snapshot(all), s, i);
    }
  }

  /** The list from head along the links is the queues of the streams of ring, in order. */
  ghost predicate Linked(store: QueueStore, head: WriteQueue?, ring: seq<nat>)
    reads store`all, store`streams, store.all`next, store.all`prev
  {
    (forall id <- ring :: id in store.streams) && IsRing(store.all, Snapshot(store.all), head, RingQueues(ring, store.streams))
  }

  lemma {:induction false} HeadIs(store: QueueStore, head: WriteQueue?, ring: seq<nat>)
    requires Linked(store, head, ring)
    ensures (head == null) == (ring == [])
    ensures head != null ==> ring[0] in store.streams && head == store.streams[ring[0]]
  {
    if ring != [] {
      assert ring[0] in ring;
    }
  }

  /** The queue after the i-th one, and the ring turned so that it comes first. */
  lemma {:induction false} NextIs(store: QueueStore, head: WriteQueue?, ring: seq<nat>, i: nat)
    requires Linked(store, head, ring) && NoDup(ring) && i < |ring| && ring[i] in store.streams
    ensures var q := store.streams[ring[i]];
            && (q.next == head <==> i + 1 == |ring|)
            && (i + 1 < |ring| ==> ring[i + 1] in store.streams && q.next == store.streams[ring[i + 1]])
            && Linked(store, q, Turned(ring, i)) && Linked(store, q.next, Turned(ring, i + 1))
  {
    var s := RingQueues(ring, store.streams);
    var f := Snapshot(store.all);
    CellFacts(store.all, f, head, s, i);
    SnapshotAt(store.all, s[i]);
    RingQueuesTurn(ring, store.streams, i);
    TurnedIsRing(store.all, f, head, s, i);
    RingQueuesTurn(ring, store.streams, if i + 1 < |ring| then i + 1 else 0);
    if i + 1 < |ring| {
      TurnedIsRing(store.all, f, head, s, i + 1);
      assert ring[i + 1] in ring;
    }
  }

  /** Goes round the ring once and takes a frame from the first stream that can send, at q. */
  method Scan(store: QueueStore, head: WriteQueue, ghost ring: seq<nat>) returns (wr: Frame, ok: bool, q: WriteQueue)
    requires store.Valid() && Linked(store, head, ring) && NoDup(ring)
    modifies store.all`currQueue, store.all`nextQueue, store.all`currPos
    modifies store.side.conn`n, store.side.streams.Values`n
    ensures store.Valid()
    ensures var c := old(store.Contents()); var i := FirstReady(ring, c);
            && ok == (i < |ring|)
            && (!ok ==> store.Contents() == c)
            && (ok ==> ring[i] in store.streams && q == store.streams[ring[i]] && Ready(c, ring[i]) && wr == ServeStream(c, ring[i]).frame
                       && store.Contents() == AfterServe(c, ring[i]))
  {
    hide QueueStore.Valid, QueueStore.Contents, Linked, Ready, FirstReady, Turned, WriteQueues.Serve;
    ghost var c, i := store.Contents(), 0;
    FirstReadyIs(ring, c);
    HeadIs(store, head, ring);
    q := head;
    while true
      invariant store.Valid() && store.Contents() == c && Linked(store, head, ring)
      invariant 0 <= i < |ring| && ring[i] in store.streams && q == store.streams[ring[i]] && i <= FirstReady(ring, c)
      decreases |ring| - i
    {
      NextIs(store, head, ring, i);
      wr, ok := store.Serve(q, ring[i]);
      if ok {
        return;
      }
      q := q.next;
      if q == head {
        return;
      }
      i := i + 1;
    }
  }

  ghost function AfterServe(c: Core, id: nat): (r: Core)
    requires Ready(c, id)
  {
    c.(queues := c.queues[id := ServeStream(c, id).queue], w := ServeStream(c, id).w)
  }

  /** The queue of a new stream goes last in the ring. */
  method Enter(store: QueueStore, head: WriteQueue?, q: WriteQueue, ghost ring: seq<nat>, ghost id: nat) returns (newHead: WriteQueue?)
    requires id in store.streams && store.streams[id] == q && q in store.all && Linked(store, head, ring)
    requires q !in RingQueues(ring, store.streams)
    modifies store.all`next, store.all`prev
    ensures Linked(store, newHead, ring + [id])
    ensures forall x <- store.all :: x != q && x !in RingQueues(ring, store.streams) ==> x.next == old(x.next) && x.prev == old(x.prev)
  {
    hide IsRing, Snapshot;
    newHead := InsertLast(store.all, head, q, RingQueues(ring, store.streams));
    assert RingQueues(ring + [id], store.streams) == RingQueues(ring, store.streams) + [q];
  }

  /** The queue of a stream leaves its ring. */
  method Leave(store: QueueStore, head: WriteQueue?, q: WriteQueue, ghost ring: seq<nat>, ghost i: nat) returns (newHead: WriteQueue?)
    requires Linked(store, head, ring) && i < |ring| && NoDup(ring) && ring[i] in store.streams && store.streams[ring[i]] == q
    modifies store.all`next, store.all`prev
    ensures Linked(store, newHead, ring[..i] + ring[i + 1..])
    ensures forall x <- store.all :: x !in RingQueues(ring, store.streams) ==> x.next == old(x.next) && x.prev == old(x.prev)
  {
    hide IsRing, Snapshot;
    var s := RingQueues(ring, store.streams);
    RingQueuesDrop(ring, store.streams, i);
    newHead := Remove(store.all, head, q, s, i);
    assert RingQueues(ring[..i] + ring[i + 1..], store.streams) == s[..i] + s[i + 1..];
  }

  /** Forgetting a stream that is in no place of a ring. */
  lemma {:induction false} LinkedWithout(store: QueueStore, streams: Streams, head: WriteQueue?, ring: seq<nat>, id: nat)
    requires id !in ring && (forall x <- ring :: x in streams)
    requires IsRing(store.all, Snapshot(store.all), head, RingQueues(ring, streams))
    ensures (forall x <- ring :: x in streams - {id})
    ensures IsRing(store.all, Snapshot(store.all), head, RingQueues(ring, streams - {id}))
  {
    hide IsRing, Snapshot;
    assert RingQueues(ring, streams - {id}) == RingQueues(ring, streams);
  }

  lemma {:induction false} LinkedDomain(store: QueueStore, head: WriteQueue?, ring: seq<nat>)
    requires Linked(store, head, ring)
    ensures (forall x <- ring :: x in store.streams)
    ensures IsRing(store.all, Snapshot(store.all), head, RingQueues(ring, store.streams))
  {
  }

  lemma {:induction false} LinkedAgain(store: QueueStore, head: WriteQueue?, ring: seq<nat>)
    requires (forall x <- ring :: x in store.streams) && IsRing(store.all, Snapshot(store.all), head, RingQueues(ring, store.streams))
    ensures Linked(store, head, ring)
  {
  }

  /** A new stream, with a queue from the pool or a new one, disturbs no ring. */
  lemma {:induction false} LinkedGrows(store: QueueStore, all: set<WriteQueue>, streams: Streams, head: WriteQueue?, ring: seq<nat>, id: nat, q: WriteQueue)
    requires (forall x <- ring :: x in streams) && IsRing(all, Snapshot(all), head, RingQueues(ring, streams))
    requires id !in streams && q !in streams.Values && store.streams == streams[id := q] && (store.all == all || store.all == all + {q})
    ensures Linked(store, head, ring) && q !in RingQueues(ring, store.streams)
  {
    hide IsRing, Snapshot;
    RingQueuesAdd(ring, streams, id, q);
    RingGrows(all, head, RingQueues(ring, streams), q);
    assert RingQueues(ring, store.streams) == RingQueues(ring, streams);
  }
}
