/**
 The RFC 9218 scheduler: sixteen circular lists, one head for each urgency and kind. Every
 operation is one step of UrgencyModel.
 */
module UrgencyScheduler {
  import opened Sequences
  import opened Flow
  import opened WriteQueues
  import opened Rings
  import opened QueueStores
  import opened SchedulerModel
  import opened RoundRobinModel
  import opened StreamRings
  import opened UrgencyModel

  /** No stream is in two rings. */
  ghost predicate Apart(rings: seq<seq<nat>>) {
    forall j, k, id :: 0 <= j < |rings| && 0 <= k < |rings| && j != k && id in rings[j] ==> id !in rings[k]
  }

  ghost predicate AllLinked(store: QueueStore, heads: seq<WriteQueue?>, rings: seq<seq<nat>>)
    reads store`all, store`streams, store.all`next, store.all`prev
  {
    |heads| == |rings| && forall k | 0 <= k < |rings| :: Linked(store, heads[k], rings[k])
  }

  lemma {:induction false} QueueInRing(ring: seq<nat>, streams: Streams, x: WriteQueue) returns (id: nat)
    requires (forall y <- ring :: y in streams) && x in RingQueues(ring, streams)
    ensures id in ring && id in streams && streams[id] == x
  {
    var s := RingQueues(ring, streams);
    var i :| 0 <= i < |s| && s[i] == x;
    id := ring[i];
    assert id in ring;
  }

  /** Different rings of a partition share no queue. */
  lemma {:induction false} QueuesApart(rings: seq<seq<nat>>, streams: Streams, j: nat, k: nat, x: WriteQueue)
    requires Apart(rings) && OwnQueues(streams) && j < |rings| && k < |rings| && j != k
    requires (forall y <- rings[j] :: y in streams) && (forall y <- rings[k] :: y in streams)
    requires x in RingQueues(rings[j], streams)
    ensures x !in RingQueues(rings[k], streams)
  {
    if x in RingQueues(rings[k], streams) {
      var a := QueueInRing(rings[j], streams, x);
      var b := QueueInRing(rings[k], streams, x);
    }
  }

  /** A ring whose queues kept their links is still that ring. */
  lemma {:induction false} LinkedFrame(store: QueueStore, f: Links, head: WriteQueue?, ring: seq<nat>)
    requires (forall y <- ring :: y in store.streams) && IsRing(store.all, f, head, RingQueues(ring, store.streams))
    requires forall q <- store.all :: q in RingQueues(ring, store.streams) ==> q.next == f.next[q] && q.prev == f.prev[q]
    ensures Linked(store, head, ring)
  {
    RingFrame(store.all, f, Snapshot(store.all), head, RingQueues(ring, store.streams));
  }

  lemma {:induction false} LinkedAt(store: QueueStore, heads: seq<WriteQueue?>, rings: seq<seq<nat>>, k: nat)
    requires AllLinked(store, heads, rings) && k < |rings|
    ensures (forall y <- rings[k] :: y in store.streams)
    ensures IsRing(store.all, Snapshot(store.all), heads[k], RingQueues(rings[k], store.streams))
  {
  }

  lemma {:induction false} SnapshotKeeps(all: set<WriteQueue>)
    ensures Snapshot(all).next.Keys == all && Snapshot(all).prev.Keys == all
    ensures forall q <- all :: Snapshot(all).next[q] == q.next && Snapshot(all).prev[q] == q.prev
  {
  }

  /** The queue of a stream that is in no ring enters the k-th. */
  method EnterSlot(store: QueueStore, heads: seq<WriteQueue?>, ghost rings: seq<seq<nat>>, k: nat, q: WriteQueue, ghost id: nat)
    returns (heads': seq<WriteQueue?>)
    requires AllLinked(store, heads, rings) && Apart(rings) && OwnQueues(store.streams) && k < |rings|
    requires id in store.streams && store.streams[id] == q && q in store.all && forall j | 0 <= j < |rings| :: id !in rings[j]
    modifies store.all`next, store.all`prev
    ensures AllLinked(store, heads', Into(rings, k, id))
  {
    hide IsRing, Snapshot, RingQueues, OwnQueues, Linked;
    ghost var f := Snapshot(store.all);
    SnapshotKeeps(store.all);
    NotInRings(store, heads, rings, q, id);
    var h := Enter(store, heads[k], q, rings[k], id);
    heads' := heads[k := h];
    forall j | 0 <= j < |rings| && j != k
      ensures Linked(store, heads[j], rings[j])
    {
      forall x | x in RingQueues(rings[j], store.streams)
        ensures x !in RingQueues(rings[k], store.streams)
      {
        QueuesApart(rings, store.streams, j, k, x);
      }
      LinkedFrame(store, f, heads[j], rings[j]);
    }
  }

  lemma {:induction false} NotInRings(store: QueueStore, heads: seq<WriteQueue?>, rings: seq<seq<nat>>, q: WriteQueue, id: nat)
    requires AllLinked(store, heads, rings) && OwnQueues(store.streams) && id in store.streams && store.streams[id] == q
    requires forall j | 0 <= j < |rings| :: id !in rings[j]
    ensures forall j | 0 <= j < |rings| :: RingDomain(store, rings[j]) && q !in RingQueues(rings[j], store.streams)
    ensures forall j | 0 <= j < |rings| :: IsRing(store.all, Snapshot(store.all), heads[j], RingQueues(rings[j], store.streams))
  {
    hide IsRing, Snapshot, RingQueues;
    forall j | 0 <= j < |rings|
      ensures RingDomain(store, rings[j]) && q !in RingQueues(rings[j], store.streams)
    {
      LinkedAt(store, heads, rings, j);
      if q in RingQueues(rings[j], store.streams) {
        var x := QueueInRing(rings[j], store.streams, q);
      }
    }
  }

  ghost predicate RingDomain(store: QueueStore, ring: seq<nat>)
    reads store`streams
  {
    forall y <- ring :: y in store.streams
  }

  /** The queue of the i-th stream of the k-th ring leaves it. */
  method LeaveSlot(store: QueueStore, heads: seq<WriteQueue?>, ghost rings: seq<seq<nat>>, k: nat, q: WriteQueue, ghost id: nat)
    returns (heads': seq<WriteQueue?>)
    requires AllLinked(store, heads, rings) && Apart(rings) && OwnQueues(store.streams) && k < |rings| && NoDup(rings[k])
    requires id in rings[k] && id in store.streams && store.streams[id] == q
    modifies store.all`next, store.all`prev
    ensures AllLinked(store, heads', OutOf(rings, k, id))
  {
    hide IsRing, Snapshot, RingQueues, OwnQueues, Linked, Without;
    ghost var f := Snapshot(store.all);
    SnapshotKeeps(store.all);
    RingsAt(store, heads, rings);
    ghost var i :| 0 <= i < |rings[k]| && rings[k][i] == id;
    WithoutAt(rings[k], i);
    var h := Leave(store, heads[k], q, rings[k], i);
    heads' := heads[k := h];
    forall j | 0 <= j < |rings| && j != k
      ensures Linked(store, heads[j], rings[j])
    {
      forall x | x in RingQueues(rings[j], store.streams)
        ensures x !in RingQueues(rings[k], store.streams)
      {
        QueuesApart(rings, store.streams, j, k, x);
      }
      LinkedFrame(store, f, heads[j], rings[j]);
    }
  }

  lemma {:induction false} RingsAt(store: QueueStore, heads: seq<WriteQueue?>, rings: seq<seq<nat>>)
    requires AllLinked(store, heads, rings)
    ensures forall j | 0 <= j < |rings| :: RingDomain(store, rings[j])
    ensures forall j | 0 <= j < |rings| :: IsRing(store.all, Snapshot(store.all), heads[j], RingQueues(rings[j], store.streams))
  {
    hide IsRing, Snapshot, RingQueues;
  }

  lemma {:induction false} OutOfApart(rings: seq<seq<nat>>, fewer: seq<seq<nat>>)
    requires Apart(rings) && |fewer| == |rings| && forall j, x :: 0 <= j < |rings| && x in fewer[j] ==> x in rings[j]
    ensures Apart(fewer)
  {
  }

  /** What Pop may answer: a control frame, a frame of the chosen stream, or nothing. */
  ghost predicate PopResult9218(before: Urgency, after: Urgency, wr: Frame, ok: bool)
    requires Partition(before)
  {
    var c := before.core;
    if c.control != [] then ok && wr == c.control[0] && after == After9218(before, Do(PopControl))
    else match Chosen(before)
      case Stream(id, _) =>
        ok && Allowed9218(before, Do(PopStream(id))) && wr == ServeStream(c, id).frame && after == After9218(before, Do(PopStream(id)))
      case NoStream => !ok && after == After9218(before, PopNothing)
  }

  class Scheduler {
    const store: QueueStore
    var heads: seq<WriteQueue?>
    var prio: map<nat, Priority>
    var prioritizeIncremental: bool
    var updateId: nat
    var updatePriority: Priority
    ghost var rings: seq<seq<nat>>

    ghost function State(): (s: Urgency)
      requires store.Valid()
      reads this, store, store.all`currQueue, store.all`nextQueue, store.all`currPos
      reads store.control`currQueue, store.control`nextQueue, store.control`currPos
      reads store.side, store.side.conn, store.side.streams.Values
    {
      Urgency(store.Contents(), rings, prio, prioritizeIncremental, updateId, updatePriority)
    }

    ghost predicate Valid()
      reads this, store, store.all, store.control, store.side, store.side.conn, store.side.streams.Values
    {
      store.Valid() && AllLinked(store, heads, rings) && Partition(State())
    }

    constructor (side: SendSide, maxFrame: Int32)
      requires side.Valid()
      ensures Valid() && fresh(store) && store.side == side && fresh(store.control) && store.all == {}
      ensures State().core == Core([], map[], WindowsOf(side, maxFrame)) && State().prio == map[] && !prioritizeIncremental && updateId == 0
    {
      store := new QueueStore(side, maxFrame);
      heads, rings := seq(SLOTS, _ => null), seq(SLOTS, _ => []);
      prio, prioritizeIncremental, updateId, updatePriority := map[], false, 0, Priority(0, false);
    }

    lemma {:induction false} PartitionFacts()
      requires Valid()
      ensures |heads| == |rings| == SLOTS && Apart(rings) && OwnQueues(store.streams) && prio.Keys == store.streams.Keys
      ensures store.streams.Values <= store.all && updatePriority.urgency < 8
      ensures State().core.queues.Keys == store.streams.Keys
      ensures forall id <- prio :: prio[id].urgency < 8 && id in rings[Slot(prio[id])] && NoDup(rings[Slot(prio[id])])
      ensures forall id, k | id !in prio && 0 <= k < SLOTS :: id !in rings[k]
    {
      store.KeysOf();
    }

    /** OpenStream. Not ok is the panic on a stream that is open. */
    method OpenStream(id: nat, priority: Priority) returns (ok: bool)
      requires Valid() && priority.urgency < 8
      modifies this, store`streams, store`pool, store`all, store.all`next, store.all`prev
      ensures Valid() && fresh(store.all - old(store.all)) && ok == (id !in old(State()).core.queues)
      ensures !ok ==> State() == old(State())
      ensures ok ==> Enabled(old(State()).core, OpenQueue(id)) && State() == Opened(old(State()), id, priority)
    {
      hide QueueStore.Valid, QueueStore.Contents, Linked, IsRing, Snapshot, RingQueues, Into, Apart;
      PartitionFacts();
      if id in store.streams {
        return false;
      }
      OpenedKeeps(State(), id, priority);
      var p := priority;
      if id == updateId {
        updateId := 0;
        p := updatePriority;
      }
      Start(id, p);
      return true;
    }

    /** The queue of a new stream, in the ring of its priority. */
    method Start(id: nat, p: Priority)
      requires store.Valid() && AllLinked(store, heads, rings) && Apart(rings) && |rings| == SLOTS && p.urgency < 8
      requires id !in store.streams && forall k | 0 <= k < SLOTS :: id !in rings[k]
      modifies this`heads, this`rings, this`prio, store`streams, store`pool, store`all, store.all`next, store.all`prev
      ensures store.Valid() && fresh(store.all - old(store.all)) && AllLinked(store, heads, rings)
      ensures rings == Into(old(rings), Slot(p), id) && prio == old(prio)[id := p]
      ensures store.Contents() == old(store.Contents()).(queues := old(store.Contents()).queues[id := []])
    {
      hide QueueStore.Valid, QueueStore.Contents, Linked, IsRing, Snapshot, RingQueues, Into, Apart;
      RingsAt(store, heads, rings);
      var q := store.NewQueue(id);
      store.OwnedQueues();
      forall k | 0 <= k < SLOTS
        ensures Linked(store, heads[k], rings[k])
      {
        LinkedGrows(store, old(store.all), old(store.streams), heads[k], rings[k], id, q);
      }
      prio := prio[id := p];
      heads := EnterSlot(store, heads, rings, Slot(p), q, id);
      rings := Into(rings, Slot(p), id);
    }

    /** CloseStream */
    method CloseStream(id: nat)
      requires Valid()
      modifies this, store`streams, store`pool, store.all
      ensures Valid() && store.all == old(store.all) && State() == Closed(old(State()), id)
    {
      hide QueueStore.Valid, QueueStore.Contents, Linked, IsRing, Snapshot, RingQueues, OutOf, Apart, NoDup, Partition, AllLinked;
      Known(id);
      ClosedKeeps(State(), id);
      if id !in store.streams {
        assert State().core.queues - {id} == State().core.queues;
        return;
      }
      SlotFacts(id);
      var k := Slot(prio[id]);
      heads := LeaveSlot(store, heads, rings, k, store.streams[id], id);
      rings := OutOf(rings, k, id);
      Drop(id);
    }

    method Drop(id: nat)
      requires store.Valid() && AllLinked(store, heads, rings) && id in store.streams && forall k | 0 <= k < |rings| :: id !in rings[k]
      modifies this`prio, store`streams, store`pool, store.all`currQueue, store.all`nextQueue, store.all`currPos
      ensures store.Valid() && AllLinked(store, heads, rings) && prio == old(prio) - {id}
      ensures store.Contents() == old(store.Contents()).(queues := old(store.Contents()).queues - {id})
    {
      hide QueueStore.Valid, QueueStore.Contents, Linked, IsRing, Snapshot, RingQueues;
      RingsAt(store, heads, rings);
      ghost var streams := store.streams;
      forall k | 0 <= k < |rings|
        ensures forall x <- rings[k] :: x in streams - {id}
        ensures IsRing(store.all, Snapshot(store.all), heads[k], RingQueues(rings[k], streams - {id}))
      {
        LinkedWithout(store, streams, heads[k], rings[k], id);
      }
      store.DropQueue(id);
      forall k | 0 <= k < |rings|
        ensures Linked(store, heads[k], rings[k])
      {
        LinkedAgain(store, heads[k], rings[k]);
      }
      prio := prio - {id};
    }

    /** AdjustStream */
    method AdjustStream(id: nat, priority: Priority)
      requires Valid() && priority.urgency < 8
      modifies this, store.all`next, store.all`prev
      ensures Valid() && State() == Adjusted(old(State()), id, priority)
    {
      hide QueueStore.Valid, QueueStore.Contents, Linked, IsRing, Snapshot, RingQueues, OutOf, Into, Apart, NoDup, Partition, AllLinked;
      Known(id);
      AdjustedKeeps(State(), id, priority);
      if id !in store.streams {
        updateId, updatePriority := id, priority;
        return;
      }
      SlotFacts(id);
      Relocate(id, Slot(prio[id]), Slot(priority));
      prio := prio[id := priority];
    }

    /** From the ring of one slot to that of another. */
    method Relocate(id: nat, from: nat, to: nat)
      requires AllLinked(store, heads, rings) && |rings| == SLOTS && Apart(rings) && OwnQueues(store.streams)
      requires from < SLOTS && to < SLOTS && id in store.streams && store.streams[id] in store.all
      requires id in rings[from] && NoDup(rings[from])
      requires |OutOf(rings, from, id)| == SLOTS && Apart(OutOf(rings, from, id))
      requires forall j | 0 <= j < SLOTS :: id !in OutOf(rings, from, id)[j]
      modifies this`heads, this`rings, store.all`next, store.all`prev
      ensures AllLinked(store, heads, rings) && rings == Into(OutOf(old(rings), from, id), to, id)
    {
      hide Linked, IsRing, Snapshot, RingQueues, OutOf, Into, Apart, NoDup, AllLinked;
      var q := store.streams[id];
      heads := LeaveSlot(store, heads, rings, from, q, id);
      rings := OutOf(rings, from, id);
      heads := EnterSlot(store, heads, rings, to, q, id);
      rings := Into(rings, to, id);
    }

    /** The place of one open stream. */
    lemma {:induction false} SlotFacts(id: nat)
      requires Valid() && id in store.streams
      ensures |heads| == |rings| == SLOTS && Apart(rings) && OwnQueues(store.streams) && store.streams[id] in store.all
      ensures id in prio && Slot(prio[id]) < SLOTS && id in rings[Slot(prio[id])] && NoDup(rings[Slot(prio[id])])
      ensures |OutOf(rings, Slot(prio[id]), id)| == SLOTS && Apart(OutOf(rings, Slot(prio[id]), id))
      ensures forall j | 0 <= j < |rings| :: id !in OutOf(rings, Slot(prio[id]), id)[j]
    {
      hide OutOf, NoDup;
      PartitionFacts();
      OutOfMembers(rings, Slot(prio[id]), id);
      OutOfApart(rings, OutOf(rings, Slot(prio[id]), id));
    }

    lemma {:induction false} Known(id: nat)
      requires Valid()
      ensures id in prio <==> id in store.streams
      ensures id in store.streams <==> id in State().core.queues
    {
      PartitionFacts();
    }

    method Push(wr: Frame) returns (ok: bool)
      requires Valid()
      modifies store.all`nextQueue, store.control`nextQueue
      ensures Valid() && ok == !PushPanics(old(State()).core, wr)
      ensures State() == if ok then After9218(old(State()), Do(PushFrame(wr))) else old(State())
    {
      hide QueueStore.Valid, QueueStore.Contents, Linked, IsRing, Snapshot, RingQueues, Partition;
      StillPartition();
      if !PushPanics(State().core, wr) {
        StepKeepsPartition(State(), Do(PushFrame(wr)));
      }
      ok := store.Push(wr);
    }

    lemma {:induction false} StillPartition()
      requires Valid()
      ensures |rings| == SLOTS == |heads|
    {
    }

    //
    // Pop
    //

    /** Pop in one slot. */
    method TrySlot(k: nat) returns (wr: Frame, ok: bool)
      requires Valid() && k < |rings| && k < |heads|
      modifies this`heads, this`rings, store.all`currQueue, store.all`nextQueue, store.all`currPos
      modifies store.side.conn`n, store.side.streams.Values`n
      ensures store.Valid() && AllLinked(store, heads, rings)
      ensures ok == SlotReady(old(State()), k)
      ensures !ok ==> State() == old(State()) && heads == old(heads)
      ensures ok ==> SlotServed(old(State()), State(), k, wr)
    {
      hide QueueStore.Valid, QueueStore.Contents, Linked, IsRing, Snapshot, RingQueues, Partition, Ready, FirstReady, Turned, WriteQueues.Serve;
      var c := State().core;
      FirstReadyIs(rings[k], c);
      HeadIs(store, heads[k], rings[k]);
      if heads[k] == null {
        return Control(0, 0), false;
      }
      DistinctAt(k);
      var q;
      wr, ok, q := Scan(store, heads[k], rings[k]);
      if ok {
        ghost var i := FirstReady(rings[k], c);
        NextIs(store, heads[k], rings[k], i);
        heads := heads[k := if k % 2 == 1 then q.next else q];
        rings := AfterServing(rings, k, i);
      }
    }

    /** Pop: a control frame, or a frame of the stream that the rule of RFC 9218 chooses. */
    method Pop() returns (wr: Frame, ok: bool)
      requires Valid()
      modifies this, store.all`currQueue, store.all`nextQueue, store.all`currPos
      modifies store.control`currQueue, store.control`nextQueue, store.control`currPos
      modifies store.side.conn`n, store.side.streams.Values`n
      ensures Valid() && Partition(old(State())) && PopResult9218(old(State()), State(), wr, ok)
    {
      hide QueueStore.Valid, QueueStore.Contents, AllLinked, Partition, Chosen;
      ghost var s := State();
      var empty := ControlEmpty();
      StillPartition();
      if !empty {
        StepKeepsPartition(s, Do(PopControl));
        wr := store.ShiftControl();
        return wr, true;
      }
      wr, ok := PopStreams();
    }

    method ControlEmpty() returns (empty: bool)
      requires Valid()
      ensures empty == (State().core.control == [])
    {
      empty := store.control.Empty();
    }

    /** The two loops of Pop, over the urgencies and the two kinds of each. */
    method PopStreams() returns (wr: Frame, ok: bool)
      requires Valid() && State().core.control == []
      modifies this, store.all`currQueue, store.all`nextQueue, store.all`currPos
      modifies store.side.conn`n, store.side.streams.Values`n
      ensures Valid() && Partition(old(State())) && PopResult9218(old(State()), State(), wr, ok)
    {
      hide QueueStore.Valid, QueueStore.Contents, AllLinked, Partition, FirstTurn, PopResult9218, SlotServed, SlotReady;
      ghost var s := State();
      StillPartition();
      wr, ok := Control(0, 0), false;
      prioritizeIncremental := !prioritizeIncremental;
      TogglePartition(s);
      ghost var flag := prioritizeIncremental;
      var u := 0;
      while u < 8
        invariant 0 <= u <= 8 && !ok && Valid() && State() == s.(incrementalFirst := flag) && |heads| == SLOTS
        invariant FirstTurn(s, flag, 0) == FirstTurn(s, flag, 2 * u)
      {
        var i := 0;
        while i < 2
          invariant 0 <= i <= 2 && !ok && Valid() && State() == s.(incrementalFirst := flag) && |heads| == SLOTS
          invariant FirstTurn(s, flag, 0) == FirstTurn(s, flag, 2 * u + i)
        {
          var k := 2 * u + if prioritizeIncremental then (i + 1) % 2 else i;
          TurnResult(s, flag, 2 * u + i);
          wr, ok := TrySlot(k);
          if ok {
            ServedIsChosen(s, State(), 2 * u + i, wr);
            return;
          }
          i := i + 1;
        }
        u := u + 1;
      }
      NothingChosen(s, wr);
    }

    lemma {:induction false} DistinctAt(k: nat)
      requires Valid() && k < |rings|
      ensures NoDup(rings[k])
    {
    }
  }

  /** A frame of the first stream of slot k that can send was taken. */
  ghost predicate SlotServed(before: Urgency, after: Urgency, k: nat, wr: Frame)
    requires k < |before.rings| && SlotReady(before, k)
  {
    FirstReadyIs(before.rings[k], before.core);
    var i := FirstReady(before.rings[k], before.core);
    var id := before.rings[k][i];
    && wr == ServeStream(before.core, id).frame
    && after == before.(core := AfterServe(before.core, id), rings := AfterServing(before.rings, k, i))
  }

  lemma {:induction false} TogglePartition(s: Urgency)
    requires Partition(s)
    ensures Partition(s.(incrementalFirst := !s.incrementalFirst))
  {
  }

  /** One turn of the loops. */
  lemma {:induction false} TurnResult(s: Urgency, flag: bool, j: nat)
    requires |s.rings| == SLOTS && j < SLOTS
    ensures var k := SlotAt(flag, j);
            && SlotReady(s.(incrementalFirst := flag), k) == SlotReady(s, k)
            && (if SlotReady(s, k) then FirstTurn(s, flag, j) == j else FirstTurn(s, flag, j) == FirstTurn(s, flag, j + 1))
            && k == 2 * (j / 2) + if flag then (j % 2 + 1) % 2 else j % 2
  {
  }

  lemma {:induction false} ServedIsChosen(s: Urgency, after: Urgency, j: nat, wr: Frame)
    requires |s.rings| == SLOTS && Partition(s) && s.core.control == [] && j < SLOTS && FirstTurn(s, !s.incrementalFirst, 0) == j
    requires SlotReady(s, SlotAt(!s.incrementalFirst, j))
    requires SlotReady(s.(incrementalFirst := !s.incrementalFirst), SlotAt(!s.incrementalFirst, j))
    requires SlotServed(s.(incrementalFirst := !s.incrementalFirst), after, SlotAt(!s.incrementalFirst, j), wr)
    ensures Partition(after) && PopResult9218(s, after, wr, true)
  {
    hide FirstTurn, Partition, AfterServing, Serve, Ready, FirstReady;
    var k := SlotAt(!s.incrementalFirst, j);
    FirstReadyIs(s.rings[k], s.core);
    var id := s.rings[k][FirstReady(s.rings[k], s.core)];
    assert Chosen(s) == Stream(id, k);
    assert Allowed9218(s, Do(PopStream(id)));
    StepKeepsPartition(s, Do(PopStream(id)));
  }

  lemma {:induction false} NothingChosen(s: Urgency, wr: Frame)
    requires Partition(s) && s.core.control == [] && FirstTurn(s, !s.incrementalFirst, 0) == FirstTurn(s, !s.incrementalFirst, SLOTS)
    ensures PopResult9218(s, s.(incrementalFirst := !s.incrementalFirst), wr, false)
  {
  }
}
