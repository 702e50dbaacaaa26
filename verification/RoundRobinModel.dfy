/**
 The round-robin policy as a sequence of streams, the next one to write first. A stream with
 something to send waits for at most as many frames as there are streams before it.
 */
module RoundRobinModel {
  import opened Sequences
  import opened WriteQueues
  import opened SchedulerModel

  datatype RoundRobin = RoundRobin(core: Core, ring: seq<nat>)

  /** The ring holds every open stream once. */
  ghost predicate RingOk(r: RoundRobin) {
    NoDup(r.ring) && forall id :: id in r.ring <==> id in r.core.queues
  }

  /** The position of the first stream of the ring that can send, or the length of the ring. */
  function FirstReady(ring: seq<nat>, c: Core): (i: nat) {
    if ring == [] then 0 else if Ready(c, ring[0]) then 0 else 1 + FirstReady(ring[1..], c)
  }

  lemma {:induction false} FirstReadyIs(ring: seq<nat>, c: Core)
    ensures FirstReady(ring, c) <= |ring|
    ensures forall i :: 0 <= i < FirstReady(ring, c) ==> !Ready(c, ring[i])
    ensures FirstReady(ring, c) < |ring| ==> Ready(c, ring[FirstReady(ring, c)])
    decreases |ring|
  {
    hide Ready;
    if ring != [] && !Ready(c, ring[0]) {
      FirstReadyIs(ring[1..], c);
      assert forall i :: 1 <= i < |ring| ==> ring[i] == ring[1..][i - 1];
    }
  }

  /** A ring turned so that position i comes first. */
  function Turned(ring: seq<nat>, i: nat): (r: seq<nat>)
    requires i <= |ring|
  {
    ring[i..] + ring[..i]
  }

  /** The policy: a frame of a stream is taken from the first one that can send. */
  predicate Allows(r: RoundRobin, e: Event) {
    Enabled(r.core, e)
    && (e.PopStream? ==> FirstReady(r.ring, r.core) < |r.ring| && r.ring[FirstReady(r.ring, r.core)] == e.id)
  }

  function NextRing(r: RoundRobin, e: Event): (s: seq<nat>)
    requires Allows(r, e)
  {
    match e
    case OpenQueue(id) => r.ring + [id]
    case CloseQueue(id) => Without(r.ring, id)
    case PopStream(_) => Turned(r.ring, FirstReady(r.ring, r.core) + 1)
    case _ => r.ring
  }

  function Turn(r: RoundRobin, e: Event): (s: RoundRobin)
    requires Allows(r, e)
  {
    RoundRobin(Next(r.core, e), NextRing(r, e))
  }

  //
  // The ring holds exactly the open streams
  //

  lemma {:induction false} WithoutMembers(ring: seq<nat>, id: nat)
    requires NoDup(ring)
    ensures NoDup(Without(ring, id)) && forall x :: x in Without(ring, id) <==> x in ring && x != id
  {
    hide Without;
    if id in ring {
      var i :| 0 <= i < |ring| && ring[i] == id;
      WithoutAt(ring, i);
      forall x
        ensures x in ring[..i] + ring[i + 1..] <==> x in ring && x != id
      {
        SplitMembers(ring, i, x);
      }
    } else {
      WithoutAbsent(ring, id);
    }
  }

  lemma {:induction false} SplitMembers(ring: seq<nat>, i: nat, x: nat)
    requires NoDup(ring) && i < |ring|
    ensures x in ring[..i] + ring[i + 1..] <==> x in ring && x != ring[i]
  {
    assert ring == ring[..i] + [ring[i]] + ring[i + 1..];
  }

  lemma {:induction false} TurnedMembers(ring: seq<nat>, i: nat)
    requires NoDup(ring) && i <= |ring|
    ensures NoDup(Turned(ring, i)) && forall x :: x in Turned(ring, i) <==> x in ring
  {
    assert ring == ring[..i] + ring[i..];
    forall x
      ensures x in Turned(ring, i) <==> x in ring
    {
    }
  }

  lemma {:induction false} TurnKeepsRing(r: RoundRobin, e: Event)
    requires RingOk(r) && Allows(r, e)
    ensures RingOk(Turn(r, e))
  {
    hide Without, Turned, Serve, Consumable;
    match e
    case CloseQueue(id) =>
      WithoutMembers(r.ring, id);
    case PopStream(id) =>
      FirstReadyIs(r.ring, r.core);
      TurnedMembers(r.ring, FirstReady(r.ring, r.core) + 1);
    case _ =>
  }

  /** Pop takes nothing only when no stream can send. */
  lemma {:induction false} StuckOnlyWhenNothingReady(r: RoundRobin)
    requires RingOk(r) && r.core.control == []
    ensures (forall e :: Allows(r, e) ==> !e.PopStream?) <==> (forall id <- r.core.queues :: !Ready(r.core, id))
  {
    hide Ready, FirstReady;
    FirstReadyIs(r.ring, r.core);
    var i := FirstReady(r.ring, r.core);
    if i < |r.ring| {
      assert Allows(r, PopStream(r.ring[i]));
      assert r.ring[i] in r.ring;
    }
    forall e | Allows(r, e) && e.PopStream?
      ensures i < |r.ring|
    {
    }
  }

  //
  // Bounded waiting
  //

  predicate IsFairRun(r: RoundRobin, es: seq<Event>)
    decreases |es|
  {
    es == [] || (Allows(r, es[0]) && IsFairRun(Turn(r, es[0]), es[1..]))
  }

  function FairEnd(r: RoundRobin, es: seq<Event>): (s: RoundRobin)
    requires IsFairRun(r, es)
    decreases |es|
  {
    if es == [] then r else FairEnd(Turn(r, es[0]), es[1..])
  }

  /** Stream x could send whenever a frame of some stream was taken. */
  predicate AlwaysReady(r: RoundRobin, es: seq<Event>, x: nat)
    requires IsFairRun(r, es)
    decreases |es|
  {
    es == [] || ((es[0].PopStream? ==> Ready(r.core, x)) && AlwaysReady(Turn(r, es[0]), es[1..], x))
  }

  /** How many frames of streams a run takes. */
  function StreamPops(es: seq<Event>): (n: nat) {
    if es == [] then 0 else (if es[0].PopStream? then 1 else 0) + StreamPops(es[1..])
  }

  /** One step brings x no further from the head, and closer when another stream is served. */
  lemma {:induction false} StepCloser(r: RoundRobin, e: Event, d: nat) returns (k: nat)
    requires RingOk(r) && Allows(r, e) && d < |r.ring| && e != CloseQueue(r.ring[d]) && e != PopStream(r.ring[d])
    requires e.PopStream? ==> Ready(r.core, r.ring[d])
    ensures k < |NextRing(r, e)| && NextRing(r, e)[k] == r.ring[d]
    ensures k + (if e.PopStream? then 1 else 0) <= d
  {
    hide Ready, Without, FirstReady, Enabled;
    k := d;
    match e
    case CloseQueue(id) =>
      if id in r.ring {
        var i :| 0 <= i < |r.ring| && r.ring[i] == id;
        WithoutAt(r.ring, i);
        k := if i < d then d - 1 else d;
      } else {
        WithoutAbsent(r.ring, id);
      }
    case PopStream(id) =>
      FirstReadyIs(r.ring, r.core);
      k := d - FirstReady(r.ring, r.core) - 1;
    case _ =>
  }

  /**
   A stream at distance d from the head that stays able to send sees at most d frames of other
   streams, however many streams are opened or closed meanwhile.
   */
  lemma {:induction false} BoundedWaiting(r: RoundRobin, es: seq<Event>, d: nat)
    requires RingOk(r) && IsFairRun(r, es) && d < |r.ring| && AlwaysReady(r, es, r.ring[d])
    requires CloseQueue(r.ring[d]) !in es && PopStream(r.ring[d]) !in es
    ensures StreamPops(es) <= d
    decreases |es|
  {
    hide Ready, RingOk, Allows, Next, NextRing;
    if es != [] {
      var k := StepCloser(r, es[0], d);
      TurnKeepsRing(r, es[0]);
      BoundedWaiting(Turn(r, es[0]), es[1..], k);
    }
  }

  /** A fair run is a run, so what holds of every run holds of it. */
  lemma {:induction false} FairRunsAreRuns(r: RoundRobin, es: seq<Event>)
    requires IsFairRun(r, es)
    ensures IsRun(r.core, es) && FairEnd(r, es).core == End(r.core, es)
    decreases |es|
  {
    hide Next, NextRing, Enabled, FirstReady;
    if es != [] {
      FairRunsAreRuns(Turn(r, es[0]), es[1..]);
    }
  }
}
