/**
 Which streams have a node in the priority tree, and in which state. Opening, closing and
 reprioritizing streams changes this without regard to the shape of the tree, so it is described,
 over whole runs, on the streams' identifiers alone.
 */
module PriorityLife {
  import opened PriorityLinks

  /** The streams with a node; the closed and idle lists, oldest first; the largest identifier seen. */
  datatype Streams = Streams(states: map<nat, NodeState>, closed: seq<nat>, idle: seq<nat>, maxID: nat)

  /** The configured lengths of the two lists. */
  datatype Limits = Limits(maxClosed: int, maxIdle: int)

  datatype Op = Opens(id: nat) | Closes(id: nat) | Adjusts(id: nat)

  predicate Panics(v: Streams, op: Op) {
    match op
    case Opens(id) => id in v.states && v.states[id] != Idle
    case Closes(id) => id == 0 || id !in v.states || v.states[id] != Open
    case Adjusts(id) => id == 0
  }

  predicate Full(list: seq<nat>, max: int) {
    list != [] && |list| == max
  }

  /** The stream that a list lets go when another one joins it. */
  function Oldest(list: seq<nat>, max: int): (r: set<nat>) {
    if Full(list, max) then {list[0]} else {}
  }

  function Joined(list: seq<nat>, max: int, id: nat): (r: seq<nat>) {
    if max == 0 then list else (if |list| == max then list[1..] else list) + [id]
  }

  /** Whether reprioritizing id makes a new idle node. */
  predicate MakesIdle(v: Streams, l: Limits, id: nat) {
    id != 0 && id !in v.states && id > v.maxID && l.maxIdle != 0
  }

  function After(v: Streams, l: Limits, op: Op): (r: Streams) {
    if Panics(v, op) then v
    else match op
      case Opens(id) => v.(states := v.states[id := Open], maxID := if id > v.maxID then id else v.maxID)
      case Closes(id) =>
        if l.maxClosed <= 0 then v.(states := v.states - {id})
        else v.(states := v.states[id := Closed] - Oldest(v.closed, l.maxClosed), closed := Joined(v.closed, l.maxClosed, id))
      case Adjusts(id) =>
        if !MakesIdle(v, l, id) then v
        else v.(states := v.states[id := Idle] - Oldest(v.idle, l.maxIdle), idle := Joined(v.idle, l.maxIdle, id), maxID := id)
  }

  lemma {:induction false} IdleMade(v: Streams, l: Limits, id: nat)
    requires MakesIdle(v, l, id)
    ensures After(v, l, Adjusts(id))
         == v.(states := v.states[id := Idle] - Oldest(v.idle, l.maxIdle), idle := Joined(v.idle, l.maxIdle, id), maxID := id)
    ensures v.idle != [] && v.idle[0] != id ==> id in After(v, l, Adjusts(id)).states
  {
  }

  /** Streams of the closed list that have a node are closed; identifiers are at most maxID. */
  predicate Orderly(v: Streams) {
    && (forall id <- v.states :: id <= v.maxID)
    && (forall id <- v.closed :: id <= v.maxID && (id in v.states ==> v.states[id] == Closed))
    && (forall id <- v.idle :: id <= v.maxID)
  }

  /** No list still names a stream of this identifier that lost its node. */
  predicate Unlisted(v: Streams, id: nat) {
    id in v.states || (id !in v.closed && id !in v.idle)
  }

  /** Opening is the one step that can go wrong, for an identifier that a list still names. */
  lemma {:induction false} StepIsOrderly(v: Streams, l: Limits, op: Op)
    requires Orderly(v) && (op.Opens? ==> Unlisted(v, op.id))
    ensures Orderly(After(v, l, op))
  {
    var r := After(v, l, op);
    forall id | id in r.closed
      ensures id <= r.maxID && (id in r.states ==> r.states[id] == Closed)
    {
      assert id in v.closed || op == Closes(id);
    }
    forall id | id in r.idle
      ensures id <= r.maxID
    {
      assert id in v.idle || op == Adjusts(id);
    }
  }

  /**
   When an open stream loses its node, other than by its own close: exactly when a new idle
   stream finds it, opened from idle, at the head of a full idle list. Closing others never does it.
   */
  lemma {:induction false} OpenStreamLeaves(v: Streams, l: Limits, op: Op, x: nat)
    requires Orderly(v) && x in v.states && v.states[x] == Open && op != Closes(x)
    ensures var r := After(v, l, op);
            && (x !in r.states <==> op.Adjusts? && MakesIdle(v, l, op.id) && Full(v.idle, l.maxIdle) && v.idle[0] == x)
            && (x in r.states ==> r.states[x] == Open)
  {
    if op.Closes? && Full(v.closed, l.maxClosed) {
      assert v.closed[0] in v.closed;
    }
  }

  //
  // Runs
  //

  ghost predicate IsRun(v: Streams, l: Limits, ops: seq<Op>)
    decreases |ops|
  {
    ops == [] || (!Panics(v, ops[0]) && (ops[0].Opens? ==> Unlisted(v, ops[0].id)) && IsRun(After(v, l, ops[0]), l, ops[1..]))
  }

  function End(v: Streams, l: Limits, ops: seq<Op>): (r: Streams)
    decreases |ops|
  {
    if ops == [] then v else End(After(v, l, ops[0]), l, ops[1..])
  }

  /** Open, and not in the idle list. */
  predicate Settled(v: Streams, x: nat) {
    x in v.states && v.states[x] == Open && x !in v.idle
  }

  /** So is every stream that is opened without having been idle. */
  lemma {:induction false} OpenedIsSettled(v: Streams, l: Limits, x: nat)
    requires x !in v.states && Unlisted(v, x)
    ensures Settled(After(v, l, Opens(x)), x)
  {
  }

  lemma {:induction false} SettledStep(v: Streams, l: Limits, op: Op, x: nat)
    requires Orderly(v) && Settled(v, x) && op != Closes(x)
    ensures Settled(After(v, l, op), x)
  {
    OpenStreamLeaves(v, l, op, x);
    var r := After(v, l, op);
    forall id | id in r.idle
      ensures id != x
    {
      assert id in v.idle || (op == Adjusts(id) && MakesIdle(v, l, id));
    }
  }

  /** Such a stream keeps its node, and stays open, over every run until its own close. */
  lemma {:induction false} SettledStays(v: Streams, l: Limits, ops: seq<Op>, x: nat)
    requires Orderly(v) && IsRun(v, l, ops) && Settled(v, x) && Closes(x) !in ops
    ensures Settled(End(v, l, ops), x) && (x != 0 ==> !Panics(End(v, l, ops), Closes(x)))
    decreases |ops|
  {
    hide After, Panics, Settled, Orderly;
    if ops == [] {
      CloseWorks(v, x);
    } else {
      SettledStep(v, l, ops[0], x);
      StepIsOrderly(v, l, ops[0]);
      SettledStays(After(v, l, ops[0]), l, ops[1..], x);
    }
  }

  lemma {:induction false} CloseWorks(v: Streams, x: nat)
    requires Settled(v, x)
    ensures x != 0 ==> !Panics(v, Closes(x))
  {
  }

  /** A stream opened from idle that does not: two idle streams and a list for one. */
  lemma {:induction false} OpenedFromIdleLeaves(v: Streams, l: Limits)
    requires v == Streams(map[0 := Open], [], [], 0) && l == Limits(10, 1)
    ensures var v1 := After(v, l, Adjusts(3)); var v2 := After(v1, l, Opens(3)); var v3 := After(v2, l, Adjusts(5));
            Unlisted(v1, 3) && !Panics(v1, Opens(3)) && v2.states[3] == Open && Panics(v3, Closes(3))
  {
    var v1 := After(v, l, Adjusts(3));
    assert v1.idle == [3];
  }

  /** An identifier opened twice, the second time while the idle list still names its former node. */
  lemma {:induction false} ReopenedIsListed(v: Streams, l: Limits)
    requires v == Streams(map[0 := Open], [], [], 0) && l == Limits(0, 1)
    ensures var v1 := After(v, l, Adjusts(3)); var v2 := After(v1, l, Opens(3));
            var v3 := After(v2, l, Closes(3)); var v4 := After(v3, l, Opens(3));
            && Unlisted(v1, 3) && !Panics(v1, Opens(3)) && !Panics(v2, Closes(3)) && !Panics(v3, Opens(3))
            && 3 !in v3.states && v3.idle == [3] && !Unlisted(v3, 3) && 3 in v4.states && v4.states[3] == Open && 5 !in v4.states && v4.maxID < 5
  {
    assert After(v, l, Adjusts(3)).idle == [3];
  }
}
