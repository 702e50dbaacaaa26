/**
 The policy of RFC 9218 as sixteen rings, one for each urgency and kind (incremental or not).
 Slot 2u holds the non-incremental streams of urgency u, slot 2u + 1 the incremental ones.
 */
module UrgencyModel {
  import opened Sequences
  import opened WriteQueues
  import opened SchedulerModel
  import opened RoundRobinModel

  datatype Priority = Priority(urgency: nat, incremental: bool)

  const SLOTS := 16

  function Slot(p: Priority): (k: nat)
    ensures p.urgency < 8 ==> k < SLOTS
  {
    2 * p.urgency + if p.incremental then 1 else 0
  }

  predicate IncrementalSlot(k: nat) {
    k % 2 == 1
  }

  /** incrementalFirst is prioritizeIncremental; update is the buffered PRIORITY_UPDATE, for stream 0 when empty. */
  datatype Urgency = Urgency(
    core: Core, rings: seq<seq<nat>>, prio: map<nat, Priority>,
    incrementalFirst: bool, updateId: nat, updatePriority: Priority)

  /** Each open stream is in the ring of its current priority, once, and in no other. */
  ghost predicate Partition(s: Urgency) {
    && |s.rings| == SLOTS && s.prio.Keys == s.core.queues.Keys && s.updatePriority.urgency < 8
    && (forall id <- s.prio :: s.prio[id].urgency < 8)
    && (forall k :: 0 <= k < SLOTS ==> NoDup(s.rings[k]))
    && (forall k, id :: 0 <= k < SLOTS ==> (id in s.rings[k] <==> id in s.prio && Slot(s.prio[id]) == k))
  }

  //
  // Which stream Pop serves
  //

  /** The slot Pop looks at in its j-th turn. */
  function SlotAt(incrementalFirst: bool, j: nat): (k: nat)
    requires j < SLOTS
    ensures k < SLOTS && k / 2 == j / 2
  {
    if !incrementalFirst then j else if j % 2 == 0 then j + 1 else j - 1
  }

  predicate SlotReady(s: Urgency, k: nat)
    requires k < |s.rings|
  {
    FirstReady(s.rings[k], s.core) < |s.rings[k]|
  }

  /** The first turn, from the j-th on, in which Pop finds a stream that can send. */
  function FirstTurn(s: Urgency, incrementalFirst: bool, j: nat): (t: nat)
    requires |s.rings| == SLOTS && j <= SLOTS
    decreases SLOTS - j
  {
    if j == SLOTS || SlotReady(s, SlotAt(incrementalFirst, j)) then j else FirstTurn(s, incrementalFirst, j + 1)
  }

  lemma {:induction false} FirstTurnIs(s: Urgency, incrementalFirst: bool, j: nat)
    requires |s.rings| == SLOTS && j <= SLOTS
    ensures j <= FirstTurn(s, incrementalFirst, j) <= SLOTS
    ensures forall t :: j <= t < FirstTurn(s, incrementalFirst, j) ==> !SlotReady(s, SlotAt(incrementalFirst, t))
    ensures FirstTurn(s, incrementalFirst, j) < SLOTS ==> SlotReady(s, SlotAt(incrementalFirst, FirstTurn(s, incrementalFirst, j)))
    decreases SLOTS - j
  {
    hide SlotReady;
    if j != SLOTS && !SlotReady(s, SlotAt(incrementalFirst, j)) {
      FirstTurnIs(s, incrementalFirst, j + 1);
    }
  }

  /** The stream Pop serves, and its slot. */
  datatype Choice = NoStream | Stream(id: nat, slot: nat)

  function Chosen(s: Urgency): (c: Choice)
    requires |s.rings| == SLOTS
  {
    var t := FirstTurn(s, !s.incrementalFirst, 0);
    FirstTurnIs(s, !s.incrementalFirst, 0);
    if t == SLOTS then NoStream
    else
      var k := SlotAt(!s.incrementalFirst, t);
      Stream(s.rings[k][FirstReady(s.rings[k], s.core)], k)
  }

  //
  // Steps
  //

  datatype Step =
    | OpenWith(id: nat, p: Priority)
    | Adjust(id: nat, p: Priority)
    | PopNothing
    | Do(e: Event)

  predicate Allowed9218(s: Urgency, x: Step)
    requires |s.rings| == SLOTS
  {
    match x
    case OpenWith(id, p) => p.urgency < 8 && Enabled(s.core, OpenQueue(id))
    case Adjust(id, p) => p.urgency < 8
    case PopNothing => s.core.control == [] && Chosen(s) == NoStream
    case Do(e) =>
      && !e.OpenQueue? && Enabled(s.core, e)
      && (e.PopStream? ==> Chosen(s).Stream? && Chosen(s).id == e.id)
  }

  function Into(rings: seq<seq<nat>>, k: nat, id: nat): (r: seq<seq<nat>>)
    requires k < |rings|
  {
    rings[k := rings[k] + [id]]
  }

  function OutOf(rings: seq<seq<nat>>, k: nat, id: nat): (r: seq<seq<nat>>)
    requires k < |rings|
  {
    rings[k := Without(rings[k], id)]
  }

  /** The ring of slot k after its i-th stream was served: a non-incremental stream stays first. */
  function AfterServing(rings: seq<seq<nat>>, k: nat, i: nat): (r: seq<seq<nat>>)
    requires k < |rings| && i < |rings[k]|
  {
    rings[k := Turned(rings[k], if IncrementalSlot(k) then i + 1 else i)]
  }

  /** The priority a stream opens with: a buffered update for it wins. */
  function OpeningPriority(s: Urgency, id: nat, p: Priority): (r: Priority) {
    if id == s.updateId then s.updatePriority else p
  }

  function Opened(s: Urgency, id: nat, p: Priority): (r: Urgency)
    requires |s.rings| == SLOTS && p.urgency < 8 && s.updatePriority.urgency < 8 && Enabled(s.core, OpenQueue(id))
  {
    var q := OpeningPriority(s, id, p);
    s.(core := Next(s.core, OpenQueue(id)), rings := Into(s.rings, Slot(q), id), prio := s.prio[id := q],
       updateId := if id == s.updateId then 0 else s.updateId)
  }

  function Closed(s: Urgency, id: nat): (r: Urgency)
    requires |s.rings| == SLOTS && forall x <- s.prio :: s.prio[x].urgency < 8
  {
    if id !in s.prio then s.(core := Next(s.core, CloseQueue(id)))
    else s.(core := Next(s.core, CloseQueue(id)), rings := OutOf(s.rings, Slot(s.prio[id]), id), prio := s.prio - {id})
  }

  function Adjusted(s: Urgency, id: nat, p: Priority): (r: Urgency)
    requires |s.rings| == SLOTS && p.urgency < 8 && forall x <- s.prio :: s.prio[x].urgency < 8
  {
    if id !in s.prio then s.(updateId := id, updatePriority := p)
    else s.(rings := Into(OutOf(s.rings, Slot(s.prio[id]), id), Slot(p), id), prio := s.prio[id := p])
  }

  function After9218(s: Urgency, x: Step): (r: Urgency)
    requires Partition(s) && Allowed9218(s, x)
  {
    match x
    case OpenWith(id, p) => Opened(s, id, p)
    case Adjust(id, p) => Adjusted(s, id, p)
    case PopNothing => s.(incrementalFirst := !s.incrementalFirst)
    case Do(e) =>
      if e.CloseQueue? then Closed(s, e.id)
      else if e.PopStream? then
        var k := Chosen(s).slot;
        ChosenIs(s);
        s.(core := Next(s.core, e), rings := AfterServing(s.rings, k, FirstReady(s.rings[k], s.core)),
           incrementalFirst := !s.incrementalFirst)
      else s.(core := Next(s.core, e))
  }

  lemma {:induction false} ChosenIs(s: Urgency)
    requires |s.rings| == SLOTS
    ensures var c := Chosen(s);
            c.Stream? ==> c.slot < SLOTS && SlotReady(s, c.slot) && c.id == s.rings[c.slot][FirstReady(s.rings[c.slot], s.core)]
  {
    FirstTurnIs(s, !s.incrementalFirst, 0);
  }

  //
  // The partition is kept
  //

  lemma {:induction false} IntoMembers(rings: seq<seq<nat>>, k: nat, id: nat)
    requires k < |rings| && (forall j :: 0 <= j < |rings| ==> NoDup(rings[j])) && id !in rings[k]
    ensures var r := Into(rings, k, id);
            && |r| == |rings| && (forall j :: 0 <= j < |r| ==> NoDup(r[j]))
            && (forall j, x :: 0 <= j < |r| ==> (x in r[j] <==> x in rings[j] || (j == k && x == id)))
  {
  }

  lemma {:induction false} OutOfMembers(rings: seq<seq<nat>>, k: nat, id: nat)
    requires k < |rings| && (forall j :: 0 <= j < |rings| ==> NoDup(rings[j]))
    ensures var r := OutOf(rings, k, id);
            && |r| == |rings| && (forall j :: 0 <= j < |r| ==> NoDup(r[j]))
            && (forall j, x :: 0 <= j < |r| ==> (x in r[j] <==> x in rings[j] && !(j == k && x == id)))
  {
    hide Without, NoDup;
    WithoutMembers(rings[k], id);
  }

  lemma {:induction false} ServingMembers(rings: seq<seq<nat>>, k: nat, i: nat)
    requires k < |rings| && (forall j :: 0 <= j < |rings| ==> NoDup(rings[j])) && i < |rings[k]|
    ensures var r := AfterServing(rings, k, i);
            && |r| == |rings| && (forall j :: 0 <= j < |r| ==> NoDup(r[j]))
            && (forall j, x :: 0 <= j < |r| ==> (x in r[j] <==> x in rings[j]))
  {
    hide Turned, NoDup;
    TurnedMembers(rings[k], if IncrementalSlot(k) then i + 1 else i);
  }

  lemma {:induction false} OpenedKeeps(s: Urgency, id: nat, p: Priority)
    requires Partition(s) && p.urgency < 8 && Enabled(s.core, OpenQueue(id))
    ensures Partition(Opened(s, id, p))
  {
    hide NoDup, Into;
    IntoMembers(s.rings, Slot(OpeningPriority(s, id, p)), id);
  }

  lemma {:induction false} ClosedKeeps(s: Urgency, id: nat)
    requires Partition(s)
    ensures Partition(Closed(s, id))
  {
    hide NoDup, OutOf;
    if id in s.prio {
      OutOfMembers(s.rings, Slot(s.prio[id]), id);
    } else {
      assert s.core.queues - {id} == s.core.queues;
    }
  }

  lemma {:induction false} AdjustedKeeps(s: Urgency, id: nat, p: Priority)
    requires Partition(s) && p.urgency < 8
    ensures Partition(Adjusted(s, id, p))
  {
    hide NoDup, OutOf, Into;
    if id in s.prio {
      OutOfMembers(s.rings, Slot(s.prio[id]), id);
      IntoMembers(OutOf(s.rings, Slot(s.prio[id]), id), Slot(p), id);
    }
  }

  lemma {:induction false} PopKeeps(s: Urgency, id: nat)
    requires Partition(s) && Allowed9218(s, Do(PopStream(id)))
    ensures Partition(After9218(s, Do(PopStream(id))))
  {
    hide NoDup, AfterServing, Chosen, Ready, Serve, FirstReady;
    ChosenIs(s);
    var k := Chosen(s).slot;
    ServingMembers(s.rings, k, FirstReady(s.rings[k], s.core));
    FirstReadyIs(s.rings[k], s.core);
    assert id in s.rings[k];
  }

  lemma {:induction false} StepKeepsPartition(s: Urgency, x: Step)
    requires Partition(s) && Allowed9218(s, x)
    ensures Partition(After9218(s, x))
  {
    hide NoDup, Into, OutOf, AfterServing, Chosen, Ready;
    match x
    case OpenWith(id, p) => OpenedKeeps(s, id, p);
    case Adjust(id, p) => AdjustedKeeps(s, id, p);
    case PopNothing =>
    case Do(e) =>
      if e.CloseQueue? {
        ClosedKeeps(s, e.id);
      } else if e.PopStream? {
        PopKeeps(s, e.id);
      }
  }

  //
  // What Pop promises
  //

  lemma {:induction false} ReadySlot(s: Urgency, id: nat)
    requires Partition(s) && id in s.prio && Ready(s.core, id)
    ensures Slot(s.prio[id]) < SLOTS && SlotReady(s, Slot(s.prio[id]))
  {
    hide Ready, FirstReady;
    var ring := s.rings[Slot(s.prio[id])];
    FirstReadyIs(ring, s.core);
    assert id in ring;
  }

  lemma {:induction false} ChosenStream(s: Urgency)
    requires Partition(s) && Chosen(s).Stream?
    ensures var c := Chosen(s); c.id in s.prio && Ready(s.core, c.id) && Slot(s.prio[c.id]) == c.slot
  {
    hide Ready, FirstReady, Chosen;
    ChosenIs(s);
    var c := Chosen(s);
    FirstReadyIs(s.rings[c.slot], s.core);
    assert c.id in s.rings[c.slot];
  }

  /** The turn in which Pop looks at a slot. */
  lemma {:induction false} TurnOf(incrementalFirst: bool, k: nat) returns (t: nat)
    requires k < SLOTS
    ensures t < SLOTS && SlotAt(incrementalFirst, t) == k && t / 2 == k / 2
  {
    t := SlotAt(incrementalFirst, k);
  }

  /** No stream of a lower urgency number could send; Pop finds nothing only when no stream can send. */
  lemma {:induction false} PopServesLowestUrgency(s: Urgency, id: nat)
    requires Partition(s) && id in s.prio && Ready(s.core, id)
    ensures Chosen(s).Stream? && Chosen(s).id in s.prio && s.prio[Chosen(s).id].urgency <= s.prio[id].urgency
  {
    hide Ready, SlotReady, FirstTurn;
    ReadySlot(s, id);
    var t := TurnOf(!s.incrementalFirst, Slot(s.prio[id]));
    FirstTurnIs(s, !s.incrementalFirst, 0);
    ChosenStream(s);
  }

  lemma {:induction false} StuckOnlyWhenNothingReady9218(s: Urgency)
    requires Partition(s)
    ensures Chosen(s) == NoStream <==> forall id <- s.prio :: !Ready(s.core, id)
  {
    hide Ready, Chosen;
    if Chosen(s).Stream? {
      ChosenStream(s);
    }
    forall id | id in s.prio && Ready(s.core, id)
      ensures Chosen(s).Stream?
    {
      PopServesLowestUrgency(s, id);
    }
  }

  /** A stream of urgency u and the given kind can send. */
  ghost predicate KindReady(s: Urgency, u: nat, incremental: bool) {
    exists id :: id in s.prio && s.prio[id] == Priority(u, incremental) && Ready(s.core, id)
  }

  /** When both kinds can send at the chosen urgency, the toggle decides. */
  lemma {:induction false} ToggleDecides(s: Urgency)
    requires Partition(s) && Chosen(s).Stream? && Chosen(s).id in s.prio
    requires var u := s.prio[Chosen(s).id].urgency; KindReady(s, u, true) && KindReady(s, u, false)
    ensures s.prio[Chosen(s).id].incremental == !s.incrementalFirst
  {
    hide Ready, SlotReady, FirstTurn;
    ChosenStream(s);
    var c := Chosen(s);
    var p := s.prio[c.id];
    var id :| id in s.prio && s.prio[id] == Priority(p.urgency, !s.incrementalFirst) && Ready(s.core, id);
    ReadySlot(s, id);
    var t := TurnOf(!s.incrementalFirst, Slot(s.prio[id]));
    FirstTurnIs(s, !s.incrementalFirst, 0);
    assert t % 2 == 0;
  }

  //
  // Runs
  //

  ghost predicate IsRun9218(s: Urgency, xs: seq<Step>)
    requires Partition(s)
    decreases |xs|
  {
    xs == [] || (Allowed9218(s, xs[0]) && (StepKeepsPartition(s, xs[0]); IsRun9218(After9218(s, xs[0]), xs[1..])))
  }

  ghost function End9218(s: Urgency, xs: seq<Step>): (r: Urgency)
    requires Partition(s) && IsRun9218(s, xs)
    decreases |xs|
  {
    if xs == [] then s
    else
      StepKeepsPartition(s, xs[0]);
      End9218(After9218(s, xs[0]), xs[1..])
  }

  lemma {:induction false} RunKeepsPartition(s: Urgency, xs: seq<Step>)
    requires Partition(s) && IsRun9218(s, xs)
    ensures Partition(End9218(s, xs))
    decreases |xs|
  {
    hide Partition, Allowed9218, After9218;
    if xs != [] {
      StepKeepsPartition(s, xs[0]);
      RunKeepsPartition(After9218(s, xs[0]), xs[1..]);
    }
  }

  /** Between two Pops that look at the streams there may be anything else. */
  predicate LeavesToggle(xs: seq<Step>) {
    forall x <- xs :: x != PopNothing && !(x.Do? && x.e.PopStream?)
  }

  lemma {:induction false} ToggleKept(s: Urgency, xs: seq<Step>)
    requires Partition(s) && IsRun9218(s, xs) && LeavesToggle(xs)
    ensures End9218(s, xs).incrementalFirst == s.incrementalFirst
    decreases |xs|
  {
    hide Partition, Allowed9218, Chosen, Next;
    if xs != [] {
      StepKeepsPartition(s, xs[0]);
      ToggleKept(After9218(s, xs[0]), xs[1..]);
    }
  }

  /** The urgency at which Pop serves, with both kinds able to send there. */
  ghost predicate Contended(s: Urgency)
    requires Partition(s)
  {
    Chosen(s).Stream? && Chosen(s).id in s.prio
    && KindReady(s, s.prio[Chosen(s).id].urgency, true) && KindReady(s, s.prio[Chosen(s).id].urgency, false)
  }

  /** Two consecutive Pops with both kinds able to send serve different kinds. */
  lemma {:induction false} KindsAlternate(s: Urgency, between: seq<Step>)
    requires Partition(s) && Contended(s) && Allowed9218(s, Do(PopStream(Chosen(s).id)))
    requires Partition(After9218(s, Do(PopStream(Chosen(s).id))))
    requires IsRun9218(After9218(s, Do(PopStream(Chosen(s).id))), between) && LeavesToggle(between)
    ensures var d := End9218(After9218(s, Do(PopStream(Chosen(s).id))), between);
            Partition(d) && (Contended(d) ==> d.prio[Chosen(d).id].incremental != s.prio[Chosen(s).id].incremental)
  {
    hide Chosen, KindReady, Next, IsRun9218, End9218, LeavesToggle, Enabled;
    var e := After9218(s, Do(PopStream(Chosen(s).id)));
    ToggleDecides(s);
    ToggleKept(e, between);
    RunKeepsPartition(e, between);
    if Contended(End9218(e, between)) {
      ToggleDecides(End9218(e, between));
    }
  }

  /** A non-incremental stream that was served is served again as long as its slot is chosen and it can send. */
  lemma {:induction false} NonIncrementalGoesOn(s: Urgency)
    requires Partition(s) && Chosen(s).Stream? && !IncrementalSlot(Chosen(s).slot) && Allowed9218(s, Do(PopStream(Chosen(s).id)))
    ensures var d := After9218(s, Do(PopStream(Chosen(s).id)));
            |d.rings| == SLOTS && (Chosen(d).Stream? && Chosen(d).slot == Chosen(s).slot && Ready(d.core, Chosen(s).id) ==> Chosen(d).id == Chosen(s).id)
  {
    hide Chosen, Ready, Next, Enabled;
    ChosenIs(s);
    ChosenIs(After9218(s, Do(PopStream(Chosen(s).id))));
  }

  //
  // Runs of this policy are runs
  //

  function CoreEvents(xs: seq<Step>): (es: seq<Event>) {
    if xs == [] then []
    else (match xs[0]
          case OpenWith(id, _) => [OpenQueue(id)]
          case Do(e) => [e]
          case _ => []) + CoreEvents(xs[1..])
  }

  lemma {:induction false} UrgencyRunsAreRuns(s: Urgency, xs: seq<Step>)
    requires Partition(s) && IsRun9218(s, xs)
    ensures IsRun(s.core, CoreEvents(xs)) && End9218(s, xs).core == End(s.core, CoreEvents(xs))
    decreases |xs|
  {
    hide Partition, Chosen, Next, Enabled, Into, OutOf, AfterServing, Slot;
    if xs != [] {
      StepKeepsPartition(s, xs[0]);
      UrgencyRunsAreRuns(After9218(s, xs[0]), xs[1..]);
      CoreStep(s, xs[0], CoreEvents(xs[1..]));
    }
  }

  lemma {:induction false} CoreStep(s: Urgency, x: Step, es: seq<Event>)
    requires Partition(s) && Allowed9218(s, x) && IsRun(After9218(s, x).core, es)
    ensures var all := (match x case OpenWith(id, _) => [OpenQueue(id)] case Do(e) => [e] case _ => []) + es;
            IsRun(s.core, all) && End(s.core, all) == End(After9218(s, x).core, es)
  {
    hide Partition, Chosen, Next, Enabled, Into, OutOf, AfterServing, Slot;
    match x
    case OpenWith(id, _) => assert ([OpenQueue(id)] + es)[1..] == es;
    case Do(e) => assert ([e] + es)[1..] == es;
    case _ => assert [] + es == es;
  }
}
