/**
 What every write scheduler does to the queues, whichever stream it picks: runs of events on
 the control queue, the streams' queues and the windows. No frame, octet or end of stream is
 lost, duplicated or reordered within a stream, and the windows pay for exactly what is sent.
 */
module SchedulerModel {
  import opened Flow
  import opened WriteQueues

  datatype Core = Core(control: seq<Frame>, queues: map<nat, seq<Frame>>, w: Windows)

  datatype Event =
    | OpenQueue(id: nat)
    | CloseQueue(id: nat)
    | PushFrame(f: Frame)
    | NewWindow(id: nat, n: int)
    | Grant(id: nat, n: int)
    | GrantConnection(n: int)
    | NewMaxFrame(size: int)
    | PopControl
    | PopStream(id: nat)

  /** Frames of a stream are in its queue only. */
  ghost predicate Filed(c: Core) {
    forall id <- c.queues :: forall f <- c.queues[id] :: f.id == id && !f.Control?
  }

  /** Whether a frame goes to the queue of its stream. */
  predicate ToStream(c: Core, f: Frame) {
    !f.Control? && f.id in c.queues
  }

  predicate PushPanics(c: Core, f: Frame) {
    !f.Control? && f.id !in c.queues && DataSize(f) > 0
  }

  predicate Ready(c: Core, id: nat) {
    id in c.queues && Consumable(c.queues[id], c.w, MAX_WINDOW)
  }

  predicate Enabled(c: Core, e: Event) {
    match e
    case OpenQueue(id) => id !in c.queues
    case PushFrame(f) => !PushPanics(c, f)
    case PopControl => c.control != []
    case PopStream(id) => c.control == [] && Ready(c, id)
    case _ => true
  }

  function Pushed(c: Core, f: Frame): (r: Core) {
    if ToStream(c, f) then c.(queues := c.queues[f.id := c.queues[f.id] + [f]]) else c.(control := c.control + [f])
  }

  function Granted(w: Windows, id: nat, n: int): (r: Windows) {
    if id in w.streams then w.(streams := w.streams[id := w.streams[id] + n]) else w
  }

  function ServeStream(c: Core, id: nat): (s: Served)
    requires Ready(c, id)
    ensures s.Served?
  {
    ServedIffConsumable(c.queues[id], c.w, MAX_WINDOW);
    Serve(c.queues[id], c.w, MAX_WINDOW)
  }

  function Next(c: Core, e: Event): (r: Core)
    requires Enabled(c, e)
  {
    match e
    case OpenQueue(id) => c.(queues := c.queues[id := []])
    case CloseQueue(id) => c.(queues := c.queues - {id})
    case PushFrame(f) => Pushed(c, f)
    case NewWindow(id, n) => c.(w := c.w.(streams := c.w.streams[id := n]))
    case Grant(id, n) => c.(w := Granted(c.w, id, n))
    case GrantConnection(n) => c.(w := c.w.(conn := c.w.conn + n))
    case NewMaxFrame(size) => c.(w := c.w.(maxFrame := size))
    case PopControl => c.(control := c.control[1..])
    case PopStream(id) => var s := ServeStream(c, id); c.(queues := c.queues[id := s.queue], w := s.w)
  }

  predicate IsRun(c: Core, es: seq<Event>)
    decreases |es|
  {
    es == [] || (Enabled(c, es[0]) && IsRun(Next(c, es[0]), es[1..]))
  }

  function End(c: Core, es: seq<Event>): (r: Core)
    requires IsRun(c, es)
    decreases |es|
  {
    if es == [] then c else End(Next(c, es[0]), es[1..])
  }

  /** The frames a run takes from the queue of one stream. */
  function PoppedFrom(c: Core, es: seq<Event>, id: nat): (r: seq<Frame>)
    requires IsRun(c, es)
    decreases |es|
  {
    if es == [] then [] else PoppedBy(c, es[0], id) + PoppedFrom(Next(c, es[0]), es[1..], id)
  }

  function PoppedBy(c: Core, e: Event, id: nat): (r: seq<Frame>)
    requires Enabled(c, e)
  {
    if e == PopStream(id) then [ServeStream(c, id).frame] else []
  }

  /** The frames a run puts into the queue of one stream. */
  function PushedTo(es: seq<Event>, id: nat): (r: seq<Frame>) {
    if es == [] then [] else PushedBy(es[0], id) + PushedTo(es[1..], id)
  }

  function PushedBy(e: Event, id: nat): (r: seq<Frame>) {
    if e.PushFrame? && !e.f.Control? && e.f.id == id then [e.f] else []
  }

  predicate StaysOpen(es: seq<Event>, id: nat) {
    CloseQueue(id) !in es
  }

  lemma {:induction false} FiledStep(c: Core, e: Event)
    requires Filed(c) && Enabled(c, e)
    ensures Filed(Next(c, e))
  {
    if e.PopStream? {
      ServeKeepsContent(c.queues[e.id], c.w, MAX_WINDOW);
      var q := c.queues[e.id];
      var s := ServeStream(c, e.id);
      forall f | f in s.queue
        ensures f.id == e.id && !f.Control?
      {
        if f in q[1..] {
          assert f in q;
        } else {
          assert q[0] in q;
        }
      }
    }
  }

  lemma {:induction false} StepKeepsContent(c: Core, e: Event, id: nat)
    requires Enabled(c, e) && id in c.queues && e != CloseQueue(id)
    ensures id in Next(c, e).queues
    ensures Content(c.queues[id]) + Content(PushedBy(e, id)) == Content(PoppedBy(c, e, id)) + Content(Next(c, e).queues[id])
  {
    hide Items, Content, Serve, Consumable;
    ContentOfNone();
    match e
    case PushFrame(f) =>
      ContentConcat(c.queues[id], [f]);
    case PopStream(j) =>
      if j == id {
        ServedIffConsumable(c.queues[id], c.w, MAX_WINDOW);
        ServeKeepsContent(c.queues[id], c.w, MAX_WINDOW);
        ContentOfOne(ServeStream(c, id).frame);
      }
    case _ =>
  }

  lemma {:induction false} ContentOfNone()
    ensures Content([]) == []
  {
  }

  lemma {:induction false} ContentOfOne(f: Frame)
    ensures Content([f]) == Items(f)
  {
    assert [f][1..] == [];
  }

  /** What was queued and pushed is what was popped and is still queued, in the same order. */
  lemma {:induction false} StreamKeepsContent(c: Core, es: seq<Event>, id: nat)
    requires IsRun(c, es) && id in c.queues && StaysOpen(es, id)
    ensures id in End(c, es).queues
    ensures Content(c.queues[id]) + Content(PushedTo(es, id)) == Content(PoppedFrom(c, es, id)) + Content(End(c, es).queues[id])
    decreases |es|
  {
    hide Items, Content, Next, Enabled, PushedBy, PoppedBy;
    ContentOfNone();
    if es != [] {
      var e, d := es[0], Next(c, es[0]);
      StepKeepsContent(c, e, id);
      StreamKeepsContent(d, es[1..], id);
      ContentConcat(PushedBy(e, id), PushedTo(es[1..], id));
      ContentConcat(PoppedBy(c, e, id), PoppedFrom(d, es[1..], id));
      Shuffle(Content(c.queues[id]), Content(PushedBy(e, id)), Content(PushedTo(es[1..], id)),
              Content(PoppedBy(c, e, id)), Content(d.queues[id]),
              Content(PoppedFrom(d, es[1..], id)), Content(End(d, es[1..]).queues[id]));
    }
  }

  lemma {:induction false} Shuffle(q: seq<Item>, a: seq<Item>, b: seq<Item>, x: seq<Item>, r: seq<Item>, y: seq<Item>, z: seq<Item>)
    requires q + a == x + r && r + b == y + z
    ensures q + (a + b) == (x + y) + z
  {
    assert q + (a + b) == (q + a) + b;
    assert (x + r) + b == x + (r + b);
    assert x + (y + z) == (x + y) + z;
  }

  /** No octet follows the end of the stream. */
  predicate EndsLast(s: seq<Item>) {
    forall i, j :: 0 <= i < j < |s| && s[i] == EndStream ==> !s[j].Octet?
  }

  /** So once END_STREAM was sent, every octet pushed was sent: it rides on the last of them. */
  lemma {:induction false} EndStreamAfterAllOctets(c: Core, es: seq<Event>, id: nat)
    requires IsRun(c, es) && id in c.queues && StaysOpen(es, id)
    requires EndsLast(Content(c.queues[id]) + Content(PushedTo(es, id)))
    requires EndStream in Content(PoppedFrom(c, es, id))
    ensures id in End(c, es).queues && forall x <- Content(End(c, es).queues[id]) :: !x.Octet?
  {
    hide Content, IsRun, End, PoppedFrom, PushedTo;
    StreamKeepsContent(c, es, id);
    var a, b := Content(PoppedFrom(c, es, id)), Content(End(c, es).queues[id]);
    var i :| 0 <= i < |a| && a[i] == EndStream;
    forall x | x in b
      ensures !x.Octet?
    {
      var j :| 0 <= j < |b| && b[j] == x;
      assert (a + b)[i] == EndStream && (a + b)[|a| + j] == x;
    }
  }

  //
  // Windows over runs
  //

  function Bytes(q: seq<Frame>): (n: nat) {
    if q == [] then 0 else DataSize(q[0]) + Bytes(q[1..])
  }

  /** What a run adds to the window of a stream. */
  function GrantedTo(es: seq<Event>, id: nat): (n: int) {
    if es == [] then 0 else (if es[0].Grant? && es[0].id == id then es[0].n else 0) + GrantedTo(es[1..], id)
  }

  function GrantedToConnection(es: seq<Event>): (n: int) {
    if es == [] then 0 else (if es[0].GrantConnection? then es[0].n else 0) + GrantedToConnection(es[1..])
  }

  /** The octets of DATA a run sends on all streams. */
  function BytesSent(c: Core, es: seq<Event>): (n: nat)
    requires IsRun(c, es)
    decreases |es|
  {
    if es == [] then 0
    else (if es[0].PopStream? then DataSize(ServeStream(c, es[0].id).frame) else 0) + BytesSent(Next(c, es[0]), es[1..])
  }

  predicate KeepsWindow(es: seq<Event>, id: nat) {
    forall e <- es :: e.NewWindow? ==> e.id != id
  }

  lemma {:induction false} PopCharges(c: Core, id: nat)
    requires Filed(c) && Ready(c, id)
    ensures var s := ServeStream(c, id); var k := DataSize(s.frame);
            && s.frame.id == id && s.w.conn == c.w.conn - k && s.w.streams.Keys == c.w.streams.Keys
            && (forall j <- c.w.streams :: s.w.streams[j] == c.w.streams[j] - if j == id then k else 0)
            && (k > 0 ==> k <= WindowOf(c.w, id) && k <= c.w.conn && k <= c.w.maxFrame)
  {
    var q := c.queues[id];
    assert q[0] in q;
    ServeKeepsContent(q, c.w, MAX_WINDOW);
    ServeCharges(q, c.w, MAX_WINDOW);
  }

  lemma {:induction false} StepWindows(c: Core, e: Event, id: nat)
    requires Filed(c) && Enabled(c, e) && id in c.w.streams && (e.NewWindow? ==> e.id != id)
    ensures var d := Next(c, e);
            && id in d.w.streams
            && d.w.streams[id] == c.w.streams[id] + (if e.Grant? && e.id == id then e.n else 0) - Bytes(PoppedBy(c, e, id))
            && d.w.conn == c.w.conn + (if e.GrantConnection? then e.n else 0)
                           - (if e.PopStream? then DataSize(ServeStream(c, e.id).frame) else 0)
  {
    hide Serve, Consumable, Filed;
    if e.PopStream? {
      PopCharges(c, e.id);
    }
  }

  /** Both windows pay for every octet sent, once, and for nothing else. */
  lemma {:induction false} WindowsPay(c: Core, es: seq<Event>, id: nat)
    requires Filed(c) && IsRun(c, es) && id in c.w.streams && KeepsWindow(es, id)
    ensures var d := End(c, es);
            && id in d.w.streams
            && d.w.streams[id] == c.w.streams[id] + GrantedTo(es, id) - Bytes(PoppedFrom(c, es, id))
            && d.w.conn == c.w.conn + GrantedToConnection(es) - BytesSent(c, es)
    decreases |es|
  {
    hide Next, Enabled, Filed, PoppedBy;
    if es != [] {
      FiledStep(c, es[0]);
      StepWindows(c, es[0], id);
      WindowsPay(Next(c, es[0]), es[1..], id);
      BytesConcat(PoppedBy(c, es[0], id), PoppedFrom(Next(c, es[0]), es[1..], id));
    }
  }

  lemma {:induction false} BytesConcat(a: seq<Frame>, b: seq<Frame>)
    ensures Bytes(a + b) == Bytes(a) + Bytes(b)
    decreases |a|
  {
    if a == [] {
      assert a + b == b;
    } else {
      assert (a + b)[1..] == a[1..] + b;
      BytesConcat(a[1..], b);
    }
  }
}
