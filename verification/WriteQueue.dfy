/**
 Frames waiting to be written, and the queue that holds those of one stream. DATA frames are
 cut to what flow control and the maximum frame size allow. The queue is kept in two stages;
 its contents are one sequence.
 */
module WriteQueues {
  import opened Bytes
  import opened Flow

  /** done names the writer that waits for the frame, 0 for none. */
  datatype Frame =
    | Data(id: nat, p: seq<byte>, endStream: bool, done: nat)
    | OnStream(id: nat, what: nat, done: nat)
    | Control(id: nat, what: nat)

  function DataSize(f: Frame): (n: nat) {
    if f.Data? then |f.p| else 0
  }

  /** The windows of a connection as values. */
  datatype Windows = Windows(conn: int, streams: map<nat, int>, maxFrame: int)

  function Min(a: int, b: int): (m: int) {
    if a < b then a else b
  }

  function WindowOf(w: Windows, id: nat): (n: int) {
    if id in w.streams then w.streams[id] else 0
  }

  /** How much of a DATA frame may go out now. */
  function Allowed(w: Windows, id: nat, n: int): (k: int) {
    Min(Min(Min(WindowOf(w, id), w.conn), n), w.maxFrame)
  }

  function Taken(w: Windows, id: nat, k: nat): (r: Windows) {
    if id in w.streams then w.(conn := w.conn - k, streams := w.streams[id := w.streams[id] - k]) else w
  }

  /** What Consume gives: nothing, the whole frame, or a frame cut in two. */
  datatype Consumed = Blocked | Whole | Cut(first: Frame, rest: Frame)

  function Consume(f: Frame, w: Windows, n: int): (r: Consumed) {
    if DataSize(f) == 0 then Whole
    else
      var k := Allowed(w, f.id, n);
      if k <= 0 then Blocked
      else if |f.p| > k then Cut(Data(f.id, f.p[..k], false, 0), f.(p := f.p[k..]))
      else Whole
  }

  /** The frame that leaves a queue, what stays in it, and the windows after. */
  datatype Served = Nothing | Served(frame: Frame, queue: seq<Frame>, w: Windows)

  function Serve(q: seq<Frame>, w: Windows, n: int): (r: Served) {
    if q == [] then Nothing
    else match Consume(q[0], w, n)
      case Blocked => Nothing
      case Whole => Served(q[0], q[1..], Taken(w, q[0].id, DataSize(q[0])))
      case Cut(first, rest) => Served(first, [rest] + q[1..], Taken(w, q[0].id, DataSize(first)))
  }

  //
  // What a stream carries
  //

  datatype Item = Octet(b: byte) | EndStream | Reply(done: nat) | Other(what: nat)

  function Octets(p: seq<byte>): (r: seq<Item>) {
    seq(|p|, i requires 0 <= i < |p| => Octet(p[i]))
  }

  function ReplyTo(done: nat): (r: seq<Item>) {
    if done == 0 then [] else [Reply(done)]
  }

  /** A frame as the octets, the end of the stream and the reply to its writer, in that order. */
  function Items(f: Frame): (r: seq<Item>) {
    match f
    case Data(_, p, end, done) => Octets(p) + (if end then [EndStream] else []) + ReplyTo(done)
    case OnStream(_, what, done) => [Other(what)] + ReplyTo(done)
    case Control(_, what) => [Other(what)]
  }

  function Content(q: seq<Frame>): (r: seq<Item>) {
    if q == [] then [] else Items(q[0]) + Content(q[1..])
  }

  lemma {:induction false} ContentConcat(a: seq<Frame>, b: seq<Frame>)
    ensures Content(a + b) == Content(a) + Content(b)
    decreases |a|
  {
    hide Items;
    if a == [] {
      assert a + b == b;
    } else {
      assert (a + b)[1..] == a[1..] + b;
      ContentConcat(a[1..], b);
    }
  }

  lemma {:induction false} CutKeepsItems(f: Frame, w: Windows, n: int)
    requires Consume(f, w, n).Cut?
    ensures Items(Consume(f, w, n).first) + Items(Consume(f, w, n).rest) == Items(f)
  {
    var k := Allowed(w, f.id, n);
    assert Octets(f.p) == Octets(f.p[..k]) + Octets(f.p[k..]);
  }

  /** Serving a queue moves a prefix of what it carries, whole or cut. */
  lemma {:induction false} ServeKeepsContent(q: seq<Frame>, w: Windows, n: int)
    requires Serve(q, w, n).Served?
    ensures var s := Serve(q, w, n);
            && Items(s.frame) + Content(s.queue) == Content(q)
            && s.frame.id == q[0].id
  {
    hide Items;
    if Consume(q[0], w, n).Cut? {
      CutKeepsItems(q[0], w, n);
      var s := Serve(q, w, n);
      assert s.queue[1..] == q[1..];
    }
  }

  /** A chunk of DATA is within every limit and is charged to both windows; other frames are free. */
  lemma {:induction false} ServeCharges(q: seq<Frame>, w: Windows, n: int)
    requires Serve(q, w, n).Served?
    ensures var s := Serve(q, w, n); var k := DataSize(s.frame);
            && (k > 0 ==> k <= WindowOf(w, s.frame.id) && k <= w.conn && k <= n && k <= w.maxFrame)
            && s.w == Taken(w, s.frame.id, k)
            && (k > 0 ==> s.w.conn == w.conn - k && WindowOf(s.w, s.frame.id) == WindowOf(w, s.frame.id) - k)
            && (k == 0 ==> s.w == w)
  {
    if q[0].id in w.streams {
      assert w.streams[q[0].id := w.streams[q[0].id] - 0] == w.streams;
    }
  }

  /** A queue is served exactly when its first frame carries no octets or some are allowed. */
  predicate Consumable(q: seq<Frame>, w: Windows, n: int) {
    q != [] && (DataSize(q[0]) == 0 || Allowed(w, q[0].id, n) > 0)
  }

  lemma {:induction false} ServedIffConsumable(q: seq<Frame>, w: Windows, n: int)
    ensures Serve(q, w, n).Served? <==> Consumable(q, w, n)
  {
  }

  //
  // The objects
  //

  /** The windows of the send side of a connection. */
  ghost function WindowsOf(side: SendSide, maxFrame: int): (w: Windows)
    reads side, side.conn, side.streams.Values
  {
    Windows(side.conn.n, map id | id in side.streams :: side.streams[id].n, maxFrame)
  }

  lemma {:induction false} TakenZero(w: Windows, id: nat)
    ensures Taken(w, id, 0) == w
  {
  }

  method TakeWindows(side: SendSide, id: nat, k: Int32, ghost maxFrame: int)
    requires side.Valid() && id in side.streams && 0 < k <= side.streams[id].n && k <= side.conn.n
    modifies side.conn`n, {side.streams[id]}`n
    ensures side.Valid() && WindowsOf(side, maxFrame) == Taken(old(WindowsOf(side, maxFrame)), id, k)
  {
    ghost var w := WindowsOf(side, maxFrame);
    var ok := side.Take(id, k);
    assert WindowsOf(side, maxFrame).streams == Taken(w, id, k).streams;
  }

  /** FrameWriteRequest.Consume; num is the number of frames it returns. */
  method ConsumeFrame(wr: Frame, n: Int32, side: SendSide, maxFrame: Int32) returns (consumed: Frame, rest: Frame, num: nat)
    requires side.Valid()
    modifies side.conn`n, side.streams.Values`n
    ensures side.Valid()
    ensures var r := Consume(wr, old(WindowsOf(side, maxFrame)), n);
            && num == (match r case Blocked => 0 case Whole => 1 case Cut(_, _) => 2)
            && (r.Whole? ==> consumed == wr) && (r.Cut? ==> consumed == r.first && rest == r.rest)
    ensures WindowsOf(side, maxFrame) ==
            if num == 0 then old(WindowsOf(side, maxFrame)) else Taken(old(WindowsOf(side, maxFrame)), wr.id, DataSize(consumed))
  {
    consumed, rest, num := wr, wr, 1;
    if !wr.Data? || |wr.p| == 0 {
      TakenZero(WindowsOf(side, maxFrame), wr.id);
      return;
    }
    var allowed: int := 0;
    if wr.id in side.streams {
      allowed := side.streams[wr.id].Available();
    }
    if n < allowed {
      allowed := n;
    }
    if maxFrame < allowed {
      allowed := maxFrame;
    }
    if allowed <= 0 {
      num := 0;
      return;
    }
    if |wr.p| > allowed {
      TakeWindows(side, wr.id, allowed, maxFrame);
      consumed, rest, num := Data(wr.id, wr.p[..allowed], false, 0), wr.(p := wr.p[allowed..]), 2;
      return;
    }
    TakeWindows(side, wr.id, |wr.p|, maxFrame);
  }

  /** A queue in two stages: frames leave currQueue and enter nextQueue. */
  class WriteQueue {
    var currQueue: seq<Frame>
    var nextQueue: seq<Frame>
    var currPos: nat
    var prev: WriteQueue?
    var next: WriteQueue?

    ghost predicate Valid()
      reads this`currPos, this`currQueue
    {
      currPos <= |currQueue|
    }

    ghost function Contents(): (s: seq<Frame>)
      requires Valid()
      reads this`currQueue, this`nextQueue, this`currPos
    {
      currQueue[currPos..] + nextQueue
    }

    constructor ()
      ensures Valid() && Contents() == []
    {
      currQueue, nextQueue, currPos, prev, next := [], [], 0, null, null;
    }

    predicate Empty()
      requires Valid()
      reads this`currQueue, this`nextQueue, this`currPos
      ensures Empty() <==> Contents() == []
    {
      |currQueue| - currPos + |nextQueue| == 0
    }

    method Push(wr: Frame)
      requires Valid()
      modifies this`nextQueue
      ensures Valid() && Contents() == old(Contents()) + [wr]
    {
      nextQueue := nextQueue + [wr];
    }

    /** Not ok is the panic on an empty queue. The first stage forgets the frame it gave away. */
    method Shift() returns (ok: bool, wr: Frame)
      requires Valid()
      modifies this`currQueue, this`nextQueue, this`currPos
      ensures Valid() && ok == (old(Contents()) != [])
      ensures ok ==> wr == old(Contents())[0] && Contents() == old(Contents())[1..]
      ensures !ok ==> Contents() == old(Contents())
    {
      wr := Control(0, 0);
      if Empty() {
        return false, wr;
      }
      if currPos >= |currQueue| {
        currQueue, currPos, nextQueue := nextQueue, 0, [];
      }
      wr := currQueue[currPos];
      currQueue := currQueue[currPos := Control(0, 0)];
      currPos := currPos + 1;
      ok := true;
    }

    /** What the pool does to a queue that is no longer used. */
    method Clear()
      modifies this`currQueue, this`nextQueue, this`currPos
      ensures Valid() && Contents() == []
    {
      currQueue, nextQueue, currPos := [], [], 0;
    }

    /** consume */
    method ConsumeFirst(n: Int32, side: SendSide, maxFrame: Int32) returns (wr: Frame, ok: bool)
      requires Valid() && side.Valid()
      modifies this`currQueue, this`nextQueue, this`currPos, side.conn`n, side.streams.Values`n
      ensures Valid() && side.Valid()
      ensures ok == Serve(old(Contents()), old(WindowsOf(side, maxFrame)), n).Served?
      ensures !ok ==> Contents() == old(Contents()) && WindowsOf(side, maxFrame) == old(WindowsOf(side, maxFrame))
      ensures ok ==> Served(wr, Contents(), WindowsOf(side, maxFrame)) == Serve(old(Contents()), old(WindowsOf(side, maxFrame)), n)
    {
      hide WindowsOf, Taken, SendSide.Valid, Consume;
      wr := Control(0, 0);
      if Empty() {
        return wr, false;
      }
      var first := if currPos < |currQueue| then currQueue[currPos] else nextQueue[0];
      var consumed, rest, num := ConsumeFrame(first, n, side, maxFrame);
      if num == 0 {
        return wr, false;
      }
      if num == 1 {
        var _, _ := Shift();
      } else {
        if currPos < |currQueue| {
          currQueue := currQueue[currPos := rest];
        } else {
          nextQueue := nextQueue[0 := rest];
        }
        assert Contents() == [rest] + old(Contents())[1..];
      }
      return consumed, true;
    }
  }
}
