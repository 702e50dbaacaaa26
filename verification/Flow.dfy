/**
 Flow-control windows: 32-bit arithmetic of the outbound window, the accumulating inbound
 window, and the range in which a send window stays over every run of DATA frames,
 WINDOW_UPDATE frames and changes of SETTINGS_INITIAL_WINDOW_SIZE.
 */
module Flow {
  const MAX_WINDOW: int := 0x7fff_ffff
  const INITIAL_WINDOW_SIZE := 65535
  const INFLOW_MIN_REFRESH := 4096

  type Int32 = x: int | -0x8000_0000 <= x <= MAX_WINDOW

  predicate Fits(x: int) {
    -0x8000_0000 <= x <= MAX_WINDOW
  }

  /** Two's complement: the 32-bit result of an addition or subtraction of 32-bit numbers. */
  function Wrap32(x: int): (r: Int32)
    requires -0x1_0000_0000 <= x < 0x1_0000_0000
  {
    if x > MAX_WINDOW then x - 0x1_0000_0000 else if x < -0x8000_0000 then x + 0x1_0000_0000 else x
  }

  //
  // Outbound windows
  //

  /** The test of outflow.add, on the wrapped sum. */
  predicate AddAccepts(f: Int32, n: Int32) {
    var sum := Wrap32(f + n);
    (sum > n) == (f > 0)
  }

  /** It accepts exactly the additions whose true sum is a 32-bit number. */
  lemma {:induction false} AddAcceptsWhatFits(f: Int32, n: Int32)
    ensures AddAccepts(f, n) <==> Fits(f + n)
    ensures AddAccepts(f, n) ==> Wrap32(f + n) == f + n
  {
    var sum := Wrap32(f + n);
  }

  class OutFlow {
    var n: Int32
    const conn: OutFlow?

    constructor (conn: OutFlow?)
      ensures n == 0 && this.conn == conn
    {
      this.n, this.conn := 0, conn;
    }

    function Available(): (a: Int32)
      reads this, conn
      ensures a <= n && (conn != null ==> a <= conn.n) && (a == n || (conn != null && a == conn.n))
    {
      if conn != null && conn.n < n then conn.n else n
    }

    /** Not ok is the panic of taking more than is available. */
    method Take(k: Int32) returns (ok: bool)
      requires conn != this
      modifies this`n, if conn == null then {} else {conn}`n
      ensures ok == (k <= old(Available()))
      ensures n == if ok then Wrap32(old(n) - k) else old(n)
      ensures conn != null ==> conn.n == if ok then Wrap32(old(conn.n) - k) else old(conn.n)
    {
      if k > Available() {
        return false;
      }
      n := Wrap32(n - k);
      if conn != null {
        conn.n := Wrap32(conn.n - k);
      }
      return true;
    }

    method Add(k: Int32) returns (ok: bool)
      modifies this`n
      ensures ok == Fits(old(n) + k)
      ensures n == if ok then old(n) + k else old(n)
    {
      AddAcceptsWhatFits(n, k);
      var sum := Wrap32(n + k);
      if (sum > k) == (n > 0) {
        n := sum;
        return true;
      }
      return false;
    }
  }

  //
  // Inbound windows
  //

  /** What the peer may send, and what was given back to it but not yet announced. */
  datatype Inbound = Inbound(avail: Int32, unsent: Int32)

  function Uint32(x: Int32): (r: nat) {
    if x < 0 then x + 0x1_0000_0000 else x
  }

  predicate CanAdd(f: Inbound, n: int) {
    0 <= n && f.unsent + n + f.avail <= MAX_WINDOW
  }

  /** The window after n more octets, and the increment to announce, 0 for none. */
  function Credited(f: Inbound, n: nat): (r: (Inbound, Int32))
    requires f.avail >= 0 && f.unsent >= 0 && CanAdd(f, n)
  {
    var unsent := f.unsent + n;
    if unsent < INFLOW_MIN_REFRESH && unsent < f.avail then (f.(unsent := unsent), 0)
    else (Inbound(f.avail + unsent, 0), unsent)
  }

  /** Nothing given back is lost, and the peer is told exactly what it may send more. */
  lemma {:induction false} CreditedConserves(f: Inbound, n: nat)
    requires f.avail >= 0 && f.unsent >= 0 && CanAdd(f, n)
    ensures var (g, sent) := Credited(f, n);
            && g.avail + g.unsent == f.avail + f.unsent + n && g.avail == f.avail + sent
            && 0 <= g.avail && 0 <= g.unsent < INFLOW_MIN_REFRESH
            && (g.avail == 0 ==> g.unsent == 0)
  {
  }

  class InFlow {
    var avail: Int32
    var unsent: Int32

    function Window(): (f: Inbound)
      reads this
    {
      Inbound(avail, unsent)
    }

    /** The window of init. */
    constructor (n: Int32)
      ensures Window() == Inbound(n, 0)
    {
      avail, unsent := n, 0;
    }

    /** Not ok is the panic on a negative update or a window above the maximum. */
    method Add(n: int) returns (ok: bool, connAdd: Int32)
      requires avail >= 0 && unsent >= 0
      modifies this
      ensures ok == CanAdd(old(Window()), n)
      ensures ok ==> (Window(), connAdd) == Credited(old(Window()), n)
      ensures !ok ==> Window() == old(Window())
    {
      ok, connAdd := false, 0;
      if n < 0 {
        return;
      }
      var sum := unsent + n;
      if sum + avail > MAX_WINDOW {
        return;
      }
      ok := true;
      unsent := sum;
      if unsent < INFLOW_MIN_REFRESH && unsent < avail {
        return;
      }
      avail := avail + unsent;
      unsent := 0;
      connAdd := sum;
    }

    method Take(n: nat) returns (ok: bool)
      requires avail >= 0
      modifies this`avail
      ensures ok == (n <= old(avail))
      ensures avail == if ok then old(avail) - n else old(avail)
    {
      if n > Uint32(avail) {
        return false;
      }
      avail := avail - n;
      return true;
    }
  }

  /** takeInflows: from both windows or from neither. */
  method TakeInflows(f: InFlow, g: InFlow, n: nat) returns (ok: bool)
    requires f != g && f.avail >= 0 && g.avail >= 0
    modifies f`avail, g`avail
    ensures ok == (n <= old(f.avail) && n <= old(g.avail))
    ensures f.avail == if ok then old(f.avail) - n else old(f.avail)
    ensures g.avail == if ok then old(g.avail) - n else old(g.avail)
  {
    if n > Uint32(f.avail) || n > Uint32(g.avail) {
      return false;
    }
    f.avail := f.avail - n;
    g.avail := g.avail - n;
    return true;
  }

  //
  // A send window over a run
  //

  /** One stream's send window beside the initial window size that is in force. */
  datatype SendWindow = SendWindow(n: int, initial: int)

  datatype WindowEvent =
    | Sent(bytes: nat)
    | Update(increment: nat)
    | NewInitial(value: nat)

  /** A peer that ignores a failed addition, as the client does, or gives up, as the server does. */
  datatype OnOverflow = Ignore | GiveUp

  predicate Possible(w: SendWindow, e: WindowEvent) {
    match e
    case Sent(k) => 0 < k <= w.n
    case Update(k) => 1 <= k <= MAX_WINDOW
    case NewInitial(v) => v <= MAX_WINDOW
  }

  predicate Bounded(w: SendWindow) {
    0 <= w.initial <= MAX_WINDOW && w.initial - MAX_WINDOW <= w.n <= MAX_WINDOW
  }

  /** The window after an addition that may fail. */
  function Plus(n: int, k: int): (r: int) {
    if Fits(n + k) then n + k else n
  }

  function Step(w: SendWindow, e: WindowEvent): (r: SendWindow) {
    match e
    case Sent(k) => w.(n := w.n - k)
    case Update(k) => w.(n := Plus(w.n, k))
    case NewInitial(v) => SendWindow(Plus(w.n, v - w.initial), v)
  }

  /** No addition failed so far that makes a peer give up. */
  ghost predicate Run(w: SendWindow, es: seq<WindowEvent>, policy: OnOverflow)
    decreases |es|
  {
    es == [] ||
    (Possible(w, es[0])
     && (policy == GiveUp && es[0].NewInitial? ==> Fits(w.n + es[0].value - w.initial))
     && Run(Step(w, es[0]), es[1..], policy))
  }

  ghost function After(w: SendWindow, es: seq<WindowEvent>): (r: SendWindow)
    decreases |es|
  {
    if es == [] then w else After(Step(w, es[0]), es[1..])
  }

  /** Every window of every run is in range, whichever way the peer treats overflows. */
  lemma {:induction false} WindowsStayBounded(w: SendWindow, es: seq<WindowEvent>, policy: OnOverflow)
    requires Bounded(w) && Run(w, es, policy)
    ensures Bounded(After(w, es))
    decreases |es|
  {
    if es != [] {
      WindowsStayBounded(Step(w, es[0]), es[1..], policy);
    }
  }

  /** So a smaller initial size is always applied in full, and no 32-bit difference overflows. */
  lemma {:induction false} ShrinkingNeverFails(w: SendWindow, es: seq<WindowEvent>, policy: OnOverflow, v: nat)
    requires Bounded(w) && Run(w, es, policy) && v <= After(w, es).initial
    ensures var x := After(w, es);
            && Fits(v - x.initial) && Step(x, NewInitial(v)) == SendWindow(x.n + v - x.initial, v)
            && Fits(x.n) && AddAccepts(x.n, v - x.initial)
  {
    WindowsStayBounded(w, es, policy);
    AddAcceptsWhatFits(After(w, es).n, v - After(w, es).initial);
  }

  //
  // All send windows of a connection
  //

  datatype Outcome = Done | StreamFlowError | ConnectionFlowError | ConnectionProtocolError

  class SendSide {
    const conn: OutFlow
    var initial: Int32
    var streams: map<nat, OutFlow>
    var maxClient: nat
    var maxPush: nat

    /** Above the highest identifier of its kind, so never opened. */
    predicate Idle(id: nat)
      reads this`maxClient, this`maxPush
    {
      id > if id % 2 == 1 then maxClient else maxPush
    }

    ghost predicate Valid()
      reads this, conn, streams.Values
    {
      && conn.conn == null && conn.n >= 0 && 0 <= initial
      && (forall id <- streams :: !Idle(id))
      && (forall id <- streams :: streams[id].conn == conn && streams[id] != conn && Bounded(SendWindow(streams[id].n, initial)))
      && (forall i <- streams, j <- streams :: i != j ==> streams[i] != streams[j])
    }

    /** Stream id's window, as a value. */
    ghost function Win(id: nat): (w: SendWindow)
      requires id in streams
      reads this, streams[id]
    {
      SendWindow(streams[id].n, initial)
    }

    constructor ()
      ensures Valid() && streams == map[] && initial == INITIAL_WINDOW_SIZE && conn.n == INITIAL_WINDOW_SIZE && fresh(conn)
      ensures forall id: nat :: id > 0 ==> Idle(id)
    {
      var c := new OutFlow(null);
      var ok := c.Add(INITIAL_WINDOW_SIZE);
      conn, initial, streams := c, INITIAL_WINDOW_SIZE, map[];
      maxClient, maxPush := 0, 0;
    }

    /** The window of a new stream. */
    method OpenStream(id: nat)
      requires Valid() && Idle(id)
      modifies this`streams, this`maxClient, this`maxPush
      ensures Valid() && streams.Keys == old(streams.Keys) + {id} && fresh(streams[id])
      ensures forall j <- old(streams) :: streams[j] == old(streams[j])
      ensures Win(id) == SendWindow(initial, initial)
      ensures forall j: nat :: Idle(j) <==> old(Idle(j)) && !(j % 2 == id % 2 && j <= id)
    {
      var f := new OutFlow(conn);
      var ok := f.Add(initial);
      streams := streams[id := f];
      if id % 2 == 1 {
        maxClient := id;
      } else {
        maxPush := id;
      }
    }

    /** A closed stream is forgotten, and never idle again. */
    method CloseStream(id: nat)
      requires Valid() && id in streams
      modifies this`streams
      ensures Valid() && streams == old(streams) - {id}
      ensures forall j: nat :: Idle(j) <==> old(Idle(j))
    {
      streams := streams - {id};
    }

    method Take(id: nat, k: Int32) returns (ok: bool)
      requires Valid() && id in streams && 0 <= k
      modifies {streams[id]}`n, conn`n
      ensures Valid() && ok == (k <= old(streams[id].n) && k <= old(conn.n))
      ensures ok ==> (k > 0 ==> Possible(old(Win(id)), Sent(k))) && Win(id) == Step(old(Win(id)), Sent(k)) && conn.n == old(conn.n) - k
      ensures !ok ==> Win(id) == old(Win(id)) && conn.n == old(conn.n)
    {
      ok := streams[id].Take(k);
    }

    /**
     One turn of awaitFlowControl: it waits exactly while a window is exhausted. Otherwise it takes
     the most that both windows, the request and the frame size allow, and never panics.
     */
    method AwaitFlowControl(id: nat, maxBytes: nat, maxFrame: Int32) returns (waits: bool, taken: Int32)
      requires Valid() && id in streams && 0 < maxBytes && 0 < maxFrame
      modifies {streams[id]}`n, conn`n
      ensures Valid() && (waits <==> old(streams[id].n) <= 0 || old(conn.n) <= 0)
      ensures waits ==> taken == 0 && Win(id) == old(Win(id)) && conn.n == old(conn.n)
      ensures !waits ==> 0 < taken <= old(streams[id].n) && taken <= old(conn.n) && taken <= maxBytes && taken <= maxFrame
      ensures !waits ==> taken == old(streams[id].n) || taken == old(conn.n) || taken == maxBytes || taken == maxFrame
      ensures !waits ==> Win(id) == Step(old(Win(id)), Sent(taken)) && conn.n == old(conn.n) - taken
    {
      taken := streams[id].Available();
      if taken <= 0 {
        return true, 0;
      }
      if taken > maxBytes {
        taken := maxBytes;
      }
      if taken > maxFrame {
        taken := maxFrame;
      }
      var ok := Take(id, taken);
      assert ok;
      return false, taken;
    }

    /** processWindowUpdate; an error exactly on overflow or on an idle stream, and then nothing changes. */
    method WindowUpdate(id: nat, increment: Int32) returns (r: Outcome)
      requires Valid() && 1 <= increment
      modifies conn`n, streams.Values`n
      ensures Valid()
      ensures r == ConnectionProtocolError <==> id != 0 && Idle(id)
      ensures r == ConnectionFlowError <==> id == 0 && old(conn.n) + increment > MAX_WINDOW
      ensures r == StreamFlowError <==> id != 0 && id in streams && old(streams[id].n) + increment > MAX_WINDOW
      ensures conn.n == if id == 0 then Plus(old(conn.n), increment) else old(conn.n)
      ensures forall j <- streams :: Win(j) == if id != 0 && j == id then Step(old(Win(j)), Update(increment)) else old(Win(j))
    {
      var ok;
      if id != 0 {
        if Idle(id) {
          return ConnectionProtocolError;
        }
        if id !in streams {
          return Done;
        }
        ok := streams[id].Add(increment);
        return if ok then Done else StreamFlowError;
      }
      ok := conn.Add(increment);
      return if ok then Done else ConnectionFlowError;
    }

    /** processSettingInitialWindowSize: the server gives up at the first window that overflows. */
    method ServerInitialWindow(val: Int32) returns (r: Outcome)
      requires Valid() && 0 <= val
      modifies this`initial, streams.Values`n
      ensures r == Done <==> forall id <- streams :: Fits(old(streams[id].n) + val - old(initial))
      ensures r == Done ==> Valid() && forall id <- streams :: Win(id) == Step(old(Win(id)), NewInitial(val))
      ensures val <= old(initial) ==> r == Done
      ensures r == Done || r == ConnectionFlowError
    {
      hide Idle;
      var before := initial;
      initial := val;
      var growth: Int32 := val - before;
      var rest := streams.Keys;
      while rest != {}
        invariant rest <= streams.Keys && conn.n == old(conn.n) && initial == val
        invariant forall id <- streams :: streams[id].n == if id in rest then old(streams[id].n) else old(streams[id].n) + growth
        decreases |rest|
      {
        var id :| id in rest;
        var ok := streams[id].Add(growth);
        if !ok {
          return ConnectionFlowError;
        }
        rest := rest - {id};
      }
      return Done;
    }

    /** The same setting at the client, which ignores an addition that fails. */
    method ClientInitialWindow(val: nat) returns (r: Outcome)
      requires Valid()
      modifies this`initial, streams.Values`n
      ensures Valid()
      ensures r == if val > MAX_WINDOW then ConnectionFlowError else Done
      ensures r == Done ==> forall id <- streams :: Win(id) == Step(old(Win(id)), NewInitial(val))
      ensures r != Done ==> forall id <- streams :: Win(id) == old(Win(id))
    {
      hide Idle;
      if val > MAX_WINDOW {
        return ConnectionFlowError;
      }
      var delta: Int32 := val - initial;
      var rest := streams.Keys;
      while rest != {}
        invariant rest <= streams.Keys && conn.n == old(conn.n)
        invariant forall id <- streams :: streams[id].n == if id in rest then old(streams[id].n) else Plus(old(streams[id].n), delta)
        decreases |rest|
      {
        var id :| id in rest;
        var ok := streams[id].Add(delta);
        rest := rest - {id};
      }
      initial := val;
      return Done;
    }
  }
}
