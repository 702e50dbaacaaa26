/**
 What the serve loop of a server connection keeps: how the states of streams may change, what
 every stream satisfies, and the sums that flow-control credit is accounted with.
 */
module ServerModel {
  import opened Wrappers
  import opened Flow

  datatype StreamState = Idle | Open | HalfClosedLocal | HalfClosedRemote | Closed

  //
  // Request bodies
  //

  /** How many octets a request body's pipe holds; see pipe.go for the fields. */
  datatype Body = Body(buffered: nat, unread: nat, hasBuffer: bool, closed: bool, broken: bool)

  const NEW_BODY := Body(0, 0, true, false, false)

  /** Len of the pipe: after the handler closed the body, what it left unread. */
  function Len(b: Body): (n: nat) {
    if b.hasBuffer then b.buffered else b.unread
  }

  function BodyLen(b: Option<Body>): (n: nat) {
    if b.Some? then Len(b.value) else 0
  }

  predicate BodyOk(b: Option<Body>) {
    b.Some? && b.value.hasBuffer ==> b.value.unread == 0
  }

  predicate Writable(b: Body) {
    !b.closed && !b.broken && b.hasBuffer
  }

  predicate Readable(b: Body, n: nat) {
    !b.broken && b.hasBuffer && n <= b.buffered
  }

  /** Closed, and all of it read. */
  predicate Drained(b: Body) {
    !b.broken && b.closed && b.hasBuffer && b.buffered == 0
  }

  /** BreakWithError */
  function Broken(b: Body): (r: Body)
    ensures (b.hasBuffer ==> b.unread == 0) ==> Len(r) == Len(b)
  {
    if b.broken then b
    else b.(unread := if b.hasBuffer then b.unread + b.buffered else b.unread, hasBuffer := false, broken := true)
  }

  //
  // Streams
  //

  datatype Stream = Stream(
    state: StreamState, inflow: Inbound, body: Option<Body>, bodyBytes: nat, declBodyBytes: int,
    resetQueued: bool, gotTrailer: bool)

  /** The states of all streams: those in the map, and the largest identifiers used so far. */
  datatype Lives = Lives(states: map<nat, StreamState>, maxClient: nat, maxPush: nat)

  function StateIn(l: Lives, id: nat): (s: StreamState) {
    if id in l.states then l.states[id]
    else if id % 2 == 1 then (if id <= l.maxClient then Closed else Idle)
    else (if id <= l.maxPush then Closed else Idle)
  }

  /** Section 5.1 of RFC 7540, with half-closed streams going to closed only. */
  predicate Follows(s: StreamState, t: StreamState) {
    match s
    case Idle => true
    case Open => t != Idle
    case HalfClosedLocal => t == HalfClosedLocal || t == Closed
    case HalfClosedRemote => t == HalfClosedRemote || t == Closed
    case Closed => t == Closed
  }

  /** Every stream is where it was or further on its way. */
  ghost predicate Ahead(l: Lives, m: Lives) {
    forall id :: Follows(StateIn(l, id), StateIn(m, id))
  }

  lemma {:induction false} AheadTransitive(l: Lives, m: Lives, n: Lives)
    requires Ahead(l, m) && Ahead(m, n)
    ensures Ahead(l, n)
  {
    forall id
      ensures Follows(StateIn(l, id), StateIn(n, id))
    {
      assert Follows(StateIn(l, id), StateIn(m, id)) && Follows(StateIn(m, id), StateIn(n, id));
    }
  }

  /** Over any run whose steps each go ahead, a closed stream stays closed and no stream becomes idle again. */
  lemma {:induction false} ClosedStaysClosed(run: seq<Lives>, i: nat, j: nat, id: nat)
    requires forall k :: 0 <= k < |run| - 1 ==> Ahead(run[k], run[k + 1])
    requires i <= j < |run|
    ensures Ahead(run[i], run[j])
    ensures StateIn(run[i], id) == Closed ==> StateIn(run[j], id) == Closed
    ensures StateIn(run[i], id) != Idle ==> StateIn(run[j], id) != Idle
    decreases j - i
  {
    hide StateIn;
    if i < j {
      ClosedStaysClosed(run, i, j - 1, id);
      assert Ahead(run[j - 1], run[j - 1 + 1]);
      AheadTransitive(run[i], run[j - 1], run[j]);
    }
    assert Follows(StateIn(run[i], id), StateIn(run[i], id));
    assert Ahead(run[i], run[j]) ==> Follows(StateIn(run[i], id), StateIn(run[j], id));
  }

  //
  // Sums
  //

  ghost function Sum(m: map<nat, nat>): (n: nat)
    decreases |m|
  {
    if m == map[] then 0
    else
      var k :| k in m;
      Fewer(m, k);
      m[k] + Sum(m - {k})
  }

  lemma {:induction false} Fewer(m: map<nat, nat>, k: nat)
    requires k in m
    ensures |m - {k}| < |m|
  {
    assert (m - {k}).Keys == m.Keys - {k};
    assert |m.Keys - {k}| == |m.Keys| - 1;
  }

  lemma {:induction false} SumWithout(m: map<nat, nat>, k: nat)
    requires k in m
    ensures Sum(m) == m[k] + Sum(m - {k})
    decreases |m|
  {
    var j :| j in m && Sum(m) == m[j] + Sum(m - {j});
    if j != k {
      Fewer(m, j);
      Fewer(m, k);
      SumWithout(m - {j}, k);
      SumWithout(m - {k}, j);
      assert m - {j} - {k} == m - {k} - {j};
    }
  }

  lemma {:induction false} SumWith(m: map<nat, nat>, k: nat, v: nat)
    ensures Sum(m[k := v]) == Sum(m - {k}) + v
    ensures k in m ==> Sum(m[k := v]) == Sum(m) - m[k] + v
    ensures k !in m ==> Sum(m[k := v]) == Sum(m) + v
  {
    SumWithout(m[k := v], k);
    assert m[k := v] - {k} == m - {k};
    if k in m {
      SumWithout(m, k);
    } else {
      assert m - {k} == m;
    }
  }

  /** A read of n octets that the serve loop was not told of yet. */
  datatype Note = Note(id: nat, n: nat)

  function NoteSum(notes: seq<Note>): (n: nat) {
    if notes == [] then 0 else notes[0].n + NoteSum(notes[1..])
  }

  /** The part of it that belongs to one stream. */
  function NotesOf(notes: seq<Note>, id: nat): (n: nat) {
    if notes == [] then 0 else (if notes[0].id == id then notes[0].n else 0) + NotesOf(notes[1..], id)
  }

  lemma {:induction false} NoteTaken(notes: seq<Note>, i: nat, id: nat)
    requires i < |notes|
    ensures NoteSum(notes) == notes[i].n + NoteSum(notes[..i] + notes[i + 1..])
    ensures NotesOf(notes, id) == (if notes[i].id == id then notes[i].n else 0) + NotesOf(notes[..i] + notes[i + 1..], id)
    decreases i
  {
    var rest := notes[..i] + notes[i + 1..];
    if i == 0 {
      assert rest == notes[1..];
    } else {
      NoteTaken(notes[1..], i - 1, id);
      assert rest[1..] == notes[1..][..i - 1] + notes[1..][i..];
      assert rest[0] == notes[0] && notes[1..][i - 1] == notes[i];
    }
  }

  lemma {:induction false} NoteAdded(notes: seq<Note>, x: Note, id: nat)
    ensures NoteSum(notes + [x]) == NoteSum(notes) + x.n
    ensures NotesOf(notes + [x], id) == NotesOf(notes, id) + if x.id == id then x.n else 0
  {
    NoteTaken(notes + [x], |notes|, id);
    assert (notes + [x])[..|notes|] + (notes + [x])[|notes| + 1..] == notes;
  }

  lemma {:induction false} NoNotes(notes: seq<Note>, id: nat)
    requires forall x <- notes :: x.id != id
    ensures NotesOf(notes, id) == 0
  {
    if notes != [] {
      NoNotes(notes[1..], id);
    }
  }
}
