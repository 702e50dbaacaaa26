/**
 The chunked buffer of a request body and the pipe over it. Both are a plain queue of octets:
 what is read is what was written, in order.
 */
module DataBuffers {
  import opened Bytes

  const MIN_CHUNK := 1024
  const MAX_CHUNK := 16384

  /** The size class of getDataBufferChunk. */
  function ChunkSize(want: int): (n: nat)
    ensures MIN_CHUNK <= n <= MAX_CHUNK && (want <= MAX_CHUNK ==> want <= n)
  {
    if want <= 1024 then 1024 else if want <= 2048 then 2048 else if want <= 4096 then 4096
    else if want <= 8192 then 8192 else 16384
  }

  type Chunks = seq<seq<byte>>

  /** Reading starts at r in the first chunk and ends at w in the last. */
  ghost predicate Shape(chunks: Chunks, r: nat, w: nat) {
    && (forall c <- chunks :: 1 <= |c| <= MAX_CHUNK)
    && (if chunks == [] then r == 0
        else r < |chunks[0]| && w <= |chunks[|chunks| - 1]| && (|chunks| == 1 ==> r <= w))
  }

  /** The octets between the two. */
  ghost function Unread(chunks: Chunks, r: nat, w: nat): (s: seq<byte>)
    requires Shape(chunks, r, w)
  {
    if chunks == [] then []
    else if |chunks| == 1 then chunks[0][r..w]
    else
      RestShape(chunks, r, w);
      chunks[0][r..] + Unread(chunks[1..], 0, w)
  }

  lemma {:induction false} RestShape(chunks: Chunks, r: nat, w: nat)
    requires Shape(chunks, r, w) && |chunks| > 1
    ensures Shape(chunks[1..], 0, w)
  {
    assert chunks[1] in chunks;
  }

  ghost function Space(chunks: Chunks): (n: nat) {
    if chunks == [] then 0 else |chunks[0]| + Space(chunks[1..])
  }

  /** At most two chunks are not full of unread octets. */
  lemma {:induction false} SpaceBound(chunks: Chunks, r: nat, w: nat)
    requires Shape(chunks, r, w) && chunks != []
    ensures Space(chunks) == |Unread(chunks, r, w)| + r + |chunks[|chunks| - 1]| - w
    decreases |chunks|
  {
    if |chunks| > 1 {
      RestShape(chunks, r, w);
      SpaceBound(chunks[1..], 0, w);
    } else {
      assert chunks[1..] == [];
    }
  }

  /** p put into the last chunk from w on. */
  function Filled(c: seq<byte>, w: nat, p: seq<byte>): (d: seq<byte>)
    requires w + |p| <= |c|
  {
    c[..w] + p + c[w + |p|..]
  }

  lemma {:induction false} FilledShape(chunks: Chunks, r: nat, w: nat, p: seq<byte>)
    requires Shape(chunks, r, w) && chunks != [] && w + |p| <= |chunks[|chunks| - 1]|
    ensures Shape(chunks[|chunks| - 1 := Filled(chunks[|chunks| - 1], w, p)], r, w + |p|)
  {
    var e := |chunks| - 1;
    var d := chunks[e := Filled(chunks[e], w, p)];
    assert chunks[e] in chunks;
    forall c | c in d
      ensures 1 <= |c| <= MAX_CHUNK
    {
      var i :| 0 <= i < |d| && d[i] == c;
      if i != e {
        assert chunks[i] in chunks;
      }
    }
  }

  /** Writing into the last chunk appends. */
  lemma {:induction false} FilledAppends(chunks: Chunks, r: nat, w: nat, p: seq<byte>)
    requires Shape(chunks, r, w) && chunks != [] && w + |p| <= |chunks[|chunks| - 1]|
    ensures var d := chunks[|chunks| - 1 := Filled(chunks[|chunks| - 1], w, p)];
            Shape(d, r, w + |p|) && Unread(d, r, w + |p|) == Unread(chunks, r, w) + p
    decreases |chunks|
  {
    hide Shape;
    FilledShape(chunks, r, w, p);
    var e := |chunks| - 1;
    var d := chunks[e := Filled(chunks[e], w, p)];
    if |chunks| > 1 {
      RestShape(chunks, r, w);
      RestShape(d, r, w + |p|);
      assert d[1..] == chunks[1..][e - 1 := Filled(chunks[e], w, p)];
      FilledAppends(chunks[1..], 0, w, p);
      assert d[0] == chunks[0];
    } else {
      OneChunk(chunks, r, w);
      FilledOnly(chunks[0], r, w, p);
    }
  }

  lemma {:induction false} OneChunk(chunks: Chunks, r: nat, w: nat)
    requires Shape(chunks, r, w) && |chunks| == 1
    ensures r <= w <= |chunks[0]|
  {
  }

  lemma {:induction false} FilledOnly(c: seq<byte>, r: nat, w: nat, p: seq<byte>)
    requires w + |p| <= |c| && r <= w
    ensures Filled(c, w, p)[r..w + |p|] == c[r..w] + p
  {
  }

  /** A new chunk after a full one adds nothing to read. */
  lemma {:induction false} AllocKeeps(chunks: Chunks, r: nat, w: nat, c: seq<byte>)
    requires Shape(chunks, r, w) && 1 <= |c| <= MAX_CHUNK && (chunks != [] ==> w == |chunks[|chunks| - 1]|)
    ensures Shape(chunks + [c], r, 0) && Unread(chunks + [c], r, 0) == Unread(chunks, r, w)
    decreases |chunks|
  {
    var d := chunks + [c];
    forall x | x in d
      ensures 1 <= |x| <= MAX_CHUNK
    {
    }
    if chunks != [] {
      RestShape(d, r, 0);
      assert d[1..] == chunks[1..] + [c];
      if |chunks| > 1 {
        RestShape(chunks, r, w);
        AllocKeeps(chunks[1..], 0, w, c);
      } else {
        assert d[1..] == [c];
      }
    }
  }

  /** What can be taken from the first chunk is a prefix. */
  lemma {:induction false} FirstChunk(chunks: Chunks, r: nat, w: nat, n: nat)
    requires Shape(chunks, r, w) && chunks != []
    requires r + n <= if |chunks| == 1 then w else |chunks[0]|
    ensures var more := r + n == |chunks[0]|; var rest := if more then chunks[1..] else chunks;
            && Shape(rest, if more then 0 else r + n, w)
            && |Unread(chunks, r, w)| >= n
            && chunks[0][r..r + n] == Unread(chunks, r, w)[..n]
            && Unread(rest, if more then 0 else r + n, w) == Unread(chunks, r, w)[n..]
  {
    assert chunks[0] in chunks;
    var c := chunks[0];
    if |chunks| > 1 {
      RestShape(chunks, r, w);
      TakeDrop(c[r..], Unread(chunks[1..], 0, w), n);
      Slices(c, r, |c|, n);
    } else {
      Slices(c, r, w, n);
    }
  }

  lemma {:induction false} TakeDrop(a: seq<byte>, b: seq<byte>, n: nat)
    requires n <= |a|
    ensures (a + b)[..n] == a[..n] && (a + b)[n..] == a[n..] + b
  {
  }

  lemma {:induction false} Slices(c: seq<byte>, r: nat, w: nat, n: nat)
    requires r + n <= w <= |c|
    ensures c[r..w][..n] == c[r..r + n] && c[r..w][n..] == c[r + n..w]
    ensures c[r..|c|] == c[r..] && c[r + n..|c|] == c[r + n..]
  {
  }

  class DataBuffer {
    var chunks: Chunks
    var r: nat
    var w: nat
    var size: nat
    var expected: int

    ghost predicate Valid()
      reads this
    {
      Shape(chunks, r, w) && size == |Unread(chunks, r, w)|
    }

    ghost function Contents(): (s: seq<byte>)
      requires Valid()
      reads this
    {
      Unread(chunks, r, w)
    }

    constructor (expected: int)
      ensures Valid() && Contents() == [] && this.expected == expected
    {
      chunks, r, w, size, this.expected := [], 0, 0, 0, expected;
    }

    function Len(): (n: nat)
      requires Valid()
      reads this
      ensures n == |Contents()|
    {
      size
    }

    /** Chunks allocated beyond what is buffered: less than two of the largest size class. */
    lemma {:induction false} AllocationBound()
      requires Valid()
      ensures Space(chunks) <= size + 2 * MAX_CHUNK
    {
      if chunks != [] {
        SpaceBound(chunks, r, w);
        assert chunks[0] in chunks && chunks[|chunks| - 1] in chunks;
      }
    }

    /** Read into a slice of n octets. Not ok is the error on an empty buffer. */
    method Read(n: nat) returns (out: seq<byte>, ok: bool)
      requires Valid()
      modifies this`chunks, this`r, this`size
      ensures Valid() && ok == (old(Contents()) != [])
      ensures var k := if n < |old(Contents())| then n else |old(Contents())|;
              out == old(Contents())[..k] && Contents() == old(Contents())[k..]
    {
      hide Shape, Unread;
      out, ok := [], size != 0;
      while |out| < n && size > 0
        invariant Valid() && |out| <= n && out + Contents() == old(Contents())
        decreases size
      {
        ghost var all := Contents();
        var piece := ReadChunk(n - |out|);
        Regroup(out, piece, all, |piece|, old(Contents()));
        out := out + piece;
      }
      ReadAll(out, Contents(), old(Contents()), n);
    }

    /** One turn of the loop of Read: from the first chunk, which is dropped once consumed. */
    method ReadChunk(n: nat) returns (out: seq<byte>)
      requires Valid() && size > 0 && n > 0
      modifies this`chunks, this`r, this`size
      ensures Valid() && 0 < |out| <= n && |out| <= |old(Contents())|
      ensures out == old(Contents())[..|out|] && Contents() == old(Contents())[|out|..]
    {
      hide Shape, Unread;
      NotEmpty();
      var readFrom := BytesFromFirstChunk();
      var k := if n < |readFrom| then n else |readFrom|;
      FirstChunk(chunks, r, w, k);
      SlicePrefix(chunks[0], r, |readFrom|, k);
      out := readFrom[..k];
      r, size := r + k, size - k;
      if r == |chunks[0]| {
        chunks, r := chunks[1..], 0;
      }
    }

    lemma {:induction false} NotEmpty()
      requires Valid() && size > 0
      ensures chunks != [] && (if |chunks| == 1 then r < w <= |chunks[0]| else r < |chunks[0]|)
    {
    }

    method BytesFromFirstChunk() returns (s: seq<byte>)
      requires Valid() && size > 0
      ensures chunks != [] && |s| > 0 && r + |s| <= |chunks[0]| && s == chunks[0][r..r + |s|]
      ensures r + |s| == if |chunks| == 1 then w else |chunks[0]|
    {
      hide Shape, Unread;
      NotEmpty();
      if |chunks| == 1 {
        return chunks[0][r..w];
      }
      return chunks[0][r..];
    }

    /** Write, which takes everything. */
    method Write(p: seq<byte>) returns (n: nat)
      requires Valid()
      modifies this
      ensures Valid() && n == |p| && Contents() == old(Contents()) + p
    {
      hide Shape, Unread;
      n := |p|;
      var rest := p;
      while |rest| > 0
        invariant Valid() && |rest| <= |p| && Contents() + rest == old(Contents()) + p
        decreases |rest|
      {
        var want := if expected > |rest| then expected else |rest|;
        LastChunkOrAlloc(want);
        var e := |chunks| - 1;
        var k := if |chunks[e]| - w < |rest| then |chunks[e]| - w else |rest|;
        FilledAppends(chunks, r, w, rest[..k]);
        ghost var all := Contents();
        chunks := chunks[e := Filled(chunks[e], w, rest[..k])];
        w, size, expected := w + k, size + k, expected - k;
        assert rest == rest[..k] + rest[k..];
        rest := rest[k..];
      }
    }

    /** Afterwards the last chunk has room. */
    method LastChunkOrAlloc(want: int)
      requires Valid()
      modifies this`chunks, this`w
      ensures Valid() && Contents() == old(Contents()) && chunks != [] && w < |chunks[|chunks| - 1]|
    {
      hide Unread;
      if |chunks| != 0 && w < |chunks[|chunks| - 1]| {
        return;
      }
      var c := seq(ChunkSize(want), _ => 0);
      AllocKeeps(chunks, r, w, c);
      chunks, w := chunks + [c], 0;
    }
  }

  lemma {:induction false} ReadAll(out: seq<byte>, rest: seq<byte>, before: seq<byte>, n: nat)
    requires out + rest == before && |out| <= n && (|out| == n || rest == [])
    ensures var k := if n < |before| then n else |before|; out == before[..k] && rest == before[k..]
  {
  }

  lemma {:induction false} Regroup(out: seq<byte>, x: seq<byte>, all: seq<byte>, k: nat, before: seq<byte>)
    requires k <= |all| && x == all[..k] && out + all == before
    ensures (out + x) + all[k..] == before
  {
  }

  lemma {:induction false} SlicePrefix(c: seq<byte>, r: nat, n: nat, k: nat)
    requires r + n <= |c| && k <= n
    ensures c[r..r + n][..k] == c[r..r + k]
  {
  }
}
