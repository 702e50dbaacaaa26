/**
 The pipe between the frame reader and the reader of a body. Its lock makes every call one
 step; a Read that would wait is a step that answers Wait.
 */
module Pipes {
  import opened Bytes
  import opened DataBuffers

  /** Errors are numbered; 0 is no error. */
  datatype ReadResult = Wait | Got(bytes: seq<byte>) | Failed(err: nat)

  class Pipe {
    var b: DataBuffer?
    var unread: nat
    var err: nat
    var breakErr: nat
    var readFn: bool
    ghost var written: seq<byte>
    ghost var got: seq<byte>

    /** All that was written was read, is still to be read, or was left when the pipe was broken. */
    ghost predicate Valid()
      reads this, b
    {
      && (b != null ==> b.Valid() && unread == 0 && breakErr == 0 && written == got + b.Contents())
      && (b == null ==> |written| == |got| + unread && got <= written)
      && (b == null && breakErr == 0 ==> unread == 0)
    }

    constructor (buffer: DataBuffer?)
      requires buffer != null ==> buffer.Valid()
      ensures Valid() && b == buffer && got == [] && err == 0 && breakErr == 0 && !readFn
      ensures written == if buffer == null then [] else buffer.Contents()
    {
      b, unread, err, breakErr, readFn, got := buffer, 0, 0, 0, false, [];
      written := if buffer == null then [] else buffer.Contents();
    }

    /** Len counts what was not read, also after the pipe was closed or broken. */
    method Len() returns (n: nat)
      requires Valid()
      ensures |written| == |got| + n
    {
      if b == null {
        return unread;
      }
      return b.Len();
    }

    /**
     setBuffer has no effect on a pipe that is closed. Otherwise what was not read is dropped
     with the buffer that held it, and what the new one holds comes next.
     */
    method SetBuffer(buffer: DataBuffer)
      requires Valid() && buffer.Valid()
      modifies this`b, this`written
      ensures Valid() && b == if err != 0 || breakErr != 0 then old(b) else buffer
      ensures written == if err != 0 || breakErr != 0 then old(written) else got + buffer.Contents()
    {
      if err != 0 || breakErr != 0 {
        return;
      }
      b, written := buffer, got + buffer.Contents();
    }

    /** One turn of Read into a slice of n octets; ran tells whether readFn was run. */
    method Read(n: nat) returns (res: ReadResult, ran: bool)
      requires Valid()
      modifies this`b, this`readFn, this`got, b
      ensures Valid() && written == old(written)
      ensures breakErr != 0 ==> res == Failed(breakErr) && got == old(got)
      ensures breakErr == 0 && |old(got)| < |written| ==>
        res.Got? && got == old(got) + res.bytes && got <= written && |res.bytes| == (if n < |written| - |old(got)| then n else |written| - |old(got)|)
      ensures breakErr == 0 && |old(got)| == |written| ==> got == written && res == if err != 0 then Failed(err) else Wait
      ensures ran == (res.Failed? && breakErr == 0 && old(readFn)) && readFn == (old(readFn) && !ran)
    {
      ran := false;
      if breakErr != 0 {
        return Failed(breakErr), ran;
      }
      if b != null && b.Len() > 0 {
        ghost var all := b.Contents();
        var bytes, ok := b.Read(n);
        got := got + bytes;
        assert all == bytes + b.Contents();
        return Got(bytes), ran;
      }
      if err != 0 {
        if readFn {
          ran, readFn := true, false;
        }
        b := null;
        return Failed(err), ran;
      }
      return Wait, ran;
    }

    /** Write, all or nothing. */
    method Write(d: seq<byte>) returns (n: nat, ok: bool)
      requires Valid()
      modifies this`written, b
      ensures Valid() && ok == (err == 0 && breakErr == 0 && b != null)
      ensures n == (if ok then |d| else 0) && written == if ok then old(written) + d else old(written)
    {
      if err != 0 || breakErr != 0 || b == null {
        return 0, false;
      }
      n := b.Write(d);
      written := written + d;
      return n, true;
    }

    /** CloseWithError, with or without code to run before the error is read. The first error stays. Not ok is the panic on no error. */
    method CloseWithError(e: nat, fn: bool) returns (ok: bool)
      requires Valid()
      modifies this`err, this`readFn
      ensures Valid() && ok == (e != 0)
      ensures err == (if old(err) != 0 || !ok then old(err) else e)
      ensures readFn == if old(err) != 0 || !ok then old(readFn) else fn
    {
      if e == 0 {
        return false;
      }
      if err == 0 {
        readFn, err := fn, e;
      }
      return true;
    }

    /** BreakWithError: the next Read fails at once, and what is unread is only counted. */
    method BreakWithError(e: nat) returns (ok: bool)
      requires Valid()
      modifies this`b, this`unread, this`breakErr, this`readFn
      ensures Valid() && ok == (e != 0)
      ensures breakErr == (if old(breakErr) != 0 || !ok then old(breakErr) else e)
      ensures b == if ok then null else old(b)
      ensures readFn == if old(breakErr) != 0 || !ok then old(readFn) else false
    {
      if e == 0 {
        return false;
      }
      if breakErr == 0 {
        readFn := false;
        if b != null {
          unread := unread + b.Len();
        }
        b, breakErr := null, e;
      }
      return true;
    }
  }
}
