/** Byte streams as io.Reader and io.Writer present them, and io.ReadFull over them. */
module Streams {
  import opened Common

  datatype IoError = EOF | UnexpectedEOF | Broken

  /** A stream with `rest` still to come, after which every read reports `end`. */
  class Reader {
    var rest: Bytes
    const end: IoError

    constructor (rest: Bytes, end: IoError)
      ensures this.rest == rest && this.end == end
    {
      this.rest, this.end := rest, end;
    }

    /** One Read into buf[off..]: any non-empty part of what fits, perhaps with the end already seen. */
    method Read(buf: array<byte>, off: nat) returns (n: nat, err: Option<IoError>)
      requires off < buf.Length
      modifies this, buf
      ensures off + n <= buf.Length && n <= |old(rest)|
      ensures buf[..off + n] == old(buf[..off]) + old(rest)[..n] && rest == old(rest)[n..]
      ensures err.None? ==> n > 0
      ensures err.Some? ==> err.value == end && rest == []
    {
      if rest == [] {
        return 0, Some(end);
      }
      n :| 0 < n <= |rest| && off + n <= buf.Length;
      forall k | 0 <= k < n {
        buf[off + k] := rest[k];
      }
      rest := rest[n..];
      var seen: bool := *;
      err := if seen && rest == [] then Some(end) else None;
    }
  }

  /** What io.ReadFull of n bytes reports when the stream is too short. */
  function ShortRead(available: nat, end: IoError): IoError {
    if available > 0 && end == EOF then UnexpectedEOF else end
  }

  /** io.ReadFull: fills buf, or consumes what there is and reports why not. */
  method ReadFull(r: Reader, buf: array<byte>) returns (err: Option<IoError>)
    modifies r, buf
    ensures |old(r.rest)| >= buf.Length ==>
              err == None && buf[..] == old(r.rest)[..buf.Length] && r.rest == old(r.rest)[buf.Length..]
    ensures |old(r.rest)| < buf.Length ==> err == Some(ShortRead(|old(r.rest)|, r.end)) && r.rest == []
  {
    var n := 0;
    err := None;
    ghost var all := r.rest;
    while n < buf.Length && err.None?
      invariant n <= buf.Length && n <= |all|
      invariant buf[..n] == all[..n] && r.rest == all[n..]
      invariant err.Some? ==> err.value == r.end && r.rest == []
      decreases buf.Length - n, err.None?
    {
      var k;
      k, err := r.Read(buf, n);
      assert all[..n] + all[n..][..k] == all[..n + k];
      n := n + k;
    }
    if n >= buf.Length {
      err := None;
      assert buf[..n] == buf[..];
    } else if n > 0 && err == Some(EOF) {
      err := Some(UnexpectedEOF);
    }
  }

  /** A stream being written; a failed Write may have put out part of its bytes. faults counts the failures. */
  class Writer {
    var out: Bytes
    var faults: nat

    constructor ()
      ensures out == [] && faults == 0
    {
      out, faults := [], 0;
    }

    method Write(p: Bytes) returns (err: Option<IoError>)
      modifies this
      ensures old(out) <= out <= old(out) + p
      ensures err.None? ==> out == old(out) + p
      ensures faults == old(faults) + if err.Some? then 1 else 0
    {
      var k: nat :| k <= |p|;
      out := out + p[..k];
      err := if k < |p| then Some(Broken) else None;
      if err.Some? {
        faults := faults + 1;
      }
    }
  }
}
