/** cmd/go-iroh-framed-messages: four bytes of big-endian length, then the payload. */
module Frames {
  import opened Common
  import opened Streams
  import opened Endian

  const MAX_MESSAGE_SIZE: nat := 1000
  const MOVE_MESSAGE_SIZE: nat := 4

  datatype FrameError = TooLarge(n: nat) | Empty | Io(cause: IoError) | MoveLength(n: nat)

  const HEADER_SIZE: nat := 4

  /** The frame of a payload. */
  function Frame(payload: Bytes): Bytes
    requires |payload| <= MAX_MESSAGE_SIZE
  {
    Big(|payload|, HEADER_SIZE) + payload
  }

  method WriteFrame(w: Writer, payload: Bytes) returns (err: Option<FrameError>)
    modifies w
    ensures |payload| > MAX_MESSAGE_SIZE ==> err == Some(TooLarge(|payload|)) && w.out == old(w.out)
    ensures |payload| <= MAX_MESSAGE_SIZE ==> old(w.out) <= w.out <= old(w.out) + Frame(payload)
    ensures |payload| <= MAX_MESSAGE_SIZE ==> w.faults == old(w.faults) + if err.Some? then 1 else 0
    ensures err.None? ==> |payload| <= MAX_MESSAGE_SIZE && w.out == old(w.out) + Frame(payload)
  {
    if |payload| > MAX_MESSAGE_SIZE {
      return Some(TooLarge(|payload|));
    }
    var hdr := Big(|payload|, HEADER_SIZE);
    Assoc(w.out, hdr, payload);
    var ioErr := w.Write(hdr);
    if ioErr.Some? {
      assert w.out <= old(w.out) + hdr <= old(w.out) + hdr + payload;
      return Some(Io(ioErr.value));
    }
    ioErr := w.Write(payload);
    err := if ioErr.Some? then Some(Io(ioErr.value)) else None;
  }

  /** What reading a frame from a stream yields, and what it leaves of the stream. */
  function Parse(s: Bytes, end: IoError): (Result<Bytes, FrameError>, Bytes) {
    if |s| < HEADER_SIZE then (Err(Io(ShortRead(|s|, end))), [])
    else
      var n, body := FromBig(s[..HEADER_SIZE]), s[HEADER_SIZE..];
      if n > MAX_MESSAGE_SIZE then (Err(TooLarge(n)), body)
      else if n == 0 then (Err(Empty), body)
      else if |body| < n then (Err(Io(ShortRead(|body|, end))), [])
      else (Ok(body[..n]), body[n..])
  }

  method ReadFrame(r: Reader) returns (res: Result<Bytes, FrameError>)
    modifies r
    ensures (res, r.rest) == Parse(old(r.rest), r.end)
  {
    var hdr := new byte[HEADER_SIZE];
    var err := ReadFull(r, hdr);
    if err.Some? {
      return Err(Io(err.value));
    }
    var n := FromBig(hdr[..]);
    if n > MAX_MESSAGE_SIZE {
      return Err(TooLarge(n));
    }
    if n == 0 {
      return Err(Empty);
    }
    var payload := new byte[n];
    err := ReadFull(r, payload);
    if err.Some? {
      return Err(Io(err.value));
    }
    return Ok(payload[..]);
  }

  // ---------------------------------------------------------------------------------------------

  lemma ParsedIsFrame(s: Bytes, end: IoError, payload: Bytes, tail: Bytes)
    requires Parse(s, end) == (Ok(payload), tail)
    ensures 0 < |payload| <= MAX_MESSAGE_SIZE && s == Frame(payload) + tail
  {
    BigOnly(s[..HEADER_SIZE]);
    assert s == s[..HEADER_SIZE] + (s[HEADER_SIZE..][..|payload|] + s[HEADER_SIZE..][|payload|..]);
  }

  /** A stream yields a payload exactly when it starts with that payload's frame. */
  lemma ParseExactly(s: Bytes, end: IoError, payload: Bytes, tail: Bytes)
    ensures Parse(s, end) == (Ok(payload), tail)
            <==> 0 < |payload| <= 1000 && s == Big(|payload|, 4) + payload + tail
  {
    if Parse(s, end) == (Ok(payload), tail) {
      ParsedIsFrame(s, end, payload, tail);
    }
    if 0 < |payload| <= MAX_MESSAGE_SIZE && s == Frame(payload) + tail {
      FrameHeader(payload, tail);
      assert (payload + tail)[..|payload|] == payload && (payload + tail)[|payload|..] == tail;
    }
  }

  lemma FrameHeader(payload: Bytes, tail: Bytes)
    requires |payload| <= MAX_MESSAGE_SIZE
    ensures var s := Frame(payload) + tail;
            |s| >= HEADER_SIZE && s[..HEADER_SIZE] == Big(|payload|, HEADER_SIZE) && FromBig(s[..HEADER_SIZE]) == |payload| && s[HEADER_SIZE..] == payload + tail
  {
    var s := Frame(payload) + tail;
    assert s[..HEADER_SIZE] == Big(|payload|, HEADER_SIZE);
    Widths();
    BigMeans(|payload|, HEADER_SIZE);
  }

  /** Of the payloads WriteFrame takes, ReadFrame refuses the empty one and no other. */
  lemma OnlyEmptyRefused(payload: Bytes, tail: Bytes, end: IoError)
    requires |payload| <= MAX_MESSAGE_SIZE
    ensures Parse(Frame(payload) + tail, end) == if payload == [] then (Err(Empty), tail) else (Ok(payload), tail)
  {
    FrameHeader(payload, tail);
    ParseExactly(Frame(payload) + tail, end, payload, tail);
    assert payload == [] ==> payload + tail == tail;
  }

  /** The stream after writing each payload in turn. */
  function Written(payloads: seq<Bytes>): Bytes
    requires forall p | p in payloads :: |p| <= MAX_MESSAGE_SIZE
  {
    if payloads == [] then [] else Frame(payloads[0]) + Written(payloads[1..])
  }

  /** ReadFrame, n times over, stopping at the first error. */
  function ParseMany(s: Bytes, end: IoError, n: nat): (Result<seq<Bytes>, FrameError>, Bytes) {
    if n == 0 then (Ok([]), s)
    else
      match Parse(s, end)
      case (Err(e), rest) => (Err(e), rest)
      case (Ok(p), rest) =>
        match ParseMany(rest, end, n - 1)
        case (Err(e), rest) => (Err(e), rest)
        case (Ok(ps), rest) => (Ok([p] + ps), rest)
  }

  /** Messages keep their boundaries: what was written frame by frame is read back frame by frame. */
  lemma {:induction false} ManyRoundTrip(payloads: seq<Bytes>, tail: Bytes, end: IoError)
    requires forall p | p in payloads :: 0 < |p| <= MAX_MESSAGE_SIZE
    ensures ParseMany(Written(payloads) + tail, end, |payloads|) == (Ok(payloads), tail)
  {
    if payloads == [] {
      assert Written(payloads) + tail == tail;
    } else {
      var rest := Written(payloads[1..]);
      Assoc(Frame(payloads[0]), rest, tail);
      ManyRoundTrip(payloads[1..], tail, end);
      ParseManyStep(payloads[0], rest + tail, end, |payloads| - 1);
      assert payloads == [payloads[0]] + payloads[1..];
    }
  }

  lemma ParseManyStep(p: Bytes, rest: Bytes, end: IoError, n: nat)
    requires 0 < |p| <= MAX_MESSAGE_SIZE && ParseMany(rest, end, n).0.Ok?
    ensures ParseMany(Frame(p) + rest, end, n + 1)
            == (Ok([p] + ParseMany(rest, end, n).0.value), ParseMany(rest, end, n).1)
  {
    ParseExactly(Frame(p) + rest, end, p, rest);
  }

  // ---------------------------------------------------------------------------------------------

  datatype Square = Square(x: byte, y: byte)

  datatype Move = Move(from: Square, to: Square)

  function MoveBytes(m: Move): Bytes {
    [m.from.x, m.from.y, m.to.x, m.to.y]
  }

  method SendMove(w: Writer, m: Move) returns (err: Option<FrameError>)
    modifies w
    ensures old(w.out) <= w.out <= old(w.out) + Frame(MoveBytes(m))
    ensures w.faults == old(w.faults) + if err.Some? then 1 else 0
    ensures err.None? ==> w.out == old(w.out) + Frame(MoveBytes(m))
  {
    err := WriteFrame(w, MoveBytes(m));
  }

  /** It takes exactly a frame that is some move's, and returns that move. */
  method RecvMove(r: Reader) returns (res: Result<Move, FrameError>)
    modifies r
    ensures r.rest == Parse(old(r.rest), r.end).1
    ensures res.Ok? ==> old(r.rest) == Frame(MoveBytes(res.value)) + r.rest
    ensures res.Err? ==> forall m, tail :: old(r.rest) != Frame(MoveBytes(m)) + tail
  {
    ghost var s := r.rest;
    var frame := ReadFrame(r);
    if frame.Err? {
      forall m, tail
        ensures s != Frame(MoveBytes(m)) + tail
      {
        ParseExactly(s, r.end, MoveBytes(m), tail);
      }
      return Err(frame.error);
    }
    var b := frame.value;
    ParseExactly(s, r.end, b, r.rest);
    if |b| != MOVE_MESSAGE_SIZE {
      forall m, tail
        ensures s != Frame(MoveBytes(m)) + tail
      {
        ParseExactly(s, r.end, MoveBytes(m), tail);
      }
      return Err(MoveLength(|b|));
    }
    res := Ok(Move(Square(b[0], b[1]), Square(b[2], b[3])));
    assert b == MoveBytes(res.value);
  }
}
