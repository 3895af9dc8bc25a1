/**
 The framing of cmd/go-iroh-automerge: eight bytes of little-endian length, then the message; a
 length of zero says "nothing more to send".
 */
module SyncFrames {
  import opened Common
  import opened Endian
  import opened Streams

  const MAX_SYNC_MESSAGE_SIZE: nat := 0x100_0000
  const HEADER_SIZE: nat := 8

  /** What sendSyncMessage writes; None is a sync state with nothing to say. */
  function Frame(msg: Option<Bytes>): Bytes {
    match msg
    case None => Little(0, HEADER_SIZE)
    case Some(b) => Little(|b|, HEADER_SIZE) + b
  }

  datatype SyncError = TooLarge(n: nat) | Io(cause: IoError) | Rejected

  method SendSyncMessage(w: Writer, msg: Option<Bytes>) returns (err: Option<SyncError>)
    modifies w
    ensures old(w.out) <= w.out <= old(w.out) + Frame(msg)
    ensures err.None? ==> w.out == old(w.out) + Frame(msg)
    ensures w.faults == old(w.faults) + if err.Some? then 1 else 0
  {
    var ioErr;
    match msg {
      case None =>
        ioErr := w.Write(Little(0, HEADER_SIZE));
      case Some(b) =>
        var hdr := Little(|b|, HEADER_SIZE);
        Assoc(w.out, hdr, b);
        ioErr := w.Write(hdr);
        if ioErr.Some? {
          assert w.out <= old(w.out) + hdr <= old(w.out) + hdr + b;
          return Some(Io(ioErr.value));
        }
        ioErr := w.Write(b);
    }
    err := if ioErr.Some? then Some(Io(ioErr.value)) else None;
  }

  datatype Received = Done | Message(b: Bytes) | Bad(cause: SyncError)

  /** What a stream yields to receiveSyncMessage, and what is left of the stream. */
  function Parse(s: Bytes, end: IoError): (Received, Bytes) {
    if |s| < HEADER_SIZE then (Bad(Io(ShortRead(|s|, end))), [])
    else
      var n, body := FromLittle(s[..HEADER_SIZE]), s[HEADER_SIZE..];
      if n == 0 then (Done, body)
      else if n > MAX_SYNC_MESSAGE_SIZE then (Bad(TooLarge(n)), body)
      else if |body| < n then (Bad(Io(ShortRead(|body|, end))), [])
      else (Message(body[..n]), body[n..])
  }

  /** receiveSyncMessage; `receive` is the sync state's ReceiveMessage, None its error. */
  method ReceiveSyncMessage<S>(r: Reader, state: S, receive: (S, Bytes) -> Option<S>)
    returns (done: bool, err: Option<SyncError>, state': S)
    modifies r
    ensures r.rest == Parse(old(r.rest), r.end).1
    ensures match Parse(old(r.rest), r.end).0
            case Done => done && err.None? && state' == state
            case Bad(e) => !done && err == Some(e) && state' == state
            case Message(b) =>
              && !done && (err.None? <==> receive(state, b).Some?)
              && (if err.None? then receive(state, b) == Some(state') else err == Some(Rejected) && state' == state)
  {
    state' := state;
    var hdr := new byte[HEADER_SIZE];
    var ioErr := ReadFull(r, hdr);
    if ioErr.Some? {
      return false, Some(Io(ioErr.value)), state;
    }
    var n := FromLittle(hdr[..]);
    if n == 0 {
      return true, None, state;
    }
    if n > MAX_SYNC_MESSAGE_SIZE {
      return false, Some(TooLarge(n)), state;
    }
    var b := new byte[n];
    ioErr := ReadFull(r, b);
    if ioErr.Some? {
      return false, Some(Io(ioErr.value)), state;
    }
    match receive(state, b[..])
    case None => return false, Some(Rejected), state;
    case Some(next) => return false, None, next;
  }

  /**
   What is read of each thing that can be sent. A message of no bytes is read as "done"; one over
   the bound, which the sender does not check, is refused once its header is read.
   */
  lemma ReceivedAsSent(msg: Option<Bytes>, tail: Bytes, end: IoError)
    requires msg.Some? ==> |msg.value| < TWO64
    ensures Parse(Frame(msg) + tail, end) ==
            if msg.None? || msg.value == [] then (Done, tail)
            else if |msg.value| <= 16 * 1024 * 1024 then (Message(msg.value), tail)
            else (Bad(TooLarge(|msg.value|)), msg.value + tail)
  {
    var b := if msg.None? then [] else msg.value;
    var hdr := Little(|b|, HEADER_SIZE);
    var s := Frame(msg) + tail;
    Widths();
    LittleMeans(|b|, HEADER_SIZE);
    Assoc(hdr, b, tail);
    assert Frame(msg) == hdr + b;
    assert s[..HEADER_SIZE] == hdr && s[HEADER_SIZE..] == b + tail;
    assert b == [] ==> b + tail == tail;
    assert (b + tail)[..|b|] == b && (b + tail)[|b|..] == tail;
  }

  /** Nothing else is read as a message or as "done". */
  lemma SentAsReceived(s: Bytes, end: IoError)
    ensures var (got, tail) := Parse(s, end);
            && (got.Done? ==> s == Little(0, 8) + tail)
            && (got.Message? ==> 0 < |got.b| <= 16 * 1024 * 1024 && s == Little(|got.b|, 8) + got.b + tail)
  {
    if |s| >= HEADER_SIZE {
      var body := s[HEADER_SIZE..];
      LittleOnly(s[..HEADER_SIZE]);
      assert s == s[..HEADER_SIZE] + body;
      var n := FromLittle(s[..HEADER_SIZE]);
      if 0 < n <= |body| {
        Assoc(s[..HEADER_SIZE], body[..n], body[n..]);
        assert body == body[..n] + body[n..];
      }
    }
  }
}
