/** What cmd/go-iroh-dumbpipe's pipe delivers, over every run of the Tunnel machine. */
module TunnelTheorems {
  import opened Common
  import opened Tunnel

  // ---------------------------------------------------------------------------------------------
  // config.alpn

  /** "DUMBPIPEV0" */
  const DUMBPIPE_ALPN: Bytes := [68, 85, 77, 66, 80, 73, 80, 69, 86, 48]

  /** "utf8:" */
  const UTF8_PREFIX: Bytes := [117, 116, 102, 56, 58]

  function HexDigit(b: byte): Option<byte> {
    if 48 <= b <= 57 then Some(b - 48)
    else if 97 <= b <= 102 then Some(b - 87)
    else if 65 <= b <= 70 then Some(b - 55)
    else None
  }

  function HexDecode(s: Bytes): Option<Bytes> {
    if s == [] then Some([])
    else if |s| == 1 then None
    else
      match (HexDigit(s[0]), HexDigit(s[1]), HexDecode(s[2..]))
      case (Some(h), Some(l), Some(rest)) => Some([h * 16 + l] + rest)
      case _ => None
  }

  /** "0123456789abcdef" and the same in upper case. */
  const LOWER: Bytes := [48, 49, 50, 51, 52, 53, 54, 55, 56, 57, 97, 98, 99, 100, 101, 102]
  const UPPER: Bytes := [48, 49, 50, 51, 52, 53, 54, 55, 56, 57, 65, 66, 67, 68, 69, 70]

  predicate IsDigit(b: byte, value: nat) {
    value < 16 && (b == LOWER[value] || b == UPPER[value])
  }

  /** The hex digits of a string of bytes, two for each, the high one first. */
  predicate Spells(s: Bytes, b: Bytes) {
    |s| == 2 * |b| && forall i | 0 <= i < |b| :: IsDigit(s[2 * i], b[i] / 16) && IsDigit(s[2 * i + 1], b[i] % 16)
  }

  lemma DigitExactly(b: byte, v: nat)
    ensures v < 256 && HexDigit(b) == Some(v) <==> IsDigit(b, v)
  {
  }

  lemma SpellsMore(s: Bytes, b: Bytes)
    requires |s| >= 2 && b != []
    ensures Spells(s, b) <==> IsDigit(s[0], b[0] / 16) && IsDigit(s[1], b[0] % 16) && Spells(s[2..], b[1..])
  {
    var r, c := s[2..], b[1..];
    if Spells(s, b) {
      forall i | 0 <= i < |c| ensures IsDigit(r[2 * i], c[i] / 16) && IsDigit(r[2 * i + 1], c[i] % 16) {
        assert IsDigit(s[2 * (i + 1)], b[i + 1] / 16) && IsDigit(s[2 * (i + 1) + 1], b[i + 1] % 16);
      }
    }
    if IsDigit(s[0], b[0] / 16) && IsDigit(s[1], b[0] % 16) && Spells(r, c) {
      forall i | 0 <= i < |b| ensures IsDigit(s[2 * i], b[i] / 16) && IsDigit(s[2 * i + 1], b[i] % 16) {
        if i > 0 {
          assert IsDigit(r[2 * (i - 1)], c[i - 1] / 16) && IsDigit(r[2 * (i - 1) + 1], c[i - 1] % 16);
        }
      }
    }
  }

  lemma Nibbles(h: nat, l: nat, v: nat)
    requires h < 16 && l < 16
    ensures h * 16 + l == v <==> h == v / 16 && l == v % 16
  {
  }

  lemma DecodesMore(s: Bytes, b: Bytes)
    requires |s| >= 2 && b != []
    ensures HexDecode(s) == Some(b) <==>
      HexDigit(s[0]) == Some(b[0] / 16) && HexDigit(s[1]) == Some(b[0] % 16) && HexDecode(s[2..]) == Some(b[1..])
  {
    assert b == [b[0]] + b[1..];
    if HexDigit(s[0]).Some? && HexDigit(s[1]).Some? && HexDecode(s[2..]).Some? {
      var h, l, rest := HexDigit(s[0]).value, HexDigit(s[1]).value, HexDecode(s[2..]).value;
      Nibbles(h, l, b[0]);
      if HexDecode(s) == Some(b) {
        assert ([h * 16 + l] + rest)[0] == b[0] && ([h * 16 + l] + rest)[1..] == rest;
      }
    }
  }

  /** A hex protocol name stands for exactly the bytes whose digits it spells. */
  lemma {:induction false} HexDecodesExactly(s: Bytes, b: Bytes)
    ensures HexDecode(s) == Some(b) <==> Spells(s, b)
    decreases |s|
  {
    if |s| >= 2 && b != [] {
      DigitExactly(s[0], b[0] / 16);
      DigitExactly(s[1], b[0] % 16);
      HexDecodesExactly(s[2..], b[1..]);
      DecodesMore(s, b);
      SpellsMore(s, b);
    }
  }

  /** The protocol to negotiate and whether the handshake goes with it. */
  function Alpn(custom: Bytes): Option<(Bytes, bool)> {
    if custom == [] then Some((DUMBPIPE_ALPN, true))
    else if UTF8_PREFIX <= custom then Some((custom[|UTF8_PREFIX|..], false))
    else
      match HexDecode(custom)
      case Some(b) => Some((b, false))
      case None => None
  }

  /** What a -custom-alpn names: nothing, the default; text behind "utf8:"; or bytes in hex; and anything else is an error. */
  lemma AlpnExactly(custom: Bytes, alpn: Bytes, handshake: bool)
    ensures Alpn(custom) == Some((alpn, handshake)) <==>
      || (custom == [] && alpn == [68, 85, 77, 66, 80, 73, 80, 69, 86, 48] && handshake)
      || (custom == [117, 116, 102, 56, 58] + alpn && !handshake)
      || (custom != [] && !([117, 116, 102, 56, 58] <= custom) && Spells(custom, alpn) && !handshake)
  {
    HexDecodesExactly(custom, alpn);
    if UTF8_PREFIX <= custom {
      assert custom == UTF8_PREFIX + custom[|UTF8_PREFIX|..];
    }
    assert (UTF8_PREFIX + alpn)[|UTF8_PREFIX|..] == alpn;
  }

  /**
   Two ends that negotiate one protocol agree on the handshake unless one of them, and only one,
   spells the default protocol out as a custom one; and it can be spelled out.
   */
  lemma SameProtocolSameHandshake(c: Bytes, d: Bytes)
    requires Alpn(c).Some? && Alpn(d).Some? && Alpn(c).value.0 == Alpn(d).value.0
    ensures Alpn(c).value.1 == Alpn(d).value.1 <==> (Alpn(c).value.0 == DUMBPIPE_ALPN ==> (c == [] <==> d == []))
    ensures Alpn(UTF8_PREFIX + DUMBPIPE_ALPN) == Some((DUMBPIPE_ALPN, false))
  {
    assert (UTF8_PREFIX + DUMBPIPE_ALPN)[|UTF8_PREFIX|..] == DUMBPIPE_ALPN;
  }

  // ---------------------------------------------------------------------------------------------

  function Hello(greets: bool): Bytes {
    if greets then HANDSHAKE else []
  }

  /** t is reached from the start by some interleaving. */
  ghost predicate Reached(greets: bool, checks: bool, a: Bytes, b: Bytes, t: State) {
    exists acts, closes :: Run(Start(greets, checks, a, b, closes), acts, t)
  }

  lemma StartInv(greets: bool, checks: bool, a: Bytes, b: Bytes)
    ensures forall closes :: Inv(Start(greets, checks, a, b, closes))
  {
    assert [] + HANDSHAKE == HANDSHAKE;
    assert a[..0] == [] && b[..0] == [];
  }

  predicate SameParameters(s: State, t: State) {
    && s.out.s.hello == t.out.s.hello && s.out.s.src == t.out.s.src && s.out.r.want == t.out.r.want
    && s.back.s.src == t.back.s.src
    && s.out.r.canClose == t.out.r.canClose && s.back.r.canClose == t.back.r.canClose
  }

  lemma DoKeepsParameters(s: State, a: Act)
    requires Inv(s) && Enabled(s, a)
    ensures SameParameters(s, Do(s, a))
  {
    match a
    case OutSend(b) => SendOnlyAppends(s.out.s, s.dialer, b);
    case BackSend(b) => SendOnlyAppends(s.back.s, s.listener, b);
    case _ =>
  }

  lemma {:induction false} RunKeepsParameters(s: State, acts: seq<Act>, t: State)
    requires Inv(s) && Run(s, acts, t)
    ensures SameParameters(s, t)
    decreases |acts|
  {
    if acts != [] {
      DoKeepsParameters(s, acts[0]);
      DoKeepsInv(s, acts[0]);
      RunKeepsParameters(Do(s, acts[0]), acts[1..], t);
    }
  }

  lemma ReachedInv(greets: bool, checks: bool, a: Bytes, b: Bytes, t: State)
    requires Reached(greets, checks, a, b, t)
    ensures Inv(t) && SameParameters(Start(greets, checks, a, b, (t.out.r.canClose, t.back.r.canClose)), t)
  {
    var acts, closes :| Run(Start(greets, checks, a, b, closes), acts, t);
    var s := Start(greets, checks, a, b, closes);
    StartInv(greets, checks, a, b);
    RunKeepsInv(s, acts, t);
    RunKeepsParameters(s, acts, t);
  }

  /** Prefixes of one string, compared from a common front. */
  lemma AfterFront(front: Bytes, d: Bytes, whole: Bytes, wire: Bytes)
    requires front + d <= wire <= front + whole
    ensures d <= whole
  {
    assert (front + d)[|front|..] == d && (front + whole)[|front|..] == whole;
    assert front + d == (front + whole)[..|front + d|];
    assert d == whole[..|d|];
  }

  lemma DeliveredIsPrefix(r: Receiver, s: Sender)
    requires SenderInv(s) && ReceiverInv(r, s.wire, s.fin) && r.want == s.hello
    ensures r.dst <= s.src
  {
    if r.dst != [] {
      var got := r.want + r.dst;
      assert r.pc.Delivering? ==> got <= got + r.pc.buf;
      assert got <= s.wire;
      AfterFront(s.hello, r.dst, s.src, s.wire);
    }
  }

  /** Each end receives a prefix of the other's source, without the handshake. */
  lemma DeliversPrefixes(hs: bool, a: Bytes, b: Bytes, t: State)
    requires Reached(hs, hs, a, b, t)
    ensures t.out.r.dst <= a && t.back.r.dst <= b
  {
    ReachedInv(hs, hs, a, b, t);
    DeliveredIsPrefix(t.out.r, t.out.s);
    DeliveredIsPrefix(t.back.r, t.back.s);
  }

  /** With equal settings a handshake is never refused for its bytes. */
  lemma HandshakeMatches(hs: bool, a: Bytes, b: Bytes, t: State)
    requires Reached(hs, hs, a, b, t)
    ensures t.out.r.pc != Refused(true)
  {
    ReachedInv(hs, hs, a, b, t);
    var hello, wire := t.out.s.hello, t.out.s.wire;
    if |hello| <= |wire| {
      assert wire[..|hello|] == (hello + a)[..|hello|] == hello;
    }
  }

  predicate BothNil(t: State) {
    t.dialer.phase == Returned(false) && t.listener.phase == Returned(false)
  }

  /** A write side closes only once its copy has ended: everything was carried, or the copy failed. */
  lemma ClosesAtTheEnd(greets: bool, checks: bool, a: Bytes, b: Bytes, t: State)
    requires Reached(greets, checks, a, b, t)
    ensures t.out.s.fin ==> t.out.s.failed || t.out.s.wire == Hello(greets) + a
    ensures t.back.s.fin ==> t.back.s.failed || t.back.s.wire == b
    ensures t.out.r.closed && !t.out.r.failed ==> t.out.s.fin && Hello(checks) + t.out.r.dst == t.out.s.wire
    ensures t.back.r.closed && !t.back.r.failed ==> t.back.s.fin && t.back.r.dst == t.back.s.wire
  {
    ReachedInv(greets, checks, a, b, t);
  }

  /**
   And it does close: a goroutine about to report, or done, has closed the destination it copied to,
   if that has a write side to close, or the stream it copied to, unless closing it failed. What can
   be closed is as it was at the start.
   */
  lemma WriteSidesClose(greets: bool, checks: bool, a: Bytes, b: Bytes, closes: (bool, bool), acts: seq<Act>, t: State)
    requires Run(Start(greets, checks, a, b, closes), acts, t)
    ensures t.out.r.closed <==> closes.0 && (t.out.r.pc.Telling? || t.out.r.pc.RecvDone?)
    ensures t.back.r.closed <==> closes.1 && (t.back.r.pc.Telling? || t.back.r.pc.RecvDone?)
    ensures t.out.s.pc.Reporting? || t.out.s.pc.SendDone? ==> t.out.s.fin || t.out.s.closeFailed
    ensures t.back.s.pc.Reporting? || t.back.s.pc.SendDone? ==> t.back.s.fin || t.back.s.closeFailed
    ensures BothNil(t) ==> t.out.r.closed == closes.0 && t.back.r.closed == closes.1 && t.out.s.fin && t.back.s.fin
  {
    var s := Start(greets, checks, a, b, closes);
    StartInv(greets, checks, a, b);
    RunKeepsInv(s, acts, t);
    RunKeepsParameters(s, acts, t);
  }

  /** errc has room for every goroutine that is about to report. */
  lemma ReportsNeverBlock(greets: bool, checks: bool, a: Bytes, b: Bytes, t: State)
    requires Reached(greets, checks, a, b, t)
    ensures t.out.s.pc.Reporting? ==> Enabled(t, OutSend(Report))
    ensures t.out.r.pc.Telling? ==> Enabled(t, OutRecv(Tell))
    ensures t.back.s.pc.Reporting? ==> Enabled(t, BackSend(Report))
    ensures t.back.r.pc.Telling? ==> Enabled(t, BackRecv(Tell))
  {
    ReachedInv(greets, checks, a, b, t);
  }

  /**
   Until the dialer writes or closes, the listener has no stream: it reads nothing from its own
   source, and nothing is delivered at either end.
   */
  lemma SilentDialerBlocks(greets: bool, checks: bool, a: Bytes, b: Bytes, t: State)
    requires Reached(greets, checks, a, b, t) && t.out.s.wire == [] && !t.out.s.fin
    ensures !Enabled(t, OutRecv(Accept)) && (t.listener.phase.Setup? || t.listener.phase.Abandoned?)
    ensures t.back.s.read == 0 && t.back.s.wire == [] && t.out.r.dst == [] && t.back.r.dst == []
  {
    ReachedInv(greets, checks, a, b, t);
  }

  /** With the handshake no dialer is silent: once openPipe has returned, the stream is there to accept. */
  lemma GreetingOpens(checks: bool, a: Bytes, b: Bytes, t: State)
    requires Reached(true, checks, a, b, t) && (t.dialer.phase.Running? || t.dialer.phase.Returned?)
    ensures [104, 101, 108, 108, 111] <= t.out.s.wire
    ensures t.out.r.pc.Accepting? ==> Enabled(t, OutRecv(Accept))
  {
    ReachedInv(true, checks, a, b, t);
  }

  /** If both forwards return nil, everything was carried, less what the listener checked. */
  lemma NilMeansAll(greets: bool, checks: bool, a: Bytes, b: Bytes, t: State)
    requires Reached(greets, checks, a, b, t) && BothNil(t)
    ensures Hello(checks) + t.out.r.dst == Hello(greets) + a && t.back.r.dst == b
  {
    ReachedInv(greets, checks, a, b, t);
    assert t.out.s.pc == SendDone(false) && t.out.r.pc == RecvDone(false);
    assert t.back.s.pc == SendDone(false) && t.back.r.pc == RecvDone(false);
    assert [] + t.back.r.dst == t.back.r.dst && [] + b == b;
  }

  /** So the listener gets exactly the dialer's source iff the two agree on the handshake. */
  lemma NilMeansDeliveredExactly(greets: bool, checks: bool, a: Bytes, b: Bytes, t: State)
    requires Reached(greets, checks, a, b, t) && BothNil(t)
    ensures t.out.r.dst == a <==> greets == checks
    ensures t.back.r.dst == b
  {
    NilMeansAll(greets, checks, a, b, t);
    if greets == checks {
      SplitEqual(Hello(greets), Hello(checks), a, t.out.r.dst);
    } else {
      assert |Hello(checks)| + |t.out.r.dst| == |Hello(greets)| + |a|;
    }
  }

  /** forward's error is real: it returns one only if a copy or a close on its side failed. */
  lemma ErrorsAreReal(greets: bool, checks: bool, a: Bytes, b: Bytes, t: State)
    requires Reached(greets, checks, a, b, t)
    ensures t.dialer.phase.Returned? ==>
      && t.out.s.pc.SendDone? && t.back.r.pc.RecvDone?
      && (t.dialer.phase.err <==> t.out.s.failed || t.out.s.closeFailed || t.back.r.failed)
    ensures t.listener.phase.Returned? ==>
      && t.back.s.pc.SendDone? && t.out.r.pc.RecvDone?
      && (t.listener.phase.err <==> t.back.s.failed || t.back.s.closeFailed || t.out.r.failed)
  {
    ReachedInv(greets, checks, a, b, t);
  }

  // ---------------------------------------------------------------------------------------------
  // Nothing gets stuck: until something fails, both ends can still be brought to a nil return.

  predicate CleanSend(s: Sender) {
    && !s.failed && !s.closeFailed && !s.pc.NeverSent?
    && (s.pc.Closing? || s.pc.Reporting? || s.pc.SendDone? ==> !s.pc.err)
    && (s.pc.Writing? ==> s.pc.after != Failed)
  }

  predicate CleanRecv(r: Receiver) {
    !r.failed && !r.pc.Refused? && (r.pc.Delivering? ==> r.pc.after != Failed)
  }

  /** No call has failed so far. */
  predicate Clean(s: State) {
    CleanSend(s.out.s) && CleanSend(s.back.s) && CleanRecv(s.out.r) && CleanRecv(s.back.r)
  }

  function SendRank(s: Sender): nat
    requires SenderInv(s)
  {
    10 * (|Whole(s)| - |s.wire|) + match s.pc
    case Greeting(_) => 6
    case Reading => 5
    case Writing(_, _) => 4
    case Closing(_) => 3
    case Reporting(_) => 2
    case _ => 0
  }

  function SendMove(s: Sender): SendAct
    requires !s.pc.SendDone? && SenderInv(s)
  {
    match s.pc
    case Greeting(left) => Greet(|left|)
    case Reading => Read(|s.src| - s.read, Eof)
    case Writing(buf, _) => Write(|buf|)
    case Closing(_) => Close(true, false)
    case _ => Report
  }

  lemma SendMoves(s: Sender, e: Forward)
    requires SenderInv(s) && CleanSend(s) && !s.pc.SendDone? && |e.errc| < ERRC_CAPACITY
    requires s.pc.Reading? ==> e.phase.Running?
    ensures SendEnabled(s, e, SendMove(s))
    ensures var s' := DoSend(s, SendMove(s), e);
            CleanSend(s') && SenderInv(s') && SendRank(s') < SendRank(s)
  {
    SendKeepsSender(s, e, SendMove(s));
    SendOnlyAppends(s, e, SendMove(s));
  }

  function RecvRank(r: Receiver, total: nat): nat
    requires r.taken <= total && |r.dst| <= total
  {
    10 * (total - r.taken) + 10 * (total - |r.dst|) + match r.pc
    case Accepting => 7
    case Checking(_) => 6
    case Receiving => 5
    case Delivering(_, _) => 4
    case Shutting(_) => 3
    case Telling(_) => 2
    case _ => 0
  }

  function Min(m: nat, n: nat): nat {
    if m < n then m else n
  }

  function RecvMove(r: Receiver, wire: Bytes): RecvAct
    requires r.taken <= |wire| && (r.pc.Checking? ==> |r.pc.got| <= |r.want|)
  {
    match r.pc
    case Accepting => Accept
    case Checking(got) => Check(Min(|r.want| - |got|, |wire| - r.taken))
    case Receiving => Recv(|wire| - r.taken, Eof)
    case Delivering(buf, _) => Deliver(|buf|)
    case Shutting(_) => Shut
    case _ => Tell
  }

  lemma CheckMatches(r: Receiver, s: Sender, k: nat)
    requires s.wire == s.hello + s.src && s.hello == r.want
    requires ReceiverInv(r, s.wire, s.fin) && r.pc.Checking?
    requires |r.pc.got| + k <= |r.want| && r.taken + k <= |s.wire|
    ensures !Checked(r, r.pc.got + s.wire[r.taken..r.taken + k]).Refused?
  {
    var got := r.pc.got + s.wire[r.taken..r.taken + k];
    assert got == s.wire[..r.taken + k];
    assert |got| == |r.want| ==> got == s.wire[..|s.hello|] == s.hello;
  }

  /** The receiver's move is one it can make, and brings it nearer its end. */
  predicate Advances(r: Receiver, s: Sender, e: Forward)
    requires r.taken <= |s.wire| && |r.dst| <= |s.wire| && (r.pc.Checking? ==> |r.pc.got| <= |r.want|)
  {
    var a := RecvMove(r, s.wire);
    && RecvEnabled(r, s.wire, s.fin, e, a)
    && var r' := DoRecv(r, s.wire, s.fin, a, e);
       && ReceiverInv(r', s.wire, s.fin) && CleanRecv(r')
       && |r'.dst| <= |s.wire| && RecvRank(r', |s.wire|) < RecvRank(r, |s.wire|)
  }

  lemma SetupMoves(r: Receiver, s: Sender, e: Forward)
    requires SenderInv(s) && CleanSend(s) && s.pc.SendDone? && s.hello == r.want
    requires ReceiverInv(r, s.wire, s.fin) && CleanRecv(r) && |e.errc| < ERRC_CAPACITY
    requires r.pc.Accepting? || r.pc.Checking?
    ensures Advances(r, s, e)
  {
    assert s.wire == s.hello + s.src;
    var a := RecvMove(r, s.wire);
    if r.pc.Checking? {
      CheckMatches(r, s, a.k);
    }
    RecvKeepsReceiver(r, s.wire, s.fin, e, a);
  }

  lemma CopyMoves(r: Receiver, s: Sender, e: Forward)
    requires SenderInv(s) && CleanSend(s) && s.pc.SendDone? && s.hello == r.want
    requires ReceiverInv(r, s.wire, s.fin) && CleanRecv(r) && !r.pc.RecvDone? && |e.errc| < ERRC_CAPACITY
    requires !r.pc.Accepting? && !r.pc.Checking? && (r.pc.Receiving? ==> e.phase.Running?)
    requires |r.dst| <= |s.wire|
    ensures Advances(r, s, e)
  {
    var a := RecvMove(r, s.wire);
    RecvKeepsReceiver(r, s.wire, s.fin, e, a);
    if r.pc.Delivering? {
      assert |r.want + r.dst + r.pc.buf| <= |s.wire|;
    }
  }

  /** Once the sender is done without error, the receiver can go on to its end. */
  lemma RecvMoves(r: Receiver, s: Sender, e: Forward)
    requires SenderInv(s) && CleanSend(s) && s.pc.SendDone? && s.hello == r.want
    requires ReceiverInv(r, s.wire, s.fin) && CleanRecv(r) && !r.pc.RecvDone? && |e.errc| < ERRC_CAPACITY
    requires r.pc.Receiving? ==> e.phase.Running?
    requires |r.dst| <= |s.wire|
    ensures Advances(r, s, e)
  {
    if r.pc.Accepting? || r.pc.Checking? {
      SetupMoves(r, s, e);
    } else {
      CopyMoves(r, s, e);
    }
  }

  /** Nothing has failed and the two ends agree on the handshake. */
  predicate Healthy(s: State) {
    && Inv(s) && Clean(s) && s.out.s.hello == s.out.r.want
    && |s.out.r.dst| <= |Whole(s.out.s)| && |s.back.r.dst| <= |Whole(s.back.s)|
  }

  lemma {:induction false} RunAppend(s: State, acts: seq<Act>, m: State, more: seq<Act>, t: State)
    requires Run(s, acts, m) && Run(m, more, t)
    ensures Run(s, acts + more, t)
    decreases |acts|
  {
    if acts == [] {
      assert acts + more == more;
    } else {
      RunAppend(Do(s, acts[0]), acts[1..], m, more, t);
      assert (acts + more)[1..] == acts[1..] + more;
    }
  }

  lemma {:induction false} DriveOutSend(s: State) returns (acts: seq<Act>, t: State)
    requires Healthy(s)
    ensures Run(s, acts, t) && Healthy(t) && t.out.s.pc.SendDone?
    ensures t.out.r == s.out.r && t.back == s.back
    decreases SendRank(s.out.s)
  {
    acts, t := [], s;
    if !s.out.s.pc.SendDone? {
      var a := SendMove(s.out.s);
      SendMoves(s.out.s, s.dialer);
      SendOnlyAppends(s.out.s, s.dialer, a);
      DoKeepsInv(s, OutSend(a));
      acts, t := DriveOutSend(Do(s, OutSend(a)));
      acts := [OutSend(a)] + acts;
    }
  }

  lemma {:induction false} DriveBackSend(s: State) returns (acts: seq<Act>, t: State)
    requires Healthy(s) && !s.out.r.pc.Accepting? && !s.out.r.pc.Checking?
    ensures Run(s, acts, t) && Healthy(t) && t.back.s.pc.SendDone?
    ensures t.back.r == s.back.r && t.out == s.out
    decreases SendRank(s.back.s)
  {
    acts, t := [], s;
    if !s.back.s.pc.SendDone? {
      var a := SendMove(s.back.s);
      SendMoves(s.back.s, s.listener);
      SendOnlyAppends(s.back.s, s.listener, a);
      DoKeepsInv(s, BackSend(a));
      acts, t := DriveBackSend(Do(s, BackSend(a)));
      acts := [BackSend(a)] + acts;
    }
  }

  lemma OutRecvStep(s: State, a: RecvAct)
    requires Healthy(s) && s.out.s.pc.SendDone? && !s.out.r.pc.RecvDone? && a == RecvMove(s.out.r, s.out.s.wire)
    ensures Enabled(s, OutRecv(a)) && Healthy(Do(s, OutRecv(a)))
    ensures var t := Do(s, OutRecv(a));
            && t.out.s == s.out.s && t.back == s.back
            && RecvRank(t.out.r, |s.out.s.wire|) < RecvRank(s.out.r, |s.out.s.wire|)
  {
    RecvMoves(s.out.r, s.out.s, s.listener);
    DoKeepsInv(s, OutRecv(a));
  }

  lemma {:induction false} DriveOutRecv(s: State) returns (acts: seq<Act>, t: State)
    requires Healthy(s) && s.out.s.pc.SendDone?
    ensures Run(s, acts, t) && Healthy(t) && t.out.r.pc.RecvDone?
    ensures t.out.s == s.out.s && t.back == s.back
    decreases RecvRank(s.out.r, |s.out.s.wire|)
  {
    acts, t := [], s;
    if !s.out.r.pc.RecvDone? {
      var a := RecvMove(s.out.r, s.out.s.wire);
      OutRecvStep(s, a);
      acts, t := DriveOutRecv(Do(s, OutRecv(a)));
      acts := [OutRecv(a)] + acts;
    }
  }

  lemma {:induction false} DriveBackRecv(s: State) returns (acts: seq<Act>, t: State)
    requires Healthy(s) && s.back.s.pc.SendDone? && !s.out.s.pc.Greeting?
    ensures Run(s, acts, t) && Healthy(t) && t.back.r.pc.RecvDone?
    ensures t.back.s == s.back.s && t.out == s.out
    decreases RecvRank(s.back.r, |s.back.s.wire|)
  {
    acts, t := [], s;
    if !s.back.r.pc.RecvDone? {
      var a := RecvMove(s.back.r, s.back.s.wire);
      RecvMoves(s.back.r, s.back.s, s.dialer);
      DoKeepsInv(s, BackRecv(a));
      acts, t := DriveBackRecv(Do(s, BackRecv(a)));
      acts := [BackRecv(a)] + acts;
    }
  }

  predicate AllDone(s: State) {
    s.out.s.pc.SendDone? && s.back.s.pc.SendDone? && s.out.r.pc.RecvDone? && s.back.r.pc.RecvDone?
  }

  lemma {:induction false} DriveMains(s: State) returns (acts: seq<Act>, t: State)
    requires Healthy(s) && AllDone(s)
    ensures Run(s, acts, t) && BothNil(t)
    decreases |s.dialer.errc| + |s.listener.errc|
  {
    acts, t := [], s;
    if !BothNil(s) {
      var a := if MainEnabled(s.dialer) then DialerMain else ListenerMain;
      DoKeepsInv(s, a);
      acts, t := DriveMains(Do(s, a));
      acts := [a] + acts;
    }
  }

  /** From any state reached without a failure, everything can still be delivered and acknowledged. */
  lemma CanAlwaysFinish(hs: bool, a: Bytes, b: Bytes, s: State) returns (acts: seq<Act>, t: State)
    requires Reached(hs, hs, a, b, s) && Clean(s)
    ensures Run(s, acts, t) && BothNil(t) && t.out.r.dst == a && t.back.r.dst == b
    ensures t.out.r.closed == s.out.r.canClose && t.back.r.closed == s.back.r.canClose
  {
    ReachedInv(hs, hs, a, b, s);
    DeliversPrefixes(hs, a, b, s);
    var acts1, s1 := DriveOutSend(s);
    var acts2, s2 := DriveOutRecv(s1);
    var acts3, s3 := DriveBackSend(s2);
    var acts4, s4 := DriveBackRecv(s3);
    var acts5, s5 := DriveMains(s4);
    RunAppend(s3, acts4, s4, acts5, s5);
    RunAppend(s2, acts3, s3, acts4 + acts5, s5);
    RunAppend(s1, acts2, s2, acts3 + (acts4 + acts5), s5);
    RunAppend(s, acts1, s1, acts2 + (acts3 + (acts4 + acts5)), s5);
    acts, t := acts1 + (acts2 + (acts3 + (acts4 + acts5))), s5;
    ReachedOn(hs, a, b, s, acts, t);
    NilMeansDeliveredExactly(hs, hs, a, b, t);
    RunKeepsParameters(s, acts, t);
    ReachedInv(hs, hs, a, b, t);
  }

  lemma ReachedOn(hs: bool, a: Bytes, b: Bytes, s: State, acts: seq<Act>, t: State)
    requires Reached(hs, hs, a, b, s) && Run(s, acts, t)
    ensures Reached(hs, hs, a, b, t)
  {
    var before, closes :| Run(Start(hs, hs, a, b, closes), before, s);
    RunAppend(Start(hs, hs, a, b, closes), before, s, acts, t);
  }

  // ---------------------------------------------------------------------------------------------
  // After a failure: a forward waits for nothing but its own reads and writes.

  function GiveUpSend(s: Sender): SendAct {
    match s.pc
    case Reading => Read(0, Failed)
    case Writing(_, _) => WriteFail
    case Closing(_) => Close(true, false)
    case _ => Report
  }

  function GiveUpRecv(r: Receiver): RecvAct {
    match r.pc
    case Receiving => Recv(0, Failed)
    case Delivering(_, _) => DeliverFail
    case Shutting(_) => Shut
    case _ => Tell
  }

  function SendSteps(pc: SendPc): nat {
    match pc
    case Reading => 3
    case Writing(_, _) => 3
    case Closing(_) => 2
    case Reporting(_) => 1
    case _ => 0
  }

  function RecvSteps(pc: RecvPc): nat {
    match pc
    case Receiving => 3
    case Delivering(_, _) => 3
    case Shutting(_) => 2
    case Telling(_) => 1
    case _ => 0
  }

  /** Acts a running forward and its goroutines have left once their reads and writes are let go. */
  function StepsLeft(e: Forward, send: SendPc, recv: RecvPc): nat {
    SendSteps(send) + RecvSteps(recv) + if |e.got| < 2 then 2 - |e.got| else 0
  }

  lemma SendLetGo(s: Sender, e: Forward)
    requires SenderInv(s) && SendSteps(s.pc) > 0 && e.phase.Running? && |e.errc| < ERRC_CAPACITY
    ensures SendEnabled(s, e, GiveUpSend(s))
    ensures SendSteps(DoSend(s, GiveUpSend(s), e).pc) < SendSteps(s.pc)
    ensures var e' := AfterSend(s, GiveUpSend(s), e);
            e'.phase == e.phase && e'.got == e.got
  {
  }

  lemma RecvLetGo(r: Receiver, wire: Bytes, fin: bool, e: Forward)
    requires ReceiverInv(r, wire, fin) && RecvSteps(r.pc) > 0 && e.phase.Running? && |e.errc| < ERRC_CAPACITY
    ensures RecvEnabled(r, wire, fin, e, GiveUpRecv(r))
    ensures RecvSteps(DoRecv(r, wire, fin, GiveUpRecv(r), e).pc) < RecvSteps(r.pc)
    ensures var e' := AfterRecv(r, wire, fin, GiveUpRecv(r), e);
            e'.phase == e.phase && e'.got == e.got
  {
  }

  function DialerLeft(s: State): nat {
    StepsLeft(s.dialer, s.out.s.pc, s.back.r.pc)
  }

  function ListenerLeft(s: State): nat {
    StepsLeft(s.listener, s.back.s.pc, s.out.r.pc)
  }

  lemma DialerStep(s: State) returns (a: Act)
    requires Inv(s) && s.dialer.phase.Running?
    ensures Enabled(s, a) && DialerLeft(Do(s, a)) < DialerLeft(s)
    ensures var t := Do(s, a);
            && (t.dialer.phase.Running? || t.dialer.phase.Returned?)
            && t.listener == s.listener && t.back.s == s.back.s && t.out.r == s.out.r
  {
    if !s.out.s.pc.SendDone? {
      SendLetGo(s.out.s, s.dialer);
      a := OutSend(GiveUpSend(s.out.s));
    } else if !s.back.r.pc.RecvDone? {
      RecvLetGo(s.back.r, s.back.s.wire, s.back.s.fin, s.dialer);
      a := BackRecv(GiveUpRecv(s.back.r));
    } else {
      a := DialerMain;
    }
  }

  lemma ListenerStep(s: State) returns (a: Act)
    requires Inv(s) && s.listener.phase.Running?
    ensures Enabled(s, a) && ListenerLeft(Do(s, a)) < ListenerLeft(s)
    ensures var t := Do(s, a);
            && (t.listener.phase.Running? || t.listener.phase.Returned?)
            && t.dialer == s.dialer && t.out.s == s.out.s && t.back.r == s.back.r
  {
    if !s.back.s.pc.SendDone? {
      SendLetGo(s.back.s, s.listener);
      a := BackSend(GiveUpSend(s.back.s));
    } else if !s.out.r.pc.RecvDone? {
      RecvLetGo(s.out.r, s.out.s.wire, s.out.s.fin, s.listener);
      a := OutRecv(GiveUpRecv(s.out.r));
    } else {
      a := ListenerMain;
    }
  }

  /**
   The dialer's forward returns in eight acts of its own, none of them at the other end, from any
   state in which it is under way, whatever has failed or been refused at either end.
   */
  lemma {:induction false} DialerCanReturn(s: State) returns (acts: seq<Act>, t: State)
    requires Inv(s) && s.dialer.phase.Running?
    ensures Run(s, acts, t) && t.dialer.phase.Returned? && |acts| <= DialerLeft(s) <= 8
    ensures t.listener == s.listener && t.back.s == s.back.s && t.out.r == s.out.r
    decreases DialerLeft(s)
  {
    var a := DialerStep(s);
    DoKeepsInv(s, a);
    acts, t := [], Do(s, a);
    if t.dialer.phase.Running? {
      acts, t := DialerCanReturn(t);
    }
    acts := [a] + acts;
  }

  /** And so does the listener's. */
  lemma {:induction false} ListenerCanReturn(s: State) returns (acts: seq<Act>, t: State)
    requires Inv(s) && s.listener.phase.Running?
    ensures Run(s, acts, t) && t.listener.phase.Returned? && |acts| <= ListenerLeft(s) <= 8
    ensures t.dialer == s.dialer && t.out.s == s.out.s && t.back.r == s.back.r
    decreases ListenerLeft(s)
  {
    var a := ListenerStep(s);
    DoKeepsInv(s, a);
    acts, t := [], Do(s, a);
    if t.listener.phase.Running? {
      acts, t := ListenerCanReturn(t);
    }
    acts := [a] + acts;
  }

  /** Every forward that has begun can return. */
  lemma ForwardsCanReturn(greets: bool, checks: bool, a: Bytes, b: Bytes, s: State)
    returns (atDialer: State, atListener: State)
    requires Reached(greets, checks, a, b, s)
    ensures s.dialer.phase.Running? ==>
      (exists acts :: Run(s, acts, atDialer) && |acts| <= 8) && atDialer.dialer.phase.Returned? && atDialer.listener == s.listener
    ensures s.listener.phase.Running? ==>
      (exists acts :: Run(s, acts, atListener) && |acts| <= 8) && atListener.listener.phase.Returned? && atListener.dialer == s.dialer
  {
    ReachedInv(greets, checks, a, b, s);
    atDialer, atListener := s, s;
    var acts;
    if s.dialer.phase.Running? {
      acts, atDialer := DialerCanReturn(s);
    }
    if s.listener.phase.Running? {
      acts, atListener := ListenerCanReturn(s);
    }
  }
}
