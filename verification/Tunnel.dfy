/**
 The pipe of cmd/go-iroh-dumbpipe: openPipe and forward at the dialer, acceptPipe and forward at
 the listener, over one QUIC stream.

 Each direction of the stream has two goroutines: the sender's io.Copy from its source and the
 receiver's io.Copy to its destination. A goroutine's next move is one `act`; any interleaving, any
 split of reads and writes, and a failure of any call are all runs. `wire` is everything written to
 the stream, of which the first `taken` bytes have been read, and `fin` says the write side is
 closed. A stream delivers in order and reports its end only after its last byte.
 */
module Tunnel {
  import opened Common

  /** "hello" */
  const HANDSHAKE: Bytes := [104, 101, 108, 108, 111]

  /** What a Read returned beside its bytes. */
  datatype After = More | Eof | Failed

  datatype SendPc =
    | Greeting(left: Bytes)             // openPipe is writing the handshake
    | Reading                           // io.Copy(stream, src)
    | Writing(buf: Bytes, after: After)
    | Closing(err: bool)                // closeWrite(stream)
    | Reporting(err: bool)              // errc <- err
    | SendDone(err: bool)
    | NeverSent                         // openPipe failed

  datatype RecvPc =
    | Accepting                         // acceptPipe is in conn.AcceptStream
    | Checking(got: Bytes)              // readHandshake
    | Receiving                         // io.Copy(dst, stream)
    | Delivering(buf: Bytes, after: After)
    | Shutting(err: bool)               // dst.CloseWrite, where dst has one
    | Telling(err: bool)                // errc <- err
    | RecvDone(err: bool)
    | Refused(mismatch: bool)           // acceptPipe failed

  /** failed remembers that io.Copy ended in an error, closeFailed that closeWrite did. */
  datatype Sender = Sender(hello: Bytes, src: Bytes, read: nat, pc: SendPc, failed: bool, closeFailed: bool,
                           wire: Bytes, fin: bool)

  /** canClose says that dst has a CloseWrite, closed that it has been called. */
  datatype Receiver = Receiver(want: Bytes, canClose: bool, pc: RecvPc, failed: bool, taken: nat, dst: Bytes,
                               closed: bool)

  datatype Phase = Setup | Running | Returned(err: bool) | Abandoned

  /** One end's forward: the channel its goroutines report on and what it has received from it. */
  datatype Forward = Forward(phase: Phase, errc: seq<bool>, got: seq<bool>)

  const ERRC_CAPACITY := 2

  datatype SendAct = Greet(k: nat) | GreetFail | Read(n: nat, after: After) | Write(k: nat) | WriteFail
                   | Close(fin: bool, err: bool) | Report

  datatype RecvAct = Accept | AcceptFail | Check(k: nat) | CheckFail | Recv(n: nat, after: After) | Deliver(k: nat) | DeliverFail
                   | Shut | Tell

  // ---------------------------------------------------------------------------------------------
  // The goroutines.

  /** io.Copy's loop, when the bytes it read are written: on, or out with or without an error. */
  function SendNext(s: Sender, after: After): Sender {
    match after
    case More => s.(pc := Reading)
    case Eof => s.(pc := Closing(false))
    case Failed => s.(pc := Closing(true), failed := true)
  }

  predicate SendEnabled(s: Sender, e: Forward, a: SendAct) {
    match a
    case Greet(k) => s.pc.Greeting? && 0 < k <= |s.pc.left|
    case GreetFail => s.pc.Greeting?
    case Read(n, after) =>
      s.pc.Reading? && e.phase.Running? && s.read + n <= |s.src| && (after == Eof ==> s.read + n == |s.src|)
    case Write(k) => s.pc.Writing? && 0 < k <= |s.pc.buf|
    case WriteFail => s.pc.Writing?
    case Close(fin, err) => s.pc.Closing? && (fin || err)
    case Report => s.pc.Reporting? && |e.errc| < ERRC_CAPACITY
  }

  function DoSend(s: Sender, a: SendAct, e: Forward): Sender
    requires SendEnabled(s, e, a)
  {
    match a
    case Greet(k) =>
      var left := s.pc.left;
      s.(wire := s.wire + left[..k], pc := if k == |left| then Reading else Greeting(left[k..]))
    case GreetFail => s.(pc := NeverSent)
    case Read(n, after) =>
      if n == 0 then SendNext(s, after)
      else s.(read := s.read + n, pc := Writing(s.src[s.read..s.read + n], after))
    case Write(k) =>
      var buf := s.pc.buf;
      var s' := s.(wire := s.wire + buf[..k]);
      if k == |buf| then SendNext(s', s.pc.after) else s'.(pc := Writing(buf[k..], s.pc.after))
    case WriteFail => SendNext(s, Failed)
    case Close(fin, err) => s.(fin := fin, closeFailed := err, pc := Reporting(s.pc.err || err))
    case Report => s.(pc := SendDone(s.pc.err))
  }

  /** What a sender's act does to its end's forward. */
  function AfterSend(s: Sender, a: SendAct, e: Forward): Forward
    requires SendEnabled(s, e, a)
  {
    match a
    case Greet(k) => if k == |s.pc.left| then e.(phase := Running) else e
    case GreetFail => e.(phase := Abandoned)
    case Report => e.(errc := e.errc + [s.pc.err])
    case _ => e
  }

  function RecvNext(r: Receiver, after: After): Receiver {
    match after
    case More => r.(pc := Receiving)
    case Eof => r.(pc := Shutting(false))
    case Failed => r.(pc := Shutting(true), failed := true)
  }

  predicate RecvEnabled(r: Receiver, wire: Bytes, fin: bool, e: Forward, a: RecvAct) {
    match a
    case Accept => r.pc.Accepting? && (wire != [] || fin)
    case AcceptFail => r.pc.Accepting?
    case Check(k) => r.pc.Checking? && 0 < k && |r.pc.got| + k <= |r.want| && r.taken + k <= |wire|
    case CheckFail => r.pc.Checking?
    case Recv(n, after) =>
      && r.pc.Receiving? && e.phase.Running? && r.taken + n <= |wire|
      && (after == Eof ==> fin && r.taken + n == |wire|)
    case Deliver(k) => r.pc.Delivering? && 0 < k <= |r.pc.buf|
    case DeliverFail => r.pc.Delivering?
    case Shut => r.pc.Shutting?
    case Tell => r.pc.Telling? && |e.errc| < ERRC_CAPACITY
  }

  /** readHandshake, with k more bytes read: on, through, or refused. */
  function Checked(r: Receiver, got: Bytes): RecvPc {
    if |got| < |r.want| then Checking(got) else if got == r.want then Receiving else Refused(true)
  }

  function DoRecv(r: Receiver, wire: Bytes, fin: bool, a: RecvAct, e: Forward): Receiver
    requires RecvEnabled(r, wire, fin, e, a)
  {
    match a
    case Accept => r.(pc := Checked(r, []))
    case AcceptFail => r.(pc := Refused(false))
    case Check(k) => r.(taken := r.taken + k, pc := Checked(r, r.pc.got + wire[r.taken..r.taken + k]))
    case CheckFail => r.(pc := Refused(false))
    case Recv(n, after) =>
      if n == 0 then RecvNext(r, after)
      else r.(taken := r.taken + n, pc := Delivering(wire[r.taken..r.taken + n], after))
    case Deliver(k) =>
      var buf := r.pc.buf;
      var r' := r.(dst := r.dst + buf[..k]);
      if k == |buf| then RecvNext(r', r.pc.after) else r'.(pc := Delivering(buf[k..], r.pc.after))
    case DeliverFail => RecvNext(r, Failed)
    case Shut => r.(closed := r.canClose, pc := Telling(r.pc.err))
    case Tell => r.(pc := RecvDone(r.pc.err))
  }

  function AfterRecv(r: Receiver, wire: Bytes, fin: bool, a: RecvAct, e: Forward): Forward
    requires RecvEnabled(r, wire, fin, e, a)
  {
    match a
    case Accept => if r.want == [] then e.(phase := Running) else e
    case AcceptFail => e.(phase := Abandoned)
    case Check(k) =>
      match Checked(r, r.pc.got + wire[r.taken..r.taken + k]) {
        case Receiving => e.(phase := Running)
        case Refused(_) => e.(phase := Abandoned)
        case _ => e
      }
    case CheckFail => e.(phase := Abandoned)
    case Tell => e.(errc := e.errc + [r.pc.err])
    case _ => e
  }

  /** forward's own loop: two receives, remembering whether either brought an error. */
  predicate MainEnabled(e: Forward) {
    e.phase.Running? && |e.errc| > 0
  }

  function DoMain(e: Forward): Forward
    requires MainEnabled(e)
  {
    var got := e.got + [e.errc[0]];
    Forward(if |got| == 2 then Returned(true in got) else Running, e.errc[1..], got)
  }

  // ---------------------------------------------------------------------------------------------
  // Both ends together.

  datatype Pipe = Pipe(s: Sender, r: Receiver)

  /** out carries the dialer's source to the listener, back the listener's to the dialer. */
  datatype State = State(out: Pipe, back: Pipe, dialer: Forward, listener: Forward)

  datatype Act = OutSend(s: SendAct) | OutRecv(r: RecvAct) | BackSend(s: SendAct) | BackRecv(r: RecvAct)
               | DialerMain | ListenerMain

  predicate Enabled(s: State, a: Act) {
    match a
    case OutSend(b) => SendEnabled(s.out.s, s.dialer, b)
    case OutRecv(b) => RecvEnabled(s.out.r, s.out.s.wire, s.out.s.fin, s.listener, b)
    case BackSend(b) => SendEnabled(s.back.s, s.listener, b)
    case BackRecv(b) => RecvEnabled(s.back.r, s.back.s.wire, s.back.s.fin, s.dialer, b)
    case DialerMain => MainEnabled(s.dialer)
    case ListenerMain => MainEnabled(s.listener)
  }

  function SendPipe(p: Pipe, a: SendAct, e: Forward): Pipe
    requires SendEnabled(p.s, e, a)
  {
    p.(s := DoSend(p.s, a, e))
  }

  function RecvPipe(p: Pipe, a: RecvAct, e: Forward): Pipe
    requires RecvEnabled(p.r, p.s.wire, p.s.fin, e, a)
  {
    p.(r := DoRecv(p.r, p.s.wire, p.s.fin, a, e))
  }

  function Do(s: State, a: Act): State
    requires Enabled(s, a)
  {
    match a
    case OutSend(b) => s.(out := SendPipe(s.out, b, s.dialer), dialer := AfterSend(s.out.s, b, s.dialer))
    case OutRecv(b) =>
      s.(out := RecvPipe(s.out, b, s.listener),
         listener := AfterRecv(s.out.r, s.out.s.wire, s.out.s.fin, b, s.listener))
    case BackSend(b) => s.(back := SendPipe(s.back, b, s.listener), listener := AfterSend(s.back.s, b, s.listener))
    case BackRecv(b) =>
      s.(back := RecvPipe(s.back, b, s.dialer),
         dialer := AfterRecv(s.back.r, s.back.s.wire, s.back.s.fin, b, s.dialer))
    case DialerMain => s.(dialer := DoMain(s.dialer))
    case ListenerMain => s.(listener := DoMain(s.listener))
  }

  function NewSender(hello: Bytes, src: Bytes): Sender {
    Sender(hello, src, 0, if hello == [] then Reading else Greeting(hello), false, false, [], false)
  }

  /**
   The dialer sends the handshake if `greets`, the listener expects it if `checks`. The listener
   has no stream until the dialer has written to it or closed it. `closes` says of the listener's
   and of the dialer's destination whether it has a write side to close.
   */
  function Start(greets: bool, checks: bool, dialerSrc: Bytes, listenerSrc: Bytes, closes: (bool, bool)): State {
    State(Pipe(NewSender(if greets then HANDSHAKE else [], dialerSrc),
               Receiver(if checks then HANDSHAKE else [], closes.0, Accepting, false, 0, [], false)),
          Pipe(NewSender([], listenerSrc), Receiver([], closes.1, Receiving, false, 0, [], false)),
          Forward(if greets then Setup else Running, [], []),
          Forward(Setup, [], []))
  }

  ghost predicate Run(s: State, acts: seq<Act>, t: State)
    decreases |acts|
  {
    if acts == [] then s == t
    else Enabled(s, acts[0]) && Run(Do(s, acts[0]), acts[1..], t)
  }

  // ---------------------------------------------------------------------------------------------
  // What every act keeps.

  /** Everything the sender is to put on the wire. */
  function Whole(s: Sender): Bytes {
    s.hello + s.src
  }

  predicate SenderInv(s: Sender) {
    && s.read <= |s.src|
    && s.wire <= Whole(s)
    && (s.fin ==> s.pc.Reporting? || s.pc.SendDone?)
    && (s.pc.Greeting? || s.pc.NeverSent? || s.hello <= s.wire)
    && match s.pc
       case Greeting(left) => |left| > 0 && s.read == 0 && s.wire + left == s.hello && !s.failed
       case Reading => s.wire == s.hello + s.src[..s.read] && !s.failed
       case Writing(buf, after) =>
         && |buf| > 0 && s.wire + buf == s.hello + s.src[..s.read] && !s.failed
         && (after == Eof ==> s.read == |s.src|)
       case Closing(err) => err == s.failed && (!err ==> s.wire == Whole(s))
       case Reporting(err) => Sent(s, err)
       case SendDone(err) => Sent(s, err)
       case NeverSent => true
  }

  /** The sender's outcome: without an error, everything is written and the stream closed. */
  predicate Sent(s: Sender, err: bool) {
    && (err <==> s.failed || s.closeFailed)
    && (s.fin || s.closeFailed)
    && (!s.failed ==> s.wire == Whole(s))
    && (!err ==> !s.failed && s.fin)
  }

  predicate ReceiverInv(r: Receiver, wire: Bytes, fin: bool) {
    && r.taken <= |wire|
    && (r.closed <==> r.canClose && (r.pc.Telling? || r.pc.RecvDone?))
    && match r.pc
       case Accepting => r.taken == 0 && r.dst == [] && !r.failed
       case Checking(got) => |got| < |r.want| && got == wire[..r.taken] && r.dst == [] && !r.failed
       case Receiving => r.want + r.dst == wire[..r.taken] && !r.failed
       case Delivering(buf, after) =>
         && |buf| > 0 && r.want + r.dst + buf == wire[..r.taken] && !r.failed
         && (after == Eof ==> fin && r.taken == |wire|)
       case Shutting(err) => Received(r, wire, fin, err)
       case Telling(err) => Received(r, wire, fin, err)
       case RecvDone(err) => Received(r, wire, fin, err)
       case Refused(mismatch) => r.dst == [] && (mismatch ==> |r.want| <= |wire| && wire[..|r.want|] != r.want)
  }

  predicate Received(r: Receiver, wire: Bytes, fin: bool, err: bool) {
    && err == r.failed
    && r.want + r.dst <= wire
    && (!err ==> fin && r.want + r.dst == wire)
  }

  predicate PipeInv(p: Pipe) {
    SenderInv(p.s) && ReceiverInv(p.r, p.s.wire, p.s.fin)
  }

  /** An end's reports: one from each goroutine that has finished, and an error among them iff one failed. */
  predicate ForwardInv(e: Forward, send: SendPc, recv: RecvPc) {
    && |e.errc| + |e.got| == (if send.SendDone? then 1 else 0) + (if recv.RecvDone? then 1 else 0)
    && ((true in e.errc || true in e.got) <==> ((send.SendDone? && send.err) || (recv.RecvDone? && recv.err)))
    && (e.phase.Running? ==> |e.got| < 2)
    && (e.phase.Returned? ==> |e.got| == 2 && e.phase.err == (true in e.got))
    && (e.phase.Setup? <==> send.Greeting? || recv.Accepting? || recv.Checking?)
    && (e.phase.Abandoned? <==> send.NeverSent? || recv.Refused?)
    && (e.phase.Setup? || e.phase.Abandoned? ==>
          && (send.Greeting? || send.Reading? || send.NeverSent?)
          && (recv.Accepting? || recv.Checking? || recv.Receiving? || recv.Refused?))
    && (send.Greeting? ==> recv.Receiving?)
    && (recv.Accepting? || recv.Checking? ==> send.Reading?)
  }

  /** Only openPipe greets and only acceptPipe checks. */
  predicate Roles(s: State) {
    && s.back.s.hello == [] && s.back.r.want == []
    && !s.back.s.pc.Greeting? && !s.back.s.pc.NeverSent? && !s.back.r.pc.Accepting?
    && !s.back.r.pc.Checking? && !s.back.r.pc.Refused?
  }

  /** The listener is set up only on a stream that carries something, and does nothing before. */
  predicate Opened(s: State) {
    && (s.out.r.pc.Accepting? || s.out.r.pc.Refused? || s.out.s.wire != [] || s.out.s.fin)
    && (s.out.r.pc.Accepting? || s.out.r.pc.Checking? || s.out.r.pc.Refused? ==>
          s.back.s.read == 0 && s.back.s.wire == [] && !s.back.s.fin && s.back.s.pc.Reading?)
  }

  predicate Inv(s: State) {
    && Opened(s)
    && PipeInv(s.out) && PipeInv(s.back) && Roles(s)
    && ForwardInv(s.dialer, s.out.s.pc, s.back.r.pc)
    && ForwardInv(s.listener, s.back.s.pc, s.out.r.pc)
  }

  lemma SendKeepsSender(s: Sender, e: Forward, a: SendAct)
    requires SenderInv(s) && SendEnabled(s, e, a)
    ensures SenderInv(DoSend(s, a, e))
  {
    match a
    case Greet(k) =>
      var left := s.pc.left;
      Assoc(s.wire, left[..k], left[k..]);
      assert left[..k] + left[k..] == left;
      assert s.hello + s.src[..0] == s.hello;
      assert s.wire + left[..k] <= s.wire + left;
    case Read(n, after) =>
      assert s.src[..s.read] + s.src[s.read..s.read + n] == s.src[..s.read + n];
      Assoc(s.hello, s.src[..s.read], s.src[s.read..s.read + n]);
      assert s.src[..|s.src|] == s.src;
    case Write(k) => WriteKeepsSender(s, e, k);
    case _ =>
  }

  lemma WriteKeepsSender(s: Sender, e: Forward, k: nat)
    requires SenderInv(s) && SendEnabled(s, e, Write(k))
    ensures SenderInv(DoSend(s, Write(k), e))
  {
    var buf := s.pc.buf;
    var wire := s.wire + buf[..k];
    Assoc(s.wire, buf[..k], buf[k..]);
    assert buf[..k] + buf[k..] == buf;
    assert s.src[..|s.src|] == s.src;
    assert wire <= s.wire + buf <= Whole(s);
    assert k == |buf| ==> wire == s.wire + buf;
  }

  lemma SendOnlyAppends(s: Sender, e: Forward, a: SendAct)
    requires SenderInv(s) && SendEnabled(s, e, a)
    ensures var s' := DoSend(s, a, e);
            && s.wire <= s'.wire && (s.fin ==> s'.fin && s'.wire == s.wire)
            && s'.hello == s.hello && s'.src == s.src
  {
  }

  /** The receiver's half holds on as the wire grows, and the wire stops growing at fin. */
  lemma ReceiverKeeps(r: Receiver, wire: Bytes, fin: bool, wire': Bytes, fin': bool)
    requires ReceiverInv(r, wire, fin)
    requires wire <= wire' && (fin ==> fin' && wire' == wire)
    ensures ReceiverInv(r, wire', fin')
  {
    assert wire'[..r.taken] == wire[..r.taken];
    if r.pc.Refused? && r.pc.mismatch {
      assert wire'[..|r.want|] == wire[..|r.want|];
    }
  }

  lemma DeliverKeepsReceiver(r: Receiver, wire: Bytes, fin: bool, e: Forward, k: nat)
    requires ReceiverInv(r, wire, fin) && RecvEnabled(r, wire, fin, e, Deliver(k))
    ensures ReceiverInv(DoRecv(r, wire, fin, Deliver(k), e), wire, fin)
  {
    var buf := r.pc.buf;
    Assoc(r.want + r.dst, buf[..k], buf[k..]);
    Assoc(r.want, r.dst, buf[..k]);
    assert buf[..k] + buf[k..] == buf;
    assert wire[..|wire|] == wire;
    assert r.want + (r.dst + buf[..k]) <= r.want + r.dst + buf;
    assert k == |buf| ==> r.want + (r.dst + buf[..k]) == r.want + r.dst + buf;
  }

  lemma CheckKeepsReceiver(r: Receiver, wire: Bytes, fin: bool, e: Forward, a: RecvAct)
    requires ReceiverInv(r, wire, fin) && RecvEnabled(r, wire, fin, e, a) && (a.Accept? || a.Check?)
    ensures ReceiverInv(DoRecv(r, wire, fin, a, e), wire, fin)
  {
    assert r.want + [] == r.want;
    match a
    case Accept => assert wire[..0] == [];
    case Check(k) => assert wire[..r.taken] + wire[r.taken..r.taken + k] == wire[..r.taken + k];
  }

  lemma RecvKeepsReceiver(r: Receiver, wire: Bytes, fin: bool, e: Forward, a: RecvAct)
    requires ReceiverInv(r, wire, fin) && RecvEnabled(r, wire, fin, e, a)
    ensures ReceiverInv(DoRecv(r, wire, fin, a, e), wire, fin)
  {
    match a
    case Accept => CheckKeepsReceiver(r, wire, fin, e, a);
    case Check(_) => CheckKeepsReceiver(r, wire, fin, e, a);
    case Recv(n, after) =>
      assert wire[..r.taken] + wire[r.taken..r.taken + n] == wire[..r.taken + n];
      assert wire[..|wire|] == wire;
    case Deliver(k) => DeliverKeepsReceiver(r, wire, fin, e, k);
    case _ =>
  }

  lemma ReportAdds(errc: seq<bool>, err: bool)
    ensures true in errc + [err] <==> true in errc || err
  {
  }

  lemma SendKeepsForward(s: Sender, e: Forward, a: SendAct, recv: RecvPc)
    requires SendEnabled(s, e, a) && ForwardInv(e, s.pc, recv)
    ensures ForwardInv(AfterSend(s, a, e), DoSend(s, a, e).pc, recv)
  {
    if a.Report? {
      ReportAdds(e.errc, s.pc.err);
    }
  }

  lemma RecvKeepsForward(r: Receiver, wire: Bytes, fin: bool, e: Forward, a: RecvAct, send: SendPc)
    requires RecvEnabled(r, wire, fin, e, a) && ForwardInv(e, send, r.pc)
    ensures ForwardInv(AfterRecv(r, wire, fin, a, e), send, DoRecv(r, wire, fin, a, e).pc)
  {
    if a.Tell? {
      ReportAdds(e.errc, r.pc.err);
    }
  }

  lemma MainKeepsForward(e: Forward, send: SendPc, recv: RecvPc)
    requires MainEnabled(e) && ForwardInv(e, send, recv)
    ensures ForwardInv(DoMain(e), send, recv)
  {
    assert e.errc == [e.errc[0]] + e.errc[1..];
  }

  lemma SendKeepsPipe(p: Pipe, e: Forward, a: SendAct)
    requires PipeInv(p) && SendEnabled(p.s, e, a)
    ensures PipeInv(SendPipe(p, a, e))
  {
    SendKeepsSender(p.s, e, a);
    SendOnlyAppends(p.s, e, a);
    var s' := DoSend(p.s, a, e);
    ReceiverKeeps(p.r, p.s.wire, p.s.fin, s'.wire, s'.fin);
  }

  lemma DoKeepsOpened(s: State, a: Act)
    requires Inv(s) && Enabled(s, a)
    ensures Opened(Do(s, a))
  {
    match a
    case OutSend(b) => SendOnlyAppends(s.out.s, s.dialer, b);
    case _ =>
  }

  lemma DoKeepsInv(s: State, a: Act)
    requires Inv(s) && Enabled(s, a)
    ensures Inv(Do(s, a))
  {
    DoKeepsOpened(s, a);
    match a
    case OutSend(b) =>
      SendKeepsPipe(s.out, s.dialer, b);
      SendKeepsForward(s.out.s, s.dialer, b, s.back.r.pc);
    case OutRecv(b) =>
      RecvKeepsReceiver(s.out.r, s.out.s.wire, s.out.s.fin, s.listener, b);
      RecvKeepsForward(s.out.r, s.out.s.wire, s.out.s.fin, s.listener, b, s.back.s.pc);
    case BackSend(b) =>
      SendKeepsPipe(s.back, s.listener, b);
      SendKeepsForward(s.back.s, s.listener, b, s.out.r.pc);
      BackSendKeepsRoles(s, b);
    case BackRecv(b) =>
      RecvKeepsReceiver(s.back.r, s.back.s.wire, s.back.s.fin, s.dialer, b);
      RecvKeepsForward(s.back.r, s.back.s.wire, s.back.s.fin, s.dialer, b, s.out.s.pc);
      BackRecvKeepsRoles(s, b);
    case DialerMain => MainKeepsForward(s.dialer, s.out.s.pc, s.back.r.pc);
    case ListenerMain => MainKeepsForward(s.listener, s.back.s.pc, s.out.r.pc);
  }

  lemma BackSendKeepsRoles(s: State, b: SendAct)
    requires Roles(s) && Enabled(s, BackSend(b))
    ensures Roles(Do(s, BackSend(b)))
  {
  }

  lemma BackRecvKeepsRoles(s: State, b: RecvAct)
    requires Roles(s) && Enabled(s, BackRecv(b))
    ensures Roles(Do(s, BackRecv(b)))
  {
  }

  lemma {:induction false} RunKeepsInv(s: State, acts: seq<Act>, t: State)
    requires Inv(s) && Run(s, acts, t)
    ensures Inv(t)
    decreases |acts|
  {
    if acts != [] {
      DoKeepsInv(s, acts[0]);
      RunKeepsInv(Do(s, acts[0]), acts[1..], t);
    }
  }
}
