/**
 initiateSync against respondSync of cmd/go-iroh-automerge, over two reliable byte channels.

 The Automerge sync state is abstract: `generate` is GenerateMessage and `receive` is
 ReceiveMessage, None its error. Reads and writes move any number of bytes at a time, and the two
 parties interleave in any way. A party that returns closes its stream, so its peer reads what is
 left and then the end, which is an error there; a write to a party that has returned may go
 through or fail. `Exchange` is the sequential conversation the program is meant to be.
 */
module LockStep {
  import opened Common
  import opened Endian
  import opened SyncFrames

  /** A message's length is a Go int, which the header's 64 bits hold. */
  type Message = b: Bytes | |b| < TWO64

  datatype Library<!S> = Library(generate: S -> (Option<Message>, S), receive: (S, Bytes) -> Option<S>)

  datatype Pc =
    | Generating
    | Sending(left: Bytes)
    | ReadingHeader(got: Bytes)
    | ReadingBody(n: nat, got: Bytes)
    | Finished      // returned nil
    | Failed        // returned an error
  {
    predicate Returned() {
      Finished? || Failed?
    }

    predicate Reading() {
      ReadingHeader? || ReadingBody?
    }
  }

  datatype Party<S> = Party(pc: Pc, state: S, localDone: bool, remoteDone: bool)

  datatype Role = Initiator | Responder

  /** turn is history: how many frames have been received whole. */
  datatype State<S> = State(initiator: Party<S>, responder: Party<S>, toResponder: Bytes, toInitiator: Bytes, turn: nat)

  /** ReadEnd reads the end of a stream whose writer has returned; PushFails is a write refused. */
  datatype Act = Generate(who: Role) | Push(who: Role, k: nat) | PushFails(who: Role)
               | Pull(who: Role, k: nat) | ReadEnd(who: Role)

  function Other(who: Role): Role {
    if who == Initiator then Responder else Initiator
  }

  function PartyOf<S>(s: State<S>, who: Role): Party<S> {
    if who == Initiator then s.initiator else s.responder
  }

  /** The channel a party reads from. */
  function Inbox<S>(s: State<S>, who: Role): Bytes {
    if who == Initiator then s.toInitiator else s.toResponder
  }

  function With<S>(s: State<S>, who: Role, p: Party<S>): State<S> {
    if who == Initiator then s.(initiator := p) else s.(responder := p)
  }

  function WithInbox<S>(s: State<S>, who: Role, b: Bytes): State<S> {
    if who == Initiator then s.(toInitiator := b) else s.(toResponder := b)
  }

  /** The loop after its send: respondSync may return, initiateSync goes on to read. */
  function AfterSend(who: Role, localDone: bool, remoteDone: bool): Pc {
    if who == Responder && remoteDone && localDone then Finished else ReadingHeader([])
  }

  /** The loop after its receive: initiateSync may return, respondSync goes on to answer. */
  function AfterReceive(who: Role, localDone: bool, remoteDone: bool): Pc {
    if who == Initiator && localDone && remoteDone then Finished else Generating
  }

  predicate Enabled<S>(s: State<S>, a: Act) {
    var p := PartyOf(s, a.who);
    match a
    case Generate(_) => p.pc.Generating?
    case Push(_, k) => p.pc.Sending? && 0 < k <= |p.pc.left|
    case PushFails(who) => p.pc.Sending? && PartyOf(s, Other(who)).pc.Returned()
    case ReadEnd(who) => p.pc.Reading() && Inbox(s, who) == [] && PartyOf(s, Other(who)).pc.Returned()
    case Pull(who, k) =>
      0 < k <= |Inbox(s, who)| && match p.pc {
        case ReadingHeader(got) => |got| + k <= HEADER_SIZE
        case ReadingBody(n, got) => |got| + k <= n
        case _ => false
      }
  }

  /** A party that has read k more bytes, and whether they completed a frame. */
  function Pulled<S>(lib: Library<S>, who: Role, p: Party<S>, piece: Bytes): (Party<S>, bool) {
    match p.pc
    case ReadingHeader(got) =>
      var got := got + piece;
      if |got| < HEADER_SIZE then (p.(pc := ReadingHeader(got)), false)
      else
        var n := FromLittle(got);
        if n == 0 then (p.(remoteDone := true, pc := AfterReceive(who, p.localDone, true)), true)
        else if n > MAX_SYNC_MESSAGE_SIZE then (p.(pc := Failed), false)
        else (p.(pc := ReadingBody(n, [])), false)
    case ReadingBody(n, got) =>
      var got := got + piece;
      if |got| < n then (p.(pc := ReadingBody(n, got)), false)
      else
        match lib.receive(p.state, got) {
          case None => (p.(pc := Failed), false)
          case Some(state) =>
            (p.(state := state, remoteDone := false, pc := AfterReceive(who, p.localDone, false)), true)
        }
    case _ => (p, false)
  }

  function Do<S>(lib: Library<S>, s: State<S>, a: Act): State<S>
    requires Enabled(s, a)
  {
    var p := PartyOf(s, a.who);
    match a
    case Generate(who) =>
      var (msg, state) := lib.generate(p.state);
      With(s, who, p.(state := state, localDone := msg.None?, pc := Sending(Frame(msg))))
    case Push(who, k) =>
      var left := p.pc.left;
      var s' := WithInbox(s, Other(who), Inbox(s, Other(who)) + left[..k]);
      With(s', who, p.(pc := if k == |left| then AfterSend(who, p.localDone, p.remoteDone) else Sending(left[k..])))
    case PushFails(who) => With(s, who, p.(pc := Failed))
    case ReadEnd(who) => With(s, who, p.(pc := Failed))
    case Pull(who, k) =>
      var inbox := Inbox(s, who);
      var (p', whole) := Pulled(lib, who, p, inbox[..k]);
      With(WithInbox(s, who, inbox[k..]), who, p').(turn := if whole then s.turn + 1 else s.turn)
  }

  function Start<S>(i: S, r: S): State<S> {
    State(Party(Generating, i, false, false), Party(ReadingHeader([]), r, false, false), [], [], 0)
  }

  ghost predicate Run<S>(lib: Library<S>, s: State<S>, acts: seq<Act>, t: State<S>)
    decreases |acts|
  {
    if acts == [] then s == t
    else Enabled(s, acts[0]) && Run(lib, Do(lib, s, acts[0]), acts[1..], t)
  }

  // ---------------------------------------------------------------------------------------------
  // The conversation, one turn at a time.

  function Speaker(turn: nat): Role {
    if turn % 2 == 0 then Initiator else Responder
  }

  datatype Pair<S> = Pair(initiator: S, responder: S)

  function StateOf<S>(p: Pair<S>, who: Role): S {
    if who == Initiator then p.initiator else p.responder
  }

  /** A frame of length zero, which says "nothing more to send" whether it was meant to or not. */
  predicate Quiet(msg: Option<Bytes>) {
    msg.None? || msg.value == []
  }

  /** The listener's state once it has read a frame; a message it does not take leaves it as it is. */
  function Heard<S>(lib: Library<S>, listener: S, msg: Option<Bytes>): S {
    if Quiet(msg) then listener
    else match lib.receive(listener, msg.value) case Some(next) => next case None => listener
  }

  /** The two sync states once `turn` messages have been exchanged. */
  function Exchange<S>(lib: Library<S>, start: Pair<S>, turn: nat): Pair<S> {
    if turn == 0 then start
    else
      var p := Exchange(lib, start, turn - 1);
      var who := Speaker(turn - 1);
      var (msg, speaker) := lib.generate(StateOf(p, who));
      var heard := Heard(lib, StateOf(p, Other(who)), msg);
      if who == Initiator then Pair(speaker, heard) else Pair(heard, speaker)
  }

  /** What is said at a turn, what its speaker becomes, and who listens. */
  function Said<S>(lib: Library<S>, start: Pair<S>, turn: nat): Option<Message> {
    lib.generate(StateOf(Exchange(lib, start, turn), Speaker(turn))).0
  }

  function Spoken<S>(lib: Library<S>, start: Pair<S>, turn: nat): S {
    lib.generate(StateOf(Exchange(lib, start, turn), Speaker(turn))).1
  }

  function Listening<S>(lib: Library<S>, start: Pair<S>, turn: nat): S {
    StateOf(Exchange(lib, start, turn), Other(Speaker(turn)))
  }

  /** The listener refuses the message: it is over the bound, or ReceiveMessage fails. */
  predicate Refuses<S>(lib: Library<S>, listener: S, msg: Option<Bytes>) {
    !Quiet(msg) && (|msg.value| > MAX_SYNC_MESSAGE_SIZE || lib.receive(listener, msg.value).None?)
  }

  predicate Broken<S>(lib: Library<S>, start: Pair<S>, turn: nat) {
    Refuses(lib, Listening(lib, start, turn), Said(lib, start, turn))
  }

  /** At the end of a round, initiateSync has nothing to say and hears nothing. */
  predicate InitiatorStops<S>(lib: Library<S>, start: Pair<S>, turn: nat) {
    turn % 2 == 1 && Said(lib, start, turn - 1).None? && Quiet(Said(lib, start, turn))
  }

  /** At the end of a round, respondSync has heard nothing and has nothing to say. */
  predicate ResponderStops<S>(lib: Library<S>, start: Pair<S>, turn: nat) {
    turn % 2 == 1 && Quiet(Said(lib, start, turn - 1)) && Said(lib, start, turn).None?
  }

  predicate Stops<S>(lib: Library<S>, start: Pair<S>, turn: nat) {
    Broken(lib, start, turn) || InitiatorStops(lib, start, turn) || ResponderStops(lib, start, turn)
  }

  ghost predicate NotOver<S>(lib: Library<S>, start: Pair<S>, turn: nat) {
    forall t: nat | t < turn :: !Stops(lib, start, t)
  }

  /** The turn at which the conversation ends, one way or the other. */
  ghost predicate LastTurn<S>(lib: Library<S>, start: Pair<S>, turn: nat) {
    NotOver(lib, start, turn) && Stops(lib, start, turn)
  }

  /** No message of the conversation is empty, over the bound, or refused. */
  ghost predicate Agreeable<S>(lib: Library<S>, start: Pair<S>) {
    forall turn: nat | NotOver(lib, start, turn) ::
      Said(lib, start, turn) != Some([]) && !Broken(lib, start, turn)
  }

  // ---------------------------------------------------------------------------------------------
  // One frame in flight.

  /** The part of the current frame a party has read. */
  function Taken(pc: Pc): Bytes {
    match pc
    case ReadingHeader(got) => got
    case ReadingBody(n, got) => Little(n, HEADER_SIZE) + got
    case _ => []
  }

  predicate ReaderOk(pc: Pc) {
    match pc
    case ReadingHeader(got) => |got| < HEADER_SIZE
    case ReadingBody(n, got) => 0 < n <= MAX_SYNC_MESSAGE_SIZE && |got| < n
    case _ => false
  }

  /** The frame is what was read of it, what is on the channel, and what is still to be written. */
  predicate InFlight(msg: Option<Bytes>, reader: Pc, channel: Bytes, left: Bytes) {
    ReaderOk(reader) && Taken(reader) + (channel + left) == Frame(msg)
  }

  lemma HeaderOfFrame(msg: Option<Message>, got: Bytes, rest: Bytes)
    requires |got| == HEADER_SIZE && got + rest == Frame(msg)
    ensures var b := if msg.None? then [] else msg.value;
            FromLittle(got) == |b| && got == Little(|b|, HEADER_SIZE) && rest == b
  {
    Widths();
    var b: Message := if msg.None? then [] else msg.value;
    LittleMeans(|b|, HEADER_SIZE);
    assert Frame(msg) == Little(|b|, HEADER_SIZE) + b;
    SplitEqual(got, Little(|b|, HEADER_SIZE), rest, b);
  }

  lemma BodyOfFrame(msg: Option<Message>, n: nat, got: Bytes, rest: Bytes)
    requires 0 < n <= MAX_SYNC_MESSAGE_SIZE && |got| <= n
    requires (Little(n, HEADER_SIZE) + got) + rest == Frame(msg)
    ensures msg.Some? && |msg.value| == n && got + rest == msg.value
    ensures |got| == n ==> got == msg.value && rest == []
  {
    Widths();
    LittleMeans(n, HEADER_SIZE);
    Assoc(Little(n, HEADER_SIZE), got, rest);
    HeaderOfFrame(msg, Little(n, HEADER_SIZE), got + rest);
    if |got| == n {
      assert rest == [] && got + rest == got;
    }
  }

  /** A reader still short of the frame's end has bytes to read once all are written. */
  lemma ChannelNotEmpty(msg: Option<Message>, reader: Pc, channel: Bytes)
    requires InFlight(msg, reader, channel, [])
    ensures |channel| > 0
  {
    Widths();
    assert channel + [] == channel;
    if reader.ReadingBody? {
      BodyOfFrame(msg, reader.n, reader.got, channel);
    }
  }

  lemma PullHeader<S>(lib: Library<S>, who: Role, p: Party<S>, msg: Option<Message>, channel: Bytes, left: Bytes, k: nat)
    requires InFlight(msg, p.pc, channel, left) && 0 < k <= |channel|
    requires p.pc.ReadingHeader? && |p.pc.got| + k <= HEADER_SIZE
    ensures var (p', whole) := Pulled(lib, who, p, channel[..k]);
            if whole then
              && channel[k..] == [] && left == [] && !Refuses(lib, p.state, msg)
              && p' == p.(state := Heard(lib, p.state, msg), remoteDone := Quiet(msg),
                          pc := AfterReceive(who, p.localDone, Quiet(msg)))
            else if p'.pc.Failed? then Refuses(lib, p.state, msg) && p' == p.(pc := Failed)
            else InFlight(msg, p'.pc, channel[k..], left) && p' == p.(pc := p'.pc)
  {
    var got, rest := p.pc.got + channel[..k], channel[k..] + left;
    assert channel + left == channel[..k] + rest;
    Assoc(p.pc.got, channel[..k], rest);
    if |got| == HEADER_SIZE {
      HeaderOfFrame(msg, got, rest);
      if !Quiet(msg) {
        assert Little(|msg.value|, HEADER_SIZE) + [] == got;
      }
    }
  }

  lemma PullBody<S>(lib: Library<S>, who: Role, p: Party<S>, msg: Option<Message>, channel: Bytes, left: Bytes, k: nat)
    requires InFlight(msg, p.pc, channel, left) && 0 < k <= |channel|
    requires p.pc.ReadingBody? && |p.pc.got| + k <= p.pc.n
    ensures var (p', whole) := Pulled(lib, who, p, channel[..k]);
            if whole then
              && channel[k..] == [] && left == [] && !Refuses(lib, p.state, msg)
              && p' == p.(state := Heard(lib, p.state, msg), remoteDone := Quiet(msg),
                          pc := AfterReceive(who, p.localDone, Quiet(msg)))
            else if p'.pc.Failed? then Refuses(lib, p.state, msg) && p' == p.(pc := Failed)
            else InFlight(msg, p'.pc, channel[k..], left) && p' == p.(pc := p'.pc)
  {
    var n, got, rest := p.pc.n, p.pc.got + channel[..k], channel[k..] + left;
    assert channel + left == channel[..k] + rest;
    Assoc(Little(n, HEADER_SIZE) + p.pc.got, channel[..k], rest);
    Assoc(Little(n, HEADER_SIZE), p.pc.got, channel[..k]);
    BodyOfFrame(msg, n, got, rest);
  }

  /** Reading more of a frame in flight: it stays in flight, or it is taken whole, or it is refused. */
  lemma PullInFlight<S>(lib: Library<S>, who: Role, p: Party<S>, msg: Option<Message>, channel: Bytes, left: Bytes, k: nat)
    requires InFlight(msg, p.pc, channel, left) && 0 < k <= |channel|
    requires p.pc.ReadingHeader? ==> |p.pc.got| + k <= HEADER_SIZE
    requires p.pc.ReadingBody? ==> |p.pc.got| + k <= p.pc.n
    ensures var (p', whole) := Pulled(lib, who, p, channel[..k]);
            if whole then
              && channel[k..] == [] && left == [] && !Refuses(lib, p.state, msg)
              && p' == p.(state := Heard(lib, p.state, msg), remoteDone := Quiet(msg),
                          pc := AfterReceive(who, p.localDone, Quiet(msg)))
            else if p'.pc.Failed? then Refuses(lib, p.state, msg) && p' == p.(pc := Failed)
            else InFlight(msg, p'.pc, channel[k..], left) && p' == p.(pc := p'.pc)
  {
    if p.pc.ReadingHeader? {
      PullHeader(lib, who, p, msg, channel, left, k);
    } else {
      PullBody(lib, who, p, msg, channel, left, k);
    }
  }
}
