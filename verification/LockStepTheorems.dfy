/** What every run of cmd/go-iroh-automerge's two loops keeps, and how it ends. */
module LockStepTheorems {
  import opened Common
  import Endian
  import opened SyncFrames
  import opened LockStep

  /** What the speaker still has to write. */
  function Left(pc: Pc): Bytes {
    if pc.Sending? then pc.left else []
  }

  /** What a party remembers of the turn before: what it said, or what it heard. */
  ghost predicate Remembers<S>(lib: Library<S>, start: Pair<S>, s: State<S>) {
    s.turn % 2 == 1 ==>
      && s.initiator.localDone == Said(lib, start, s.turn - 1).None?
      && s.responder.remoteDone == Quiet(Said(lib, start, s.turn - 1))
  }

  function Size<S>(lib: Library<S>, start: Pair<S>, turn: nat): nat {
    |Frame(Said(lib, start, turn))|
  }

  /** Moves a party can still make once its peer has returned, at most. */
  function WindOf<S>(lib: Library<S>, p: Party<S>): nat {
    match p.pc
    case Generating => |Frame(lib.generate(p.state).0)| + 2
    case Sending(left) => |left| + 1
    case ReadingHeader(_) => 1
    case ReadingBody(_, _) => 1
    case _ => 0
  }

  function Wind<S>(lib: Library<S>, s: State<S>): nat {
    WindOf(lib, s.initiator) + WindOf(lib, s.responder)
  }

  /** And so after the last turn. */
  function Tail<S>(lib: Library<S>, start: Pair<S>, last: nat): nat {
    Size(lib, start, last) + Size(lib, start, last + 1) + 2
  }

  /** A conversation under way: one speaker, one frame, the other reading. */
  ghost predicate Talking<S>(lib: Library<S>, start: Pair<S>, s: State<S>) {
    var who := Speaker(s.turn);
    var speaker, reader := PartyOf(s, who), PartyOf(s, Other(who));
    var msg := Said(lib, start, s.turn);
    && Inbox(s, who) == []
    && reader.state == Listening(lib, start, s.turn)
    && NotOver(lib, start, s.turn)
    && if speaker.pc.Generating? then
         && speaker.state == StateOf(Exchange(lib, start, s.turn), who)
         && reader.pc == ReadingHeader([]) && Inbox(s, Other(who)) == []
       else
         && speaker.state == Spoken(lib, start, s.turn)
         && speaker.localDone == msg.None?
         && InFlight(msg, reader.pc, Inbox(s, Other(who)), Left(speaker.pc))
         && (if speaker.pc.Sending? then |speaker.pc.left| > 0
             else speaker.pc == AfterSend(who, speaker.localDone, speaker.remoteDone))
  }

  /** A party whose peer has returned: it has nothing left to read and cannot come to return nil. */
  predicate Winding<S>(s: State<S>, who: Role) {
    var p := PartyOf(s, who);
    && Inbox(s, who) == []
    && match p.pc
       case Generating => who == Initiator
       case Sending(left) => left != [] && (who == Responder ==> !p.localDone)
       case ReadingHeader(got) => got == []
       case _ => false
  }

  /** A party after the last turn: it returned nil if it stopped there, and else it fails or will. */
  ghost predicate Settled<S>(lib: Library<S>, start: Pair<S>, s: State<S>, who: Role, stopped: bool, last: nat) {
    var p := PartyOf(s, who);
    if stopped then p.pc.Finished? && p.state == StateOf(Exchange(lib, start, last + 1), who)
    else p.pc.Failed? || Winding(s, who)
  }

  /** The conversation after its last turn: one party has returned, and what the other does is settled. */
  ghost predicate Closing<S>(lib: Library<S>, start: Pair<S>, s: State<S>, last: nat) {
    && LastTurn(lib, start, last)
    && s.turn == (if Broken(lib, start, last) then last else last + 1)
    && (s.initiator.pc.Returned() || s.responder.pc.Returned())
    && (s.toInitiator == [] || s.toResponder == [])
    && Settled(lib, start, s, Initiator, InitiatorStops(lib, start, last), last)
    && Settled(lib, start, s, Responder, ResponderStops(lib, start, last), last)
    && (InitiatorStops(lib, start, last) && ResponderStops(lib, start, last) ==>
          s.toInitiator == [] && s.toResponder == [])
  }

  ghost predicate GoesOn<S>(lib: Library<S>, start: Pair<S>, s: State<S>) {
    Talking(lib, start, s) && Remembers(lib, start, s)
  }

  ghost predicate Inv<S>(lib: Library<S>, start: Pair<S>, s: State<S>) {
    GoesOn(lib, start, s) || exists last :: Closing(lib, start, s, last)
  }

  /** The last turn has just ended: the party left over has no more than its tail to do. */
  ghost predicate JustOver<S>(lib: Library<S>, start: Pair<S>, s: State<S>, last: nat) {
    Closing(lib, start, s, last) && Wind(lib, s) <= Tail(lib, start, last)
  }

  lemma LastTurnUnique<S>(lib: Library<S>, start: Pair<S>, a: nat, b: nat)
    requires LastTurn(lib, start, a) && LastTurn(lib, start, b)
    ensures a == b
  {
  }

  lemma GenerateKeeps<S>(lib: Library<S>, start: Pair<S>, s: State<S>, who: Role)
    requires GoesOn(lib, start, s) && Enabled(s, Generate(who))
    ensures GoesOn(lib, start, Do(lib, s, Generate(who)))
  {
    assert who == Speaker(s.turn);
    Endian.Widths();
    var msg := Said(lib, start, s.turn);
    assert [] + ([] + Frame(msg)) == Frame(msg);
  }

  lemma PushKeeps<S>(lib: Library<S>, start: Pair<S>, s: State<S>, who: Role, k: nat)
    requires GoesOn(lib, start, s) && Enabled(s, Push(who, k))
    ensures GoesOn(lib, start, Do(lib, s, Push(who, k)))
  {
    assert who == Speaker(s.turn);
    var left, channel := PartyOf(s, who).pc.left, Inbox(s, Other(who));
    Assoc(channel, left[..k], left[k..]);
    assert left[..k] + left[k..] == left;
  }

  /** While the conversation is under way there is no end to read and no write to be refused. */
  lemma NoEndYet<S>(lib: Library<S>, start: Pair<S>, s: State<S>, who: Role)
    requires Talking(lib, start, s)
    ensures !Enabled(s, PushFails(who)) && !Enabled(s, ReadEnd(who))
  {
    var sp := Speaker(s.turn);
    if !PartyOf(s, sp).pc.Generating? && !PartyOf(s, sp).pc.Sending? {
      ChannelNotEmpty(Said(lib, start, s.turn), PartyOf(s, Other(sp)).pc, Inbox(s, Other(sp)));
    }
  }

  lemma PullKeeps<S>(lib: Library<S>, start: Pair<S>, s: State<S>, who: Role, k: nat)
    requires GoesOn(lib, start, s) && Enabled(s, Pull(who, k))
    ensures GoesOn(lib, start, Do(lib, s, Pull(who, k))) || JustOver(lib, start, Do(lib, s, Pull(who, k)), s.turn)
  {
    var sp := Speaker(s.turn);
    assert who == Other(sp) && !PartyOf(s, sp).pc.Generating?;
    var reader, inbox := PartyOf(s, who), Inbox(s, who);
    PullInFlight(lib, who, reader, Said(lib, start, s.turn), inbox, Left(PartyOf(s, sp).pc), k);
    var (p', whole) := Pulled(lib, who, reader, inbox[..k]);
    if whole {
      TurnOver(lib, start, s, Do(lib, s, Pull(who, k)), who);
    } else if p'.pc.Failed? {
      Refused(lib, start, s, Do(lib, s, Pull(who, k)), who);
    } else {
      PullPart(lib, start, s, who, k, p');
    }
  }

  lemma PullPart<S>(lib: Library<S>, start: Pair<S>, s: State<S>, who: Role, k: nat, p': Party<S>)
    requires GoesOn(lib, start, s) && Enabled(s, Pull(who, k))
    requires who == Other(Speaker(s.turn)) && !PartyOf(s, Speaker(s.turn)).pc.Generating?
    requires Pulled(lib, who, PartyOf(s, who), Inbox(s, who)[..k]) == (p', false)
    requires p' == PartyOf(s, who).(pc := p'.pc)
    requires InFlight(Said(lib, start, s.turn), p'.pc, Inbox(s, who)[k..], Left(PartyOf(s, Speaker(s.turn)).pc))
    ensures GoesOn(lib, start, Do(lib, s, Pull(who, k)))
  {
  }

  /** A refused frame ends the conversation: the listener returns its error, and the speaker is stranded. */
  lemma Refused<S>(lib: Library<S>, start: Pair<S>, s: State<S>, t: State<S>, who: Role)
    requires Talking(lib, start, s) && who == Other(Speaker(s.turn)) && Broken(lib, start, s.turn)
    requires !PartyOf(s, Speaker(s.turn)).pc.Generating?
    requires PartyOf(t, who).pc.Failed? && PartyOf(t, Other(who)) == PartyOf(s, Other(who))
    requires t.turn == s.turn && Inbox(t, Other(who)) == Inbox(s, Other(who))
    ensures JustOver(lib, start, t, s.turn)
  {
  }

  /** A frame read whole hands the turn over, or ends the conversation. */
  lemma TurnOver<S>(lib: Library<S>, start: Pair<S>, s: State<S>, t: State<S>, who: Role)
    requires GoesOn(lib, start, s) && who == Other(Speaker(s.turn))
    requires !PartyOf(s, Speaker(s.turn)).pc.Generating? && !PartyOf(s, Speaker(s.turn)).pc.Sending?
    requires !Broken(lib, start, s.turn)
    requires t.turn == s.turn + 1 && t.toInitiator == [] && t.toResponder == []
    requires PartyOf(t, Speaker(s.turn)) == PartyOf(s, Speaker(s.turn))
    requires var msg, was := Said(lib, start, s.turn), PartyOf(s, who);
             PartyOf(t, who) == was.(state := Heard(lib, was.state, msg), remoteDone := Quiet(msg),
                                     pc := AfterReceive(who, was.localDone, Quiet(msg)))
    ensures GoesOn(lib, start, t) || JustOver(lib, start, t, s.turn)
  {
    assert Pair(t.initiator.state, t.responder.state) == Exchange(lib, start, t.turn);
    if Stops(lib, start, s.turn) {
      assert who == Initiator;
      Endian.Widths();
      assert Closing(lib, start, t, s.turn);
    } else {
      forall u: nat | u < t.turn ensures !Stops(lib, start, u) {
        assert u == s.turn || u < s.turn;
      }
    }
  }

  lemma ClosingGoesOn<S>(lib: Library<S>, start: Pair<S>, s: State<S>, a: Act, last: nat)
    requires Closing(lib, start, s, last) && Enabled(s, a)
    ensures Closing(lib, start, Do(lib, s, a), last)
    ensures 0 <= Wind(lib, Do(lib, s, a)) < Wind(lib, s)
  {
    Endian.Widths();
  }

  lemma TalkingGoesOn<S>(lib: Library<S>, start: Pair<S>, s: State<S>, a: Act)
    requires GoesOn(lib, start, s) && Enabled(s, a)
    ensures GoesOn(lib, start, Do(lib, s, a)) || JustOver(lib, start, Do(lib, s, a), s.turn)
  {
    NoEndYet(lib, start, s, a.who);
    match a
    case Generate(who) => GenerateKeeps(lib, start, s, who);
    case Push(who, k) => PushKeeps(lib, start, s, who, k);
    case Pull(who, k) => PullKeeps(lib, start, s, who, k);
  }

  lemma DoKeepsInv<S>(lib: Library<S>, start: Pair<S>, s: State<S>, a: Act)
    requires Inv(lib, start, s) && Enabled(s, a)
    ensures Inv(lib, start, Do(lib, s, a))
  {
    if last :| Closing(lib, start, s, last) {
      ClosingGoesOn(lib, start, s, a, last);
    } else {
      TalkingGoesOn(lib, start, s, a);
    }
  }

  lemma {:induction false} RunKeepsInv<S>(lib: Library<S>, start: Pair<S>, s: State<S>, acts: seq<Act>, t: State<S>)
    requires Inv(lib, start, s) && Run(lib, s, acts, t)
    ensures Inv(lib, start, t)
    decreases |acts|
  {
    if acts != [] {
      DoKeepsInv(lib, start, s, acts[0]);
      RunKeepsInv(lib, start, Do(lib, s, acts[0]), acts[1..], t);
    }
  }

  // ---------------------------------------------------------------------------------------------
  // The theorems, for every sync state.

  ghost predicate Reached<S>(lib: Library<S>, start: Pair<S>, t: State<S>) {
    exists acts :: Run(lib, Start(start.initiator, start.responder), acts, t)
  }

  ghost predicate BothReturned<S>(s: State<S>) {
    s.initiator.pc.Returned() && s.responder.pc.Returned()
  }

  /** Every reachable state is one point of the sequential exchange, or of its end. */
  lemma RunsAreConversations<S>(lib: Library<S>, start: Pair<S>, t: State<S>)
    requires Reached(lib, start, t)
    ensures Inv(lib, start, t)
  {
    var s := Start(start.initiator, start.responder);
    var acts :| Run(lib, s, acts, t);
    RunKeepsInv(lib, start, s, acts, t);
  }

  /** At most one direction carries anything, and until a party returns it is part of one frame. */
  lemma OneFrameAtATime<S>(lib: Library<S>, start: Pair<S>, t: State<S>)
    requires Reached(lib, start, t)
    ensures t.toInitiator == [] || t.toResponder == []
    ensures !t.initiator.pc.Returned() && !t.responder.pc.Returned() ==>
              |t.toInitiator + t.toResponder| <= |Frame(Said(lib, start, t.turn))|
  {
    RunsAreConversations(lib, start, t);
  }

  /** Until both have returned, one of them can move, whatever the sync states say. */
  lemma NeverDeadlocks<S>(lib: Library<S>, start: Pair<S>, t: State<S>) returns (a: Act)
    requires Reached(lib, start, t)
    ensures BothReturned(t) || Enabled(t, a)
  {
    RunsAreConversations(lib, start, t);
    a := MoveOf(lib, start, t);
  }

  lemma MoveOf<S>(lib: Library<S>, start: Pair<S>, t: State<S>) returns (a: Act)
    requires Inv(lib, start, t)
    ensures BothReturned(t) || Enabled(t, a)
  {
    if last :| Closing(lib, start, t, last) {
      var who := if t.initiator.pc.Returned() then Responder else Initiator;
      a := match PartyOf(t, who).pc
        case Generating => Generate(who)
        case Sending(_) => Push(who, 1)
        case _ => ReadEnd(who);
    } else {
      var who := Speaker(t.turn);
      var speaker, reader := PartyOf(t, who), PartyOf(t, Other(who));
      a := Generate(who);
      if speaker.pc.Sending? {
        a := Push(who, 1);
      } else if !speaker.pc.Generating? {
        ChannelNotEmpty(Said(lib, start, t.turn), reader.pc, Inbox(t, Other(who)));
        a := Pull(Other(who), 1);
      }
    }
  }

  /**
   What each end returns is decided by the conversation alone: at its last turn an end returns nil
   if it stops there, and an error otherwise.
   */
  lemma ReturnsExactly<S>(lib: Library<S>, start: Pair<S>, t: State<S>, last: nat)
    requires Reached(lib, start, t) && LastTurn(lib, start, last)
    ensures t.initiator.pc.Returned() ==> (t.initiator.pc.Finished? <==> InitiatorStops(lib, start, last))
    ensures t.responder.pc.Returned() ==> (t.responder.pc.Finished? <==> ResponderStops(lib, start, last))
  {
    RunsAreConversations(lib, start, t);
    if other :| Closing(lib, start, t, other) {
      LastTurnUnique(lib, start, other, last);
    } else {
      ReturnedInTalk(lib, start, t);
      if t.responder.pc.Returned() {
        LastTurnUnique(lib, start, t.turn, last);
      }
    }
  }

  /** In a conversation under way nobody has returned but respondSync, its last frame still to be read. */
  lemma ReturnedInTalk<S>(lib: Library<S>, start: Pair<S>, t: State<S>)
    requires GoesOn(lib, start, t)
    ensures !t.initiator.pc.Returned()
    ensures t.responder.pc.Returned() ==>
      t.responder.pc.Finished? && ResponderStops(lib, start, t.turn) && LastTurn(lib, start, t.turn)
  {
  }

  /** Nobody returns from a conversation that has no last turn. */
  lemma ReturnedMeansOver<S>(lib: Library<S>, start: Pair<S>, t: State<S>) returns (last: nat)
    requires Reached(lib, start, t) && (t.initiator.pc.Returned() || t.responder.pc.Returned())
    ensures LastTurn(lib, start, last)
  {
    RunsAreConversations(lib, start, t);
    if other :| Closing(lib, start, t, other) {
      last := other;
    } else {
      ReturnedInTalk(lib, start, t);
      last := t.turn;
    }
  }

  /** Both return nil exactly when in the last round neither had anything to say, not even an empty message. */
  lemma BothNilExactly<S>(lib: Library<S>, start: Pair<S>, t: State<S>, last: nat)
    requires Reached(lib, start, t) && LastTurn(lib, start, last) && BothReturned(t)
    ensures t.initiator.pc.Finished? && t.responder.pc.Finished?
            <==> last % 2 == 1 && Said(lib, start, last - 1).None? && Said(lib, start, last).None?
    ensures !t.initiator.pc.Finished? && !t.responder.pc.Finished? <==> Broken(lib, start, last)
    ensures t.initiator.pc.Finished? && t.responder.pc.Finished? ==>
              && t.toInitiator == [] && t.toResponder == [] && t.turn == last + 1
              && Pair(t.initiator.state, t.responder.state) == Exchange(lib, start, last + 1)
  {
    ReturnsExactly(lib, start, t, last);
    RunsAreConversations(lib, start, t);
    if GoesOn(lib, start, t) {
      ReturnedInTalk(lib, start, t);
    }
    var other :| Closing(lib, start, t, other);
    LastTurnUnique(lib, start, other, last);
  }

  /** How a conversation ends does not depend on the schedule. */
  lemma OneOutcome<S>(lib: Library<S>, start: Pair<S>, t: State<S>, u: State<S>)
    requires Reached(lib, start, t) && BothReturned(t) && Reached(lib, start, u) && BothReturned(u)
    ensures t.initiator.pc == u.initiator.pc && t.responder.pc == u.responder.pc
    ensures t.initiator.pc.Finished? && t.responder.pc.Finished? ==>
      t.turn == u.turn && t.initiator.state == u.initiator.state && t.responder.state == u.responder.state
  {
    var last := ReturnedMeansOver(lib, start, t);
    BothNilExactly(lib, start, t, last);
    BothNilExactly(lib, start, u, last);
    ReturnsExactly(lib, start, t, last);
    ReturnsExactly(lib, start, u, last);
  }

  /**
   Where no message is refused, an empty one in the last round is the whole difference: without
   one both ends return nil, with one an end returns nil and the other an error.
   */
  lemma EmptyMessageExactly<S>(lib: Library<S>, start: Pair<S>, t: State<S>, last: nat)
    requires Reached(lib, start, t) && LastTurn(lib, start, last) && BothReturned(t)
    requires !Broken(lib, start, last)
    ensures last % 2 == 1 && Quiet(Said(lib, start, last - 1)) && Quiet(Said(lib, start, last))
    ensures t.initiator.pc.Finished? && t.responder.pc.Finished?
            <==> Said(lib, start, last - 1) != Some([]) && Said(lib, start, last) != Some([])
    ensures t.initiator.pc.Failed? <==> Said(lib, start, last - 1) == Some([])
    ensures t.responder.pc.Failed? <==> Said(lib, start, last) == Some([])
    ensures !(t.initiator.pc.Failed? && t.responder.pc.Failed?)
  {
    ReturnsExactly(lib, start, t, last);
  }

  // ---------------------------------------------------------------------------------------------
  // Sync states that agree: no empty message, none over the bound, none refused.

  /** Then neither party ever fails. */
  lemma AgreeableNeverFails<S>(lib: Library<S>, start: Pair<S>, t: State<S>)
    requires Agreeable(lib, start) && Reached(lib, start, t)
    ensures !t.initiator.pc.Failed? && !t.responder.pc.Failed?
  {
    RunsAreConversations(lib, start, t);
    if last :| Closing(lib, start, t, last) {
      AgreeableStopsTogether(lib, start, last);
    }
  }

  lemma AgreeableStopsTogether<S>(lib: Library<S>, start: Pair<S>, last: nat)
    requires Agreeable(lib, start) && LastTurn(lib, start, last)
    ensures InitiatorStops(lib, start, last) && ResponderStops(lib, start, last) && !Broken(lib, start, last)
  {
    assert Said(lib, start, last) != Some([]);
    if last > 0 {
      assert NotOver(lib, start, last - 1);
      assert Said(lib, start, last - 1) != Some([]);
    }
  }

  /** initiateSync returns nil only when respondSync has, in the same round, with both channels drained. */
  lemma InitiatorFinishesLast<S>(lib: Library<S>, start: Pair<S>, t: State<S>) returns (last: nat)
    requires Agreeable(lib, start) && Reached(lib, start, t) && t.initiator.pc.Finished?
    ensures LastTurn(lib, start, last) && Closing(lib, start, t, last)
    ensures t.responder.pc.Finished? && t.toInitiator == [] && t.toResponder == [] && t.turn == last + 1
  {
    RunsAreConversations(lib, start, t);
    last :| Closing(lib, start, t, last);
    AgreeableStopsTogether(lib, start, last);
  }

  /** When respondSync has returned, all that can happen is initiateSync reading its "done" and returning. */
  lemma ResponderFinishesFirst<S>(lib: Library<S>, start: Pair<S>, t: State<S>, a: Act)
    requires Agreeable(lib, start) && Reached(lib, start, t) && t.responder.pc.Finished?
    requires Enabled(t, a)
    ensures a.Pull? && a.who == Initiator
    ensures var t' := Do(lib, t, a);
            t'.responder.pc.Finished?
            && if a.k == |t.toInitiator| then t'.initiator.pc.Finished? && t'.toInitiator == []
               else |t'.toInitiator| < |t.toInitiator|
  {
    RunsAreConversations(lib, start, t);
    if last :| Closing(lib, start, t, last) {
      AgreeableStopsTogether(lib, start, last);
    }
    ReturnedInTalk(lib, start, t);
    AgreeableStopsTogether(lib, start, t.turn);
    NoEndYet(lib, start, t, a.who);
    assert a.Pull?;
    PullInFlight(lib, Initiator, t.initiator, None, t.toInitiator, [], a.k);
    if a.k == |t.toInitiator| {
      var t' := Do(lib, t, a);
      if t'.initiator.pc.Reading() {
        ChannelNotEmpty(None, t'.initiator.pc, []);
      }
    }
  }

  // ---------------------------------------------------------------------------------------------
  // Termination: if the sequential exchange has a last turn, every schedule stops.

  /** Moves left in the current turn, at most: one to generate, two for each byte. */
  function Phase<S>(lib: Library<S>, start: Pair<S>, s: State<S>): int {
    var who := Speaker(s.turn);
    var speaker, reader := PartyOf(s, who), PartyOf(s, Other(who));
    if speaker.pc.Generating? then 2 * Size(lib, start, s.turn) + 1
    else |Left(speaker.pc)| + Size(lib, start, s.turn) - |Taken(reader.pc)|
  }

  /** Moves in the turns from `turn` to `last`, at most. */
  function Later<S>(lib: Library<S>, start: Pair<S>, turn: nat, last: nat): nat
    decreases last + 1 - turn
  {
    if turn > last then 0 else 2 * Size(lib, start, turn) + 1 + Later(lib, start, turn + 1, last)
  }

  ghost function MovesLeft<S>(lib: Library<S>, start: Pair<S>, s: State<S>, last: nat): int {
    if Talking(lib, start, s)
    then Phase(lib, start, s) + Later(lib, start, s.turn + 1, last) + Tail(lib, start, last)
    else Wind(lib, s)
  }

  /** A turn under way has moves left: its frame is not wholly read. */
  lemma PhasePositive<S>(lib: Library<S>, start: Pair<S>, s: State<S>)
    requires Talking(lib, start, s)
    ensures Phase(lib, start, s) > 0
  {
    var who := Speaker(s.turn);
    if !PartyOf(s, who).pc.Generating? {
      var reader, inbox := PartyOf(s, Other(who)).pc, Inbox(s, Other(who));
      if !PartyOf(s, who).pc.Sending? {
        ChannelNotEmpty(Said(lib, start, s.turn), reader, inbox);
      }
      assert |Taken(reader)| + |inbox| + |Left(PartyOf(s, who).pc)| == Size(lib, start, s.turn);
    }
  }

  lemma ClosingNotTalking<S>(lib: Library<S>, start: Pair<S>, s: State<S>, last: nat)
    requires Closing(lib, start, s, last)
    ensures !Talking(lib, start, s)
  {
    if Talking(lib, start, s) {
      var who := Speaker(s.turn);
      if !PartyOf(s, who).pc.Generating? && !PartyOf(s, who).pc.Sending? {
        ChannelNotEmpty(Said(lib, start, s.turn), PartyOf(s, Other(who)).pc, Inbox(s, Other(who)));
      }
    }
  }

  lemma NextTurn<S>(lib: Library<S>, start: Pair<S>, s: State<S>, a: Act)
    requires Talking(lib, start, s) && Enabled(s, a)
    requires Do(lib, s, a).turn != s.turn && Talking(lib, start, Do(lib, s, a))
    ensures Do(lib, s, a).turn == s.turn + 1
    ensures Phase(lib, start, Do(lib, s, a)) == 2 * Size(lib, start, s.turn + 1) + 1
  {
    assert PartyOf(Do(lib, s, a), Speaker(s.turn + 1)).pc.Generating?;
  }

  lemma SameTurn<S>(lib: Library<S>, start: Pair<S>, s: State<S>, a: Act)
    requires Talking(lib, start, s) && Enabled(s, a)
    requires Do(lib, s, a).turn == s.turn && Talking(lib, start, Do(lib, s, a))
    ensures Phase(lib, start, Do(lib, s, a)) < Phase(lib, start, s)
  {
    var who := Speaker(s.turn);
    var reader := PartyOf(s, Other(who));
    NoEndYet(lib, start, s, a.who);
    match a
    case Generate(_) =>
    case Push(_, k) =>
    case Pull(_, k) =>
      assert InFlight(Said(lib, start, s.turn), reader.pc, Inbox(s, Other(who)), Left(PartyOf(s, who).pc));
  }

  lemma TurnIsBounded<S>(lib: Library<S>, start: Pair<S>, s: State<S>, last: nat)
    requires LastTurn(lib, start, last) && Talking(lib, start, s)
    ensures s.turn <= last
  {
  }

  lemma Counts<S>(lib: Library<S>, start: Pair<S>, s: State<S>, t: State<S>, last: nat)
    requires Talking(lib, start, s) && Talking(lib, start, t) && Phase(lib, start, s) > 0 && Phase(lib, start, t) > 0
    requires (t.turn == s.turn && Phase(lib, start, t) < Phase(lib, start, s))
             || (t.turn == s.turn + 1 <= last && Phase(lib, start, t) == 2 * Size(lib, start, t.turn) + 1)
    ensures 0 <= MovesLeft(lib, start, t, last) < MovesLeft(lib, start, s, last)
  {
  }

  lemma TalkingMoveCounts<S>(lib: Library<S>, start: Pair<S>, s: State<S>, a: Act, last: nat)
    requires LastTurn(lib, start, last) && Talking(lib, start, s) && Enabled(s, a)
    requires Talking(lib, start, Do(lib, s, a))
    ensures 0 <= MovesLeft(lib, start, Do(lib, s, a), last) < MovesLeft(lib, start, s, last)
  {
    var t := Do(lib, s, a);
    PhasePositive(lib, start, s);
    PhasePositive(lib, start, t);
    TurnIsBounded(lib, start, t, last);
    if t.turn == s.turn {
      SameTurn(lib, start, s, a);
    } else {
      NextTurn(lib, start, s, a);
    }
    Counts(lib, start, s, t, last);
  }

  lemma EveryMoveCounts<S>(lib: Library<S>, start: Pair<S>, s: State<S>, a: Act, last: nat)
    requires LastTurn(lib, start, last) && Inv(lib, start, s) && Enabled(s, a)
    ensures 0 <= MovesLeft(lib, start, Do(lib, s, a), last) < MovesLeft(lib, start, s, last)
  {
    var t := Do(lib, s, a);
    if other :| Closing(lib, start, s, other) {
      ClosingGoesOn(lib, start, s, a, other);
      ClosingNotTalking(lib, start, s, other);
      ClosingNotTalking(lib, start, t, other);
    } else {
      PhasePositive(lib, start, s);
      TalkingGoesOn(lib, start, s, a);
      if JustOver(lib, start, t, s.turn) {
        LastTurnUnique(lib, start, s.turn, last);
        ClosingNotTalking(lib, start, t, last);
      } else {
        TalkingMoveCounts(lib, start, s, a, last);
      }
    }
  }

  /** No run is longer than the exchange and its tail allow; with NeverDeadlocks, every run ends with both returned. */
  lemma {:induction false} RunsAreBounded<S>(lib: Library<S>, start: Pair<S>, s: State<S>, acts: seq<Act>, t: State<S>, last: nat)
    requires LastTurn(lib, start, last) && Inv(lib, start, s) && Run(lib, s, acts, t)
    ensures |acts| <= MovesLeft(lib, start, s, last) - MovesLeft(lib, start, t, last)
    decreases |acts|
  {
    if acts != [] {
      EveryMoveCounts(lib, start, s, acts[0], last);
      DoKeepsInv(lib, start, s, acts[0]);
      RunsAreBounded(lib, start, Do(lib, s, acts[0]), acts[1..], t, last);
    }
  }

  /** And such a run there is, from every state of a conversation that has a last turn. */
  lemma {:induction false} RunsComplete<S>(lib: Library<S>, start: Pair<S>, s: State<S>, last: nat) returns (acts: seq<Act>, t: State<S>)
    requires LastTurn(lib, start, last) && Inv(lib, start, s)
    ensures Run(lib, s, acts, t) && BothReturned(t)
    decreases MovesLeft(lib, start, s, last)
  {
    acts, t := [], s;
    if !BothReturned(s) {
      var a := MoveOf(lib, start, s);
      EveryMoveCounts(lib, start, s, a, last);
      DoKeepsInv(lib, start, s, a);
      var more;
      more, t := RunsComplete(lib, start, Do(lib, s, a), last);
      acts := [a] + more;
    }
  }

  // ---------------------------------------------------------------------------------------------
  // An empty message.

  /** A side that always says an empty message against one that says nothing. */
  const HOLLOW: Library<bool> :=
    Library((talks: bool) => (if talks then Some([]) else None, talks), (talks: bool, b: Bytes) => Some(talks))

  /**
   An empty message is on the wire a "done". The responder takes it for one and returns nil; the
   initiator, who did not mean it, speaks again and gets an error, in every run that is complete.
   */
  lemma EmptyMessageSplits() returns (acts: seq<Act>, t: State<bool>)
    ensures Run(HOLLOW, Start(true, false), acts, t) && BothReturned(t)
    ensures forall u | Reached(HOLLOW, Pair(true, false), u) && BothReturned(u) ::
              u.responder.pc.Finished? && u.initiator.pc.Failed?
  {
    var start := Pair(true, false);
    assert Exchange(HOLLOW, start, 1) == start;
    assert Said(HOLLOW, start, 0) == Some([]) && Said(HOLLOW, start, 1) == None;
    assert LastTurn(HOLLOW, start, 1);
    acts, t := RunsComplete(HOLLOW, start, Start(true, false), 1);
    forall u | Reached(HOLLOW, start, u) && BothReturned(u)
      ensures u.responder.pc.Finished? && u.initiator.pc.Failed?
    {
      EmptyMessageExactly(HOLLOW, start, u, 1);
    }
  }
}
