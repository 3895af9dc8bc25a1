/**
 gracefulHandler of cmd/go-iroh-graceful-shutdown: Accept, Shutdown and WaitStarted around three
 channels that are only ever closed, and a sync.Once.

 Any number of goroutines make each call; every close, select and failing I/O call is an act.
 */
module Drain {
  datatype AcceptPc =
    | Begin                 // conn.AcceptStream
    | ReadingAll            // io.ReadAll
    | Starting              // close(h.started)
    | Waiting               // select on release and ctx
    | ClosingStream         // s.Close()
    | Deferred(err: bool)   // the deferred close(h.done)
    | Finished(err: bool)

  datatype ShutdownPc =
    | Calling               // once.Do
    | InOnce                // close(h.release)
    | Selecting             // select on done and ctx
    | LeftByDone
    | LeftByContext

  datatype WaitPc = AwaitingStart | Started | Cancelled

  /** The sync.Once, and which Shutdown entered it. */
  datatype Once = Fresh | Running(who: nat) | Ran(who: nat)

  /** A channel that is only ever closed, and which goroutine closed it (last). */
  datatype Channel = Open | Closed(who: nat)

  /** panicked records a close of a closed channel; read is history: the Accepts that read their request in full. */
  datatype State = State(started: Channel, release: bool, done: Channel, once: Once,
                         accepts: seq<AcceptPc>, shutdowns: seq<ShutdownPc>, waits: seq<WaitPc>, panicked: bool, read: set<nat>)

  /** fails is the outcome of the I/O call; ctx says the select took its ctx.Done branch. */
  datatype Act =
    | AcceptStream(i: nat, fails: bool) | ReadAll(i: nat, fails: bool) | CloseStarted(i: nat)
    | AcceptSelect(i: nat, ctx: bool) | CloseStream(i: nat, fails: bool) | CloseDone(i: nat)
    | EnterOnce(i: nat) | SkipOnce(i: nat) | CloseRelease(i: nat) | ShutdownSelect(i: nat, ctx: bool)
    | WaitSelect(i: nat, ctx: bool)

  predicate Enabled(s: State, a: Act) {
    match a
    case AcceptStream(i, _) => i < |s.accepts| && s.accepts[i].Begin?
    case ReadAll(i, _) => i < |s.accepts| && s.accepts[i].ReadingAll?
    case CloseStarted(i) => i < |s.accepts| && s.accepts[i].Starting?
    case AcceptSelect(i, ctx) => i < |s.accepts| && s.accepts[i].Waiting? && (ctx || s.release)
    case CloseStream(i, _) => i < |s.accepts| && s.accepts[i].ClosingStream?
    case CloseDone(i) => i < |s.accepts| && s.accepts[i].Deferred?
    case EnterOnce(i) => i < |s.shutdowns| && s.shutdowns[i].Calling? && s.once.Fresh?
    case SkipOnce(i) => i < |s.shutdowns| && s.shutdowns[i].Calling? && s.once.Ran?
    case CloseRelease(i) => i < |s.shutdowns| && s.shutdowns[i].InOnce?
    case ShutdownSelect(i, ctx) => i < |s.shutdowns| && s.shutdowns[i].Selecting? && (ctx || s.done.Closed?)
    case WaitSelect(i, ctx) => i < |s.waits| && s.waits[i].AwaitingStart? && (ctx || s.started.Closed?)
  }

  function AcceptAt(s: State, i: nat, pc: AcceptPc): State
    requires i < |s.accepts|
  {
    s.(accepts := s.accepts[i := pc])
  }

  function Do(s: State, a: Act): State
    requires Enabled(s, a)
  {
    match a
    case AcceptStream(i, fails) => AcceptAt(s, i, if fails then Deferred(true) else ReadingAll)
    case ReadAll(i, fails) =>
      if fails then AcceptAt(s, i, Deferred(true)) else AcceptAt(s, i, Starting).(read := s.read + {i})
    case CloseStarted(i) => AcceptAt(s, i, Waiting).(started := Closed(i), panicked := s.panicked || s.started.Closed?)
    case AcceptSelect(i, ctx) => AcceptAt(s, i, if ctx then Deferred(true) else ClosingStream)
    case CloseStream(i, fails) => AcceptAt(s, i, Deferred(fails))
    case CloseDone(i) =>
      AcceptAt(s, i, Finished(s.accepts[i].err)).(done := Closed(i), panicked := s.panicked || s.done.Closed?)
    case EnterOnce(i) => s.(shutdowns := s.shutdowns[i := InOnce], once := Running(i))
    case SkipOnce(i) => s.(shutdowns := s.shutdowns[i := Selecting])
    case CloseRelease(i) =>
      s.(shutdowns := s.shutdowns[i := Selecting], once := Ran(i), release := true, panicked := s.panicked || s.release)
    case ShutdownSelect(i, ctx) => s.(shutdowns := s.shutdowns[i := if ctx then LeftByContext else LeftByDone])
    case WaitSelect(i, ctx) => s.(waits := s.waits[i := if ctx then Cancelled else Started])
  }

  ghost predicate Initial(s: State) {
    && s.started.Open? && !s.release && s.done.Open? && s.once.Fresh? && !s.panicked && s.read == {}
    && (forall i | 0 <= i < |s.accepts| :: s.accepts[i].Begin?)
    && (forall i | 0 <= i < |s.shutdowns| :: s.shutdowns[i].Calling?)
    && (forall i | 0 <= i < |s.waits| :: s.waits[i].AwaitingStart?)
  }

  ghost predicate Run(s: State, acts: seq<Act>, t: State)
    decreases |acts|
  {
    if acts == [] then s == t
    else Enabled(s, acts[0]) && Run(Do(s, acts[0]), acts[1..], t)
  }

  // ---------------------------------------------------------------------------------------------

  /** The request was read in full, and close(started) is behind this Accept. */
  predicate PastStart(pc: AcceptPc) {
    pc.Waiting? || pc.ClosingStream? || pc == Deferred(false) || pc == Finished(false)
  }

  predicate AcceptInv(s: State, i: nat, pc: AcceptPc) {
    && (pc.Starting? || PastStart(pc) ==> i in s.read)
    && (PastStart(pc) ==> s.started.Closed?)
    && (PastStart(pc) && !pc.Waiting? ==> s.release)
    && (pc.Finished? ==> s.done.Closed?)
  }

  predicate ShutdownInv(s: State, i: nat, pc: ShutdownPc) {
    && (pc.InOnce? <==> s.once == Running(i))
    && (pc.LeftByDone? ==> s.done.Closed?)
    && (pc.Calling? || pc.InOnce? || s.once.Ran?)
  }

  /** Whoever closed a channel is past doing so. */
  predicate ClosersInv(s: State) {
    && (s.started.Closed? ==> s.started.who < |s.accepts| && PastClose(s.accepts[s.started.who]) && s.started.who in s.read)
    && (s.done.Closed? ==> s.done.who < |s.accepts| && s.accepts[s.done.who].Finished?)
    && (s.release <==> s.once.Ran?)
    && (!s.once.Fresh? ==> s.once.who < |s.shutdowns| && !s.shutdowns[s.once.who].Calling?)
  }

  predicate PastClose(pc: AcceptPc) {
    !pc.Begin? && !pc.ReadingAll? && !pc.Starting?
  }

  predicate Inv(s: State) {
    && (forall i | 0 <= i < |s.accepts| :: AcceptInv(s, i, s.accepts[i]))
    && (forall i | 0 <= i < |s.shutdowns| :: ShutdownInv(s, i, s.shutdowns[i]))
    && (forall i | 0 <= i < |s.waits| && s.waits[i].Started? :: s.started.Closed?)
    && ClosersInv(s)
    && (|s.accepts| <= 1 ==> !s.panicked)
  }

  lemma AcceptOpens(s: State, a: Act)
    requires Inv(s) && Enabled(s, a)
    requires a.AcceptStream? || a.ReadAll? || a.CloseStarted?
    ensures Inv(Do(s, a))
  {
    match a
    case AcceptStream(_, _) =>
    case ReadAll(_, _) =>
    case CloseStarted(_) =>
  }

  lemma AcceptCloses(s: State, a: Act)
    requires Inv(s) && Enabled(s, a)
    requires a.AcceptSelect? || a.CloseStream? || a.CloseDone?
    ensures Inv(Do(s, a))
  {
    match a
    case AcceptSelect(_, _) =>
    case CloseStream(_, _) =>
    case CloseDone(_) =>
  }

  lemma OthersKeepInv(s: State, a: Act)
    requires Inv(s) && Enabled(s, a)
    requires !(a.AcceptStream? || a.ReadAll? || a.CloseStarted?)
    requires !(a.AcceptSelect? || a.CloseStream? || a.CloseDone?)
    ensures Inv(Do(s, a))
  {
    match a
    case EnterOnce(_) =>
    case SkipOnce(_) =>
    case CloseRelease(_) =>
    case ShutdownSelect(_, _) =>
    case WaitSelect(_, _) =>
  }

  lemma DoKeepsInv(s: State, a: Act)
    requires Inv(s) && Enabled(s, a)
    ensures Inv(Do(s, a))
  {
    if a.AcceptStream? || a.ReadAll? || a.CloseStarted? {
      AcceptOpens(s, a);
    } else if a.AcceptSelect? || a.CloseStream? || a.CloseDone? {
      AcceptCloses(s, a);
    } else {
      OthersKeepInv(s, a);
    }
  }

  lemma {:induction false} RunKeepsInv(s: State, acts: seq<Act>, t: State)
    requires Inv(s) && Run(s, acts, t)
    ensures Inv(t) && |t.accepts| == |s.accepts| && |t.shutdowns| == |s.shutdowns|
    decreases |acts|
  {
    if acts != [] {
      DoKeepsInv(s, acts[0]);
      RunKeepsInv(Do(s, acts[0]), acts[1..], t);
    }
  }

  // ---------------------------------------------------------------------------------------------
  // The theorems.

  /** Shutdown leaves by its done branch only after an Accept has finished. */
  lemma DoneMeansFinished(s: State, acts: seq<Act>, t: State, i: nat)
    requires Initial(s) && Run(s, acts, t)
    requires i < |t.shutdowns| && t.shutdowns[i].LeftByDone?
    ensures exists k :: 0 <= k < |t.accepts| && t.accepts[k].Finished?
    ensures |t.accepts| == 1 ==> t.accepts[0].Finished?
  {
    RunKeepsInv(s, acts, t);
    assert t.accepts[t.done.who].Finished?;
  }

  /** Accept returns nil only once it has read its own request and a Shutdown had released it. */
  lemma NilMeansReadAndReleased(s: State, acts: seq<Act>, t: State, i: nat)
    requires Initial(s) && Run(s, acts, t)
    requires i < |t.accepts| && t.accepts[i] == Finished(false)
    ensures i in t.read && t.started.Closed? && t.release
    ensures exists k :: 0 <= k < |t.shutdowns| && !t.shutdowns[k].Calling? && !t.shutdowns[k].InOnce?
  {
    RunKeepsInv(s, acts, t);
    assert AcceptInv(t, i, t.accepts[i]);
    var k := t.once.who;
    assert ShutdownInv(t, k, t.shutdowns[k]);
  }

  /** WaitStarted returns nil only once some Accept has read its request. */
  lemma StartedMeansRead(s: State, acts: seq<Act>, t: State, i: nat)
    requires Initial(s) && Run(s, acts, t)
    requires i < |t.waits| && t.waits[i].Started?
    ensures exists k :: 0 <= k < |t.accepts| && k in t.read && PastClose(t.accepts[k])
  {
    RunKeepsInv(s, acts, t);
    assert t.started.who in t.read && PastClose(t.accepts[t.started.who]);
  }

  /** Acts left to one Accept before it has closed done, when its I/O succeeds. */
  function StepsLeft(pc: AcceptPc): nat {
    match pc
    case Begin => 6
    case ReadingAll => 5
    case Starting => 4
    case Waiting => 3
    case ClosingStream => 2
    case Deferred(_) => 1
    case Finished(_) => 0
  }

  function Onward(i: nat, pc: AcceptPc): Act {
    match pc
    case Begin => AcceptStream(i, false)
    case ReadingAll => ReadAll(i, false)
    case Starting => CloseStarted(i)
    case Waiting => AcceptSelect(i, false)
    case ClosingStream => CloseStream(i, false)
    case _ => CloseDone(i)
  }

  /**
   Once released, an Accept can always go on to its end without its context being cancelled, and
   returns nil if its calls succeed and none had failed.
   */
  lemma {:induction false} ReleasedCanFinish(t: State, i: nat) returns (more: seq<Act>, u: State)
    requires i < |t.accepts| && t.release
    requires t.accepts[i].Finished? ==> t.done.Closed?
    ensures Run(t, more, u) && |more| == StepsLeft(t.accepts[i])
    ensures i < |u.accepts| && u.done.Closed? && u.shutdowns == t.shutdowns
    ensures u.accepts[i] == Finished(t.accepts[i] == Deferred(true) || t.accepts[i] == Finished(true))
    decreases StepsLeft(t.accepts[i])
  {
    more, u := [], t;
    if !t.accepts[i].Finished? {
      var a := Onward(i, t.accepts[i]);
      more, u := ReleasedCanFinish(Do(t, a), i);
      more := [a] + more;
    }
  }

  lemma {:induction false} RunSnoc(s: State, acts: seq<Act>, t: State, a: Act)
    requires Run(s, acts, t) && Enabled(t, a)
    ensures Run(s, acts + [a], Do(t, a))
    decreases |acts|
  {
    if acts == [] {
      assert [a][1..] == [];
    } else {
      RunSnoc(Do(s, acts[0]), acts[1..], t, a);
      assert (acts + [a])[1..] == acts[1..] + [a];
    }
  }

  lemma {:induction false} RunAppend(s: State, acts: seq<Act>, m: State, more: seq<Act>, t: State)
    requires Run(s, acts, m) && Run(m, more, t)
    ensures Run(s, acts + more, t)
    decreases |acts|
  {
    if acts == [] {
      assert acts + more == more;
    } else {
      RunAppend(Do(s, acts[0]), acts[1..], m, more, t);
      assert (acts + more)[1..] == acts[1..] + more;
    }
  }

  /** A Shutdown can always come to wait, having released or found the release done. */
  lemma {:induction false} CanSelect(s: State, i: nat) returns (more: seq<Act>, t: State)
    requires Inv(s) && i < |s.shutdowns| && !s.shutdowns[i].LeftByDone? && !s.shutdowns[i].LeftByContext?
    ensures Run(s, more, t) && |more| <= 2 && Inv(t)
    ensures t.accepts == s.accepts && |t.shutdowns| == |s.shutdowns| && t.shutdowns[i].Selecting?
  {
    more, t := [], s;
    assert ShutdownInv(s, i, s.shutdowns[i]);
    if s.once.Fresh? {
      more, t := [EnterOnce(i), CloseRelease(i)], Do(Do(s, EnterOnce(i)), CloseRelease(i));
      assert more[1..] == [CloseRelease(i)] && more[1..][1..] == [];
    } else if s.once.Running? {
      var who := s.once.who;
      assert ShutdownInv(s, who, s.shutdowns[who]);
      if who == i {
        more, t := [CloseRelease(i)], Do(s, CloseRelease(i));
      } else {
        more, t := [CloseRelease(who), SkipOnce(i)], Do(Do(s, CloseRelease(who)), SkipOnce(i));
        assert more[1..] == [SkipOnce(i)] && more[1..][1..] == [];
      }
    } else if s.shutdowns[i].Calling? {
      more, t := [SkipOnce(i)], Do(s, SkipOnce(i));
    }
    assert |more| == 1 ==> more[1..] == [];
    RunKeepsInv(s, more, t);
  }

  /** So a Shutdown, wherever it is, can always be let go by its done branch. */
  lemma DrainCompletes(s: State, acts: seq<Act>, t: State, i: nat, k: nat) returns (more: seq<Act>, u: State)
    requires Initial(s) && Run(s, acts, t) && k < |t.accepts|
    requires i < |t.shutdowns| && !t.shutdowns[i].LeftByDone? && !t.shutdowns[i].LeftByContext?
    ensures Run(t, more, u) && i < |u.shutdowns| && u.shutdowns[i].LeftByDone? && |more| <= 9
  {
    RunKeepsInv(s, acts, t);
    var first, m := CanSelect(t, i);
    assert ShutdownInv(m, i, m.shutdowns[i]) && AcceptInv(m, k, m.accepts[k]);
    var second, v := ReleasedCanFinish(m, k);
    u := Do(v, ShutdownSelect(i, false));
    RunAppend(t, first, m, second, v);
    RunSnoc(t, first + second, v, ShutdownSelect(i, false));
    more := first + second + [ShutdownSelect(i, false)];
  }

  /** A second Accept closes done a second time, which panics. */
  lemma SecondAcceptPanics(s: State) returns (acts: seq<Act>, t: State)
    requires Initial(s) && |s.accepts| >= 2
    ensures Run(s, acts, t) && t.panicked
  {
    var acts1, t1 := AbortedAccept(s, 0);
    var acts2, t2 := AbortedAccept(t1, 1);
    RunAppend(s, acts1, t1, acts2, t2);
    acts, t := acts1 + acts2, t2;
  }

  lemma AbortedAccept(s: State, i: nat) returns (acts: seq<Act>, t: State)
    requires i < |s.accepts| && s.accepts[i].Begin?
    ensures Run(s, acts, t) && t.done.Closed? && t.accepts == s.accepts[i := Finished(true)]
    ensures s.done.Closed? ==> t.panicked
  {
    var m := Do(s, AcceptStream(i, true));
    t := Do(m, CloseDone(i));
    acts := [AcceptStream(i, true)] + [CloseDone(i)];
    assert Run(s, [], s) && [] + [AcceptStream(i, true)] == [AcceptStream(i, true)];
    RunSnoc(s, [], s, AcceptStream(i, true));
    RunSnoc(s, [AcceptStream(i, true)], m, CloseDone(i));
  }

  ghost predicate Reachable(s: State, t: State) {
    exists acts :: Run(s, acts, t)
  }

  /** No channel is closed twice, in any run, exactly when at most one Accept is made. */
  lemma OneAcceptExactly(s: State)
    requires Initial(s)
    ensures (forall t | Reachable(s, t) :: !t.panicked) <==> |s.accepts| <= 1
  {
    if |s.accepts| <= 1 {
      forall t | Reachable(s, t)
        ensures !t.panicked
      {
        var acts :| Run(s, acts, t);
        RunKeepsInv(s, acts, t);
      }
    } else {
      var acts, t := SecondAcceptPanics(s);
      assert Reachable(s, t);
    }
  }

  // ---------------------------------------------------------------------------------------------
  // What the calls return, in terms of what happened alone.

  /** A call of this Accept failed, or its context was done. */
  predicate HasFailed(acts: seq<Act>, i: nat) {
    AcceptStream(i, true) in acts || ReadAll(i, true) in acts || AcceptSelect(i, true) in acts || CloseStream(i, true) in acts
  }

  predicate AcceptTold(acts: seq<Act>, i: nat, pc: AcceptPc) {
    && (HasFailed(acts, i) <==> pc == Deferred(true) || pc == Finished(true))
    && (!pc.Begin? && !HasFailed(acts, i) ==> AcceptStream(i, false) in acts)
    && (pc.Starting? || PastStart(pc) ==> ReadAll(i, false) in acts)
    && (PastStart(pc) ==> CloseStarted(i) in acts)
    && (PastStart(pc) && !pc.Waiting? ==> AcceptSelect(i, false) in acts)
    && (pc == Deferred(false) || pc == Finished(false) ==> CloseStream(i, false) in acts)
    && (pc.Finished? <==> CloseDone(i) in acts)
  }

  predicate ShutdownTold(acts: seq<Act>, i: nat, pc: ShutdownPc) {
    && (pc.LeftByDone? <==> ShutdownSelect(i, false) in acts)
    && (pc.LeftByContext? <==> ShutdownSelect(i, true) in acts)
  }

  predicate WaitTold(acts: seq<Act>, i: nat, pc: WaitPc) {
    && (pc.Started? <==> WaitSelect(i, false) in acts)
    && (pc.Cancelled? <==> WaitSelect(i, true) in acts)
  }

  ghost predicate ChannelsTold(acts: seq<Act>, s: State) {
    && (s.started.Closed? <==> exists k :: CloseStarted(k) in acts)
    && (s.release <==> exists k :: CloseRelease(k) in acts)
    && (s.done.Closed? <==> exists k :: CloseDone(k) in acts)
    && forall i :: i in s.read <==> ReadAll(i, false) in acts
  }

  ghost predicate Told(acts: seq<Act>, s: State) {
    && (forall i | 0 <= i < |s.accepts| :: AcceptTold(acts, i, s.accepts[i]))
    && (forall i | 0 <= i < |s.shutdowns| :: ShutdownTold(acts, i, s.shutdowns[i]))
    && (forall i | 0 <= i < |s.waits| :: WaitTold(acts, i, s.waits[i]))
    && ChannelsTold(acts, s)
  }

  lemma AcceptsTell(acts: seq<Act>, s: State, a: Act)
    requires Enabled(s, a) && Told(acts, s)
    ensures forall i | 0 <= i < |Do(s, a).accepts| :: AcceptTold(acts + [a], i, Do(s, a).accepts[i])
  {
    forall i | 0 <= i < |Do(s, a).accepts| ensures AcceptTold(acts + [a], i, Do(s, a).accepts[i]) {
      assert AcceptTold(acts, i, s.accepts[i]);
    }
  }

  lemma ShutdownsTell(acts: seq<Act>, s: State, a: Act)
    requires Enabled(s, a) && Told(acts, s)
    ensures forall i | 0 <= i < |Do(s, a).shutdowns| :: ShutdownTold(acts + [a], i, Do(s, a).shutdowns[i])
  {
    forall i | 0 <= i < |Do(s, a).shutdowns| ensures ShutdownTold(acts + [a], i, Do(s, a).shutdowns[i]) {
      assert ShutdownTold(acts, i, s.shutdowns[i]);
    }
  }

  lemma WaitsTell(acts: seq<Act>, s: State, a: Act)
    requires Enabled(s, a) && Told(acts, s)
    ensures forall i | 0 <= i < |Do(s, a).waits| :: WaitTold(acts + [a], i, Do(s, a).waits[i])
  {
    forall i | 0 <= i < |Do(s, a).waits| ensures WaitTold(acts + [a], i, Do(s, a).waits[i]) {
      assert WaitTold(acts, i, s.waits[i]);
    }
  }

  lemma ChannelsTell(acts: seq<Act>, s: State, a: Act)
    requires Enabled(s, a) && ChannelsTold(acts, s)
    ensures ChannelsTold(acts + [a], Do(s, a))
  {
    var more := acts + [a];
    assert forall b :: b in more <==> b in acts || b == a;
  }

  lemma {:induction false} RunTells(before: seq<Act>, s: State, acts: seq<Act>, t: State, whole: seq<Act>)
    requires Told(before, s) && Run(s, acts, t) && whole == before + acts
    ensures Told(whole, t)
    decreases |acts|
  {
    if acts == [] {
      assert whole == before;
    } else {
      AcceptsTell(before, s, acts[0]);
      ShutdownsTell(before, s, acts[0]);
      WaitsTell(before, s, acts[0]);
      ChannelsTell(before, s, acts[0]);
      assert whole == before + [acts[0]] + acts[1..];
      RunTells(before + [acts[0]], Do(s, acts[0]), acts[1..], t, whole);
    }
  }

  /**
   Accept returns an error exactly if a call of its own failed or its context was done; else it has
   read its request, announced it, been released, and closed its stream.
   */
  lemma AcceptReturnsExactly(s: State, acts: seq<Act>, t: State, i: nat)
    requires Initial(s) && Run(s, acts, t)
    requires i < |t.accepts| && t.accepts[i].Finished?
    ensures t.accepts[i].err <==> HasFailed(acts, i)
    ensures !t.accepts[i].err ==>
      && AcceptStream(i, false) in acts && ReadAll(i, false) in acts && CloseStarted(i) in acts
      && AcceptSelect(i, false) in acts && CloseStream(i, false) in acts
    ensures CloseDone(i) in acts
  {
    RunTells([], s, acts, t, acts);
    assert AcceptTold(acts, i, t.accepts[i]);
  }

  /** Shutdown and WaitStarted return by the branch their select took, and a channel is closed once some goroutine closed it. */
  lemma OthersReturnExactly(s: State, acts: seq<Act>, t: State)
    requires Initial(s) && Run(s, acts, t)
    ensures forall i | 0 <= i < |t.shutdowns| :: ShutdownTold(acts, i, t.shutdowns[i])
    ensures forall i | 0 <= i < |t.waits| :: WaitTold(acts, i, t.waits[i])
    ensures ChannelsTold(acts, t)
  {
    RunTells([], s, acts, t, acts);
  }

  /** Once some Accept has announced its request, WaitStarted can return nil, at once and without a cancel. */
  lemma StartedMeansReturn(s: State, acts: seq<Act>, t: State, i: nat, k: nat)
    requires Initial(s) && Run(s, acts, t) && CloseStarted(k) in acts
    requires i < |t.waits| && t.waits[i].AwaitingStart?
    ensures Enabled(t, WaitSelect(i, false)) && Do(t, WaitSelect(i, false)).waits == t.waits[i := Started]
  {
    RunTells([], s, acts, t, acts);
  }
}
