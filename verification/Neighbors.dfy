/**
 setNeighbor and awaitNeighbor of cmd/go-iroh-gossip-topic: a notification made by closing a
 channel and putting a new one in its place.

 Every statement between Lock and Unlock is an act of its own, and a waiter parked on a channel
 wakes without the lock. Channels are numbered in the order they are made; any number of goroutines
 may set and wait.
 */
module Neighbors {
  import opened Common

  type Name = string

  datatype SetPc =
    | Out
    | Locked(name: Name, up: bool)
    | Marked        // n.up[name] = up
    | Closed        // close(n.changed)
    | Replaced      // n.changed = make(chan struct{})

  /** A reading is what awaitNeighbor took under the lock: up[want] and changed. */
  datatype WaitPc =
    | Start
    | Holding
    | Read(up: bool, changed: nat)
    | Checked(up: bool, changed: nat)
    | Parked(changed: nat)
    | Returned
    | GaveUp        // ctx is done

  datatype Waiter = Waiter(want: Name, pc: WaitPc)

  datatype Lock = Free | HeldBySetter(i: nat) | HeldByWaiter(i: nat)

  /**
   next is the number of the next channel, panicked records a close of a closed channel, and
   everUp is history: the neighbours that have been up.
   */
  datatype State = State(up: map<Name, bool>, changed: nat, closed: set<nat>, next: nat, lock: Lock,
                         setters: seq<SetPc>, waiters: seq<Waiter>, panicked: bool, everUp: set<Name>)

  datatype Act =
    | SetLock(i: nat, name: Name, up: bool) | Mark(i: nat) | Close(i: nat) | Replace(i: nat) | SetUnlock(i: nat)
    | WaitLock(i: nat) | ReadState(i: nat) | WaitUnlock(i: nat) | Test(i: nat) | Wake(i: nat) | Cancel(i: nat)

  function Up(s: State, name: Name): bool {
    name in s.up && s.up[name]
  }

  predicate Enabled(s: State, a: Act) {
    match a
    case SetLock(i, _, _) => i < |s.setters| && s.setters[i].Out? && s.lock.Free?
    case Mark(i) => i < |s.setters| && s.setters[i].Locked?
    case Close(i) => i < |s.setters| && s.setters[i].Marked?
    case Replace(i) => i < |s.setters| && s.setters[i].Closed?
    case SetUnlock(i) => i < |s.setters| && s.setters[i].Replaced?
    case WaitLock(i) => i < |s.waiters| && s.waiters[i].pc.Start? && s.lock.Free?
    case ReadState(i) => i < |s.waiters| && s.waiters[i].pc.Holding?
    case WaitUnlock(i) => i < |s.waiters| && s.waiters[i].pc.Read?
    case Test(i) => i < |s.waiters| && s.waiters[i].pc.Checked?
    case Wake(i) => i < |s.waiters| && s.waiters[i].pc.Parked? && s.waiters[i].pc.changed in s.closed
    case Cancel(i) => i < |s.waiters| && s.waiters[i].pc.Parked?
  }

  function SetAt(s: State, i: nat, pc: SetPc): State
    requires i < |s.setters|
  {
    s.(setters := s.setters[i := pc])
  }

  function WaitAt(s: State, i: nat, pc: WaitPc): State
    requires i < |s.waiters|
  {
    s.(waiters := s.waiters[i := s.waiters[i].(pc := pc)])
  }

  function Do(s: State, a: Act): State
    requires Enabled(s, a)
  {
    match a
    case SetLock(i, name, up) => SetAt(s, i, Locked(name, up)).(lock := HeldBySetter(i))
    case Mark(i) =>
      var name, up := s.setters[i].name, s.setters[i].up;
      SetAt(s, i, Marked).(up := s.up[name := up], everUp := if up then s.everUp + {name} else s.everUp)
    case Close(i) =>
      SetAt(s, i, Closed).(closed := s.closed + {s.changed}, panicked := s.panicked || s.changed in s.closed)
    case Replace(i) => SetAt(s, i, Replaced).(changed := s.next, next := s.next + 1)
    case SetUnlock(i) => SetAt(s, i, Out).(lock := Free)
    case WaitLock(i) => WaitAt(s, i, Holding).(lock := HeldByWaiter(i))
    case ReadState(i) => WaitAt(s, i, Read(Up(s, s.waiters[i].want), s.changed))
    case WaitUnlock(i) => WaitAt(s, i, Checked(s.waiters[i].pc.up, s.waiters[i].pc.changed)).(lock := Free)
    case Test(i) => WaitAt(s, i, if s.waiters[i].pc.up then Returned else Parked(s.waiters[i].pc.changed))
    case Wake(i) => WaitAt(s, i, Start)
    case Cancel(i) => WaitAt(s, i, GaveUp)
  }

  ghost predicate Initial(s: State) {
    && s.up == map[] && s.changed == 0 && s.closed == {} && s.next == 1 && s.lock.Free? && !s.panicked && s.everUp == {}
    && (forall i | 0 <= i < |s.setters| :: s.setters[i].Out?)
    && (forall i | 0 <= i < |s.waiters| :: s.waiters[i].pc.Start?)
  }

  ghost predicate Run(s: State, acts: seq<Act>, t: State)
    decreases |acts|
  {
    if acts == [] then s == t
    else Enabled(s, acts[0]) && Run(Do(s, acts[0]), acts[1..], t)
  }

  // ---------------------------------------------------------------------------------------------

  /** The lock holder, and nobody else, is between Lock and Unlock. */
  predicate MutualExclusion(s: State) {
    && (forall i | 0 <= i < |s.setters| :: !s.setters[i].Out? <==> s.lock == HeldBySetter(i))
    && (forall i | 0 <= i < |s.waiters| ::
          s.waiters[i].pc.Holding? || s.waiters[i].pc.Read? <==> s.lock == HeldByWaiter(i))
    && (s.lock.HeldBySetter? ==> s.lock.i < |s.setters|)
    && (s.lock.HeldByWaiter? ==> s.lock.i < |s.waiters|)
  }

  /** Where the setter inside the critical section is, if there is one. */
  function Inside(s: State): SetPc
    requires s.lock.HeldBySetter? ==> s.lock.i < |s.setters|
  {
    if s.lock.HeldBySetter? then s.setters[s.lock.i] else Out
  }

  /** Exactly the channels before the current one are closed, and for a moment the current one. */
  ghost predicate Channels(s: State)
    requires MutualExclusion(s)
  {
    && s.next == s.changed + 1
    && forall c: nat :: c in s.closed <==> c < if Inside(s).Closed? then s.next else s.changed
  }

  /** The channel of a waiter's reading, and the value it read of up[want]. */
  function Reading(pc: WaitPc): Option<(bool, nat)> {
    match pc
    case Read(up, c) => Some((up, c))
    case Checked(up, c) => Some((up, c))
    case Parked(c) => Some((false, c))
    case _ => None
  }

  /** A reading whose channel is still open is current, or about to be announced stale. */
  predicate Fresh(s: State, w: Waiter)
    requires MutualExclusion(s)
  {
    match Reading(w.pc)
    case None => true
    case Some((up, c)) => c <= s.changed && (c in s.closed || Inside(s).Marked? || up == Up(s, w.want))
  }

  /** A waiter that has seen its neighbour up, or returned, is not mistaken. */
  predicate Honest(s: State, w: Waiter) {
    w.pc.Returned? || (Reading(w.pc).Some? && Reading(w.pc).value.0) ==> w.want in s.everUp
  }

  ghost predicate Inv(s: State) {
    && MutualExclusion(s) && Channels(s) && !s.panicked
    && (forall name :: Up(s, name) ==> name in s.everUp)
    && (forall i | 0 <= i < |s.waiters| :: Honest(s, s.waiters[i]))
    && forall i | 0 <= i < |s.waiters| :: Fresh(s, s.waiters[i])
  }

  predicate OfSetter(a: Act) {
    a.SetLock? || a.Mark? || a.Close? || a.Replace? || a.SetUnlock?
  }

  lemma SetterKeepsInv(s: State, a: Act)
    requires Inv(s) && Enabled(s, a) && OfSetter(a)
    ensures Inv(Do(s, a))
  {
    var t := Do(s, a);
    assert MutualExclusion(t);
    assert Channels(t);
  }

  lemma WaiterKeepsInv(s: State, a: Act)
    requires Inv(s) && Enabled(s, a) && !OfSetter(a)
    ensures Inv(Do(s, a))
  {
    var t := Do(s, a);
    assert MutualExclusion(t);
    assert Inside(t) == Inside(s);
    assert Channels(t);
  }

  lemma DoKeepsInv(s: State, a: Act)
    requires Inv(s) && Enabled(s, a)
    ensures Inv(Do(s, a))
  {
    if OfSetter(a) {
      SetterKeepsInv(s, a);
    } else {
      WaiterKeepsInv(s, a);
    }
  }

  lemma {:induction false} RunKeepsInv(s: State, acts: seq<Act>, t: State)
    requires Inv(s) && Run(s, acts, t)
    ensures Inv(t)
    decreases |acts|
  {
    if acts != [] {
      DoKeepsInv(s, acts[0]);
      RunKeepsInv(Do(s, acts[0]), acts[1..], t);
    }
  }

  lemma ReachedInv(s: State, acts: seq<Act>, t: State)
    requires Initial(s) && Run(s, acts, t)
    ensures Inv(t)
  {
    assert Inside(s) == Out;
    RunKeepsInv(s, acts, t);
  }

  // ---------------------------------------------------------------------------------------------
  // The theorems.

  /** No channel is closed twice. */
  lemma NoDoubleClose(s: State, acts: seq<Act>, t: State)
    requires Initial(s) && Run(s, acts, t)
    ensures !t.panicked
    ensures forall i | Enabled(t, Close(i)) :: t.changed !in t.closed
  {
    ReachedInv(s, acts, t);
  }

  /**
   A waiter parked on a channel that is still open holds the current one, and its neighbour is
   down, unless a setter is between marking the neighbour and closing that very channel.
   */
  lemma ParkedOnCurrent(s: State, acts: seq<Act>, t: State, i: nat)
    requires Initial(s) && Run(s, acts, t)
    requires i < |t.waiters| && t.waiters[i].pc.Parked? && t.waiters[i].pc.changed !in t.closed
    ensures t.waiters[i].pc.changed == t.changed
    ensures !Up(t, t.waiters[i].want) || (t.lock.HeldBySetter? && Enabled(t, Close(t.lock.i)))
  {
    ReachedInv(s, acts, t);
    assert Fresh(t, t.waiters[i]);
  }

  /** awaitNeighbor returns nil only for a neighbour that has been up. */
  lemma ReturnsOnlyIfUp(s: State, acts: seq<Act>, t: State, i: nat)
    requires Initial(s) && Run(s, acts, t)
    requires i < |t.waiters| && t.waiters[i].pc.Returned?
    ensures t.waiters[i].want in t.everUp
  {
    ReachedInv(s, acts, t);
    assert Honest(t, t.waiters[i]);
  }

  /**
   No lost wakeup: a parked waiter whose neighbour is up can wake now, or can as soon as the setter
   that is inside closes its channel.
   */
  lemma NoLostWakeup(s: State, acts: seq<Act>, t: State, i: nat)
    requires Initial(s) && Run(s, acts, t)
    requires i < |t.waiters| && t.waiters[i].pc.Parked? && Up(t, t.waiters[i].want)
    ensures Enabled(t, Wake(i))
            || (t.lock.HeldBySetter? && Enabled(t, Close(t.lock.i))
                && t.waiters[i].pc.changed in Do(t, Close(t.lock.i)).closed)
  {
    if !Enabled(t, Wake(i)) {
      ParkedOnCurrent(s, acts, t, i);
    }
  }

  /** Acts left to the lock's holder before it unlocks. */
  function HolderSteps(t: State): nat
    requires MutualExclusion(t)
  {
    match t.lock
    case Free => 0
    case HeldBySetter(i) =>
      (match t.setters[i] case Locked(_, _) => 4 case Marked => 3 case Closed => 2 case _ => 1)
    case HeldByWaiter(i) => if t.waiters[i].pc.Holding? then 2 else 1
  }

  function HolderMove(t: State): Act
    requires MutualExclusion(t) && !t.lock.Free?
  {
    match t.lock
    case HeldBySetter(i) =>
      (match t.setters[i]
       case Locked(_, _) => Mark(i)
       case Marked => Close(i)
       case Closed => Replace(i)
       case _ => SetUnlock(i))
    case HeldByWaiter(i) => if t.waiters[i].pc.Holding? then ReadState(i) else WaitUnlock(i)
  }

  lemma {:induction false} LockIsReleased(t: State) returns (more: seq<Act>, u: State)
    requires Inv(t)
    ensures Run(t, more, u) && u.lock.Free? && |more| <= HolderSteps(t)
    decreases HolderSteps(t)
  {
    more, u := [], t;
    if !t.lock.Free? {
      var a := HolderMove(t);
      DoKeepsInv(t, a);
      more, u := LockIsReleased(Do(t, a));
      more := [a] + more;
    }
  }

  /** Acts left to a waiter whose neighbour stays up, alone with the lock. */
  function WaiterSteps(pc: WaitPc): nat {
    match pc
    case Checked(up, _) => if up then 1 else 6
    case Parked(_) => 5
    case Start => 4
    case Holding => 3
    case Read(_, _) => 2
    case _ => 0
  }

  function WaiterMove(i: nat, pc: WaitPc): Act {
    match pc
    case Start => WaitLock(i)
    case Holding => ReadState(i)
    case Read(_, _) => WaitUnlock(i)
    case Checked(_, _) => Test(i)
    case _ => Wake(i)
  }

  lemma {:induction false} GoesOn(t: State, i: nat) returns (more: seq<Act>, u: State)
    requires Inv(t) && i < |t.waiters| && Up(t, t.waiters[i].want) && !t.waiters[i].pc.GaveUp?
    requires t.lock == if t.waiters[i].pc.Holding? || t.waiters[i].pc.Read? then HeldByWaiter(i) else Free
    requires t.waiters[i].pc.Read? ==> t.waiters[i].pc.up
    ensures Run(t, more, u) && i < |u.waiters| && u.waiters[i].pc.Returned?
    ensures |more| <= WaiterSteps(t.waiters[i].pc)
    decreases WaiterSteps(t.waiters[i].pc)
  {
    more, u := [], t;
    if !t.waiters[i].pc.Returned? {
      var a := WaiterMove(i, t.waiters[i].pc);
      assert Fresh(t, t.waiters[i]);
      DoKeepsInv(t, a);
      more, u := GoesOn(Do(t, a), i);
      more := [a] + more;
    }
  }

  /** A waiter whose neighbour is up needs nobody's help to return nil, once the lock is free. */
  lemma UpMeansReturn(s: State, acts: seq<Act>, t: State, i: nat) returns (more: seq<Act>, u: State)
    requires Initial(s) && Run(s, acts, t) && t.lock.Free?
    requires i < |t.waiters| && Up(t, t.waiters[i].want) && !t.waiters[i].pc.GaveUp?
    ensures Run(t, more, u) && i < |u.waiters| && u.waiters[i].pc.Returned? && |more| <= 6
  {
    ReachedInv(s, acts, t);
    more, u := GoesOn(t, i);
  }

  // ---------------------------------------------------------------------------------------------
  // The same in terms of the calls to setNeighbor alone.

  /** What the last call that named this neighbour said of it. */
  function LastCall(acts: seq<Act>, name: Name): Option<bool> {
    if acts == [] then None
    else
      var a := acts[|acts| - 1];
      if a.SetLock? && a.name == name then Some(a.up) else LastCall(acts[..|acts| - 1], name)
  }

  ghost predicate CalledUp(acts: seq<Act>, name: Name) {
    exists k :: 0 <= k < |acts| && acts[k].SetLock? && acts[k].name == name && acts[k].up
  }

  /** Up once the call that has the lock, if one has, has stored its argument. */
  predicate WillBeUp(s: State, name: Name)
    requires MutualExclusion(s)
  {
    match Inside(s)
    case Locked(n, up) => if n == name then up else Up(s, name)
    case _ => Up(s, name)
  }

  ghost predicate HasCome(s: State, name: Name)
    requires MutualExclusion(s)
  {
    name in s.everUp || (Inside(s).Locked? && Inside(s).name == name && Inside(s).up)
  }

  /** A setter has closed the channel of the moment since waiter i last read the state. */
  function ClosedSince(acts: seq<Act>, i: nat): bool {
    acts != []
    && var a := acts[|acts| - 1];
       a != ReadState(i) && (a.Close? || ClosedSince(acts[..|acts| - 1], i))
  }

  ghost predicate Told(acts: seq<Act>, s: State)
    requires MutualExclusion(s)
  {
    && (forall i | 0 <= i < |s.waiters| && Reading(s.waiters[i].pc).Some? ::
          Reading(s.waiters[i].pc).value.1 in s.closed <==> ClosedSince(acts, i))
    && (forall i | 0 <= i < |s.waiters| :: s.waiters[i].pc.GaveUp? <==> Cancel(i) in acts)
    && forall name :: (WillBeUp(s, name) <==> LastCall(acts, name) == Some(true))
                && (HasCome(s, name) <==> CalledUp(acts, name))
  }

  lemma CallsGrow(acts: seq<Act>, a: Act, name: Name)
    ensures LastCall(acts + [a], name) == if a.SetLock? && a.name == name then Some(a.up) else LastCall(acts, name)
    ensures CalledUp(acts + [a], name) <==> CalledUp(acts, name) || (a.SetLock? && a.name == name && a.up)
  {
    var more := acts + [a];
    assert more[..|more| - 1] == acts && more[|acts|] == a;
    assert forall k | 0 <= k < |acts| :: more[k] == acts[k];
  }

  lemma WaitersTell(acts: seq<Act>, s: State, a: Act)
    requires Inv(s) && Enabled(s, a) && Inv(Do(s, a)) && Told(acts, s)
    ensures var t := Do(s, a);
      && (forall i | 0 <= i < |t.waiters| && Reading(t.waiters[i].pc).Some? ::
            Reading(t.waiters[i].pc).value.1 in t.closed <==> ClosedSince(acts + [a], i))
      && (forall i | 0 <= i < |t.waiters| :: t.waiters[i].pc.GaveUp? <==> Cancel(i) in acts + [a])
  {
    var t := Do(s, a);
    forall i | 0 <= i < |t.waiters| && Reading(t.waiters[i].pc).Some?
      ensures Reading(t.waiters[i].pc).value.1 in t.closed <==> ClosedSince(acts + [a], i)
    {
      assert (acts + [a])[..|acts|] == acts;
      assert Fresh(s, s.waiters[i]);
    }
    assert forall b :: b in acts + [a] <==> b in acts || b == a;
    assert forall i | 0 <= i < |s.waiters| :: s.waiters[i].pc.GaveUp? <==> Cancel(i) in acts;
  }

  lemma DoTells(acts: seq<Act>, s: State, a: Act)
    requires Inv(s) && Enabled(s, a) && Told(acts, s)
    ensures MutualExclusion(Do(s, a)) && Told(acts + [a], Do(s, a))
  {
    DoKeepsInv(s, a);
    WaitersTell(acts, s, a);
    var t := Do(s, a);
    forall name
      ensures WillBeUp(t, name) <==> LastCall(acts + [a], name) == Some(true)
      ensures HasCome(t, name) <==> CalledUp(acts + [a], name)
    {
      CallsGrow(acts, a, name);
      assert WillBeUp(s, name) <==> LastCall(acts, name) == Some(true);
      assert HasCome(s, name) <==> CalledUp(acts, name);
    }
  }

  lemma {:induction false} RunTells(before: seq<Act>, s: State, acts: seq<Act>, t: State)
    requires Inv(s) && Told(before, s) && Run(s, acts, t)
    ensures Inv(t) && Told(before + acts, t)
    decreases |acts|
  {
    if acts == [] {
      assert before + acts == before;
    } else {
      DoTells(before, s, acts[0]);
      DoKeepsInv(s, acts[0]);
      RunTells(before + [acts[0]], Do(s, acts[0]), acts[1..], t);
      assert before + [acts[0]] + acts[1..] == before + acts;
    }
  }

  lemma ReachedTold(s: State, acts: seq<Act>, t: State)
    requires Initial(s) && Run(s, acts, t)
    ensures Inv(t) && Told(acts, t)
  {
    assert Inside(s) == Out;
    RunTells([], s, acts, t);
    assert [] + acts == acts;
  }

  /**
   Whenever the lock is free, a neighbour is up exactly when the last call to setNeighbor that
   named it said so, and has been up exactly when some call did.
   */
  lemma UpExactly(s: State, acts: seq<Act>, t: State, name: Name)
    requires Initial(s) && Run(s, acts, t) && t.lock.Free?
    ensures Up(t, name) <==> LastCall(acts, name) == Some(true)
    ensures name in t.everUp <==> CalledUp(acts, name)
  {
    ReachedTold(s, acts, t);
    assert WillBeUp(t, name) <==> LastCall(acts, name) == Some(true);
    assert HasCome(t, name) <==> CalledUp(acts, name);
  }

  /** A parked waiter can wake exactly once a setter has closed the channel since it read the state: it neither sleeps through a change nor spins. */
  lemma WakesExactly(s: State, acts: seq<Act>, t: State, i: nat)
    requires Initial(s) && Run(s, acts, t)
    requires i < |t.waiters| && t.waiters[i].pc.Parked?
    ensures Enabled(t, Wake(i)) <==> ClosedSince(acts, i)
  {
    ReachedTold(s, acts, t);
    assert Reading(t.waiters[i].pc) == Some((false, t.waiters[i].pc.changed));
  }

  /** awaitNeighbor gives up exactly when its select took the context's branch. */
  lemma GivesUpExactly(s: State, acts: seq<Act>, t: State, i: nat)
    requires Initial(s) && Run(s, acts, t) && i < |t.waiters|
    ensures t.waiters[i].pc.GaveUp? <==> Cancel(i) in acts
  {
    ReachedTold(s, acts, t);
  }

  /** awaitNeighbor returns nil only if some call to setNeighbor has said that its neighbour is up. */
  lemma ReturnsOnlyIfCalledUp(s: State, acts: seq<Act>, t: State, i: nat)
    requires Initial(s) && Run(s, acts, t)
    requires i < |t.waiters| && t.waiters[i].pc.Returned?
    ensures CalledUp(acts, t.waiters[i].want)
  {
    ReturnsOnlyIfUp(s, acts, t, i);
    ReachedTold(s, acts, t);
    assert HasCome(t, t.waiters[i].want);
  }

  /** A waiter whose neighbour the last call said is up can return nil with six acts of its own. */
  lemma CalledUpMeansReturn(s: State, acts: seq<Act>, t: State, i: nat) returns (more: seq<Act>, u: State)
    requires Initial(s) && Run(s, acts, t) && t.lock.Free?
    requires i < |t.waiters| && LastCall(acts, t.waiters[i].want) == Some(true) && !t.waiters[i].pc.GaveUp?
    ensures Run(t, more, u) && i < |u.waiters| && u.waiters[i].pc.Returned? && |more| <= 6
  {
    UpExactly(s, acts, t, t.waiters[i].want);
    more, u := UpMeansReturn(s, acts, t, i);
  }

  /** With no call inside, a waiter parked though the last call said that its neighbour is up can wake. */
  lemma NoCallIsMissed(s: State, acts: seq<Act>, t: State, i: nat)
    requires Initial(s) && Run(s, acts, t) && t.lock.Free?
    requires i < |t.waiters| && t.waiters[i].pc.Parked? && LastCall(acts, t.waiters[i].want) == Some(true)
    ensures Enabled(t, Wake(i))
  {
    UpExactly(s, acts, t, t.waiters[i].want);
    NoLostWakeup(s, acts, t, i);
  }
}
