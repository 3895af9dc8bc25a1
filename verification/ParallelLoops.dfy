/**
 The two bounded parallel loops of cmd/go-iroh-sendme, importFiles and download: one goroutine for
 each file, a semaphore of `jobs` slots, and a mutex around the shared results.

 `results` is what each body comes to when nothing cancels it. download cancels the others at the
 first error, after which a body may fail that would not have; importFiles cancels nothing.
 */
module ParallelLoops {
  import opened Common

  type Hash = Bytes

  /** What a body brings to the mutex: err, the blob's hash and its size. */
  datatype Outcome = Outcome(err: bool, hash: Hash, size: nat)

  /** blobs.CollectionEntry */
  datatype Entry = Entry(name: string, hash: Hash)

  /** names gives each file's name. */
  datatype Loop = Loop(results: seq<Outcome>, names: nat -> string, jobs: nat, cancels: bool)

  datatype Pc =
    | Queued               // sem <- struct{}{}
    | Working              // the body
    | Finishing(o: Outcome) // mu.Lock
    | Locked(o: Outcome)   // the shared results
    | Recorded             // mu.Unlock
    | Leaving              // <-sem
    | Done

  /** mu names the mutex's holder; recorded is history: the outcomes that reached the shared results. */
  datatype State = State(tasks: seq<Pc>, slots: nat, mu: Option<nat>, firstErr: Option<nat>, cancelled: bool,
                         entries: seq<Option<Entry>>, size: nat, recorded: seq<Option<Outcome>>)

  datatype Act = Acquire(i: nat) | Finish(i: nat, o: Outcome) | Lock(i: nat) | Record(i: nat) | Unlock(i: nat) | Release(i: nat)

  /** What a body may come to at this moment. */
  predicate Possible(loop: Loop, s: State, i: nat, o: Outcome)
    requires i < |loop.results|
  {
    o == loop.results[i] || (s.cancelled && o.err)
  }

  predicate Enabled(loop: Loop, s: State, a: Act) {
    a.i < |s.tasks| && match a
    case Acquire(i) => s.tasks[i].Queued? && s.slots < loop.jobs
    case Finish(i, o) => s.tasks[i].Working? && i < |loop.results| && Possible(loop, s, i, o)
    case Lock(i) => s.tasks[i].Finishing? && s.mu.None?
    case Record(i) => s.tasks[i].Locked? && i < |s.entries| && i < |s.recorded|
    case Unlock(i) => s.tasks[i].Recorded?
    case Release(i) => s.tasks[i].Leaving? && s.slots > 0
  }

  function At(s: State, i: nat, pc: Pc): State
    requires i < |s.tasks|
  {
    s.(tasks := s.tasks[i := pc])
  }

  function Do(loop: Loop, s: State, a: Act): State
    requires Enabled(loop, s, a)
  {
    match a
    case Acquire(i) => At(s, i, Working).(slots := s.slots + 1)
    case Finish(i, o) => At(s, i, Finishing(o))
    case Lock(i) => At(s, i, Locked(s.tasks[i].o)).(mu := Some(i))
    case Record(i) =>
      var o := s.tasks[i].o;
      var first := o.err && s.firstErr.None?;
      At(s, i, Recorded).(
        firstErr := if first then Some(i) else s.firstErr,
        cancelled := s.cancelled || (loop.cancels && first),
        entries := s.entries[i := Some(Entry(loop.names(i), o.hash))],
        size := s.size + o.size,
        recorded := s.recorded[i := Some(o)])
    case Unlock(i) => At(s, i, Leaving).(mu := None)
    case Release(i) => At(s, i, Done).(slots := s.slots - 1)
  }

  function Start(loop: Loop): State {
    var n := |loop.results|;
    State(seq(n, i => Queued), 0, None, None, false, seq(n, i => None), 0, seq(n, i => None))
  }

  ghost predicate Run(loop: Loop, s: State, acts: seq<Act>, t: State)
    decreases |acts|
  {
    if acts == [] then s == t
    else Enabled(loop, s, acts[0]) && Run(loop, Do(loop, s, acts[0]), acts[1..], t)
  }

  // ---------------------------------------------------------------------------------------------
  // Sums over the tasks.

  predicate HoldsSlot(pc: Pc) {
    !pc.Queued? && !pc.Done?
  }

  predicate HoldsMutex(pc: Pc) {
    pc.Locked? || pc.Recorded?
  }

  /** Acts a task has left. */
  function Rank(pc: Pc): nat {
    match pc
    case Queued => 6
    case Working => 5
    case Finishing(_) => 4
    case Locked(_) => 3
    case Recorded => 2
    case Leaving => 1
    case Done => 0
  }

  function Holders(tasks: seq<Pc>): nat {
    if tasks == [] then 0 else (if HoldsSlot(tasks[0]) then 1 else 0) + Holders(tasks[1..])
  }

  function ActsLeft(tasks: seq<Pc>): nat {
    if tasks == [] then 0 else Rank(tasks[0]) + ActsLeft(tasks[1..])
  }

  function Total(recorded: seq<Option<Outcome>>): nat {
    if recorded == [] then 0
    else (match recorded[0] case Some(o) => o.size case None => 0) + Total(recorded[1..])
  }

  lemma {:induction false} TasksUpdate(tasks: seq<Pc>, i: nat, pc: Pc)
    requires i < |tasks|
    ensures Holders(tasks[i := pc])
            == Holders(tasks) - (if HoldsSlot(tasks[i]) then 1 else 0) + (if HoldsSlot(pc) then 1 else 0)
    ensures ActsLeft(tasks[i := pc]) == ActsLeft(tasks) - Rank(tasks[i]) + Rank(pc)
  {
    if i == 0 {
      assert tasks[0 := pc][1..] == tasks[1..];
    } else {
      TasksUpdate(tasks[1..], i - 1, pc);
      assert tasks[i := pc][1..] == tasks[1..][i - 1 := pc];
    }
  }

  lemma {:induction false} TotalUpdate(recorded: seq<Option<Outcome>>, i: nat, o: Outcome)
    requires i < |recorded| && recorded[i].None?
    ensures Total(recorded[i := Some(o)]) == Total(recorded) + o.size
  {
    if i == 0 {
      assert recorded[0 := Some(o)][1..] == recorded[1..];
    } else {
      TotalUpdate(recorded[1..], i - 1, o);
      assert recorded[i := Some(o)][1..] == recorded[1..][i - 1 := Some(o)];
    }
  }

  /** Some task is in a slot if any slot is taken. */
  lemma {:induction false} SomeHolder(tasks: seq<Pc>) returns (i: nat)
    ensures Holders(tasks) > 0 ==> i < |tasks| && HoldsSlot(tasks[i])
  {
    i := 0;
    if tasks != [] && !HoldsSlot(tasks[0]) {
      i := SomeHolder(tasks[1..]);
      i := i + 1;
    }
  }

  // ---------------------------------------------------------------------------------------------
  // What every act keeps.

  predicate HasRecorded(pc: Pc) {
    pc.Recorded? || pc.Leaving? || pc.Done?
  }

  /** An outcome is the body's own, or a failure after a cancel. */
  predicate Explained(loop: Loop, s: State, i: nat, o: Outcome)
    requires i < |loop.results|
  {
    o == loop.results[i] || (loop.cancels && o.err && s.firstErr.Some?)
  }

  predicate TaskInv(loop: Loop, s: State, i: nat)
    requires i < |s.tasks| == |loop.results| == |s.entries| == |s.recorded|
  {
    var pc, r := s.tasks[i], s.recorded[i];
    && (HoldsMutex(pc) <==> s.mu == Some(i))
    && (r.Some? <==> HasRecorded(pc))
    && (s.entries[i] == match r case Some(o) => Some(Entry(loop.names(i), o.hash)) case None => None)
    && (pc.Finishing? || pc.Locked? ==> Explained(loop, s, i, pc.o))
    && (r.Some? ==> Explained(loop, s, i, r.value))
    && (r.Some? && r.value.err ==> s.firstErr.Some?)
  }

  predicate Shape(loop: Loop, s: State) {
    |s.tasks| == |loop.results| == |s.entries| == |s.recorded|
  }

  predicate Inv(loop: Loop, s: State) {
    && Shape(loop, s)
    && s.slots == Holders(s.tasks) <= loop.jobs
    && s.size == Total(s.recorded)
    && (s.cancelled <==> loop.cancels && s.firstErr.Some?)
    && (forall i | 0 <= i < |s.tasks| :: TaskInv(loop, s, i))
    && (s.mu.Some? ==> s.mu.value < |s.tasks|)
    && (s.firstErr.Some? ==>
          var k := s.firstErr.value;
          k < |s.tasks| && loop.results[k].err && s.recorded[k] == Some(loop.results[k]))
  }

  lemma DoKeepsTasks(loop: Loop, s: State, a: Act)
    requires Inv(loop, s) && Enabled(loop, s, a)
    ensures Shape(loop, Do(loop, s, a))
    ensures forall i | 0 <= i < |s.tasks| :: TaskInv(loop, Do(loop, s, a), i)
  {
    var t := Do(loop, s, a);
    forall i | 0 <= i < |s.tasks|
      ensures TaskInv(loop, t, i)
    {
      assert TaskInv(loop, s, i) && TaskInv(loop, s, a.i);
    }
  }

  lemma DoKeepsInv(loop: Loop, s: State, a: Act)
    requires Inv(loop, s) && Enabled(loop, s, a)
    ensures Inv(loop, Do(loop, s, a))
    ensures ActsLeft(Do(loop, s, a).tasks) == ActsLeft(s.tasks) - 1
  {
    var t := Do(loop, s, a);
    DoKeepsTasks(loop, s, a);
    TasksUpdate(s.tasks, a.i, t.tasks[a.i]);
    assert TaskInv(loop, s, a.i);
    if a.Record? {
      TotalUpdate(s.recorded, a.i, s.tasks[a.i].o);
    }
  }

  lemma {:induction false} Fresh(tasks: seq<Pc>, recorded: seq<Option<Outcome>>)
    requires forall i | 0 <= i < |tasks| :: tasks[i] == Queued
    requires forall i | 0 <= i < |recorded| :: recorded[i] == None
    ensures Holders(tasks) == 0 && ActsLeft(tasks) == 6 * |tasks| && Total(recorded) == 0
    decreases |tasks| + |recorded|
  {
    if tasks != [] {
      Fresh(tasks[1..], []);
    }
    if recorded != [] {
      Fresh([], recorded[1..]);
    }
  }

  lemma StartInv(loop: Loop)
    ensures Inv(loop, Start(loop)) && ActsLeft(Start(loop).tasks) == 6 * |loop.results|
  {
    Fresh(Start(loop).tasks, Start(loop).recorded);
  }

  lemma {:induction false} RunKeepsInv(loop: Loop, s: State, acts: seq<Act>, t: State)
    requires Inv(loop, s) && Run(loop, s, acts, t)
    ensures Inv(loop, t) && |acts| + ActsLeft(t.tasks) == ActsLeft(s.tasks)
    decreases |acts|
  {
    if acts != [] {
      DoKeepsInv(loop, s, acts[0]);
      RunKeepsInv(loop, Do(loop, s, acts[0]), acts[1..], t);
    }
  }

  // ---------------------------------------------------------------------------------------------
  // The theorems.

  ghost predicate Reachable(loop: Loop, t: State) {
    exists acts :: Run(loop, Start(loop), acts, t)
  }

  lemma ReachableInv(loop: Loop, t: State)
    requires Reachable(loop, t)
    ensures Inv(loop, t)
  {
    var acts :| Run(loop, Start(loop), acts, t);
    StartInv(loop);
    RunKeepsInv(loop, Start(loop), acts, t);
  }

  /** At most `jobs` bodies are past the semaphore. */
  lemma AtMostJobs(loop: Loop, t: State)
    requires Reachable(loop, t)
    ensures Holders(t.tasks) <= loop.jobs
  {
    ReachableInv(loop, t);
  }

  predicate AllDone(t: State) {
    forall i | 0 <= i < |t.tasks| :: t.tasks[i].Done?
  }

  /** Every run is finite: a file's goroutine has six acts, and each act is one of them. */
  lemma RunLength(loop: Loop, acts: seq<Act>, t: State)
    requires Run(loop, Start(loop), acts, t)
    ensures |acts| + ActsLeft(t.tasks) == 6 * |loop.results|
  {
    StartInv(loop);
    RunKeepsInv(loop, Start(loop), acts, t);
  }

  /** With a slot to give out, something can move until every goroutine is done. */
  lemma CanMove(loop: Loop, t: State) returns (a: Act)
    requires Reachable(loop, t) && loop.jobs >= 1
    ensures AllDone(t) || Enabled(loop, t, a)
  {
    ReachableInv(loop, t);
    a := Acquire(0);
    if !AllDone(t) {
      var i;
      if t.mu.Some? {
        i := t.mu.value;
      } else {
        i := SomeHolder(t.tasks);
        if Holders(t.tasks) == 0 {
          i :| 0 <= i < |t.tasks| && !t.tasks[i].Done?;
          if HoldsSlot(t.tasks[i]) {
            HolderCounts(t.tasks, i);
          }
        }
      }
      assert TaskInv(loop, t, i);
      a := Acquire(i);
      match t.tasks[i] {
        case Working => a := Finish(i, loop.results[i]);
        case Finishing(_) => a := Lock(i);
        case Locked(_) => a := Record(i);
        case Recorded => a := Unlock(i);
        case Leaving => a := Release(i);
        case _ =>
      }
    }
  }

  lemma {:induction false} HolderCounts(tasks: seq<Pc>, i: nat)
    requires i < |tasks| && HoldsSlot(tasks[i])
    ensures Holders(tasks) > 0
  {
    if i > 0 {
      HolderCounts(tasks[1..], i - 1);
    }
  }

  ghost predicate Stuck(loop: Loop, t: State) {
    !AllDone(t) && forall a :: !Enabled(loop, t, a)
  }

  /** The loop can get stuck exactly when the semaphore has no slot and there is a file. */
  lemma StuckExactly(loop: Loop)
    ensures (exists t :: Reachable(loop, t) && Stuck(loop, t)) <==> loop.jobs == 0 && loop.results != []
  {
    var s := Start(loop);
    assert Run(loop, s, [], s);
    if loop.jobs == 0 && loop.results != [] {
      assert s.tasks[0] == Queued;
      assert Reachable(loop, s) && Stuck(loop, s);
    }
    forall t | Reachable(loop, t) && Stuck(loop, t)
      ensures loop.jobs == 0 && loop.results != []
    {
      ReachableInv(loop, t);
      if loop.jobs >= 1 {
        var a := CanMove(loop, t);
      }
    }
  }

  /** The sum a sequential loop would return. */
  function Sum(results: seq<Outcome>): nat {
    if results == [] then 0 else results[0].size + Sum(results[1..])
  }

  lemma {:induction false} AllRecorded(results: seq<Outcome>, recorded: seq<Option<Outcome>>)
    requires |recorded| == |results| && forall i | 0 <= i < |results| :: recorded[i] == Some(results[i])
    ensures Total(recorded) == Sum(results)
  {
    if results != [] {
      AllRecorded(results[1..], recorded[1..]);
    }
  }

  /**
   When every goroutine is done, the loop reports an error exactly when some body fails by itself,
   and then a body that does; otherwise it has what a sequential loop would have, whatever the
   schedule was.
   */
  lemma RefinesSequential(loop: Loop, t: State)
    requires Reachable(loop, t) && AllDone(t)
    ensures t.firstErr.Some? <==> exists i :: 0 <= i < |loop.results| && loop.results[i].err
    ensures t.firstErr.Some? ==> t.firstErr.value < |loop.results| && loop.results[t.firstErr.value].err
    ensures t.firstErr.None? ==>
              t.size == Sum(loop.results) && |t.entries| == |loop.results|
              && forall i | 0 <= i < |loop.results| :: t.entries[i] == Some(Entry(loop.names(i), loop.results[i].hash))
  {
    ReachableInv(loop, t);
    assert forall i | 0 <= i < |t.tasks| :: TaskInv(loop, t, i);
    if t.firstErr.None? {
      forall i | 0 <= i < |loop.results|
        ensures t.recorded[i] == Some(loop.results[i]) && !loop.results[i].err
        ensures t.entries[i] == Some(Entry(loop.names(i), loop.results[i].hash))
      {
        assert TaskInv(loop, t, i) && t.tasks[i].Done?;
      }
      AllRecorded(loop.results, t.recorded);
    }
  }

  /** importFiles cancels nothing, so even a failing run records every file. */
  lemma ImportRecordsAll(loop: Loop, t: State)
    requires Reachable(loop, t) && AllDone(t) && !loop.cancels
    ensures t.size == Sum(loop.results) && |t.entries| == |loop.results|
    ensures forall i | 0 <= i < |loop.results| :: t.entries[i] == Some(Entry(loop.names(i), loop.results[i].hash))
  {
    ReachableInv(loop, t);
    forall i | 0 <= i < |loop.results|
      ensures t.recorded[i] == Some(loop.results[i]) && t.entries[i] == Some(Entry(loop.names(i), loop.results[i].hash))
    {
      assert TaskInv(loop, t, i) && t.tasks[i].Done?;
    }
    AllRecorded(loop.results, t.recorded);
  }

  // ---------------------------------------------------------------------------------------------
  // The shared results in terms of what the bodies came to and the order they got the mutex in.

  /** What file i's body came to. */
  function Result(acts: seq<Act>, i: nat): Option<Outcome> {
    if acts == [] then None
    else
      var a := acts[|acts| - 1];
      if a.Finish? && a.i == i then Some(a.o) else Result(acts[..|acts| - 1], i)
  }

  /** The first to get the mutex with an error. */
  function FirstToFail(acts: seq<Act>): Option<nat> {
    if acts == [] then None
    else
      var before, a := acts[..|acts| - 1], acts[|acts| - 1];
      if FirstToFail(before).Some? then FirstToFail(before)
      else if a.Record? && Result(before, a.i).Some? && Result(before, a.i).value.err then Some(a.i)
      else None
  }

  /** The sizes brought to the mutex, whether with an error or without. */
  function SizeBrought(acts: seq<Act>): nat {
    if acts == [] then 0
    else
      var before, a := acts[..|acts| - 1], acts[|acts| - 1];
      SizeBrought(before) + if a.Record? && Result(before, a.i).Some? then Result(before, a.i).value.size else 0
  }

  predicate TaskTold(loop: Loop, acts: seq<Act>, i: nat, pc: Pc, entry: Option<Entry>) {
    && (pc.Finishing? || pc.Locked? ==> Result(acts, i) == Some(pc.o))
    && (pc.Queued? || pc.Working? ==> Result(acts, i) == None)
    && (HasRecorded(pc) <==> Record(i) in acts)
    && (HasRecorded(pc) ==> Result(acts, i).Some?)
    && entry == if HasRecorded(pc) then Some(Entry(loop.names(i), Result(acts, i).value.hash)) else None
  }

  ghost predicate Told(loop: Loop, acts: seq<Act>, s: State) {
    && |s.tasks| == |s.entries|
    && (forall i | 0 <= i < |s.tasks| :: TaskTold(loop, acts, i, s.tasks[i], s.entries[i]))
    && s.firstErr == FirstToFail(acts)
    && s.size == SizeBrought(acts)
  }

  lemma DoTells(loop: Loop, acts: seq<Act>, s: State, a: Act)
    requires Told(loop, acts, s) && Enabled(loop, s, a)
    ensures Told(loop, acts + [a], Do(loop, s, a))
  {
    var more, t := acts + [a], Do(loop, s, a);
    assert more[..|acts|] == acts;
    assert TaskTold(loop, acts, a.i, s.tasks[a.i], s.entries[a.i]);
    forall i | 0 <= i < |t.tasks|
      ensures TaskTold(loop, more, i, t.tasks[i], t.entries[i])
    {
      assert TaskTold(loop, acts, i, s.tasks[i], s.entries[i]);
    }
  }

  lemma {:induction false} RunTells(loop: Loop, before: seq<Act>, s: State, acts: seq<Act>, t: State, whole: seq<Act>)
    requires Told(loop, before, s) && Run(loop, s, acts, t) && whole == before + acts
    ensures Told(loop, whole, t)
    decreases |acts|
  {
    if acts == [] {
      assert whole == before;
    } else {
      DoTells(loop, before, s, acts[0]);
      assert whole == before + [acts[0]] + acts[1..];
      RunTells(loop, before + [acts[0]], Do(loop, s, acts[0]), acts[1..], t, whole);
    }
  }

  lemma StartTold(loop: Loop)
    ensures Told(loop, [], Start(loop))
  {
  }

  /**
   At every moment the shared results are those of the bodies that have had the mutex: the error is
   the first of theirs, the size the sum of theirs, and each has its entry.
   */
  lemma ResultsExactly(loop: Loop, acts: seq<Act>, t: State)
    requires Run(loop, Start(loop), acts, t)
    ensures t.firstErr == FirstToFail(acts) && t.size == SizeBrought(acts)
    ensures |t.entries| == |loop.results|
    ensures forall i | 0 <= i < |t.entries| ::
      if Record(i) in acts then Result(acts, i).Some? && t.entries[i] == Some(Entry(loop.names(i), Result(acts, i).value.hash))
      else t.entries[i] == None
  {
    StartTold(loop);
    RunTells(loop, [], Start(loop), acts, t, acts);
    StartInv(loop);
    RunKeepsInv(loop, Start(loop), acts, t);
    forall i | 0 <= i < |t.entries|
      ensures if Record(i) in acts
              then Result(acts, i).Some? && t.entries[i] == Some(Entry(loop.names(i), Result(acts, i).value.hash))
              else t.entries[i] == None
    {
      assert TaskTold(loop, acts, i, t.tasks[i], t.entries[i]);
    }
  }
}
