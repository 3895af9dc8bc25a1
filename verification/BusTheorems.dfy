/**
 What the bus of cmd/go-iroh-custom-transport queues, hands over and answers, in terms of its
 callers' acts alone: the order in which sends are looked up and selected, and Serve takes.
 */
module BusTheorems {
  import opened Common
  import opened Bus

  /** The datagram sender t gave in its last call. */
  function Given(acts: seq<Act>, t: nat): Option<Datagram> {
    if acts == [] then None
    else
      var a := acts[|acts| - 1];
      if a.Lookup? && a.t == t then Some(a.d) else Given(acts[..|acts| - 1], t)
  }

  /** How often Serve has taken from port p. */
  function Takes(acts: seq<Act>, p: nat): nat {
    if acts == [] then 0
    else Takes(acts[..|acts| - 1], p) + if acts[|acts| - 1] == Take(p) then 1 else 0
  }

  /** How often recv has been called at port p. */
  function Hands(acts: seq<Act>, p: nat): nat {
    if acts == [] then 0
    else
      var a := acts[|acts| - 1];
      Hands(acts[..|acts| - 1], p) + if a.Hand? && a.p == p then 1 else 0
  }

  /** Of n ports, port p takes the datagram of each select that finds fewer than 64 in its queue. */
  function Intake(acts: seq<Act>, n: nat, p: nat): seq<Datagram> {
    if acts == [] then []
    else
      var before, a := acts[..|acts| - 1], acts[|acts| - 1];
      var queued := Intake(before, n, p);
      if a.Select? && p < n && Given(before, a.t).Some? && Given(before, a.t).value.local == p
         && |queued| - Takes(before, p) < 64
      then queued + [Given(before, a.t).value]
      else queued
  }

  /** Whether sender t's last select found room; None before it. */
  function Verdict(acts: seq<Act>, n: nat, t: nat): Option<bool> {
    if acts == [] then None
    else
      var before, a := acts[..|acts| - 1], acts[|acts| - 1];
      if a.Lookup? && a.t == t then None
      else if a.Select? && a.t == t then
        match Given(before, t)
        case None => Some(false)
        case Some(d) => Some(d.local < n && |Intake(before, n, d.local)| - Takes(before, d.local) < 64)
      else Verdict(before, n, t)
  }

  /** How many calls of send have returned true, and how many false. */
  function Returns(acts: seq<Act>, n: nat, ok: bool): nat {
    if acts == [] then 0
    else
      var before, a := acts[..|acts| - 1], acts[|acts| - 1];
      Returns(before, n, ok) + if a.Return? && (Verdict(before, n, a.t) == Some(true)) == ok then 1 else 0
  }

  /** How often recv has returned false. */
  function Refusals(acts: seq<Act>): nat {
    if acts == [] then 0
    else
      var a := acts[|acts| - 1];
      Refusals(acts[..|acts| - 1]) + if a.Hand? && !a.ok then 1 else 0
  }

  predicate PortTold(acts: seq<Act>, n: nat, p: nat, port: Port) {
    && port.enqueued == Intake(acts, n, p)
    && |port.taken| == Takes(acts, p)
    && |port.handed| == Hands(acts, p)
  }

  predicate SenderTold(acts: seq<Act>, n: nat, t: nat, pc: SendPc) {
    match pc
    case Idle => true
    case Looked(d, ok) => Given(acts, t) == Some(d) && ok == (d.local < n) && Verdict(acts, n, t) == None
    case Counting(to) =>
      Verdict(acts, n, t) == Some(true) && Given(acts, t).Some? && Given(acts, t).value.local == to
    case Dropping => Verdict(acts, n, t) == Some(false) && Given(acts, t).Some? && Given(acts, t).value.local < n
    case Returning(ok) =>
      if ok then Verdict(acts, n, t) == Some(true)
      else Given(acts, t).Some? && Verdict(acts, n, t) == if Given(acts, t).value.local < n then Some(false) else None
  }

  ghost predicate Told(acts: seq<Act>, s: State) {
    && (forall p | 0 <= p < |s.ports| :: PortTold(acts, |s.ports|, p, s.ports[p]))
    && (forall t | 0 <= t < |s.senders| :: SenderTold(acts, |s.ports|, t, s.senders[t]))
    && s.took == Returns(acts, |s.ports|, true) && s.lost == Returns(acts, |s.ports|, false)
    && s.refused == Refusals(acts)
  }

  /** The counts after one more act. */
  lemma OneMore(acts: seq<Act>, a: Act, n: nat)
    ensures forall t :: Given(acts + [a], t) == if a.Lookup? && a.t == t then Some(a.d) else Given(acts, t)
    ensures forall p :: Takes(acts + [a], p) == Takes(acts, p) + if a == Take(p) then 1 else 0
    ensures forall p :: Hands(acts + [a], p) == Hands(acts, p) + if a.Hand? && a.p == p then 1 else 0
    ensures forall p | !a.Select? :: Intake(acts + [a], n, p) == Intake(acts, n, p)
    ensures forall t | !a.Lookup? && !a.Select? :: Verdict(acts + [a], n, t) == Verdict(acts, n, t)
    ensures !a.Return? ==> forall ok :: Returns(acts + [a], n, ok) == Returns(acts, n, ok)
    ensures !a.Hand? ==> Refusals(acts + [a]) == Refusals(acts)
  {
    assert (acts + [a])[..|acts|] == acts;
  }

  lemma PortsTell(acts: seq<Act>, s: State, a: Act)
    requires Inv(s) && Enabled(s, a) && Told(acts, s) && !a.Select?
    ensures forall p | 0 <= p < |s.ports| :: PortTold(acts + [a], |s.ports|, p, Do(s, a).ports[p])
  {
    OneMore(acts, a, |s.ports|);
    var t := Do(s, a);
    forall p | 0 <= p < |s.ports|
      ensures PortTold(acts + [a], |s.ports|, p, t.ports[p])
    {
      assert PortTold(acts, |s.ports|, p, s.ports[p]);
    }
  }

  lemma SendersTell(acts: seq<Act>, s: State, a: Act)
    requires Inv(s) && Enabled(s, a) && Told(acts, s) && !a.Select?
    ensures forall t | 0 <= t < |s.senders| :: SenderTold(acts + [a], |s.ports|, t, Do(s, a).senders[t])
  {
    OneMore(acts, a, |s.ports|);
    assert (acts + [a])[..|acts|] == acts;
    var u := Do(s, a);
    forall t | 0 <= t < |s.senders|
      ensures SenderTold(acts + [a], |s.ports|, t, u.senders[t])
    {
      assert SenderTold(acts, |s.ports|, t, s.senders[t]);
    }
  }

  lemma SelectTells(acts: seq<Act>, s: State, i: nat)
    requires Inv(s) && Enabled(s, Select(i)) && Told(acts, s)
    ensures Told(acts + [Select(i)], Do(s, Select(i)))
  {
    var a, n, u := Select(i), |s.ports|, Do(s, Select(i));
    OneMore(acts, a, n);
    assert (acts + [a])[..|acts|] == acts;
    var d := s.senders[i].d;
    assert SenderTold(acts, n, i, s.senders[i]);
    assert PortTold(acts, n, d.local, s.ports[d.local]) && PortInv(s.ports[d.local]);
    forall p | 0 <= p < n
      ensures PortTold(acts + [a], n, p, u.ports[p])
    {
      assert PortTold(acts, n, p, s.ports[p]);
    }
    forall t | 0 <= t < |s.senders|
      ensures SenderTold(acts + [a], n, t, u.senders[t])
    {
      assert SenderTold(acts, n, t, s.senders[t]);
    }
  }

  lemma DoTells(acts: seq<Act>, s: State, a: Act)
    requires Inv(s) && Enabled(s, a) && Told(acts, s)
    ensures Told(acts + [a], Do(s, a))
  {
    if a.Select? {
      SelectTells(acts, s, a.t);
    } else {
      PortsTell(acts, s, a);
      SendersTell(acts, s, a);
      OneMore(acts, a, |s.ports|);
      assert (acts + [a])[..|acts|] == acts;
      if a.Return? {
        assert SenderTold(acts, |s.ports|, a.t, s.senders[a.t]);
      }
    }
  }

  lemma OneActKeepsInv(s: State, a: Act)
    requires Inv(s) && Enabled(s, a)
    ensures Inv(Do(s, a))
  {
    assert [a][1..] == [] && Run(Do(s, a), [], Do(s, a));
    RunKeepsInv(s, [a], Do(s, a));
  }

  lemma DoKeepsSize(s: State, a: Act)
    requires Enabled(s, a)
    ensures |Do(s, a).ports| == |s.ports|
  {
  }

  lemma {:induction false} RunTells(before: seq<Act>, s: State, acts: seq<Act>, t: State, whole: seq<Act>)
    requires Inv(s) && Told(before, s) && Run(s, acts, t) && whole == before + acts
    ensures Told(whole, t) && |t.ports| == |s.ports|
    decreases |acts|
  {
    if acts == [] {
      assert whole == before;
    } else {
      var a := acts[0];
      DoTells(before, s, a);
      OneActKeepsInv(s, a);
      DoKeepsSize(s, a);
      assert whole == before + [a] + acts[1..];
      RunTells(before + [a], Do(s, a), acts[1..], t, whole);
    }
  }

  lemma ReachedTold(s: State, acts: seq<Act>, t: State)
    requires Initial(s) && Run(s, acts, t)
    ensures Inv(t) && Told(acts, t) && |t.ports| == |s.ports|
  {
    InitialInv(s);
    RunKeepsInv(s, acts, t);
    RunTells([], s, acts, t, acts);
  }

  // ---------------------------------------------------------------------------------------------
  // The theorems.

  /**
   Under every interleaving a port has been given exactly the datagrams, bytes and all and in select
   order, of the sends addressed to it that found room; and Serve has called recv with a prefix of
   them, one for each call.
   */
  lemma EnqueuedExactly(s: State, acts: seq<Act>, t: State, p: nat)
    requires Initial(s) && Run(s, acts, t) && p < |t.ports|
    ensures t.ports[p].enqueued == Intake(acts, |s.ports|, p)
    ensures Hands(acts, p) <= |Intake(acts, |s.ports|, p)|
    ensures t.ports[p].handed == Intake(acts, |s.ports|, p)[..Hands(acts, p)]
    ensures Takes(acts, p) == Hands(acts, p) + if t.ports[p].serve.Handing? then 1 else 0
  {
    ReachedTold(s, acts, t);
    assert PortTold(acts, |s.ports|, p, t.ports[p]) && PortInv(t.ports[p]);
  }

  /** A select of sender t that found its port's queue full. */
  ghost predicate FoundFull(acts: seq<Act>, n: nat, t: nat) {
    exists k :: 0 <= k < |acts| && acts[k] == Select(t) && Given(acts[..k], t).Some?
      && Given(acts[..k], t) == Given(acts, t)
      && |Intake(acts[..k], n, Given(acts, t).value.local)| - Takes(acts[..k], Given(acts, t).value.local) >= 64
  }

  lemma {:induction false} VerdictMeans(acts: seq<Act>, n: nat, t: nat)
    requires Given(acts, t).Some? && Given(acts, t).value.local < n && Verdict(acts, n, t) == Some(false)
    ensures FoundFull(acts, n, t)
  {
    var k := |acts| - 1;
    var before := acts[..k];
    if acts[k] != Select(t) {
      VerdictMeans(before, n, t);
      var j :| 0 <= j < k && before[j] == Select(t) && Given(before[..j], t).Some?
        && Given(before[..j], t) == Given(before, t)
        && |Intake(before[..j], n, Given(before, t).value.local)| - Takes(before[..j], Given(before, t).value.local) >= 64;
      assert acts[..j] == before[..j];
    }
  }

  /**
   send answers true exactly when its select found room, and false only if the address is no port or
   the select found 64 in the queue.
   */
  lemma AnswersExactly(s: State, acts: seq<Act>, t: State, i: nat)
    requires Initial(s) && Run(s, acts, t) && i < |t.senders| && t.senders[i].Returning?
    ensures t.senders[i].ok <==> Verdict(acts, |s.ports|, i) == Some(true)
    ensures !t.senders[i].ok ==>
      Given(acts, i).Some? && (Given(acts, i).value.local >= |s.ports| || FoundFull(acts, |s.ports|, i))
  {
    ReachedTold(s, acts, t);
    assert SenderTold(acts, |s.ports|, i, t.senders[i]);
    if !t.senders[i].ok && Given(acts, i).value.local < |s.ports| {
      VerdictMeans(acts, |s.ports|, i);
    }
  }

  /** With nothing pending, the counters are the answers send gave and the refusals of recv. */
  lemma CountersExactly(s: State, acts: seq<Act>, t: State)
    requires Initial(s) && Run(s, acts, t)
    requires forall i | 0 <= i < |t.senders| :: t.senders[i] == Idle
    requires Uncounted(t.ports) == 0
    ensures Delivered(t.ports) == Returns(acts, |s.ports|, true)
    ensures t.dropped == Returns(acts, |s.ports|, false) + Refusals(acts)
    ensures forall p | 0 <= p < |t.ports| :: t.ports[p].delivered == |Intake(acts, |s.ports|, p)|
  {
    ReachedTold(s, acts, t);
    Conservation(s, acts, t);
    assert forall p | 0 <= p < |t.ports| :: PortTold(acts, |s.ports|, p, t.ports[p]);
  }

  /** A send that has looked its port up and finds room needs two acts of its own to be queued, counted and answered. */
  lemma RoomMeansQueued(s: State, acts: seq<Act>, t: State, i: nat, d: Datagram)
    requires Initial(s) && Run(s, acts, t)
    requires i < |t.senders| && t.senders[i] == Looked(d, true) && d.local < |t.ports|
    requires |t.ports[d.local].queue| < 64
    ensures Enabled(t, Select(i)) && Enabled(Do(t, Select(i)), Count(i))
    ensures var u := Do(Do(t, Select(i)), Count(i));
      && u.senders == t.senders[i := Returning(true)] && |u.ports| == |t.ports|
      && u.ports[d.local].enqueued == t.ports[d.local].enqueued + [d]
      && u.ports[d.local].queue == t.ports[d.local].queue + [d]
      && u.ports[d.local].delivered == t.ports[d.local].delivered + 1
      && u.dropped == t.dropped
      && forall p | 0 <= p < |t.ports| && p != d.local :: u.ports[p] == t.ports[p]
  {
  }

  /** And every call of send can go on to its answer, whatever it meets. */
  lemma SendAnswers(s: State, acts: seq<Act>, t: State, i: nat) returns (more: seq<Act>, u: State)
    requires Initial(s) && Run(s, acts, t) && i < |t.senders| && !t.senders[i].Idle?
    ensures Run(t, more, u) && |more| <= 2 && |u.senders| == |t.senders| && u.senders[i].Returning?
  {
    ReachedTold(s, acts, t);
    more, u := GoOn(t, i);
    if !u.senders[i].Returning? {
      var last, v := GoOn(u, i);
      assert (more + last)[1..] == last;
      more, u := more + last, v;
    }
  }

  lemma GoOn(t: State, i: nat) returns (more: seq<Act>, u: State)
    requires Inv(t) && i < |t.senders| && !t.senders[i].Idle?
    ensures Run(t, more, u) && Inv(u) && |u.senders| == |t.senders|
    ensures match t.senders[i]
            case Looked(_, ok) => |more| == 1 && (u.senders[i].Returning? || u.senders[i].Counting? || u.senders[i].Dropping?)
            case Returning(_) => more == [] && u == t
            case _ => |more| == 1 && u.senders[i].Returning?
  {
    more, u := [], t;
    if !t.senders[i].Returning? {
      var a := match t.senders[i]
        case Looked(_, ok) => if ok then Select(i) else Miss(i)
        case Counting(_) => Count(i)
        case _ => Drop(i);
      OneActKeepsInv(t, a);
      more, u := [a], Do(t, a);
      assert [a][1..] == [];
    }
  }
}
