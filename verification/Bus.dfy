/**
 The packet bus of cmd/go-iroh-custom-transport under concurrency: any number of goroutines in
 bus.send and one port.Serve per port, one atomic action at a time. send looks the port up under
 the lock, releases it, and only then queues the datagram and bumps a counter.

 Ports are attached before the run and named by their index; any other index is an unknown address.
 `enqueued`, `taken`, `handed`, `took`, `lost` and `refused` are history.
 */
module Bus {
  import opened Common

  const QUEUE_CAPACITY: nat := 64

  datatype Datagram = Datagram(remote: nat, local: nat, data: Bytes)

  datatype ServePc =
    | Waiting                // the select
    | Handing(d: Datagram)   // recv(d)
    | Refused                // dropped.Add, after recv returned false
    | Stopped                // ctx is done

  datatype Port = Port(queue: seq<Datagram>, delivered: nat, serve: ServePc,
                       enqueued: seq<Datagram>, taken: seq<Datagram>, handed: seq<Datagram>)

  datatype SendPc =
    | Idle
    | Looked(d: Datagram, ok: bool)
    | Counting(to: nat)      // delivered[to].Add, after the enqueue
    | Dropping               // dropped.Add, after a full queue
    | Returning(ok: bool)

  datatype State = State(ports: seq<Port>, senders: seq<SendPc>, dropped: nat, took: nat, lost: nat, refused: nat)

  datatype Act =
    | Lookup(t: nat, d: Datagram)
    | Miss(t: nat)
    | Select(t: nat)
    | Count(t: nat)
    | Drop(t: nat)
    | Return(t: nat)
    | Take(p: nat)
    | Hand(p: nat, ok: bool)
    | CountRefusal(p: nat)
    | Stop(p: nat)

  predicate Enabled(s: State, a: Act) {
    match a
    case Lookup(t, _) => t < |s.senders| && s.senders[t].Idle?
    case Miss(t) => t < |s.senders| && s.senders[t].Looked? && !s.senders[t].ok
    case Select(t) =>
      t < |s.senders| && s.senders[t].Looked? && s.senders[t].ok && s.senders[t].d.local < |s.ports|
    case Count(t) => t < |s.senders| && s.senders[t].Counting? && s.senders[t].to < |s.ports|
    case Drop(t) => t < |s.senders| && s.senders[t].Dropping?
    case Return(t) => t < |s.senders| && s.senders[t].Returning?
    case Take(p) => p < |s.ports| && s.ports[p].serve.Waiting? && s.ports[p].queue != []
    case Hand(p, _) => p < |s.ports| && s.ports[p].serve.Handing?
    case CountRefusal(p) => p < |s.ports| && s.ports[p].serve.Refused?
    case Stop(p) => p < |s.ports| && s.ports[p].serve.Waiting?
  }

  function At(s: State, t: nat, pc: SendPc): State
    requires t < |s.senders|
  {
    s.(senders := s.senders[t := pc])
  }

  function Do(s: State, a: Act): State
    requires Enabled(s, a)
  {
    match a
    case Lookup(t, d) => At(s, t, Looked(d, d.local < |s.ports|))
    case Miss(t) => At(s, t, Returning(false)).(dropped := s.dropped + 1)
    case Select(t) =>
      var d := s.senders[t].d;
      var port := s.ports[d.local];
      if |port.queue| < QUEUE_CAPACITY then
        var port' := port.(queue := port.queue + [d], enqueued := port.enqueued + [d]);
        At(s, t, Counting(d.local)).(ports := s.ports[d.local := port'])
      else At(s, t, Dropping)
    case Count(t) =>
      var p := s.senders[t].to;
      var port := s.ports[p];
      At(s, t, Returning(true)).(ports := s.ports[p := port.(delivered := port.delivered + 1)])
    case Drop(t) => At(s, t, Returning(false)).(dropped := s.dropped + 1)
    case Return(t) =>
      if s.senders[t].ok then At(s, t, Idle).(took := s.took + 1) else At(s, t, Idle).(lost := s.lost + 1)
    case Take(p) =>
      var port := s.ports[p];
      var d := port.queue[0];
      s.(ports := s.ports[p := port.(queue := port.queue[1..], taken := port.taken + [d], serve := Handing(d))])
    case Hand(p, ok) =>
      var port := s.ports[p];
      var port' := port.(handed := port.handed + [port.serve.d], serve := if ok then Waiting else Refused);
      s.(ports := s.ports[p := port'], refused := if ok then s.refused else s.refused + 1)
    case CountRefusal(p) =>
      s.(ports := s.ports[p := s.ports[p].(serve := Waiting)], dropped := s.dropped + 1)
    case Stop(p) => s.(ports := s.ports[p := s.ports[p].(serve := Stopped)])
  }

  ghost predicate Initial(s: State) {
    && s.dropped == s.took == s.lost == s.refused == 0
    && (forall t | 0 <= t < |s.senders| :: s.senders[t] == Idle)
    && (forall p | 0 <= p < |s.ports| :: s.ports[p] == Port([], 0, Waiting, [], [], []))
  }

  ghost predicate Run(s: State, acts: seq<Act>, t: State)
    decreases |acts|
  {
    if acts == [] then s == t
    else Enabled(s, acts[0]) && Run(Do(s, acts[0]), acts[1..], t)
  }

  // ---------------------------------------------------------------------------------------------
  // Tallies.

  /** How many goroutines are exactly there. */
  function Tally(senders: seq<SendPc>, pc: SendPc): nat {
    if senders == [] then 0 else (if senders[0] == pc then 1 else 0) + Tally(senders[1..], pc)
  }

  lemma {:induction false} TallyUpdate(senders: seq<SendPc>, t: nat, now: SendPc, pc: SendPc)
    requires t < |senders|
    ensures Tally(senders[t := now], pc) == Shifted(senders, senders[t], now, pc)
  {
    if t == 0 {
      assert senders[0 := now][1..] == senders[1..];
    } else {
      TallyUpdate(senders[1..], t - 1, now, pc);
      assert senders[t := now][1..] == senders[1..][t - 1 := now];
    }
  }

  function Delivered(ports: seq<Port>): nat {
    if ports == [] then 0 else ports[0].delivered + Delivered(ports[1..])
  }

  /** Serve loops that have seen a refusal and not yet counted it. */
  function Uncounted(ports: seq<Port>): nat {
    if ports == [] then 0 else (if ports[0].serve.Refused? then 1 else 0) + Uncounted(ports[1..])
  }

  lemma {:induction false} PortUpdate(ports: seq<Port>, p: nat, now: Port)
    requires p < |ports|
    ensures Delivered(ports[p := now]) == Delivered(ports) - ports[p].delivered + now.delivered
    ensures Uncounted(ports[p := now])
            == Uncounted(ports) - (if ports[p].serve.Refused? then 1 else 0) + (if now.serve.Refused? then 1 else 0)
  {
    if p == 0 {
      assert ports[0 := now][1..] == ports[1..];
    } else {
      PortUpdate(ports[1..], p - 1, now);
      assert ports[p := now][1..] == ports[1..][p - 1 := now];
    }
  }

  // ---------------------------------------------------------------------------------------------
  // What every action keeps.

  /** First in, first out, within the bound. */
  predicate PortInv(port: Port) {
    && port.enqueued == port.taken + port.queue
    && |port.queue| <= QUEUE_CAPACITY
    && port.taken == port.handed + (if port.serve.Handing? then [port.serve.d] else [])
  }

  /** Everything put in a queue has been counted or has its sender on the way to count it. */
  predicate Counted(s: State, p: nat)
    requires p < |s.ports|
  {
    |s.ports[p].enqueued| == s.ports[p].delivered + Tally(s.senders, Counting(p))
  }

  predicate Books(s: State) {
    && Delivered(s.ports) == s.took + Tally(s.senders, Returning(true))
    && s.dropped + Uncounted(s.ports) == s.lost + Tally(s.senders, Returning(false)) + s.refused
  }

  predicate Inv(s: State) {
    && (forall p | 0 <= p < |s.ports| :: PortInv(s.ports[p]) && Counted(s, p))
    && (forall t | 0 <= t < |s.senders| && s.senders[t].Looked? :: s.senders[t].ok == (s.senders[t].d.local < |s.ports|))
    && (forall t | 0 <= t < |s.senders| && s.senders[t].Counting? :: s.senders[t].to < |s.ports|)
    && Books(s)
  }

  /** A sender's act, seen from the tallies. */
  lemma Moved(s: State, t: nat, now: SendPc)
    requires t < |s.senders|
    ensures var was, moved := s.senders[t], s.senders[t := now];
            && (forall p :: Tally(moved, Counting(p)) == Shifted(s.senders, was, now, Counting(p)))
            && (forall ok :: Tally(moved, Returning(ok)) == Shifted(s.senders, was, now, Returning(ok)))
  {
    forall p {
      TallyUpdate(s.senders, t, now, Counting(p));
    }
    forall ok {
      TallyUpdate(s.senders, t, now, Returning(ok));
    }
  }

  /** The tally once one goroutine has gone from one place to another. */
  function Shifted(senders: seq<SendPc>, was: SendPc, now: SendPc, pc: SendPc): int {
    Tally(senders, pc) - (if was == pc then 1 else 0) + (if now == pc then 1 else 0)
  }

  lemma SenderKeepsInv(s: State, a: Act)
    requires Inv(s) && Enabled(s, a)
    requires a.Lookup? || a.Miss? || a.Select? || a.Count? || a.Drop? || a.Return?
    ensures Inv(Do(s, a))
  {
    if a.Select? {
      SelectKeepsInv(s, a.t);
    } else if a.Count? {
      CountKeepsInv(s, a.t);
    } else {
      Moved(s, a.t, Do(s, a).senders[a.t]);
    }
  }

  lemma SelectKeepsInv(s: State, t: nat)
    requires Inv(s) && Enabled(s, Select(t))
    ensures Inv(Do(s, Select(t)))
  {
    var d := s.senders[t].d;
    if |s.ports[d.local].queue| < QUEUE_CAPACITY {
      EnqueueKeepsInv(s, t, d);
    } else {
      Moved(s, t, Dropping);
    }
  }

  lemma EnqueueKeepsInv(s: State, t: nat, d: Datagram)
    requires Inv(s) && t < |s.senders| && s.senders[t] == Looked(d, true) && d.local < |s.ports|
    requires |s.ports[d.local].queue| < QUEUE_CAPACITY
    ensures Inv(Do(s, Select(t)))
  {
    var s' := Do(s, Select(t));
    var port := s.ports[d.local];
    Moved(s, t, Counting(d.local));
    PortUpdate(s.ports, d.local, s'.ports[d.local]);
    Assoc(port.taken, port.queue, [d]);
    assert Counted(s, d.local);
    forall p | 0 <= p < |s.ports|
      ensures PortInv(s'.ports[p]) && Counted(s', p)
    {
      if p != d.local {
        assert Counted(s, p);
      }
    }
  }

  lemma CountKeepsInv(s: State, t: nat)
    requires Inv(s) && Enabled(s, Count(t))
    ensures Inv(Do(s, Count(t)))
  {
    var s' := Do(s, Count(t));
    Moved(s, t, s'.senders[t]);
    PortUpdate(s.ports, s.senders[t].to, s'.ports[s.senders[t].to]);
  }

  lemma TakeKeepsInv(s: State, a: Act)
    requires Inv(s) && Enabled(s, a) && a.Take?
    ensures Inv(Do(s, a))
  {
    PortUpdate(s.ports, a.p, Do(s, a).ports[a.p]);
    var port := s.ports[a.p];
    assert port.queue == [port.queue[0]] + port.queue[1..];
    Assoc(port.taken, [port.queue[0]], port.queue[1..]);
  }

  lemma HandKeepsInv(s: State, a: Act)
    requires Inv(s) && Enabled(s, a)
    requires a.Hand? || a.Stop?
    ensures Inv(Do(s, a))
  {
    PortUpdate(s.ports, a.p, Do(s, a).ports[a.p]);
  }

  lemma RefusalKeepsInv(s: State, a: Act)
    requires Inv(s) && Enabled(s, a) && a.CountRefusal?
    ensures Inv(Do(s, a))
  {
    PortUpdate(s.ports, a.p, Do(s, a).ports[a.p]);
  }

  lemma {:induction false} RunKeepsInv(s: State, acts: seq<Act>, t: State)
    requires Inv(s) && Run(s, acts, t)
    ensures Inv(t)
    decreases |acts|
  {
    if acts != [] {
      var a := acts[0];
      if a.Take? {
        TakeKeepsInv(s, a);
      } else if a.Hand? || a.Stop? {
        HandKeepsInv(s, a);
      } else if a.CountRefusal? {
        RefusalKeepsInv(s, a);
      } else {
        SenderKeepsInv(s, a);
      }
      RunKeepsInv(Do(s, a), acts[1..], t);
    }
  }

  lemma {:induction false} NobodyThere(senders: seq<SendPc>, pc: SendPc)
    requires pc != Idle && forall t | 0 <= t < |senders| :: senders[t] == Idle
    ensures Tally(senders, pc) == 0
  {
    if senders != [] {
      NobodyThere(senders[1..], pc);
    }
  }

  lemma {:induction false} NothingYet(ports: seq<Port>)
    requires forall p | 0 <= p < |ports| :: ports[p].delivered == 0 && ports[p].serve == Waiting
    ensures Delivered(ports) == 0 && Uncounted(ports) == 0
  {
    if ports != [] {
      NothingYet(ports[1..]);
    }
  }

  lemma InitialInv(s: State)
    requires Initial(s)
    ensures Inv(s)
  {
    NothingYet(s.ports);
    NobodyThere(s.senders, Returning(true));
    NobodyThere(s.senders, Returning(false));
    forall p {
      NobodyThere(s.senders, Counting(p));
    }
  }

  // ---------------------------------------------------------------------------------------------
  // The theorems.

  /** At every moment a port's counter trails its queue's intake by the sends not yet counted. */
  lemma PortAccounting(s: State, acts: seq<Act>, t: State, p: nat)
    requires Initial(s) && Run(s, acts, t) && p < |t.ports|
    ensures |t.ports[p].enqueued| == t.ports[p].delivered + Tally(t.senders, Counting(p))
    ensures |t.ports[p].enqueued| == |t.ports[p].queue| + |t.ports[p].taken|
  {
    InitialInv(s);
    RunKeepsInv(s, acts, t);
  }

  /** Each port is a bounded FIFO: Serve hands over, in order, a prefix of what was enqueued. */
  lemma FifoWithinCapacity(s: State, acts: seq<Act>, t: State, p: nat)
    requires Initial(s) && Run(s, acts, t) && p < |t.ports|
    ensures t.ports[p].handed <= t.ports[p].enqueued
    ensures |t.ports[p].queue| <= QUEUE_CAPACITY
  {
    InitialInv(s);
    RunKeepsInv(s, acts, t);
  }

  /** Every datagram given to send ends in exactly one counter, and a refusal adds one drop. */
  lemma Conservation(s: State, acts: seq<Act>, t: State)
    requires Initial(s) && Run(s, acts, t)
    requires forall i | 0 <= i < |t.senders| :: t.senders[i] == Idle
    requires Uncounted(t.ports) == 0
    ensures Delivered(t.ports) == t.took
    ensures t.dropped == t.lost + t.refused
    ensures Delivered(t.ports) + t.dropped == (t.took + t.lost) + t.refused
    ensures forall p | 0 <= p < |t.ports| :: t.ports[p].delivered == |t.ports[p].enqueued|
  {
    InitialInv(s);
    RunKeepsInv(s, acts, t);
    NobodyThere(t.senders, Returning(true));
    NobodyThere(t.senders, Returning(false));
    forall p | 0 <= p < |t.ports|
      ensures t.ports[p].delivered == |t.ports[p].enqueued|
    {
      NobodyThere(t.senders, Counting(p));
      assert Counted(t, p);
    }
  }
}
