/**
 Nodes of cmd/go-iroh-gossip-kv on one topic. A step is a put, the delivery to one node of
 anything ever broadcast (in any order, any number of times), or a broadcast by an outsider.

 The topic is the set of messages broadcast so far; clocks are readings chosen by the run.
 */
module KvNetwork {
  import opened Common
  import opened KvCodec
  import opened KvStore
  import opened KvConvergence

  datatype Written = Written(name: Bytes, value: Bytes, now: nat)

  /** log and puts are history: what the node applied, and what it wrote. */
  datatype Member = Member(secret: Bytes, store: Store, log: seq<Bytes>, puts: seq<Written>)

  datatype State = State(nodes: seq<Member>, topic: set<Bytes>)

  datatype Step =
    | Put(node: nat, write: Written)
    | Receive(node: nat, msg: Bytes)
    | Broadcast(msg: Bytes)

  ghost predicate Initial(s: State) {
    s.topic == {} && forall i | 0 <= i < |s.nodes| ::
      s.nodes[i].store == map[] && s.nodes[i].log == [] && s.nodes[i].puts == []
  }

  function MessageOf(c: Crypto, secret: Bytes, w: Written): Bytes {
    Encode(SignUpdate(c, secret, w.name, w.value, w.now))
  }

  predicate Enabled(s: State, step: Step) {
    match step
    case Put(i, w) => i < |s.nodes| && |w.name| < TWO64 && |w.value| < TWO64 && w.now < TWO64
    case Receive(i, m) => i < |s.nodes| && m in s.topic
    case Broadcast(_) => true
  }

  function Apply(c: Crypto, n: Member, msg: Bytes): Member {
    n.(store := Applied(RulesOf(c), n.store, msg), log := n.log + [msg])
  }

  function Do(c: Crypto, s: State, step: Step): State
    requires Enabled(s, step)
  {
    match step
    case Put(i, w) =>
      var n := s.nodes[i];
      var msg := MessageOf(c, n.secret, w);
      State(s.nodes[i := Apply(c, n, msg).(puts := n.puts + [w])], s.topic + {msg})
    case Receive(i, m) => s.(nodes := s.nodes[i := Apply(c, s.nodes[i], m)])
    case Broadcast(m) => s.(topic := s.topic + {m})
  }

  ghost predicate Run(c: Crypto, s: State, steps: seq<Step>, t: State)
    decreases |steps|
  {
    if steps == [] then s == t
    else Enabled(s, steps[0]) && Run(c, Do(c, s, steps[0]), steps[1..], t)
  }

  // ---------------------------------------------------------------------------------------------
  // Any run at all.

  ghost predicate StoresAreFolds(c: Crypto, s: State) {
    forall i | 0 <= i < |s.nodes| ::
      && s.nodes[i].store == ApplyAll(RulesOf(c), s.nodes[i].log)
      && forall m | m in s.nodes[i].log :: m in s.topic
  }

  lemma ApplyKeepsFold(c: Crypto, n: Member, msg: Bytes)
    requires n.store == ApplyAll(RulesOf(c), n.log)
    ensures Apply(c, n, msg).store == ApplyAll(RulesOf(c), Apply(c, n, msg).log)
  {
    assert (n.log + [msg])[..|n.log|] == n.log;
  }

  lemma {:induction false} RunKeepsFolds(c: Crypto, s: State, steps: seq<Step>, t: State)
    requires StoresAreFolds(c, s) && Run(c, s, steps, t)
    ensures StoresAreFolds(c, t)
    decreases |steps|
  {
    if steps != [] {
      match steps[0] {
        case Put(i, w) => ApplyKeepsFold(c, s.nodes[i], MessageOf(c, s.nodes[i].secret, w));
        case Receive(i, m) => ApplyKeepsFold(c, s.nodes[i], m);
        case Broadcast(_) =>
      }
      RunKeepsFolds(c, Do(c, s, steps[0]), steps[1..], t);
    }
  }

  /** What node i, whose key is `secret`, has applied by these steps: its own writes and what it received. */
  function Heard(c: Crypto, secret: Bytes, steps: seq<Step>, i: nat): seq<Bytes> {
    if steps == [] then []
    else
      var before, last := Heard(c, secret, steps[..|steps| - 1], i), steps[|steps| - 1];
      match last
      case Put(j, w) => if i == j then before + [Encode(SignUpdate(c, secret, w.name, w.value, w.now))] else before
      case Receive(j, m) => if i == j then before + [m] else before
      case Broadcast(_) => before
  }

  /** What has been broadcast by these steps: the writes of the nodes, and what outsiders sent. */
  ghost predicate Sent(c: Crypto, start: State, steps: seq<Step>, m: Bytes) {
    || Broadcast(m) in steps
    || exists i, w :: 0 <= i < |start.nodes| && Put(i, w) in steps
         && m == Encode(SignUpdate(c, start.nodes[i].secret, w.name, w.value, w.now))
  }

  ghost predicate Told(c: Crypto, start: State, steps: seq<Step>, s: State) {
    && (forall m :: m in s.topic <==> Sent(c, start, steps, m))
    && |s.nodes| == |start.nodes|
    && forall i | 0 <= i < |s.nodes| ::
         && s.nodes[i].secret == start.nodes[i].secret
         && s.nodes[i].log == Heard(c, start.nodes[i].secret, steps, i)
  }

  lemma SentMore(c: Crypto, start: State, steps: seq<Step>, s: State, step: Step)
    requires Enabled(s, step) && |s.nodes| == |start.nodes|
    requires forall i | 0 <= i < |s.nodes| :: s.nodes[i].secret == start.nodes[i].secret
    requires forall m :: m in s.topic <==> Sent(c, start, steps, m)
    ensures forall m :: m in Do(c, s, step).topic <==> Sent(c, start, steps + [step], m)
  {
    assert forall b :: b in steps + [step] <==> b in steps || b == step;
    forall m
      ensures Sent(c, start, steps + [step], m) <==>
        Sent(c, start, steps, m) || step == Broadcast(m)
        || (step.Put? && m == MessageOf(c, start.nodes[step.node].secret, step.write))
    {
      if step.Put? && m == MessageOf(c, start.nodes[step.node].secret, step.write) {
        assert Put(step.node, step.write) in steps + [step];
      }
      if exists i, w :: 0 <= i < |start.nodes| && Put(i, w) in steps
           && m == Encode(SignUpdate(c, start.nodes[i].secret, w.name, w.value, w.now)) {
        var i, w :| 0 <= i < |start.nodes| && Put(i, w) in steps
           && m == Encode(SignUpdate(c, start.nodes[i].secret, w.name, w.value, w.now));
        assert Put(i, w) in steps + [step];
      }
    }
  }

  lemma DoTells(c: Crypto, start: State, steps: seq<Step>, s: State, step: Step)
    requires Told(c, start, steps, s) && Enabled(s, step)
    ensures Told(c, start, steps + [step], Do(c, s, step))
  {
    assert (steps + [step])[..|steps|] == steps;
    SentMore(c, start, steps, s, step);
  }

  lemma {:induction false} RunTells(c: Crypto, start: State, before: seq<Step>, s: State, steps: seq<Step>, t: State, whole: seq<Step>)
    requires Told(c, start, before, s) && Run(c, s, steps, t) && whole == before + steps
    ensures Told(c, start, whole, t)
    decreases |steps|
  {
    if steps == [] {
      assert whole == before;
    } else {
      DoTells(c, start, before, s, steps[0]);
      assert whole == before + [steps[0]] + steps[1..];
      RunTells(c, start, before + [steps[0]], Do(c, s, steps[0]), steps[1..], t, whole);
    }
  }

  /** In every run a store is the fold of exactly the node's own writes and what it received, in order. */
  lemma StoresExactly(c: Crypto, s: State, steps: seq<Step>, t: State, i: nat)
    requires Initial(s) && Run(c, s, steps, t) && i < |t.nodes|
    ensures |t.nodes| == |s.nodes|
    ensures t.nodes[i].log == Heard(c, s.nodes[i].secret, steps, i)
    ensures t.nodes[i].store == ApplyAll(RulesOf(c), Heard(c, s.nodes[i].secret, steps, i))
    ensures forall m :: m in t.topic <==> Sent(c, s, steps, m)
  {
    RunKeepsFolds(c, s, steps, t);
    RunTells(c, s, [], s, steps, t, steps);
  }

  ghost predicate SameApplied(t: State, i: nat, j: nat)
    requires i < |t.nodes| && j < |t.nodes|
  {
    forall m :: m in t.nodes[i].log <==> m in t.nodes[j].log
  }

  /** In every run, nodes that applied the same messages hold one store if no latest writes tie. */
  lemma NetworkConverges(c: Crypto, s: State, steps: seq<Step>, t: State, i: nat, j: nat)
    requires Initial(s) && Run(c, s, steps, t)
    requires i < |t.nodes| && j < |t.nodes| && SameApplied(t, i, j)
    requires NoTopTie(RulesOf(c), set m | m in t.nodes[i].log)
    ensures t.nodes[i].store == t.nodes[j].store
  {
    RunKeepsFolds(c, s, steps, t);
    SameSetSameStore(RulesOf(c), (set m | m in t.nodes[i].log), t.nodes[i].log, t.nodes[j].log);
  }

  // ---------------------------------------------------------------------------------------------
  // Runs in which nobody forges a node's signature.

  /** If a node's scope covers msg, a node of that scope wrote that very key, value and time. */
  ghost predicate Authentic(c: Crypto, s: State, msg: Bytes) {
    match RulesOf(c).accept(msg)
    case None => true
    case Some(u) => Owned(c, s, u.scope) ==> Wrote(c, s, u)
  }

  ghost predicate Owned(c: Crypto, s: State, scope: Bytes) {
    exists i :: 0 <= i < |s.nodes| && c.public(s.nodes[i].secret) == scope
  }

  ghost predicate Wrote(c: Crypto, s: State, u: Update) {
    exists i :: 0 <= i < |s.nodes| && c.public(s.nodes[i].secret) == u.scope
                && Written(u.key, u.value, u.timestamp) in s.nodes[i].puts
  }

  /**
   An outsider may replay, re-encode or invent messages, and write under scopes of its own, but
   whatever verifies under a node's scope says what a node of that scope signed.
   */
  ghost predicate Unforged(c: Crypto, s: State, steps: seq<Step>)
    decreases |steps|
  {
    steps == [] || (
      && (steps[0].Broadcast? ==> Authentic(c, s, steps[0].msg))
      && (Enabled(s, steps[0]) ==> Unforged(c, Do(c, s, steps[0]), steps[1..])))
  }

  lemma DoKeepsAuthentic(c: Crypto, s: State, step: Step, msg: Bytes)
    requires Enabled(s, step) && Authentic(c, s, msg)
    ensures Authentic(c, Do(c, s, step), msg)
  {
    var t := Do(c, s, step);
    assert |t.nodes| == |s.nodes|;
    assert forall i | 0 <= i < |s.nodes| :: t.nodes[i].secret == s.nodes[i].secret;
    assert forall i, w | 0 <= i < |s.nodes| && w in s.nodes[i].puts :: w in t.nodes[i].puts;
    match RulesOf(c).accept(msg)
    case None =>
    case Some(u) =>
      if Owned(c, t, u.scope) {
        assert Owned(c, s, u.scope);
        var i :| 0 <= i < |s.nodes| && c.public(s.nodes[i].secret) == u.scope
                 && Written(u.key, u.value, u.timestamp) in s.nodes[i].puts;
        assert Written(u.key, u.value, u.timestamp) in t.nodes[i].puts;
      }
  }

  lemma {:induction false} TopicStaysAuthentic(c: Crypto, s: State, steps: seq<Step>, t: State)
    requires c.Sound() && Run(c, s, steps, t) && Unforged(c, s, steps)
    requires forall m | m in s.topic :: Authentic(c, s, m)
    ensures forall m | m in t.topic :: Authentic(c, t, m)
    decreases |steps|
  {
    if steps != [] {
      var s' := Do(c, s, steps[0]);
      forall m | m in s'.topic
        ensures Authentic(c, s', m)
      {
        if m in s.topic || steps[0].Broadcast? {
          DoKeepsAuthentic(c, s, steps[0], m);
        } else {
          var i, w := steps[0].node, steps[0].write;
          SignedIsAccepted(c, s.nodes[i].secret, w.name, w.value, w.now);
          assert w in s'.nodes[i].puts;
        }
      }
      TopicStaysAuthentic(c, s', steps[1..], t);
    }
  }

  /** No two puts under the scope gave one name two values at one clock reading. */
  ghost predicate OneValuePerReading(c: Crypto, s: State, scope: Bytes) {
    forall i, j, v, w |
      && 0 <= i < |s.nodes| && 0 <= j < |s.nodes|
      && c.public(s.nodes[i].secret) == scope == c.public(s.nodes[j].secret)
      && v in s.nodes[i].puts && w in s.nodes[j].puts && v.name == w.name && v.now == w.now
      :: v.value == w.value
  }

  lemma AuthenticNoTie(c: Crypto, s: State, a: Bytes, b: Bytes, scope: Bytes, key: Bytes)
    requires Authentic(c, s, a) && Authentic(c, s, b)
    requires Owned(c, s, scope) && OneValuePerReading(c, s, scope)
    requires Writes(RulesOf(c), a, scope, key)
    ensures !Tie(RulesOf(c), a, b)
  {
  }

  /**
   Outsiders cannot split a node's scope: two nodes that applied the same messages agree on every
   key of it, whatever ties there are in other scopes, as long as the scope's own clock readings
   do not repeat with different values.
   */
  lemma OwnedScopesConverge(c: Crypto, s: State, steps: seq<Step>, t: State, i: nat, j: nat, scope: Bytes, key: Bytes)
    requires c.Sound() && Initial(s) && Run(c, s, steps, t) && Unforged(c, s, steps)
    requires i < |t.nodes| && j < |t.nodes| && SameApplied(t, i, j)
    requires Owned(c, t, scope) && OneValuePerReading(c, t, scope)
    ensures Lookup(t.nodes[i].store, scope, key) == Lookup(t.nodes[j].store, scope, key)
  {
    var r, msgs := RulesOf(c), set m | m in t.nodes[i].log;
    RunKeepsFolds(c, s, steps, t);
    TopicStaysAuthentic(c, s, steps, t);
    forall a, b | a in msgs && b in msgs && Writes(r, a, scope, key)
      ensures !Tie(r, a, b)
    {
      AuthenticNoTie(c, t, a, b, scope, key);
    }
    SameEntry(r, msgs, t.nodes[i].log, t.nodes[j].log, scope, key);
  }

  lemma FourSteps(c: Crypto, s: State, steps: seq<Step>, s1: State, s2: State, s3: State, t: State)
    requires |steps| == 4 && forall i | 0 <= i < 4 :: !steps[i].Broadcast?
    requires Enabled(s, steps[0]) && s1 == Do(c, s, steps[0])
    requires Enabled(s1, steps[1]) && s2 == Do(c, s1, steps[1])
    requires Enabled(s2, steps[2]) && s3 == Do(c, s2, steps[2])
    requires Enabled(s3, steps[3]) && t == Do(c, s3, steps[3])
    ensures Run(c, s, steps, t) && Unforged(c, s, steps)
  {
    var d1, d2, d3 := steps[1..], steps[2..], steps[3..];
    assert d1[1..] == d2 && d2[1..] == d3 && d3[1..] == [];
    assert Run(c, t, [], t) && Unforged(c, t, []);
    assert Run(c, s3, d3, t) && Unforged(c, s3, d3);
    assert Run(c, s2, d2, t) && Unforged(c, s2, d2);
    assert Run(c, s1, d1, t) && Unforged(c, s1, d1);
  }

  lemma SplitStores(c: Crypto, t: State, a: Bytes, b: Bytes)
    requires StoresAreFolds(c, t) && |t.nodes| >= 2
    requires t.nodes[0].log == [a, b] && t.nodes[1].log == [b, a] && Tie(RulesOf(c), a, b)
    ensures SameApplied(t, 0, 1) && t.nodes[0].store != t.nodes[1].store
  {
    TieSplits(RulesOf(c), a, b);
  }

  /** Two puts at one node, heard by another in the other order. */
  lemma HeardBothWays(c: Crypto, s: State, x: Written, y: Written, a: Bytes, b: Bytes)
    returns (steps: seq<Step>, t: State)
    requires Initial(s) && |s.nodes| >= 2
    requires Enabled(s, Put(0, x)) && Enabled(s, Put(0, y))
    requires a == MessageOf(c, s.nodes[0].secret, x) && b == MessageOf(c, s.nodes[0].secret, y)
    ensures Run(c, s, steps, t) && Unforged(c, s, steps) && |t.nodes| >= 2
    ensures t.nodes[0].log == [a, b] && t.nodes[1].log == [b, a]
  {
    steps := [Put(0, x), Put(0, y), Receive(1, b), Receive(1, a)];
    var s1 := Do(c, s, Put(0, x));
    var s2 := Do(c, s1, Put(0, y));
    var s3 := Do(c, s2, Receive(1, b));
    t := Do(c, s3, Receive(1, a));
    FourSteps(c, s, steps, s1, s2, s3, t);
  }

  /**
   And the readings must not repeat: a node that puts two values at one reading, heard in the other
   order by another node, is shown with different values by the two.
   */
  lemma PutsAtOneReadingSplit(c: Crypto, s: State, name: Bytes, v: Bytes, w: Bytes, now: nat)
    returns (steps: seq<Step>, t: State)
    requires c.Sound() && Initial(s) && |s.nodes| >= 2
    requires |name| < TWO64 && |v| < TWO64 && |w| < TWO64 && now < TWO64 && v != w
    ensures Run(c, s, steps, t) && Unforged(c, s, steps) && |t.nodes| >= 2
    ensures SameApplied(t, 0, 1) && t.nodes[0].store != t.nodes[1].store
  {
    var secret := s.nodes[0].secret;
    var a := MessageOf(c, secret, Written(name, v, now));
    var b := MessageOf(c, secret, Written(name, w, now));
    SignedPutsTie(c, secret, name, v, w, now);
    steps, t := HeardBothWays(c, s, Written(name, v, now), Written(name, w, now), a, b);
    RunKeepsFolds(c, s, steps, t);
    SplitStores(c, t, a, b);
  }
}
