/**
 When the order of delivery matters to a store, and when it does not.

 kvStore.apply is documented as independent of the order updates arrive in. That is true of a set
 of messages exactly when no key's greatest timestamp is shared by two different values.
 */
module KvConvergence {
  import opened Common
  import opened KvCodec
  import opened KvStore

  /** p delivers every message of the set, in some order, any number of times each. */
  ghost predicate Delivers(p: seq<Bytes>, msgs: set<Bytes>) {
    forall m :: m in p <==> m in msgs
  }

  /** Two accepted writes of one key, at one instant, of different values. */
  predicate Tie(r: Rules, a: Bytes, b: Bytes) {
    match (r.accept(a), r.accept(b))
    case (Some(u), Some(v)) =>
      u.scope == v.scope && u.key == v.key && u.timestamp == v.timestamp && u.value != v.value
    case _ => false
  }

  /** No write of the set to the same key is later than a. */
  ghost predicate Latest(r: Rules, msgs: set<Bytes>, a: Bytes)
    requires r.accept(a).Some?
  {
    var u := Carried(r, a);
    forall m | m in msgs && Writes(r, m, u.scope, u.key) :: Carried(r, m).timestamp <= u.timestamp
  }

  ghost predicate TopTie(r: Rules, msgs: set<Bytes>, a: Bytes, b: Bytes) {
    a in msgs && b in msgs && Tie(r, a, b) && Latest(r, msgs, a)
  }

  ghost predicate NoTopTie(r: Rules, msgs: set<Bytes>) {
    forall a, b :: !TopTie(r, msgs, a, b)
  }

  ghost predicate NoTie(r: Rules, msgs: set<Bytes>) {
    forall a, b | a in msgs && b in msgs :: !Tie(r, a, b)
  }

  ghost predicate OrderIndependent(r: Rules, msgs: set<Bytes>) {
    forall p, q | Delivers(p, msgs) && Delivers(q, msgs) :: ApplyAll(r, p) == ApplyAll(r, q)
  }

  /** Two deliveries of one set agree on every key whose latest writes do not tie. */
  lemma SameEntry(r: Rules, msgs: set<Bytes>, p: seq<Bytes>, q: seq<Bytes>, scope: Bytes, key: Bytes)
    requires Delivers(p, msgs) && Delivers(q, msgs)
    requires forall a, b | TopTie(r, msgs, a, b) :: !Writes(r, a, scope, key)
    ensures Lookup(ApplyAll(r, p), scope, key) == Lookup(ApplyAll(r, q), scope, key)
  {
    var i := StoreIsFold(r, p, scope, key);
    var j := StoreIsFold(r, q, scope, key);
    var got, got' := Lookup(ApplyAll(r, p), scope, key), Lookup(ApplyAll(r, q), scope, key);
    if got.Some? {
      assert p[i] in q;
    }
    if got'.Some? {
      assert q[j] in p;
    }
    if got.Some? && got'.Some? {
      var u, v := Carried(r, p[i]), Carried(r, q[j]);
      assert p[i] in q && q[j] in p;
      assert u.timestamp == v.timestamp;
      forall m | m in msgs && Writes(r, m, scope, key)
        ensures Carried(r, m).timestamp <= u.timestamp
      {
        assert m in p;
      }
      assert !TopTie(r, msgs, p[i], q[j]);
    }
  }

  lemma SameSetSameStore(r: Rules, msgs: set<Bytes>, p: seq<Bytes>, q: seq<Bytes>)
    requires Delivers(p, msgs) && Delivers(q, msgs) && NoTopTie(r, msgs)
    ensures ApplyAll(r, p) == ApplyAll(r, q)
  {
    forall scope, key
      ensures Lookup(ApplyAll(r, p), scope, key) == Lookup(ApplyAll(r, q), scope, key)
    {
      SameEntry(r, msgs, p, q, scope, key);
    }
    SameLookupsSameStore(r, p, q);
  }

  lemma {:induction false} Enumerate(msgs: set<Bytes>) returns (p: seq<Bytes>)
    ensures Delivers(p, msgs) && |p| == |msgs|
  {
    p := [];
    if msgs != {} {
      var m :| m in msgs;
      var rest := Enumerate(msgs - {m});
      p := [m] + rest;
    }
  }

  /** Delivered first, a latest write is what its key keeps. */
  lemma FirstStays(r: Rules, msgs: set<Bytes>, a: Bytes, rest: seq<Bytes>)
    requires r.accept(a).Some? && Latest(r, msgs, a) && Delivers([a] + rest, msgs)
    ensures Lookup(ApplyAll(r, [a] + rest), Carried(r, a).scope, Carried(r, a).key) == Some(Entry(r, Carried(r, a)))
  {
    var p, u := [a] + rest, Carried(r, a);
    var i := StoreIsFold(r, p, u.scope, u.key);
    assert p[0] == a && Writes(r, p[0], u.scope, u.key);
    forall j | 0 <= j < |p| && Writes(r, p[j], u.scope, u.key)
      ensures Carried(r, p[j]).timestamp <= u.timestamp
    {
      assert p[j] in p;
    }
    WinnerUnique(r, p, u.scope, u.key, i, 0);
  }

  /** A tie for the latest write splits two stores that each receive every message once. */
  lemma TopTieSplits(r: Rules, msgs: set<Bytes>, a: Bytes, b: Bytes) returns (p: seq<Bytes>, q: seq<Bytes>)
    requires TopTie(r, msgs, a, b)
    ensures Delivers(p, msgs) && Delivers(q, msgs) && |p| == |q| == |msgs|
    ensures ApplyAll(r, p) != ApplyAll(r, q)
  {
    var restA := Enumerate(msgs - {a});
    var restB := Enumerate(msgs - {b});
    p, q := [a] + restA, [b] + restB;
    FirstStays(r, msgs, a, restA);
    FirstStays(r, msgs, b, restB);
  }

  /** The order of delivery is immaterial to a set exactly when no key's latest writes tie. */
  lemma OrderMattersExactly(r: Rules, msgs: set<Bytes>)
    ensures OrderIndependent(r, msgs) <==> NoTopTie(r, msgs)
  {
    if NoTopTie(r, msgs) {
      forall p, q | Delivers(p, msgs) && Delivers(q, msgs)
        ensures ApplyAll(r, p) == ApplyAll(r, q)
      {
        SameSetSameStore(r, msgs, p, q);
      }
    } else {
      var a, b :| TopTie(r, msgs, a, b);
      var p, q := TopTieSplits(r, msgs, a, b);
    }
  }

  /**
   A network may have delivered any part of what was sent. Every part is order independent
   exactly when no two accepted writes share scope, key and timestamp with different values.
   */
  lemma EveryPartConvergesExactly(r: Rules, msgs: set<Bytes>)
    ensures (forall part | part <= msgs :: OrderIndependent(r, part)) <==> NoTie(r, msgs)
  {
    if NoTie(r, msgs) {
      forall part | part <= msgs
        ensures OrderIndependent(r, part)
      {
        OrderMattersExactly(r, part);
      }
    } else {
      var a, b :| a in msgs && b in msgs && Tie(r, a, b);
      assert TopTie(r, {a, b}, a, b);
      OrderMattersExactly(r, {a, b});
      assert {a, b} <= msgs;
    }
  }

  /** Two tying writes are enough to split two stores. */
  lemma TieSplits(r: Rules, a: Bytes, b: Bytes)
    requires Tie(r, a, b)
    ensures TopTie(r, {a, b}, a, b) && !OrderIndependent(r, {a, b})
    ensures ApplyAll(r, [a, b]) != ApplyAll(r, [b, a])
  {
    assert TopTie(r, {a, b}, a, b);
    OrderMattersExactly(r, {a, b});
    FirstStays(r, {a, b}, a, [b]);
    FirstStays(r, {a, b}, b, [a]);
    assert [a] + [b] == [a, b] && [b] + [a] == [b, a];
  }

  /**
   The program's own messages can tie: one key, one name, one clock reading and two values. So the
   order of delivery does matter to what nodes can send one another.
   */
  lemma SignedPutsTie(c: Crypto, secret: Bytes, name: Bytes, v: Bytes, w: Bytes, now: nat)
    requires c.Sound() && |name| < TWO64 && |v| < TWO64 && |w| < TWO64 && now < TWO64 && v != w
    ensures var a := Encode(SignUpdate(c, secret, name, v, now));
            var b := Encode(SignUpdate(c, secret, name, w, now));
            && Tie(RulesOf(c), a, b) && TopTie(RulesOf(c), {a, b}, a, b)
            && !OrderIndependent(RulesOf(c), {a, b})
  {
    SignedIsAccepted(c, secret, name, v, now);
    SignedIsAccepted(c, secret, name, w, now);
    TieSplits(RulesOf(c), Encode(SignUpdate(c, secret, name, v, now)), Encode(SignUpdate(c, secret, name, w, now)));
  }
}
