/**
 The last-writer-wins store of cmd/go-iroh-gossip-kv: kvStore.apply, and what a store holds after
 any sequence of deliveries.

 `apply` keeps the entry it has when the timestamps are equal, so which value survives a tie
 depends on which message came first. KvConvergence says exactly when that matters.
 */
module KvStore {
  import opened Common
  import opened KvCodec
  import Varint

  datatype KvValue = KvValue(value: Bytes, timestamp: nat, signer: string)

  type Store = map<Bytes, map<Bytes, KvValue>>

  datatype ApplyError = DecodeFailed(cause: DecodeError) | VerifyFailed

  /** decodeUpdate, then Verify over the signed bytes. */
  function Verified(c: Crypto, msg: Bytes): Result<Update, ApplyError> {
    match Decode(c, msg)
    case Err(e) => Err(DecodeFailed(e))
    case Ok(u) =>
      if c.verify(u.scope, SigningData(u.key, u.timestamp, u.value), u.signature) then Ok(u) else Err(VerifyFailed)
  }

  /**
   What the merge needs to know of a message: the update it carries if it verifies, and how a
   scope is abbreviated. Everything below holds of any such rules; `RulesOf` gives the program's.
   */
  datatype Rules = Rules(accept: Bytes -> Option<Update>, short: Bytes -> string)

  function RulesOf(c: Crypto): Rules {
    Rules(msg => match Verified(c, msg) case Ok(u) => Some(u) case Err(_) => None, c.short)
  }

  function Lookup(s: Store, scope: Bytes, key: Bytes): Option<KvValue> {
    if scope in s && key in s[scope] then Some(s[scope][key]) else None
  }

  function Entry(r: Rules, u: Update): KvValue {
    KvValue(u.value, u.timestamp, r.short(u.scope))
  }

  function Merge(r: Rules, s: Store, u: Update): Store {
    var keys := if u.scope in s then s[u.scope] else map[];
    if u.key in keys && keys[u.key].timestamp >= u.timestamp then s
    else s[u.scope := keys[u.key := Entry(r, u)]]
  }

  function Applied(r: Rules, s: Store, msg: Bytes): Store {
    match r.accept(msg)
    case None => s
    case Some(u) => Merge(r, s, u)
  }

  /** The store after a whole sequence of deliveries. */
  function ApplyAll(r: Rules, msgs: seq<Bytes>): Store {
    if msgs == [] then map[] else Applied(r, ApplyAll(r, msgs[..|msgs| - 1]), msgs[|msgs| - 1])
  }

  /** From one store to the next, one entry was written unless there was one as late; the rest is as it was. */
  ghost predicate Took(was: Store, now: Store, scope: Bytes, key: Bytes, v: KvValue) {
    forall s, k :: Lookup(now, s, k) ==
      var held := Lookup(was, s, k);
      if s == scope && k == key && (held.None? || held.value.timestamp < v.timestamp) then Some(v) else held
  }

  /**
   What apply does, over the bytes of the message as the grammar has them: it stores what a message
   says whose signature verifies, and refuses any other and leaves the store alone.
   */
  ghost predicate Applies(c: Crypto, was: Store, msg: Bytes, now: Store, err: Option<ApplyError>) {
    && ((forall w: Wire | w.Valid(c) :: w.Flat() != msg) ==>
          now == was && err.Some? && err.value.DecodeFailed?)
    && forall w: Wire | w.Valid(c) && w.Flat() == msg ::
         if c.verify(w.scope, SigningData(w.key, Varint.Value(w.timestamp), w.value), w.signature)
         then err == None && Took(was, now, w.scope, w.key,
                                  KvValue(w.value, Varint.Value(w.timestamp), c.short(w.scope)))
         else err == Some(VerifyFailed) && now == was
  }

  lemma ApplyMeans(c: Crypto, was: Store, msg: Bytes)
    ensures Applies(c, was, msg, Applied(RulesOf(c), was, msg),
                    match Verified(c, msg) case Ok(_) => None case Err(e) => Some(e))
  {
    var now := Applied(RulesOf(c), was, msg);
    if Decode(c, msg).Ok? {
      var w := DecodeSound(c, msg);
      assert w.Flat() == msg;
    }
    forall w: Wire | w.Valid(c) && w.Flat() == msg
      ensures Verified(c, msg) == if c.verify(w.scope, SigningData(w.key, Varint.Value(w.timestamp), w.value), w.signature)
                                  then Ok(w.Meaning()) else Err(VerifyFailed)
      ensures Took(was, Merge(RulesOf(c), was, w.Meaning()), w.scope, w.key,
                   KvValue(w.value, Varint.Value(w.timestamp), c.short(w.scope)))
    {
      DecodeComplete(c, w);
      MergeTook(RulesOf(c), was, w.Meaning());
    }
  }

  lemma MergeTook(r: Rules, was: Store, u: Update)
    ensures Took(was, Merge(r, was, u), u.scope, u.key, KvValue(u.value, u.timestamp, r.short(u.scope)))
  {
  }

  /** kvStore, whose maps `apply` updates in place. */
  class Kv {
    var scopes: Store

    constructor ()
      ensures scopes == map[]
    {
      scopes := map[];
    }

    method Apply(c: Crypto, msg: Bytes) returns (err: Option<ApplyError>)
      modifies this
      ensures scopes == Applied(RulesOf(c), old(scopes), msg)
      ensures err == (match Verified(c, msg) case Ok(_) => None case Err(e) => Some(e))
      ensures Applies(c, old(scopes), msg, scopes, err)
    {
      ApplyMeans(c, scopes, msg);
      var verified := Verified(c, msg);
      if verified.Err? {
        return Some(verified.error);
      }
      MergeIn(RulesOf(c), verified.value);
      return None;
    }

    /** The second half of apply, once the update has verified. */
    method MergeIn(r: Rules, u: Update)
      modifies this
      ensures scopes == Merge(r, old(scopes), u)
    {
      if u.scope !in scopes {
        scopes := scopes[u.scope := map[]];
      }
      var keys := scopes[u.scope];
      if u.key in keys && keys[u.key].timestamp >= u.timestamp {
        return;
      }
      scopes := scopes[u.scope := keys[u.key := KvValue(u.value, u.timestamp, r.short(u.scope))]];
    }
  }

  function SignUpdate(c: Crypto, secret: Bytes, key: Bytes, value: Bytes, timestamp: nat): Update {
    Update(c.public(secret), key, timestamp, value, c.sign(secret, SigningData(key, timestamp, value)))
  }

  /** node: its signing key and its store. */
  class Node {
    const secret: Bytes
    const store: Kv

    constructor (secret: Bytes)
      ensures this.secret == secret && fresh(store) && store.scopes == map[]
    {
      this.secret := secret;
      this.store := new Kv();
    }

    /** node.put, with the clock's reading as an argument. */
    method Put(c: Crypto, name: Bytes, value: Bytes, now: nat) returns (r: Result<Bytes, ApplyError>)
      requires |name| < TWO64 && |value| < TWO64 && now < TWO64
      modifies store
      ensures var msg := Encode(SignUpdate(c, secret, name, value, now));
              && store.scopes == Applied(RulesOf(c), old(store.scopes), msg)
              && r == (match Verified(c, msg) case Ok(_) => Ok(msg) case Err(e) => Err(e))
    {
      var u := SignUpdate(c, secret, name, value, now);
      var msg := Encode(u);
      var err := store.Apply(c, msg);
      if err.Some? {
        return Err(err.value);
      }
      return Ok(msg);
    }
  }

  /** What a node signs, every node accepts. */
  lemma SignedIsAccepted(c: Crypto, secret: Bytes, key: Bytes, value: Bytes, timestamp: nat)
    requires c.Sound() && |key| < TWO64 && |value| < TWO64 && timestamp < TWO64
    ensures var u := SignUpdate(c, secret, key, value, timestamp);
            Verified(c, Encode(u)) == Ok(u) && RulesOf(c).accept(Encode(u)) == Some(u)
  {
    RoundTrip(c, SignUpdate(c, secret, key, value, timestamp));
  }

  /** After a put the store shows the written value unless it already held as late a stamp. */
  lemma PutShows(r: Rules, s: Store, u: Update)
    ensures
      var was := Lookup(s, u.scope, u.key);
      Lookup(Merge(r, s, u), u.scope, u.key).Some?
      && ((Lookup(Merge(r, s, u), u.scope, u.key).value.value == u.value)
          <==> (was.None? || was.value.timestamp < u.timestamp || was.value.value == u.value))
  {
    MergeLookup(r, s, u, u.scope, u.key);
  }

  /** What is accepted: exactly the messages of the grammar whose signature verifies, as what they say. */
  lemma AcceptedExactly(c: Crypto, msg: Bytes, u: Update)
    ensures RulesOf(c).accept(msg) == Some(u) <==>
      exists w: Wire ::
        && w.Valid(c) && w.Flat() == msg && w.Meaning() == u
        && c.verify(u.scope, SigningData(u.key, u.timestamp, u.value), u.signature)
  {
    if RulesOf(c).accept(msg) == Some(u) {
      var w := DecodeSound(c, msg);
    }
    forall w: Wire | w.Valid(c) && w.Flat() == msg
      ensures Decode(c, msg) == Ok(w.Meaning())
    {
      DecodeComplete(c, w);
    }
  }

  // ---------------------------------------------------------------------------------------------
  // What a store holds: the first arrival among the messages with the greatest timestamp.

  /** msg is an accepted write of this key. */
  predicate Writes(r: Rules, msg: Bytes, scope: Bytes, key: Bytes) {
    match r.accept(msg)
    case None => false
    case Some(u) => u.scope == scope && u.key == key
  }

  /** The update of a message known to be accepted. */
  function Carried(r: Rules, msg: Bytes): Update
    requires r.accept(msg).Some?
  {
    r.accept(msg).value
  }

  /** Delivery i is the one whose value the key ends up with. */
  predicate Wins(r: Rules, msgs: seq<Bytes>, scope: Bytes, key: Bytes, i: nat) {
    && i < |msgs| && Writes(r, msgs[i], scope, key)
    && forall j | 0 <= j < |msgs| && Writes(r, msgs[j], scope, key) ::
         var t, t' := Carried(r, msgs[j]).timestamp, Carried(r, msgs[i]).timestamp;
         t < t' || (t == t' && i <= j)
  }

  lemma MergeLookup(r: Rules, s: Store, u: Update, scope: Bytes, key: Bytes)
    ensures
      var was := Lookup(s, scope, key);
      Lookup(Merge(r, s, u), scope, key) ==
      if scope == u.scope && key == u.key && (was.None? || was.value.timestamp < u.timestamp)
      then Some(Entry(r, u)) else was
  {
  }

  /** A key is stored exactly when some delivery wrote it, and then holds the winner's entry. */
  lemma {:induction false} StoreIsFold(r: Rules, msgs: seq<Bytes>, scope: Bytes, key: Bytes) returns (i: nat)
    ensures var got := Lookup(ApplyAll(r, msgs), scope, key);
            if got.Some? then Wins(r, msgs, scope, key, i) && got.value == Entry(r, Carried(r, msgs[i]))
            else forall j | 0 <= j < |msgs| :: !Writes(r, msgs[j], scope, key)
  {
    i := 0;
    if msgs != [] {
      var n := |msgs| - 1;
      var front := msgs[..n];
      i := StoreIsFold(r, front, scope, key);
      var before := Lookup(ApplyAll(r, front), scope, key);
      assert forall j | 0 <= j < n :: front[j] == msgs[j];
      if Writes(r, msgs[n], scope, key) {
        MergeLookup(r, ApplyAll(r, front), Carried(r, msgs[n]), scope, key);
        if before.None? || before.value.timestamp < Carried(r, msgs[n]).timestamp {
          i := n;
        }
      } else if r.accept(msgs[n]).Some? {
        MergeLookup(r, ApplyAll(r, front), Carried(r, msgs[n]), scope, key);
      }
    }
  }

  lemma WinnerUnique(r: Rules, msgs: seq<Bytes>, scope: Bytes, key: Bytes, i: nat, j: nat)
    requires Wins(r, msgs, scope, key, i) && Wins(r, msgs, scope, key, j)
    ensures i == j
  {
  }

  /** `apply` never leaves an empty inner map behind, so a store is determined by its lookups. */
  lemma {:induction false} NoEmptyScope(r: Rules, msgs: seq<Bytes>, scope: Bytes)
    requires scope in ApplyAll(r, msgs)
    ensures ApplyAll(r, msgs)[scope] != map[]
  {
    if msgs != [] {
      var front := ApplyAll(r, msgs[..|msgs| - 1]);
      if scope in front {
        NoEmptyScope(r, msgs[..|msgs| - 1], scope);
      }
      match r.accept(msgs[|msgs| - 1])
      case None =>
      case Some(u) => assert u.scope == scope && ApplyAll(r, msgs) != front ==> u.key in ApplyAll(r, msgs)[scope];
    }
  }

  lemma SameLookupsSameStore(r: Rules, p: seq<Bytes>, q: seq<Bytes>)
    requires forall scope, key :: Lookup(ApplyAll(r, p), scope, key) == Lookup(ApplyAll(r, q), scope, key)
    ensures ApplyAll(r, p) == ApplyAll(r, q)
  {
    var s, t := ApplyAll(r, p), ApplyAll(r, q);
    forall scope
      ensures scope in s <==> scope in t
      ensures scope in s && scope in t ==> s[scope] == t[scope]
    {
      if scope in s {
        NoEmptyScope(r, p, scope);
        var key :| key in s[scope];
        assert Lookup(s, scope, key).Some?;
      }
      if scope in t {
        NoEmptyScope(r, q, scope);
        var key :| key in t[scope];
        assert Lookup(t, scope, key).Some?;
      }
      if scope in s && scope in t {
        assert forall key :: Lookup(s, scope, key) == Lookup(t, scope, key);
        assert s[scope].Keys == t[scope].Keys by {
          assert forall key :: key in s[scope] <==> Lookup(s, scope, key).Some?;
          assert forall key :: key in t[scope] <==> Lookup(t, scope, key).Some?;
        }
        forall key | key in s[scope]
          ensures s[scope][key] == t[scope][key]
        {
          assert Lookup(s, scope, key) == Lookup(t, scope, key);
        }
      }
    }
  }

  /** Delivering a message again changes nothing. */
  lemma {:induction false} ApplyIdempotent(r: Rules, msgs: seq<Bytes>, msg: Bytes)
    requires msg in msgs
    ensures Applied(r, ApplyAll(r, msgs), msg) == ApplyAll(r, msgs)
  {
    match r.accept(msg)
    case None =>
    case Some(u) =>
      var i := StoreIsFold(r, msgs, u.scope, u.key);
      var j :| 0 <= j < |msgs| && msgs[j] == msg;
      assert Writes(r, msgs[j], u.scope, u.key);
  }
}
