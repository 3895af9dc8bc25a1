/**
 The gossip message of cmd/go-iroh-gossip-kv: postcard's encoding of one signed update.

 Ed25519 and the key package are not part of the model. `Crypto` stands for them; the one law
 assumed of it is `Sound`. A public key and a signature are their bytes, so `PublicKeyFromSlice`
 and `SignatureFromSlice` are a test.
 */
module KvCodec {
  import opened Common
  import Varint

  const PUBLIC_KEY_SIZE: nat := 32
  const SIGNATURE_SIZE: nat := 64

  datatype Crypto = Crypto(
    validKey: Bytes -> bool,
    validSignature: Bytes -> bool,
    public: Bytes -> Bytes,
    sign: (Bytes, Bytes) -> Bytes,
    verify: (Bytes, Bytes, Bytes) -> bool,
    short: Bytes -> string)
  {
    /** What `sign` makes for a secret key, that key's public half accepts. */
    ghost predicate Sound() {
      && (forall sk :: |public(sk)| == PUBLIC_KEY_SIZE && validKey(public(sk)))
      && (forall sk, m :: |sign(sk, m)| == SIGNATURE_SIZE && validSignature(sign(sk, m)))
      && (forall sk, m :: verify(public(sk), m, sign(sk, m)))
    }
  }

  datatype Update = Update(scope: Bytes, key: Bytes, timestamp: nat, value: Bytes, signature: Bytes)

  /** The types of update's fields: a parsed key and signature, a uint64, slices. */
  predicate IsUpdate(c: Crypto, u: Update) {
    && |u.scope| == PUBLIC_KEY_SIZE && c.validKey(u.scope)
    && |u.signature| == SIGNATURE_SIZE && c.validSignature(u.signature)
    && u.timestamp < TWO64 && |u.key| < TWO64 && |u.value| < TWO64
  }

  function AppendBytes(b: Bytes, p: Bytes): Bytes {
    b + Varint.Encode(|p|) + p
  }

  function SigningData(key: Bytes, timestamp: nat, value: Bytes): Bytes {
    AppendBytes(AppendBytes([], key) + Varint.Encode(timestamp), value)
  }

  function Encode(u: Update): Bytes {
    var b := AppendBytes([0] + u.scope, u.key);
    AppendBytes(b + Varint.Encode(u.timestamp), u.value) + u.signature
  }

  datatype BytesError = BadLength | TooShort

  datatype DecodeError =
    | NotSignedValue
    | ScopeShort
    | ParseScope
    | ReadKey(cause: BytesError)
    | BadTimestamp
    | ReadValue(cause: BytesError)
    | SignatureLength(got: nat)
    | ParseSignature

  function ReadBytes(b: Bytes): Result<(Bytes, Bytes), BytesError> {
    var (n, w) := Varint.Read(b);
    if w <= 0 then Err(BadLength)
    else
      Varint.ReadOnlyTakes(b);
      var b := b[w..];
      if |b| < n then Err(TooShort) else Ok((b[..n], b[n..]))
  }

  function Decode(c: Crypto, b: Bytes): Result<Update, DecodeError> {
    if |b| == 0 || b[0] != 0 then Err(NotSignedValue)
    else
      var b := b[1..];
      if |b| < PUBLIC_KEY_SIZE then Err(ScopeShort)
      else if !c.validKey(b[..PUBLIC_KEY_SIZE]) then Err(ParseScope)
      else
        match ReadBytes(b[PUBLIC_KEY_SIZE..])
        case Err(e) => Err(ReadKey(e))
        case Ok((key, rest)) => DecodeSignedValue(c, b[..PUBLIC_KEY_SIZE], key, rest)
  }

  /** The rest of decodeUpdate, once the scope and the key are read: the SignedValue. */
  function DecodeSignedValue(c: Crypto, scope: Bytes, key: Bytes, b: Bytes): Result<Update, DecodeError> {
    var (timestamp, n) := Varint.Read(b);
    if n <= 0 then Err(BadTimestamp)
    else
      Varint.ReadOnlyTakes(b);
      match ReadBytes(b[n..])
      case Err(e) => Err(ReadValue(e))
      case Ok((value, rest)) =>
        if |rest| != SIGNATURE_SIZE then Err(SignatureLength(|rest|))
        else if !c.validSignature(rest) then Err(ParseSignature)
        else Ok(Update(scope, key, timestamp, value, rest))
  }

  // ---------------------------------------------------------------------------------------------
  // The message language, given as a grammar rather than as a parser.

  /** The eight parts of a message, the three numbers as the bytes that spell them. */
  datatype Wire = Wire(scope: Bytes, keyLength: Bytes, key: Bytes, timestamp: Bytes,
                       valueLength: Bytes, value: Bytes, signature: Bytes)
  {
    function Flat(): Bytes {
      [0] + (scope + (keyLength + (key + (timestamp + (valueLength + (value + signature))))))
    }

    predicate Valid(c: Crypto) {
      && |scope| == PUBLIC_KEY_SIZE && c.validKey(scope)
      && Varint.IsVarint(keyLength) && Varint.Value(keyLength) == |key|
      && Varint.IsVarint(timestamp)
      && Varint.IsVarint(valueLength) && Varint.Value(valueLength) == |value|
      && |signature| == SIGNATURE_SIZE && c.validSignature(signature)
    }

    function Meaning(): Update {
      Update(scope, key, Varint.Value(timestamp), value, signature)
    }

    predicate AllMinimal()
      requires Varint.IsVarint(keyLength) && Varint.IsVarint(timestamp) && Varint.IsVarint(valueLength)
    {
      Varint.Minimal(keyLength) && Varint.Minimal(timestamp) && Varint.Minimal(valueLength)
    }
  }

  /** The parts `Encode` writes. */
  function Canonical(u: Update): Wire {
    Wire(u.scope, Varint.Encode(|u.key|), u.key, Varint.Encode(u.timestamp),
         Varint.Encode(|u.value|), u.value, u.signature)
  }

  lemma AppendBytesThen(b: Bytes, p: Bytes, rest: Bytes)
    ensures AppendBytes(b, p) + rest == b + (Varint.Encode(|p|) + (p + rest))
  {
    var l := Varint.Encode(|p|);
    Assoc(b + l, p, rest);
    Assoc(b, l, p + rest);
  }

  lemma EncodeFlat(u: Update)
    ensures Encode(u) == Canonical(u).Flat()
  {
    var head := AppendBytes([0] + u.scope, u.key);
    var ts := Varint.Encode(u.timestamp);
    var r4 := Varint.Encode(|u.value|) + (u.value + u.signature);
    AppendBytesThen(head + ts, u.value, u.signature);
    Assoc(head, ts, r4);
    AppendBytesThen([0] + u.scope, u.key, ts + r4);
    Assoc([0], u.scope, Varint.Encode(|u.key|) + (u.key + (ts + r4)));
  }

  lemma CanonicalIs(c: Crypto, u: Update)
    requires IsUpdate(c, u)
    ensures Canonical(u).Valid(c) && Canonical(u).Meaning() == u
  {
    Varint.EncodeMeans(|u.key|);
    Varint.EncodeMeans(u.timestamp);
    Varint.EncodeMeans(|u.value|);
    Varint.EncodeFits(|u.key|);
    Varint.EncodeFits(u.timestamp);
    Varint.EncodeFits(|u.value|);
  }

  lemma ReadBytesTakes(length: Bytes, p: Bytes, rest: Bytes)
    requires Varint.IsVarint(length) && Varint.Value(length) == |p|
    ensures ReadBytes(length + (p + rest)) == Ok((p, rest))
  {
    Varint.ReadTakes(length, p + rest);
    assert (length + (p + rest))[|length|..] == p + rest;
    assert (p + rest)[..|p|] == p && (p + rest)[|p|..] == rest;
  }

  lemma ReadBytesOnlyTakes(b: Bytes) returns (length: Bytes)
    requires ReadBytes(b).Ok?
    ensures var (p, rest) := ReadBytes(b).value;
            b == length + (p + rest) && Varint.IsVarint(length) && Varint.Value(length) == |p|
  {
    Varint.ReadOnlyTakes(b);
    var w := Varint.Read(b).1;
    length := b[..w];
    assert b == b[..w] + b[w..];
  }

  /** Every message of the grammar is accepted, with its meaning. */
  lemma DecodeComplete(c: Crypto, w: Wire)
    requires w.Valid(c)
    ensures Decode(c, w.Flat()) == Ok(w.Meaning())
  {
    var b5 := w.value + w.signature;
    var b4 := w.valueLength + b5;
    var b3 := w.timestamp + b4;
    var b2 := w.keyLength + (w.key + b3);
    var b1 := w.scope + b2;
    assert w.Flat()[1..] == b1;
    assert b1[..PUBLIC_KEY_SIZE] == w.scope && b1[PUBLIC_KEY_SIZE..] == b2;
    ReadBytesTakes(w.keyLength, w.key, b3);
    Varint.ReadTakes(w.timestamp, b4);
    assert b3[|w.timestamp|..] == b4;
    ReadBytesTakes(w.valueLength, w.value, w.signature);
  }

  /** Nothing else is accepted. */
  lemma DecodeSound(c: Crypto, b: Bytes) returns (w: Wire)
    requires Decode(c, b).Ok?
    ensures w.Valid(c) && w.Flat() == b && w.Meaning() == Decode(c, b).value
    ensures |w.scope| == 32 && |w.signature| == 64
  {
    var b1 := b[1..];
    var b2 := b1[PUBLIC_KEY_SIZE..];
    var keyLength := ReadBytesOnlyTakes(b2);
    var (key, b3) := ReadBytes(b2).value;
    w := SignedValueSound(c, b1[..PUBLIC_KEY_SIZE], keyLength, key, b3);
    Reassemble(w, b, b3);
  }

  lemma Reassemble(w: Wire, b: Bytes, b3: Bytes)
    requires |b| > PUBLIC_KEY_SIZE && b[0] == 0 && w.scope == b[1..][..PUBLIC_KEY_SIZE]
    requires b[1..][PUBLIC_KEY_SIZE..] == w.keyLength + (w.key + b3)
    requires b3 == w.timestamp + (w.valueLength + (w.value + w.signature))
    ensures w.Flat() == b
  {
    assert b[1..] == b[1..][..PUBLIC_KEY_SIZE] + b[1..][PUBLIC_KEY_SIZE..];
    assert b == [b[0]] + b[1..];
  }

  lemma SignedValueSound(c: Crypto, scope: Bytes, keyLength: Bytes, key: Bytes, b: Bytes) returns (w: Wire)
    requires |scope| == PUBLIC_KEY_SIZE && c.validKey(scope)
    requires Varint.IsVarint(keyLength) && Varint.Value(keyLength) == |key|
    requires DecodeSignedValue(c, scope, key, b).Ok?
    ensures w.Valid(c) && w.scope == scope && w.keyLength == keyLength && w.key == key
    ensures w.timestamp + (w.valueLength + (w.value + w.signature)) == b
    ensures w.Meaning() == DecodeSignedValue(c, scope, key, b).value
  {
    Varint.ReadOnlyTakes(b);
    var n := Varint.Read(b).1;
    var valueLength := ReadBytesOnlyTakes(b[n..]);
    var (value, rest) := ReadBytes(b[n..]).value;
    w := Wire(scope, keyLength, key, b[..n], valueLength, value, rest);
    assert b == b[..n] + b[n..];
  }

  /** The grammar is unambiguous, even when the message is only the front of a longer string. */
  lemma WireUnique(c: Crypto, v: Wire, w: Wire, tail: Bytes)
    requires v.Valid(c) && w.Valid(c) && v.Flat() + tail == w.Flat()
    ensures v == w && tail == []
  {
    var v5, w5 := v.value + v.signature, w.value + w.signature;
    var v4, w4 := v.valueLength + v5, w.valueLength + w5;
    var v3, w3 := v.timestamp + v4, w.timestamp + w4;
    var v2, w2 := v.keyLength + (v.key + v3), w.keyLength + (w.key + w3);
    calc {
      v.Flat() + tail;
      [0] + (v.scope + (v2 + tail));
    }
    SplitEqual([0], [0], v.scope + (v2 + tail), w.scope + w2);
    SplitEqual(v.scope, w.scope, v2 + tail, w2);
    assert v2 + tail == v.keyLength + (v.key + (v3 + tail));
    Varint.TerminatedUnique(v.keyLength, w.keyLength, v.key + (v3 + tail), w.key + w3);
    SplitEqual(v.key, w.key, v3 + tail, w3);
    assert v3 + tail == v.timestamp + (v4 + tail);
    Varint.TerminatedUnique(v.timestamp, w.timestamp, v4 + tail, w4);
    assert v4 + tail == v.valueLength + (v5 + tail);
    Varint.TerminatedUnique(v.valueLength, w.valueLength, v5 + tail, w5);
    assert v5 + tail == v.value + (v.signature + tail);
    SplitEqual(v.value, w.value, v.signature + tail, w.signature);
    assert |tail| == 0;
    assert v.signature + tail == v.signature;
  }

  // ---------------------------------------------------------------------------------------------
  // What the codec promises.

  lemma RoundTrip(c: Crypto, u: Update)
    requires IsUpdate(c, u)
    ensures Decode(c, Encode(u)) == Ok(u)
  {
    EncodeFlat(u);
    CanonicalIs(c, u);
    DecodeComplete(c, Canonical(u));
  }

  lemma EncodeIsShortest(c: Crypto, w: Wire)
    requires w.Valid(c) && IsUpdate(c, w.Meaning())
    ensures |Encode(w.Meaning())| <= |w.Flat()|
    ensures Encode(w.Meaning()) == w.Flat() <==> w.AllMinimal()
  {
    var u := w.Meaning();
    EncodeFlat(u);
    CanonicalIs(c, u);
    Varint.EncodeIsTheOnlyMinimal(w.keyLength);
    Varint.EncodeIsTheOnlyMinimal(w.timestamp);
    Varint.EncodeIsTheOnlyMinimal(w.valueLength);
    if Encode(u) == w.Flat() {
      assert Canonical(u).Flat() + [] == w.Flat();
      WireUnique(c, Canonical(u), w, []);
    }
  }

  /** Re-encoding an accepted message keeps the update and never grows. */
  lemma NormalForm(c: Crypto, w: Wire)
    requires w.Valid(c)
    ensures Decode(c, w.Flat()) == Ok(w.Meaning())
    ensures IsUpdate(c, w.Meaning())
    ensures Decode(c, Encode(w.Meaning())) == Ok(w.Meaning())
    ensures |Encode(w.Meaning())| <= |w.Flat()|
    ensures Encode(w.Meaning()) == w.Flat() <==> w.AllMinimal()
  {
    DecodeComplete(c, w);
    RoundTrip(c, w.Meaning());
    EncodeIsShortest(c, w);
  }

  /** No accepted message is a proper prefix of another. */
  lemma PrefixFree(c: Crypto, b: Bytes, tail: Bytes)
    requires Decode(c, b).Ok? && Decode(c, b + tail).Ok?
    ensures tail == []
  {
    var v := DecodeSound(c, b);
    var w := DecodeSound(c, b + tail);
    WireUnique(c, v, w, tail);
  }

  lemma SigningDataFlat(k: Bytes, t: nat, v: Bytes)
    ensures SigningData(k, t, v) == Varint.Encode(|k|) + (k + (Varint.Encode(t) + (Varint.Encode(|v|) + v)))
  {
    var kl, ts, vl := Varint.Encode(|k|), Varint.Encode(t), Varint.Encode(|v|);
    assert [] + kl == kl;
    Assoc(kl + k, ts, vl);
    Assoc(kl + k, ts + vl, v);
    Assoc(ts, vl, v);
    Assoc(kl, k, ts + (vl + v));
  }

  /** A signature covers exactly one key, timestamp and value. */
  lemma SigningDataInjective(k: Bytes, t: nat, v: Bytes, k': Bytes, t': nat, v': Bytes)
    requires SigningData(k, t, v) == SigningData(k', t', v')
    ensures k == k' && t == t' && v == v'
  {
    var kl, kl' := Varint.Encode(|k|), Varint.Encode(|k'|);
    var ts, ts' := Varint.Encode(t), Varint.Encode(t');
    var vl, vl' := Varint.Encode(|v|), Varint.Encode(|v'|);
    Varint.EncodeMeans(|k|);
    Varint.EncodeMeans(|k'|);
    Varint.EncodeMeans(t);
    Varint.EncodeMeans(t');
    Varint.EncodeMeans(|v|);
    Varint.EncodeMeans(|v'|);
    SigningDataFlat(k, t, v);
    SigningDataFlat(k', t', v');
    Varint.TerminatedUnique(kl, kl', k + (ts + (vl + v)), k' + (ts' + (vl' + v')));
    SplitEqual(k, k', ts + (vl + v), ts' + (vl' + v'));
    Varint.TerminatedUnique(ts, ts', vl + v, vl' + v');
    Varint.TerminatedUnique(vl, vl', v, v');
  }
}
