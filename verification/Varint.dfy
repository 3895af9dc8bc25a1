/**
 Unsigned LEB128 as Go's encoding/binary reads and writes it: seven bits a byte, least
 significant group first, the top bit set on every byte but the last.

 The two loops work on uint64. `Pow128(i)` is the shift by 7*i bits; a shifted group never
 overlaps the bits below it, so the loops' bitwise "or" is written as a sum, and the shift drops
 what leaves 64 bits (`% TWO64`).
 */
module Varint {
  import opened Common

  /** binary.MaxVarintLen64 */
  const MAX_LEN64: nat := 10

  function Pow128(n: nat): (p: nat)
    ensures p >= 1
  {
    if n == 0 then 1 else 128 * Pow128(n - 1)
  }

  /** The number a string of groups stands for, whatever the top bits are. */
  function Value(v: Bytes): nat {
    if v == [] then 0 else v[0] % 128 + 128 * Value(v[1..])
  }

  /** One whole encoding: exactly the last byte has its top bit clear. */
  predicate Terminated(v: Bytes) {
    |v| > 0 && v[|v| - 1] < 128 && forall i | 0 <= i < |v| - 1 :: v[i] >= 128
  }

  /** An encoding of a uint64 that a reader takes; it need not be the shortest. */
  predicate IsVarint(v: Bytes) {
    Terminated(v) && |v| <= MAX_LEN64 && Value(v) < TWO64
  }

  /** No shorter encoding of the same number exists (see `EncodeIsTheOnlyMinimal`). */
  predicate Minimal(v: Bytes)
    requires Terminated(v)
  {
    |v| == 1 || v[|v| - 1] != 0
  }

  function Encode(x: nat): (v: Bytes) {
    if x < 128 then [x] else [x % 128 + 128] + Encode(x / 128)
  }

  /** The number of leading bytes whose top bit is set. */
  function Continued(b: Bytes): (n: nat)
    ensures n <= |b|
    ensures forall i | 0 <= i < n :: b[i] >= 128
    ensures n < |b| ==> b[n] < 128
  {
    if b == [] || b[0] < 128 then 0
    else
      var n := 1 + Continued(b[1..]);
      assert forall i | 1 <= i < n :: b[i] == b[1..][i - 1];
      n
  }

  /**
   What binary.Uvarint returns: the value and the number of bytes it took, or a count that is
   zero when the input ends inside the number and negative when the number passes 64 bits.
   */
  function Read(b: Bytes): (nat, int) {
    var n := Continued(b);
    if n >= MAX_LEN64 then (if |b| > MAX_LEN64 then (0, -11) else (0, 0))
    else if n == |b| then (0, 0)
    else if n == MAX_LEN64 - 1 && b[n] > 1 then (0, -10)
    else (Value(b[..n + 1]), n + 1)
  }

  lemma {:induction false} ValueSnoc(v: Bytes, b: byte)
    ensures Value(v + [b]) == Value(v) + Pow128(|v|) * (b % 128)
  {
    if v == [] {
      assert v + [b] == [b];
      assert [b][1..] == [];
    } else {
      ValueSnoc(v[1..], b);
      assert (v + [b])[1..] == v[1..] + [b];
      var p, q := Pow128(|v| - 1), b % 128;
      assert 128 * (p * q) == (128 * p) * q;
    }
  }

  lemma {:induction false} ValueBound(v: Bytes)
    ensures Value(v) < Pow128(|v|)
  {
    if v != [] {
      ValueBound(v[1..]);
    }
  }

  lemma Pow128Nine()
    ensures 2 * Pow128(9) == TWO64
  {
    assert Pow128(3) == 128 * 128 * 128;
    assert Pow128(6) == 128 * 128 * 128 * Pow128(3);
    assert Pow128(9) == 128 * 128 * 128 * Pow128(6);
  }

  /** Ten groups stay within 64 bits exactly when the last is 0 or 1. */
  lemma TenGroups(v: Bytes)
    requires |v| == 10 && v[9] < 128
    ensures Value(v) < TWO64 <==> v[9] <= 1
  {
    ValueSnoc(v[..9], v[9]);
    assert v[..9] + [v[9]] == v;
    ValueBound(v[..9]);
    Pow128Nine();
  }

  lemma {:induction false} Pow128Mono(m: nat, n: nat)
    requires m <= n
    ensures Pow128(m) <= Pow128(n)
  {
    if m < n {
      Pow128Mono(m, n - 1);
    }
  }

  /** binary.AppendUvarint, its loop over a shrinking uint64. */
  method AppendUvarint(buf: Bytes, value: nat) returns (out: Bytes)
    requires value < TWO64
    ensures out == buf + Encode(value)
  {
    out := buf;
    var x := value;
    while x >= 0x80
      invariant out + Encode(x) == buf + Encode(value)
    {
      out := out + [x % 128 + 128];
      x := x / 128;
    }
    out := out + [x];
  }

  /** What the loop adds for byte i, shifted within 64 bits. */
  function Shifted(b: byte, i: nat): nat {
    (b % 128) * Pow128(i) % TWO64
  }

  lemma AddGroup(buf: Bytes, i: nat)
    requires i < |buf| && i < MAX_LEN64
    ensures Value(buf[..i]) + Shifted(buf[i], i) < TWO64
    ensures i < 9 || buf[i] <= 1 ==> Value(buf[..i + 1]) == Value(buf[..i]) + Shifted(buf[i], i)
  {
    assert buf[..i + 1] == buf[..i] + [buf[i]];
    ValueSnoc(buf[..i], buf[i]);
    ValueBound(buf[..i]);
    Pow128Nine();
    if i < 9 {
      ShiftBelow(buf[i], i);
      ValueBound(buf[..i + 1]);
      Pow128Mono(i + 1, 9);
    } else {
      ShiftNine(buf[i]);
    }
  }

  lemma ShiftBelow(b: byte, i: nat)
    requires i < 9
    ensures Shifted(b, i) == Pow128(i) * (b % 128)
  {
    Pow128Mono(i + 1, 9);
    Pow128Nine();
    MulBelow(b % 128, Pow128(i), TWO64);
  }

  lemma MulBelow(g: nat, p: nat, m: nat)
    requires g < 128 && 128 * p < m
    ensures g * p % m == p * g
  {
    MulLess(g, p);
    SmallMod(g * p, m);
  }

  lemma MulLess(g: nat, p: nat)
    requires g < 128
    ensures g * p == p * g <= 128 * p
  {
    assert 0 <= (128 - g) * p == 128 * p - g * p;
  }

  lemma SmallMod(a: nat, m: nat)
    requires a < m
    ensures a % m == a
  {
  }

  /** Shifting by 63 bits keeps one bit. */
  lemma ShiftNine(b: byte)
    ensures Shifted(b, 9) <= Pow128(9)
    ensures b <= 1 ==> Shifted(b, 9) == Pow128(9) * (b % 128)
  {
    Pow128Nine();
    var g, h := b % 128, Pow128(9);
    assert g == 2 * (g / 2) + g % 2;
    assert g * h == (g / 2) * (2 * h) + (g % 2) * h;
    ModAdd(g / 2, (g % 2) * h);
  }

  lemma ContinuedIs(buf: Bytes, n: nat)
    requires n <= |buf| && (forall k | 0 <= k < n :: buf[k] >= 128) && (n < |buf| ==> buf[n] < 128)
    ensures Continued(buf) == n
  {
  }

  /** binary.Uvarint, its loop over the input. */
  method Uvarint(buf: Bytes) returns (value: nat, width: int)
    ensures (value, width) == Read(buf)
  {
    var x := 0;
    for i := 0 to |buf|
      invariant i <= MAX_LEN64
      invariant forall k | 0 <= k < i :: buf[k] >= 128
      invariant x < TWO64
      invariant i < MAX_LEN64 ==> x == Value(buf[..i])
    {
      if i == MAX_LEN64 {
        return 0, -(i + 1);
      }
      AddGroup(buf, i);
      if buf[i] < 0x80 {
        ContinuedIs(buf, i);
        if i == MAX_LEN64 - 1 && buf[i] > 1 {
          return 0, -(i + 1);
        }
        return x + Shifted(buf[i], i), i + 1;
      }
      x := x + Shifted(buf[i], i);
    }
    return 0, 0;
  }

  lemma ModAdd(k: nat, r: nat)
    requires r < TWO64
    ensures (k * TWO64 + r) % TWO64 == r
  {
    assert (k * TWO64 + r) / TWO64 == k;
  }

  lemma {:induction false} EncodeMeans(x: nat)
    ensures Terminated(Encode(x)) && Value(Encode(x)) == x && Minimal(Encode(x))
  {
    if x >= 128 {
      EncodeMeans(x / 128);
      var v, t := Encode(x), Encode(x / 128);
      assert v[1..] == t;
      assert forall i | 1 <= i < |v| :: v[i] == t[i - 1];
      assert t == [0] ==> Value(t) == 0;
    }
  }

  /** A shorter number has no longer encoding; 64 bits need at most ten bytes. */
  lemma {:induction false} EncodeLength(x: nat, n: nat)
    requires 0 < n && x < Pow128(n)
    ensures |Encode(x)| <= n
  {
    if x >= 128 {
      assert Pow128(n) == 128 * Pow128(n - 1);
      EncodeLength(x / 128, n - 1);
    }
  }

  lemma EncodeFits(x: nat)
    requires x < TWO64
    ensures IsVarint(Encode(x))
  {
    EncodeMeans(x);
    Pow128Nine();
    EncodeLength(x, 10);
  }

  lemma DivMod(g: nat, k: nat)
    requires g < 128
    ensures (g + 128 * k) / 128 == k && (g + 128 * k) % 128 == g
  {
  }

  /** Every encoding of a number is at least as long as `Encode`'s, which is the one minimal one. */
  lemma {:induction false} EncodeIsTheOnlyMinimal(v: Bytes)
    requires Terminated(v)
    ensures |Encode(Value(v))| <= |v|
    ensures Encode(Value(v)) == v <==> Minimal(v)
  {
    EncodeMeans(Value(v));
    if |v| > 1 {
      var t := v[1..];
      assert forall i | 0 <= i < |t| :: t[i] == v[i + 1];
      EncodeIsTheOnlyMinimal(t);
      var g := v[0] % 128;
      DivMod(g, Value(t));
      assert v == [g + 128] + t;
      if Value(t) == 0 {
        assert Encode(Value(v)) == [g];
        assert Encode(Value(t)) == [0];
      } else {
        assert Encode(Value(v)) == [g + 128] + Encode(Value(t));
        assert ([g + 128] + Encode(Value(t)))[1..] == Encode(Value(t));
      }
    }
  }

  /** Encodings are self-delimiting. */
  lemma {:induction false} TerminatedUnique(v: Bytes, w: Bytes, r: Bytes, s: Bytes)
    requires Terminated(v) && Terminated(w) && v + r == w + s
    ensures v == w && r == s
  {
    assert v[|v| - 1] == (v + r)[|v| - 1] == (w + s)[|v| - 1];
    assert w[|w| - 1] == (v + r)[|w| - 1];
    SplitEqual(v, w, r, s);
  }

  /** A reader takes a whole encoding and stops there, whatever follows. */
  lemma ReadTakes(v: Bytes, rest: Bytes)
    requires IsVarint(v)
    ensures Read(v + rest) == (Value(v), |v|)
  {
    var b := v + rest;
    ContinuedIs(b, |v| - 1);
    assert b[..|v|] == v;
    if |v| == 10 {
      TenGroups(v);
    }
  }

  /** It accepts nothing else: what it took is an encoding of what it returned. */
  lemma ReadOnlyTakes(b: Bytes)
    requires Read(b).1 > 0
    ensures Read(b).1 <= |b|
    ensures IsVarint(b[..Read(b).1]) && Read(b).0 == Value(b[..Read(b).1])
  {
    var n := Read(b).1;
    if n == 10 {
      TenGroups(b[..n]);
    } else {
      ValueBound(b[..n]);
      Pow128Nine();
      Pow128Mono(n, 9);
    }
  }
}
