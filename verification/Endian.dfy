/** Fixed-width integers as encoding/binary writes them, `width` bytes long. */
module Endian {
  import opened Common

  function Pow256(n: nat): (p: nat)
    ensures p >= 1
  {
    if n == 0 then 1 else 256 * Pow256(n - 1)
  }

  /** byte(n) */
  function Low(n: nat): byte {
    n % 256
  }

  /** LittleEndian.PutUint; what does not fit in the width is dropped. */
  function Little(n: nat, width: nat): (b: Bytes)
    ensures |b| == width
  {
    if width == 0 then [] else [Low(n)] + Little(n / 256, width - 1)
  }

  /** LittleEndian.Uint */
  function FromLittle(b: Bytes): nat {
    if b == [] then 0
    else
      var low: nat := b[0];
      low + 256 * FromLittle(b[1..])
  }

  /** BigEndian.PutUint */
  function Big(n: nat, width: nat): (b: Bytes)
    ensures |b| == width
  {
    if width == 0 then [] else Big(n / 256, width - 1) + [Low(n)]
  }

  /** BigEndian.Uint */
  function FromBig(b: Bytes): nat {
    if b == [] then 0
    else
      var low: nat := b[|b| - 1];
      256 * FromBig(b[..|b| - 1]) + low
  }

  lemma {:induction false} LittleMeans(n: nat, width: nat)
    requires n < Pow256(width)
    ensures FromLittle(Little(n, width)) == n
  {
    if width > 0 {
      assert Pow256(width) == 256 * Pow256(width - 1);
      LittleMeans(n / 256, width - 1);
      assert Little(n, width)[1..] == Little(n / 256, width - 1);
    }
  }

  lemma {:induction false} LittleOnly(b: Bytes)
    ensures FromLittle(b) < Pow256(|b|) && Little(FromLittle(b), |b|) == b
  {
    if b != [] {
      LittleOnly(b[1..]);
      DivMod(FromLittle(b[1..]), b[0]);
      assert b == [b[0]] + b[1..];
    }
  }

  lemma {:induction false} BigMeans(n: nat, width: nat)
    requires n < Pow256(width)
    ensures FromBig(Big(n, width)) == n
  {
    if width > 0 {
      assert Pow256(width) == 256 * Pow256(width - 1);
      BigMeans(n / 256, width - 1);
      assert Big(n, width)[..width - 1] == Big(n / 256, width - 1);
    }
  }

  lemma {:induction false} BigOnly(b: Bytes)
    ensures FromBig(b) < Pow256(|b|) && Big(FromBig(b), |b|) == b
  {
    if b != [] {
      var k := |b| - 1;
      BigOnly(b[..k]);
      DivMod(FromBig(b[..k]), b[k]);
      assert b == b[..k] + [b[k]];
    }
  }

  /** The four bytes of a 32-bit length, the most significant first. */
  lemma BigFour(n: nat)
    requires n < 0x1_0000_0000
    ensures Big(n, 4) == [n / 0x100_0000, n / 0x1_0000 % 0x100, n / 0x100 % 0x100, n % 0x100]
  {
    assert Big(n, 4) == Big(n / 0x100, 3) + [Low(n)];
    assert Big(n / 0x100, 3) == Big(n / 0x1_0000, 2) + [Low(n / 0x100)];
    assert Big(n / 0x1_0000, 2) == Big(n / 0x100_0000, 1) + [Low(n / 0x1_0000)];
    assert Big(n / 0x100_0000, 1) == [] + [Low(n / 0x100_0000)];
  }

  /** The bytes of a little-endian number, the least significant first. */
  lemma LittleFirst(n: nat, width: nat)
    requires width > 0
    ensures Little(n, width) == [n % 0x100] + Little(n / 0x100, width - 1)
    ensures n < 0x100 ==> forall i | 1 <= i < width :: Little(n, width)[i] == 0
  {
    if n < 0x100 {
      LittleZeros(width - 1);
    }
  }

  lemma {:induction false} LittleZeros(width: nat)
    ensures forall i | 0 <= i < width :: Little(0, width)[i] == 0
  {
    if width > 0 {
      LittleZeros(width - 1);
    }
  }

  lemma DivMod(q: nat, low: nat)
    requires low < 256
    ensures (256 * q + low) / 256 == q && (256 * q + low) % 256 == low
  {
  }

  lemma Widths()
    ensures Pow256(4) == 0x1_0000_0000 && Pow256(8) == TWO64
  {
    assert Pow256(2) == 256 * 256;
    assert Pow256(4) == 256 * 256 * Pow256(2);
    assert Pow256(6) == 256 * 256 * Pow256(4);
    assert Pow256(8) == 256 * 256 * Pow256(6);
  }
}
