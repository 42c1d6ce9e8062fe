/** Shared value types: options, machine-width naturals, powers of two. */
module Base {

  datatype Option<+T> = None | Some(value: T)

  type Byte = n: int | 0 <= n < 0x100
  type U16 = n: int | 0 <= n < 0x1_0000
  type U32 = n: int | 0 <= n < 0x1_0000_0000
  type U64 = n: int | 0 <= n < 0x1_0000_0000_0000_0000

  type Bytes = seq<Byte>

  /** The big-endian 16-bit number at an offset. */
  function Be16(b: Bytes, off: nat): U16
    requires off + 2 <= |b|
  {
    (b[off] as int) * 0x100 + b[off + 1]
  }

  lemma Be16At(b: Bytes, off: nat)
    requires off + 2 <= |b|
    ensures Be16(b, off) == Be16(b[off..off + 2], 0)
  {
    assert b[off..off + 2][0] == b[off] && b[off..off + 2][1] == b[off + 1];
  }

  lemma ConcatAssoc<T>(a: seq<T>, b: seq<T>, c: seq<T>)
    ensures a + (b + c) == (a + b) + c
  {
  }

  function Pow2(n: nat): (p: nat)
    ensures p > 0
  {
    if n == 0 then 1 else 2 * Pow2(n - 1)
  }

  lemma {:induction false} Pow2Add(a: nat, b: nat)
    ensures Pow2(a + b) == Pow2(a) * Pow2(b)
  {
    if a != 0 {
      Pow2Add(a - 1, b);
      assert Pow2(a + b) == 2 * (Pow2(a - 1) * Pow2(b)) == (2 * Pow2(a - 1)) * Pow2(b);
    }
  }

  /** The powers the wire formats depend on. */
  lemma Pow2Values()
    ensures Pow2(8) == 0x100 && Pow2(16) == 0x1_0000
    ensures Pow2(32) == 0x1_0000_0000 && Pow2(64) == 0x1_0000_0000_0000_0000
  {
    assert Pow2(4) == 16;
    Pow2Add(4, 4);
    Pow2Add(8, 8);
    Pow2Add(16, 16);
    Pow2Add(32, 32);
  }

  /** Right shift. */
  function Shr(x: nat, k: nat): nat {
    if k == 0 then x else Shr(x / 2, k - 1)
  }

  /** Left shift. */
  function Shl(x: nat, k: nat): nat {
    if k == 0 then x else 2 * Shl(x, k - 1)
  }

  lemma {:induction false} ShrBound(x: nat, w: nat, k: nat)
    requires k <= w && x < Pow2(w)
    ensures Shr(x, k) < Pow2(w - k)
  {
    if k != 0 {
      ShrBound(x / 2, w - 1, k - 1);
    }
  }

  lemma {:induction false} ShrOfSum(high: nat, low: nat, k: nat)
    requires low < Pow2(k)
    ensures Shr(Shl(high, k) + low, k) == high
  {
    if k != 0 {
      assert (Shl(high, k) + low) / 2 == Shl(high, k - 1) + low / 2;
      ShrOfSum(high, low / 2, k - 1);
    }
  }

  lemma Shl8(x: nat)
    ensures Shl(x, 8) == 256 * x
  {
    assert Shl(x, 1) == 2 * x;
    assert Shl(x, 3) == 2 * Shl(x, 2) == 8 * x;
    assert Shl(x, 5) == 2 * Shl(x, 4) == 32 * x;
    assert Shl(x, 7) == 2 * Shl(x, 6) == 128 * x;
  }

  lemma Shr8(x: nat)
    ensures Shr(x, 8) == x / 256
  {
    Pow2Values();
    Shl8(x / 256);
    ShrOfSum(x / 256, x % 256, 8);
  }

  /** Shifting down then up bounds a number from below, one step further from above. */
  lemma {:induction false} ShiftBracket(x: nat, k: nat)
    ensures Shl(Shr(x, k), k) <= x < Shl(Shr(x, k) + 1, k)
  {
    if k != 0 {
      ShiftBracket(x / 2, k - 1);
    }
  }

  lemma {:induction false} ShlStep(x: nat, k: nat)
    ensures Shl(x + 1, k) == Shl(x, k) + Pow2(k)
  {
    if k != 0 {
      ShlStep(x, k - 1);
    }
  }

  lemma {:induction false} ShlIsTimes(x: nat, k: nat)
    ensures Shl(x, k) == x * Pow2(k)
  {
    if k != 0 {
      ShlIsTimes(x, k - 1);
      assert 2 * (x * Pow2(k - 1)) == x * (2 * Pow2(k - 1));
    }
  }

  lemma {:induction false} ShlMonotone(x: nat, y: nat, k: nat)
    requires x <= y
    ensures Shl(x, k) <= Shl(y, k)
  {
    if k != 0 {
      ShlMonotone(x, y, k - 1);
    }
  }
}
