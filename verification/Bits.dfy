/** Bitwise operations of the source's unsigned words, on natural numbers. */
module Bits {
  const WORD: nat := 0x1_0000_0000
  const LONG: nat := 0x1_0000_0000_0000_0000

  type u8 = x: nat | x < 0x100
  type u16 = x: nat | x < 0x1_0000
  type u32 = x: nat | x < WORD
  type u64 = x: nat | x < LONG

  /** Conversion of a 32-bit word to a signed integer. */
  function ToInt32(x: u32): int { if x < 0x8000_0000 then x else x - WORD }

  function Pow2(k: nat): (p: nat)
    ensures p > 0
  {
    if k == 0 then 1 else 2 * Pow2(k - 1)
  }

  /** The powers of two that the source's fields start and end at. */
  lemma Powers()
    ensures Pow2(4) == 0x10 && Pow2(8) == 0x100 && Pow2(9) == 0x200 && Pow2(16) == 0x1_0000
    ensures Pow2(18) == 0x4_0000 && Pow2(24) == 0x100_0000 && Pow2(27) == 0x800_0000
    ensures Pow2(28) == 0x1000_0000 && Pow2(29) == 0x2000_0000 && Pow2(32) == WORD && Pow2(64) == LONG
  {
    assert Pow2(2) == 4;
    assert Pow2(6) == 4 * Pow2(4);
    assert Pow2(10) == 4 * Pow2(8) && Pow2(12) == 4 * Pow2(10) && Pow2(14) == 4 * Pow2(12);
    assert Pow2(20) == 4 * Pow2(18) && Pow2(22) == 4 * Pow2(20) && Pow2(26) == 4 * Pow2(24);
    assert Pow2(30) == 4 * Pow2(28);
    assert Pow2(36) == 0x10_0000_0000 by { assert Pow2(34) == 4 * Pow2(32); }
    assert Pow2(40) == 0x100_0000_0000 by { assert Pow2(38) == 4 * Pow2(36); }
    assert Pow2(44) == 0x1000_0000_0000 by { assert Pow2(42) == 4 * Pow2(40); }
    assert Pow2(48) == 0x1_0000_0000_0000 by { assert Pow2(46) == 4 * Pow2(44); }
    assert Pow2(52) == 0x10_0000_0000_0000 by { assert Pow2(50) == 4 * Pow2(48); }
    assert Pow2(56) == 0x100_0000_0000_0000 by { assert Pow2(54) == 4 * Pow2(52); }
    assert Pow2(60) == 0x1000_0000_0000_0000 by { assert Pow2(58) == 4 * Pow2(56); }
    assert Pow2(62) == 4 * Pow2(60);
  }

  function And(x: nat, y: nat): nat {
    if x == 0 || y == 0 then 0
    else 2 * And(x / 2, y / 2) + (if x % 2 == 1 && y % 2 == 1 then 1 else 0)
  }

  function Or(x: nat, y: nat): nat
    decreases x + y
  {
    if x == 0 then y
    else if y == 0 then x
    else 2 * Or(x / 2, y / 2) + (if x % 2 == 1 || y % 2 == 1 then 1 else 0)
  }

  lemma MulAtLeast(k: int, d: int)
    requires d > 0
    ensures k >= 1 ==> k * d >= d
    ensures k <= -1 ==> k * d <= -d
  {
  }

  lemma DivModUnique(x: nat, d: nat, q: nat, r: nat)
    requires r < d && x == q * d + r
    ensures x / d == q && x % d == r
  {
    assert (x / d - q) * d == r - x % d;
    MulAtLeast(x / d - q, d);
  }

  lemma DivModDouble(x: nat, p: nat)
    requires p > 0
    ensures x / (2 * p) == x / 2 / p
    ensures x % (2 * p) == 2 * (x / 2 % p) + x % 2
  {
    var q, r := x / 2 / p, x / 2 % p;
    assert x == 2 * (q * p + r) + x % 2;
    assert x == q * (2 * p) + (2 * r + x % 2) by { assert 2 * (q * p) == q * (2 * p); }
    DivModUnique(x, 2 * p, q, 2 * r + x % 2);
  }

  /** The k lowest bits of x. */
  function LowBits(x: nat, k: nat): nat {
    if k == 0 then 0 else 2 * LowBits(x / 2, k - 1) + x % 2
  }

  lemma {:induction false} LowBitsIs(x: nat, k: nat)
    ensures LowBits(x, k) == x % Pow2(k)
  {
    if k == 0 {
      assert Pow2(0) == 1;
    } else {
      LowBitsIs(x / 2, k - 1);
      DivModDouble(x, Pow2(k - 1));
    }
  }

  lemma {:induction false} Pow2Monotone(k: nat, n: nat)
    requires k <= n
    ensures Pow2(k) <= Pow2(n)
  {
    if k == n {
    } else {
      Pow2Monotone(k, n - 1);
    }
  }

  lemma AndOdd(x: nat, y: nat, y2: nat)
    requires y2 == 2 * y + 1
    ensures And(x, y2) == 2 * And(x / 2, y) + x % 2
  {
  }

  lemma {:induction false} AndLowBits(x: nat, k: nat)
    ensures And(x, Pow2(k) - 1) == LowBits(x, k)
  {
    if k == 0 {
      assert Pow2(0) == 1;
    } else {
      AndLowBits(x / 2, k - 1);
      AndOdd(x, Pow2(k - 1) - 1, Pow2(k) - 1);
    }
  }

  lemma AndEven(x: nat, y: nat, y2: nat)
    requires y2 == 2 * y
    ensures And(x, y2) == 2 * And(x / 2, y)
  {
  }

  lemma {:induction false} AndFieldBits(x: nat, k: nat, n: nat)
    requires k <= n && Pow2(k) <= Pow2(n)
    ensures And(x, Pow2(n) - Pow2(k)) == LowBits(x, n) - LowBits(x, k)
  {
    hide And;
    if k == 0 {
      AndLowBits(x, n);
      assert Pow2(0) == 1;
    } else {
      AndFieldBits(x / 2, k - 1, n - 1);
      AndEven(x, Pow2(n - 1) - Pow2(k - 1), Pow2(n) - Pow2(k));
    }
  }

  /** `&` with a mask of ones is a remainder: why masking wraps a ring index. */
  lemma AndLow(x: nat, k: nat)
    ensures And(x, Pow2(k) - 1) == x % Pow2(k)
  {
    hide And, LowBits, Pow2;
    AndLowBits(x, k);
    LowBitsIs(x, k);
  }

  /** `&` with the mask of bits k to n-1 keeps exactly those bits. */
  lemma AndField(x: nat, k: nat, n: nat)
    requires k <= n
    ensures Pow2(k) <= Pow2(n)
    ensures And(x, Pow2(n) - Pow2(k)) == x % Pow2(n) - x % Pow2(k)
  {
    hide And, LowBits, Pow2;
    Pow2Monotone(k, n);
    AndFieldBits(x, k, n);
    LowBitsIs(x, k);
    LowBitsIs(x, n);
  }

  /** `|` of disjoint fields is a sum. */
  lemma {:induction false} OrDisjoint(x: nat, b: nat, k: nat)
    requires x % Pow2(k) == 0 && b < Pow2(k)
    ensures Or(x, b) == x + b
  {
    if k == 0 {
    } else {
      var p := Pow2(k - 1);
      DivModDouble(x, p);
      OrDisjoint(x / 2, b / 2, k - 1);
    }
  }

  lemma OrDisjointAt(x: nat, b: nat)
    ensures x % 0x4_0000 == 0 && b < 0x4_0000 ==> Or(x, b) == x + b
    ensures x % 0x100_0000 == 0 && b < 0x100_0000 ==> Or(x, b) == x + b
    ensures x % 0x1000_0000 == 0 && b < 0x1000_0000 ==> Or(x, b) == x + b
    ensures x % WORD == 0 && b < WORD ==> Or(x, b) == x + b
  {
    Powers();
    if x % 0x4_0000 == 0 && b < 0x4_0000 { OrDisjoint(x, b, 18); }
    if x % 0x100_0000 == 0 && b < 0x100_0000 { OrDisjoint(x, b, 24); }
    if x % 0x1000_0000 == 0 && b < 0x1000_0000 { OrDisjoint(x, b, 28); }
    if x % WORD == 0 && b < WORD { OrDisjoint(x, b, 32); }
  }

  /** `|` with one bit adds it exactly when it was clear. */
  lemma {:induction false} OrBit(x: nat, k: nat)
    ensures Or(x, Pow2(k)) == if x / Pow2(k) % 2 == 1 then x else x + Pow2(k)
  {
    if k == 0 {
      assert Pow2(0) == 1;
      assert x > 0 ==> Or(x / 2, 0) == x / 2;
    } else {
      var p := Pow2(k - 1);
      OrBit(x / 2, k - 1);
      DivModDouble(x, p);
      assert 2 * p / 2 == p && 2 * p % 2 == 0;
    }
  }

  lemma {:induction false} OrCommutes(x: nat, y: nat)
    ensures Or(x, y) == Or(y, x)
    decreases x + y
  {
    if x > 0 && y > 0 { OrCommutes(x / 2, y / 2); }
  }

  lemma {:induction false} OrAssociates(x: nat, y: nat, z: nat)
    ensures Or(Or(x, y), z) == Or(x, Or(y, z))
    decreases x + y + z
  {
    if x == 0 || y == 0 || z == 0 {
    } else {
      OrAssociates(x / 2, y / 2, z / 2);
      var xy, yz := Or(x, y), Or(y, z);
      assert xy / 2 == Or(x / 2, y / 2) && (xy % 2 == 1 <==> x % 2 == 1 || y % 2 == 1);
      assert yz / 2 == Or(y / 2, z / 2) && (yz % 2 == 1 <==> y % 2 == 1 || z % 2 == 1);
    }
  }

  lemma {:induction false} OrFits(x: nat, y: nat, n: nat)
    requires x < Pow2(n) && y < Pow2(n)
    ensures Or(x, y) < Pow2(n)
  {
    if n == 0 {
    } else {
      OrFits(x / 2, y / 2, n - 1);
    }
  }

  lemma OrZero(x: nat)
    ensures Or(x, 0) == x
  {
  }

  lemma {:induction false} OrAtLeast(x: nat, y: nat)
    ensures Or(x, y) >= x && Or(x, y) >= y
    decreases x + y
  {
    if x > 0 && y > 0 { OrAtLeast(x / 2, y / 2); }
  }

  /** `x >> k`. */
  function ShiftRight(x: nat, k: nat): nat {
    if k == 0 then x else ShiftRight(x / 2, k - 1)
  }

  lemma {:induction false} ShiftRightIs(x: nat, k: nat)
    ensures ShiftRight(x, k) == x / Pow2(k)
  {
    if k == 0 {
      assert Pow2(0) == 1;
    } else {
      ShiftRightIs(x / 2, k - 1);
      DivModDouble(x, Pow2(k - 1));
    }
  }

  lemma {:induction false} OrShifted(x: nat, y: nat, k: nat)
    ensures ShiftRight(Or(x, y), k) == Or(ShiftRight(x, k), ShiftRight(y, k))
  {
    if k == 0 {
    } else {
      assert Or(x, y) / 2 == Or(x / 2, y / 2);
      OrShifted(x / 2, y / 2, k - 1);
    }
  }

  /** Bit b of x. */
  predicate Bit(x: nat, b: nat) {
    if b == 0 then x % 2 == 1 else Bit(x / 2, b - 1)
  }

  lemma {:induction false} BitIs(x: nat, b: nat)
    ensures Bit(x, b) <==> x / Pow2(b) % 2 == 1
  {
    if b == 0 {
      assert Pow2(0) == 1;
    } else {
      BitIs(x / 2, b - 1);
      DivModDouble(x, Pow2(b - 1));
    }
  }

  lemma {:induction false} NoBits(b: nat)
    ensures !Bit(0, b)
  {
    if b == 0 {
    } else {
      NoBits(b - 1);
    }
  }

  lemma OrHalves(x: nat, y: nat)
    ensures Or(x, y) / 2 == Or(x / 2, y / 2)
    ensures Or(x, y) % 2 == if x % 2 == 1 || y % 2 == 1 then 1 else 0
  {
    if x == 0 || y == 0 {
      assert Or(0, y / 2) == y / 2;
      assert Or(x / 2, 0) == x / 2;
    }
  }

  lemma AndHalves(x: nat, y: nat)
    ensures And(x, y) / 2 == And(x / 2, y / 2)
    ensures And(x, y) % 2 == if x % 2 == 1 && y % 2 == 1 then 1 else 0
  {
  }

  /** `|` works bit by bit. */
  lemma {:induction false} OrBits(x: nat, y: nat, b: nat)
    ensures Bit(Or(x, y), b) <==> Bit(x, b) || Bit(y, b)
    decreases b
  {
    hide Or;
    OrHalves(x, y);
    if b == 0 {
    } else {
      OrBits(x / 2, y / 2, b - 1);
    }
  }

  /** `&` works bit by bit. */
  lemma {:induction false} AndBits(x: nat, y: nat, b: nat)
    ensures Bit(And(x, y), b) <==> Bit(x, b) && Bit(y, b)
    decreases b
  {
    hide And;
    AndHalves(x, y);
    if b == 0 {
    } else {
      AndBits(x / 2, y / 2, b - 1);
    }
  }

  /** `~` in n bits flips each of them. */
  lemma {:induction false} NotBits(x: nat, n: nat, b: nat)
    requires x < Pow2(n)
    ensures Bit(Pow2(n) - 1 - x, b) <==> b < n && !Bit(x, b)
  {
    if n == 0 {
      assert Pow2(0) == 1;
      NoBits(b);
    } else if b == 0 {
    } else {
      assert (Pow2(n) - 1 - x) / 2 == Pow2(n - 1) - 1 - x / 2;
      hide Pow2;
      NotBits(x / 2, n - 1, b - 1);
    }
  }

  /** x with bit b set to v (the source's `setBit`). */
  function SetBit(x: nat, b: nat, v: bool): nat {
    if b == 0 then x - x % 2 + (if v then 1 else 0) else 2 * SetBit(x / 2, b - 1, v) + x % 2
  }

  lemma {:induction false} SetBitAt(x: nat, b: nat, v: bool, c: nat)
    ensures Bit(SetBit(x, b, v), c) == if b == c then v else Bit(x, c)
  {
    if b > 0 && c > 0 { SetBitAt(x / 2, b - 1, v, c - 1); }
  }

  lemma {:induction false} SetBitFits(x: nat, b: nat, v: bool, n: nat)
    requires x < Pow2(n) && b < n
    ensures SetBit(x, b, v) < Pow2(n)
  {
    assert Pow2(n) == 2 * Pow2(n - 1);
    hide Pow2;
    if b == 0 {
    } else {
      SetBitFits(x / 2, b - 1, v, n - 1);
    }
  }
}
