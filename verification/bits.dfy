/**
 Python's integer bit operations `<<`, `|` and `&`, restricted to the
 non-negative integers the decoder applies them to (report bytes, masks and
 shifted bytes). Each operator is written the way it acts on binary digits,
 least significant first, and lemmas connect it to ordinary arithmetic.
 */
module Bits {

  /** One byte of a HID report, as Python sees it when indexing `bytes`. */
  type Byte = b: int | 0 <= b < 256

  /** 2 to the power k. */
  function Pow2(k: nat): (p: nat)
    ensures p >= 1
  {
    if k == 0 then 1 else 2 * Pow2(k - 1)
  }

  /** Python `a << k` on a non-negative integer. */
  function Shl(a: nat, k: nat): nat
  {
    a * Pow2(k)
  }

  /** Binary digit i of a (Python `(a >> i) & 1`), peeled one digit at a time. */
  function Bit(a: nat, i: nat): nat
  {
    if i == 0 then a % 2 else Bit(a / 2, i - 1)
  }

  /** Python `a | b` on non-negative integers. */
  function Or(a: nat, b: nat): nat
    decreases a + b
  {
    if a == 0 then b
    else if b == 0 then a
    else 2 * Or(a / 2, b / 2) + (if a % 2 == 1 || b % 2 == 1 then 1 else 0)
  }

  /** Python `a & b` on non-negative integers. */
  function And(a: nat, b: nat): nat
    decreases a + b
  {
    if a == 0 || b == 0 then 0
    else 2 * And(a / 2, b / 2) + (if a % 2 == 1 && b % 2 == 1 then 1 else 0)
  }

  /** Every binary digit is 0 or 1, and every digit of 0 is 0. */
  lemma {:induction false} BitIsBinary(a: nat, i: nat)
    ensures Bit(a, i) <= 1
    ensures a == 0 ==> Bit(a, i) == 0
  {
    if i > 0 {
      BitIsBinary(a / 2, i - 1);
    }
  }

  /** Digit i of a is the remainder of a divided by 2^i, taken mod 2. */
  lemma {:induction false} BitIsDivMod(a: nat, i: nat)
    ensures Bit(a, i) == (a / Pow2(i)) % 2
  {
    if i > 0 {
      BitIsDivMod(a / 2, i - 1);
      DivTwice(a, Pow2(i - 1));
    }
  }

  /** Multiplying by a non-negative factor keeps order. */
  lemma MulMonotone(d: int, x: int, y: int)
    requires d >= 0 && x <= y
    ensures d * x <= d * y
  {
    var k := y - x;
    assert d * y == d * x + d * k;
  }

  /** Quotient by d is determined by any decomposition with a remainder below d. */
  lemma DivUnique(a: int, d: int, q: int, r: int)
    requires d >= 1 && 0 <= r < d && a == d * q + r
    ensures a / d == q
  {
    var q' := a / d;
    var r' := a % d;
    assert a == d * q' + r';
    if q' < q {
      assert d * (q' + 1) == d * q' + d;
      MulMonotone(d, q' + 1, q);
    } else if q < q' {
      assert d * (q + 1) == d * q + d;
      MulMonotone(d, q + 1, q');
    }
  }

  /** Dividing by 2 and then by p is dividing by 2p. */
  lemma DivTwice(a: nat, p: nat)
    requires p >= 1
    ensures (a / 2) / p == a / (2 * p)
  {
    var q := (a / 2) / p;
    var r := (a / 2) % p;
    assert a / 2 == p * q + r;
    assert a == (2 * p) * q + (2 * r + a % 2);
    DivUnique(a, 2 * p, q, 2 * r + a % 2);
  }

  /** Shifting by one more place doubles the shifted value. */
  lemma ShlSucc(b: nat, k: nat)
    ensures Shl(b, k + 1) == 2 * Shl(b, k)
  {
    assert Pow2(k + 1) == 2 * Pow2(k);
  }

  /**
   When a fits below bit k, or-ing it with b shifted left by k adds the two:
   the shifted value has no digit where a has one.
   */
  lemma {:induction false} OrDisjointIsAdd(a: nat, b: nat, k: nat)
    requires a < Pow2(k)
    ensures Or(a, Shl(b, k)) == a + Shl(b, k)
  {
    if k == 0 {
      assert a == 0;
    } else if a == 0 || b == 0 {
    } else {
      ShlSucc(b, k - 1);
      var h := Shl(b, k - 1);
      assert Shl(b, k) == 2 * h;
      assert Shl(b, k) / 2 == h && Shl(b, k) % 2 == 0;
      OrDisjointIsAdd(a / 2, b, k - 1);
    }
  }

  /**
   And-ing with the single-digit mask `1 << k` keeps exactly digit k of a:
   the result is the mask itself when that digit is 1 and 0 otherwise.
   */
  lemma {:induction false} AndMask(a: nat, k: nat)
    ensures And(a, Shl(1, k)) == Shl(Bit(a, k), k)
  {
    if k == 0 {
    } else {
      ShlSucc(1, k - 1);
      ShlSucc(Bit(a / 2, k - 1), k - 1);
      if a == 0 {
        BitIsBinary(a, k);
      } else {
        AndMask(a / 2, k - 1);
      }
    }
  }

  /** The mask test of the decoder: `a & (1 << k) != 0` holds iff digit k of a is 1. */
  lemma MaskTest(a: nat, k: nat)
    ensures And(a, Shl(1, k)) != 0 <==> Bit(a, k) == 1
  {
    AndMask(a, k);
    BitIsBinary(a, k);
  }

  /** Digit-wise view of `|`: a digit of the result is set iff it is set in either operand. */
  lemma {:induction false} OrDigits(a: nat, b: nat, i: nat)
    ensures Bit(Or(a, b), i) == 1 <==> Bit(a, i) == 1 || Bit(b, i) == 1
    decreases a + b
  {
    if a == 0 {
      BitIsBinary(a, i);
    } else if b == 0 {
      BitIsBinary(b, i);
    } else if i > 0 {
      OrDigits(a / 2, b / 2, i - 1);
    }
  }

  /** Digit-wise view of `&`: a digit of the result is set iff it is set in both operands. */
  lemma {:induction false} AndDigits(a: nat, b: nat, i: nat)
    ensures Bit(And(a, b), i) == 1 <==> Bit(a, i) == 1 && Bit(b, i) == 1
    decreases a + b
  {
    if a == 0 || b == 0 {
      BitIsBinary(0, i);
      BitIsBinary(a, i);
      BitIsBinary(b, i);
    } else if i > 0 {
      AndDigits(a / 2, b / 2, i - 1);
    }
  }
}
