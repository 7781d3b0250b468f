/**
 `ButtonState.__int__`: the button list read as one integer. The program sums
 `b << i` over the REVERSED list, so the last button is bit 0 and the first
 button is the most significant bit.
 */
module Buttons {
  import opened Bits

  /** A button slot holds 1 when pressed and 0 when released. */
  type Flag = b: int | 0 <= b <= 1

  function Reverse<T>(s: seq<T>): (r: seq<T>)
    ensures |r| == |s|
    ensures forall i :: 0 <= i < |s| ==> r[i] == s[|s| - 1 - i]
  {
    if s == [] then [] else Reverse(s[1..]) + [s[0]]
  }

  /** `sum(b << (k + j) for (j, b) in enumerate(s))`: the generator in `ButtonState.__int__` with its index starting at k. */
  function ShiftedSum(s: seq<Flag>, k: nat): nat
  {
    if s == [] then 0 else Shl(s[0], k) + ShiftedSum(s[1..], k + 1)
  }

  /**
   `int(ButtonState(b))`: the reversed list read least significant digit
   first, so it fits in one bit per button.
   */
  function ToInt(b: seq<Flag>): (r: nat)
    ensures r == LsbFirst(Reverse(b))
    ensures r < Pow2(|b|)
  {
    ShiftedSumScales(Reverse(b), 0);
    LsbFirstBound(Reverse(b));
    ShiftedSum(Reverse(b), 0)
  }

  /** Reference reading: the sum of `b[i] * 2^(|b|-1-i)`, first button most significant. */
  function MsbFirst(b: seq<Flag>): nat
  {
    if b == [] then 0 else b[0] * Pow2(|b| - 1) + MsbFirst(b[1..])
  }

  /** Binary digits read least significant first: s[0] + 2 * s[1] + 4 * s[2] + ... */
  function LsbFirst(s: seq<Flag>): nat
  {
    if s == [] then 0 else s[0] + 2 * LsbFirst(s[1..])
  }

  /** The i-th digit (least significant first) of n, for `len` digits, most significant first. */
  function FromInt(n: nat, len: nat): (b: seq<Flag>)
    ensures |b| == len
  {
    seq(len, i requires 0 <= i < len => BitFlag(n, len - 1 - i))
  }

  function BitFlag(n: nat, i: nat): Flag
  {
    BitIsBinary(n, i);
    Bit(n, i)
  }

  lemma {:induction false} ShiftedSumScales(s: seq<Flag>, k: nat)
    ensures ShiftedSum(s, k) == Pow2(k) * LsbFirst(s)
  {
    if s != [] {
      ShiftedSumScales(s[1..], k + 1);
      var p := Pow2(k);
      var l := LsbFirst(s[1..]);
      assert Pow2(k + 1) == 2 * p;
      assert ShiftedSum(s, k) == s[0] * p + (2 * p) * l;
      assert s[0] * p + (2 * p) * l == p * (s[0] + 2 * l);
    }
  }

  lemma {:induction false} LsbFirstAppend(s: seq<Flag>, x: Flag)
    ensures LsbFirst(s + [x]) == LsbFirst(s) + x * Pow2(|s|)
  {
    if s == [] {
      assert [] + [x] == [x];
    } else {
      assert (s + [x])[1..] == s[1..] + [x];
      LsbFirstAppend(s[1..], x);
    }
  }

  lemma {:induction false} LsbFirstBound(s: seq<Flag>)
    ensures LsbFirst(s) < Pow2(|s|)
  {
    if s != [] {
      LsbFirstBound(s[1..]);
    }
  }

  lemma {:induction false} LsbFirstZero(s: seq<Flag>)
    ensures LsbFirst(s) == 0 <==> forall i :: 0 <= i < |s| ==> s[i] == 0
  {
    if s != [] {
      LsbFirstZero(s[1..]);
      assert forall i :: 1 <= i < |s| ==> s[i] == s[1..][i - 1];
    }
  }

  lemma {:induction false} LsbFirstDigits(s: seq<Flag>, i: nat)
    requires i < |s|
    ensures Bit(LsbFirst(s), i) == s[i]
  {
    if i > 0 {
      LsbFirstDigits(s[1..], i - 1);
    }
  }

  lemma {:induction false} LsbFirstOfDigits(n: nat, s: seq<Flag>)
    requires n < Pow2(|s|)
    requires forall i :: 0 <= i < |s| ==> s[i] == Bit(n, i)
    ensures LsbFirst(s) == n
  {
    if s == [] {
    } else {
      assert Pow2(|s|) == 2 * Pow2(|s| - 1);
      forall i | 0 <= i < |s[1..]|
        ensures s[1..][i] == Bit(n / 2, i)
      {
        assert s[1..][i] == s[i + 1];
      }
      LsbFirstOfDigits(n / 2, s[1..]);
    }
  }

  /** The program's sum over the reversed list is the most-significant-first reading. */
  lemma {:induction false} ToIntIsMsbFirst(b: seq<Flag>)
    ensures ToInt(b) == MsbFirst(b)
  {
    if b != [] {
      ToIntIsMsbFirst(b[1..]);
      LsbFirstAppend(Reverse(b[1..]), b[0]);
    }
  }

  /** The integer view is 0 exactly when no button is pressed. */
  lemma ToIntZero(b: seq<Flag>)
    ensures ToInt(b) == 0 <==> forall i :: 0 <= i < |b| ==> b[i] == 0
  {
    var r := Reverse(b);
    LsbFirstZero(r);
    assert forall i :: 0 <= i < |b| ==> b[i] == r[|b| - 1 - i];
  }

  /** Button i is digit |b|-1-i of the integer view. */
  lemma ToIntDigits(b: seq<Flag>, i: nat)
    requires i < |b|
    ensures Bit(ToInt(b), |b| - 1 - i) == b[i]
  {
    LsbFirstDigits(Reverse(b), |b| - 1 - i);
  }

  /** Reading the digits of the integer view back gives the buttons. */
  lemma ToIntRoundTrip(b: seq<Flag>)
    ensures FromInt(ToInt(b), |b|) == b
  {
    forall i | 0 <= i < |b|
      ensures FromInt(ToInt(b), |b|)[i] == b[i]
    {
      ToIntDigits(b, i);
      assert FromInt(ToInt(b), |b|)[i] == BitFlag(ToInt(b), |b| - 1 - i);
    }
  }

  /** Every integer below 2^len is the integer view of its own `len` digits. */
  lemma FromIntRoundTrip(n: nat, len: nat)
    requires n < Pow2(len)
    ensures ToInt(FromInt(n, len)) == n
  {
    var b := FromInt(n, len);
    var r := Reverse(b);
    forall i | 0 <= i < |r|
      ensures r[i] == Bit(n, i)
    {
      assert r[i] == b[len - 1 - i] == BitFlag(n, i);
    }
    LsbFirstOfDigits(n, r);
  }

  lemma Examples()
    ensures ToInt([1, 0]) == 2
    ensures ToInt([0, 1]) == 1
    ensures ToInt([1, 1]) == 3
    ensures ToInt([0, 0]) == 0
  {
    ToIntIsMsbFirst([1, 0]);
    ToIntIsMsbFirst([0, 1]);
    ToIntIsMsbFirst([1, 1]);
    ToIntIsMsbFirst([0, 0]);
  }
}
