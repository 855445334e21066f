/** Double hashing modulo a power of two: an odd step visits every slot. */
module Probing {
  import opened Arithmetic

  function Pow2(n: nat): (r: nat)
    ensures r > 0
  {
    if n == 0 then 1 else 2 * Pow2(n - 1)
  }

  lemma {:induction false} Pow2Step(n: nat)
    ensures Pow2(n) == if n == 0 then 1 else 2 * Pow2(n - 1)
  {
  }

  lemma {:induction false} Pow2Grows(m: nat, n: nat)
    requires m <= n
    ensures Pow2(m) <= Pow2(n) && (m < n ==> 2 * Pow2(m) <= Pow2(n))
    decreases n
  {
    if m < n {
      Pow2Step(n);
      Pow2Grows(m, n - 1);
    }
  }

  type Word = x: nat | x < 0x1_0000_0000

  // SECOND_HASH: the bits above the index, at most a quarter of the table.
  function Second(h: Word, power: nat): (r: nat)
    requires power >= 2
    ensures r < Pow2(power - 2)
  {
    ((h - h % Pow2(power)) / Pow2(power - 1)) % Pow2(power - 2)
  }

  function MakeOdd(x: nat): nat {
    if x % 2 == 0 then x + 1 else x
  }

  // PROBE_STEP: made odd and cut to a byte.
  function Step(h: Word, power: nat): (r: nat)
    requires power >= 2
  {
    MakeOdd(Second(h, power)) % 256
  }

  // The slot that the k-th probe looks at.
  function Slot(h: Word, power: nat, k: nat): (r: nat)
    requires power >= 2
    ensures r < Pow2(power)
  {
    (h % Pow2(power) - k * Step(h, power)) % Pow2(power)
  }

  lemma {:induction false} StepIsOdd(h: Word, power: nat)
    requires power >= 3
    ensures Step(h, power) % 2 == 1 && Step(h, power) < Pow2(power)
  {
    hide Pow2, Second, MakeOdd;
    Pow2Step(power);
    Pow2Step(power - 1);
    Pow2Step(power - 2);
    var second := Second(h, power);
    OddByte(second, Pow2(power - 3));
  }

  lemma {:induction false} OddByte(second: nat, half: nat)
    requires second < 2 * half
    ensures (MakeOdd(second) % 256) % 2 == 1 && MakeOdd(second) % 256 <= 2 * half
  {
    CutToByte(MakeOdd(second));
  }

  lemma {:induction false} CutToByte(x: nat)
    ensures x % 256 <= x && (x % 256) % 2 == x % 2
  {
  }

  lemma {:induction false} OddFactorCancels(d: nat, s: nat, power: nat, q: int)
    requires s % 2 == 1 && d * s == Pow2(power) * q
    ensures d % Pow2(power) == 0
    decreases power
  {
    hide Pow2;
    Pow2Step(power);
    if power == 0 {
    } else {
      var half := Pow2(power - 1);
      Twice(half, q);
      ProductParity(d, s, half * q);
      var e := d / 2;
      Twice(e, s);
      OddFactorCancels(e, s, power - 1, q);
      DivMod(e, half);
      Twice(half, e / half);
      DivModIs(d, Pow2(power), e / half, 0);
    }
  }

  lemma {:induction false} Twice(a: int, b: int)
    ensures (2 * a) * b == 2 * (a * b)
  {
  }

  lemma {:induction false} ProductParity(d: nat, s: nat, t: int)
    requires s % 2 == 1 && d * s == 2 * t
    ensures d % 2 == 0
  {
    if d % 2 == 1 {
      var a, b := d / 2, s / 2;
      assert d == 2 * a + 1 && s == 2 * b + 1;
      OddProduct(a, b);
    }
  }

  lemma {:induction false} OddProduct(a: int, b: int)
    ensures (2 * a + 1) * (2 * b + 1) == 2 * (2 * (a * b) + a + b) + 1
  {
  }

  /** No slot is probed twice before all have been probed. */
  lemma {:induction false} SlotsDistinct(h: Word, power: nat, j: nat, k: nat)
    requires power >= 3 && j < k && k - j < Pow2(power)
    ensures Slot(h, power, j) != Slot(h, power, k)
  {
    hide Pow2, Step;
    var m, s := Pow2(power), Step(h, power);
    StepIsOdd(h, power);
    var a, b := h % m - j * s, h % m - k * s;
    if a % m == b % m {
      DivMod(a, m);
      DivMod(b, m);
      Distribute(s, k, j);
      Distribute(m, a / m, b / m);
      OddFactorCancels(k - j, s, power, a / m - b / m);
      DivModIs(k - j, m, 0, k - j);
    }
  }

  // The decrement that the loops make.
  lemma {:induction false} NextSlot(h: Word, power: nat, k: nat)
    requires power >= 3
    ensures var i, s := Slot(h, power, k), Step(h, power);
            Slot(h, power, k + 1) == if i < s then i + Pow2(power) - s else i - s
  {
    hide Pow2, Step;
    var m, s, i := Pow2(power), Step(h, power), Slot(h, power, k);
    StepIsOdd(h, power);
    var a := h % m - k * s;
    DivMod(a, m);
    Distribute(s, k, 1);
    Distribute(m, a / m, 1);
    if i < s {
      DivModIs(a - s, m, a / m - 1, i + m - s);
    } else {
      DivModIs(a - s, m, a / m, i - s);
    }
  }

  lemma {:induction false} FirstSlot(h: Word, power: nat)
    requires power >= 2
    ensures Slot(h, power, 0) == h % Pow2(power)
  {
    hide Pow2, Step;
    DivMod(h, Pow2(power));
    DivModIs(h % Pow2(power), Pow2(power), 0, h % Pow2(power));
  }
}
