/** Bitwise OR of naturals, and what it does to fields laid side by side or over each other. */
module Bits {
  import opened Positional

  function Or(a: nat, b: nat): nat
    decreases a + b
  {
    if a == 0 && b == 0 then 0 else 2 * Or(a / 2, b / 2) + if a % 2 == 1 || b % 2 == 1 then 1 else 0
  }

  predicate Bit(n: nat, i: nat) {
    if i == 0 then n % 2 == 1 else Bit(n / 2, i - 1)
  }

  lemma Halves(q: nat, r: nat)
    requires r < 2
    ensures (2 * q + r) / 2 == q && (2 * q + r) % 2 == r
  {
  }

  /** The name is right: a bit is set exactly when it is set on either side. */
  lemma {:induction false} OrBit(a: nat, b: nat, i: nat)
    ensures Bit(Or(a, b), i) <==> Bit(a, i) || Bit(b, i)
    decreases i
  {
    var low := if a % 2 == 1 || b % 2 == 1 then 1 else 0;
    Halves(Or(a / 2, b / 2), low);
    assert Or(a, b) == 2 * Or(a / 2, b / 2) + low;
    if i > 0 {
      hide Or;
      OrBit(a / 2, b / 2, i - 1);
    }
  }

  lemma {:induction false} OrZero(a: nat)
    ensures Or(a, 0) == a
  {
    if a > 0 { OrZero(a / 2); }
  }

  lemma OrDouble(x: nat, y: nat, r: nat)
    requires r < 2
    ensures Or(2 * x, 2 * y + r) == 2 * Or(x, y) + r
  {
    Halves(x, 0);
    Halves(y, r);
  }

  lemma PowDouble(a: nat, k: nat)
    requires k > 0
    ensures a * Pow(2, k) == 2 * (a * Pow(2, k - 1))
  {
  }

  /** OR of fields that do not overlap is their sum. */
  lemma {:induction false} OrDisjoint(a: nat, b: nat, k: nat)
    requires b < Pow(2, k)
    ensures Or(a * Pow(2, k), b) == a * Pow(2, k) + b
    decreases k
  {
    if k == 0 {
      OrZero(a);
    } else {
      hide Or;
      PowDouble(a, k);
      OrDisjoint(a, b / 2, k - 1);
      OrDouble(a * Pow(2, k - 1), b / 2, b % 2);
    }
  }

  lemma {:induction false} OrShifted(a: nat, b: nat, k: nat)
    ensures Or(a * Pow(2, k), b * Pow(2, k)) == Or(a, b) * Pow(2, k)
    decreases k
  {
    hide Or;
    if k > 0 {
      PowDouble(a, k);
      PowDouble(b, k);
      PowDouble(Or(a, b), k);
      OrShifted(a, b, k - 1);
      OrDouble(a * Pow(2, k - 1), b * Pow(2, k - 1), 0);
    }
  }

  /** The lowest bit is set; nothing is carried. */
  lemma OrOne(a: nat)
    ensures Or(a, 1) == if a % 2 == 0 then a + 1 else a
  {
    OrZero(a / 2);
  }

  /** The low `k` bits of a number are its own. */
  lemma {:induction false} BitMod(n: nat, k: nat, i: nat)
    requires i < k
    ensures Bit(n % Pow(2, k), i) <==> Bit(n, i)
    decreases i
  {
    var p := Pow(2, k - 1);
    PowDouble(1, k);
    DivParts(n / 2, p);
    Halves((n / 2) % p, n % 2);
    DivModUnique((n / 2) / p, 2 * ((n / 2) % p) + n % 2, 2 * p);
    assert n == 2 * (n / 2) + n % 2;
    HalfMod(n, p);
    if i > 0 {
      BitMod(n / 2, k - 1, i - 1);
    }
  }

  lemma HalfMod(n: nat, p: nat)
    requires p > 0
    ensures n % (2 * p) == 2 * ((n / 2) % p) + n % 2
  {
    var h := n / 2;
    DivParts(h, p);
    var q, r := h / p, h % p;
    assert n == q * (2 * p) + (2 * r + n % 2) by { assert n == 2 * (q * p + r) + n % 2; }
    DivModUnique(q, 2 * r + n % 2, 2 * p);
  }
}
