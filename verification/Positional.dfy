/** Positional notation, most significant digit first: values, the minimal
    representation, its uniqueness, and comparison of powers of two bases. */
module Positional {
  import opened Bytes

  function Pow(b: nat, n: nat): (p: nat)
    ensures b > 0 ==> p > 0
  {
    if n == 0 then 1 else b * Pow(b, n - 1)
  }

  ghost predicate DigitsBelow(base: nat, ds: seq<nat>) {
    forall i :: 0 <= i < |ds| ==> ds[i] < base
  }

  function Value(base: nat, ds: seq<nat>): nat {
    if ds == [] then 0 else Value(base, ds[..|ds| - 1]) * base + ds[|ds| - 1]
  }

  /** The digits of `n` without leading zeros. */
  function Digits(base: nat, n: nat): (ds: seq<nat>)
    requires base > 1
    ensures DigitsBelow(base, ds)
    ensures ds != [] ==> ds[0] != 0
    ensures n > 0 ==> ds != []
    decreases n
  {
    if n == 0 then [] else
      DivShrinks(n, base);
      Digits(base, n / base) + [n % base]
  }

  lemma DivShrinks(n: nat, b: nat)
    requires n > 0 && b > 1
    ensures 0 <= n / b < n
    ensures n / b > 0 || n % b > 0
  {
    assert n == b * (n / b) + n % b;
    if n / b >= n {
      MulMono(b, n, n / b);
      MulMono(n, 2, b);
      assert false;
    }
  }

  lemma MulMono(a: nat, x: int, y: int)
    requires x <= y
    ensures a * x <= a * y && x * a <= y * a
  {
  }

  lemma MulCommutes(a: nat, b: nat)
    ensures a * b == b * a
  {
  }

  /** Dividing by the base recovers the parts a digit was appended to. */
  lemma DivModUnique(q: nat, r: nat, b: nat)
    requires r < b
    ensures (q * b + r) / b == q && (q * b + r) % b == r
  {
    var n := q * b + r;
    var q', r' := n / b, n % b;
    assert q' * b + r' == q * b + r;
    if q' < q {
      MulMono(b, q' + 1, q);
    } else if q < q' {
      MulMono(b, q + 1, q');
    }
  }

  lemma DivParts(out: nat, radix: nat)
    requires radix > 0
    ensures 0 <= out % radix < radix && 0 <= out / radix
    ensures (out / radix) * radix + out % radix == out
  {
  }

  lemma {:induction false} PowAdd(b: nat, m: nat, n: nat)
    ensures Pow(b, m + n) == Pow(b, m) * Pow(b, n)
  {
    if m == 0 {
    } else {
      PowAdd(b, m - 1, n);
      assert b * (Pow(b, m - 1) * Pow(b, n)) == b * Pow(b, m - 1) * Pow(b, n);
    }
  }

  lemma {:induction false} PowMul(b: nat, m: nat, n: nat)
    ensures Pow(Pow(b, m), n) == Pow(b, m * n)
  {
    if n == 0 {
      assert m * 0 == 0;
    } else {
      PowMul(b, m, n - 1);
      PowAdd(b, m, m * (n - 1));
      assert m + m * (n - 1) == m * n;
    }
  }

  lemma {:induction false} PowMono(b: nat, m: nat, n: nat)
    requires b > 0 && m <= n
    ensures Pow(b, m) <= Pow(b, n)
  {
    if m == n {
    } else {
      PowMono(b, m, n - 1);
      MulMono(Pow(b, n - 1), 1, b);
    }
  }

  lemma {:induction false} PowBaseMono(a: nat, b: nat, n: nat)
    requires a <= b
    ensures Pow(a, n) <= Pow(b, n)
    ensures a < b && n > 0 ==> Pow(a, n) < Pow(b, n)
  {
    if n == 0 {
    } else {
      PowBaseMono(a, b, n - 1);
      MulMono(a, Pow(a, n - 1), Pow(b, n - 1));
      MulMono(Pow(b, n - 1), a, b);
      if a < b {
        MulMono(Pow(b, n - 1), a + 1, b);
        assert (a + 1) * Pow(b, n - 1) == a * Pow(b, n - 1) + Pow(b, n - 1);
      }
    }
  }

  lemma PowSwap(b: nat, m: nat, p: nat)
    ensures Pow(Pow(b, m), p) == Pow(Pow(b, p), m)
  {
    PowMul(b, m, p);
    PowMul(b, p, m);
    MulCommutes(m, p);
  }

  lemma PowMulAs(b: nat, m: nat, n: nat, e: nat)
    requires e == m * n
    ensures Pow(Pow(b, m), n) == Pow(b, e)
  {
    PowMul(b, m, n);
  }

  lemma PowRatio(c: nat, q: nat, m: nat, n: nat, p: nat)
    requires c > 0 && q * m <= n * p
    ensures Pow(Pow(c, q), m) <= Pow(Pow(c, n), p)
  {
    var e, f := q * m, n * p;
    PowMulAs(c, q, m, e);
    PowMulAs(c, n, p, f);
    PowMono(c, e, f);
  }

  lemma RootMono(x: nat, y: nat, p: nat)
    requires p > 0 && Pow(x, p) <= Pow(y, p)
    ensures x <= y
  {
    if y < x {
      PowBaseMono(y, x, p);
    }
  }

  /** One small certificate `b^p <= c^q` orders all powers whose exponents are in that ratio. */
  lemma PowersCompare(b: nat, c: nat, p: nat, q: nat, m: nat, n: nat)
    requires b > 0 && c > 0 && p > 0
    requires Pow(b, p) <= Pow(c, q)
    requires q * m <= n * p
    ensures Pow(b, m) <= Pow(c, n)
  {
    PowSwap(b, m, p);
    PowBaseMono(Pow(b, p), Pow(c, q), m);
    PowRatio(c, q, m, n, p);
    RootMono(Pow(b, m), Pow(c, n), p);
  }

  lemma AppendBelow(base: nat, v: nat, d: nat, w: nat)
    requires d < base && v < w
    ensures v * base + d < base * w
  {
    MulMono(base, v + 1, w);
    assert (v + 1) * base == v * base + base;
  }

  lemma {:induction false} ValueBelow(base: nat, ds: seq<nat>)
    requires base > 0 && DigitsBelow(base, ds)
    ensures Value(base, ds) < Pow(base, |ds|)
  {
    if ds == [] {
    } else {
      var init := ds[..|ds| - 1];
      ValueBelow(base, init);
      AppendBelow(base, Value(base, init), ds[|ds| - 1], Pow(base, |init|));
    }
  }

  lemma ValueSnoc(base: nat, ds: seq<nat>, d: nat)
    ensures Value(base, ds + [d]) == Value(base, ds) * base + d
  {
    assert (ds + [d])[..|ds|] == ds;
  }

  /** A leading digit weighs `base^(remaining length)`. */
  lemma {:induction false} ValueCons(base: nat, d: nat, ds: seq<nat>)
    ensures Value(base, [d] + ds) == d * Pow(base, |ds|) + Value(base, ds)
  {
    if ds == [] {
      assert [d] + ds == [d];
      assert [d][..0] == [];
    } else {
      var n := |ds| - 1;
      assert ([d] + ds)[..n + 1] == [d] + ds[..n];
      ValueCons(base, d, ds[..n]);
      var w := Pow(base, n);
      assert (d * w + Value(base, ds[..n])) * base == d * (base * w) + Value(base, ds[..n]) * base;
    }
  }

  lemma {:induction false} DigitsValue(base: nat, n: nat)
    requires base > 1
    ensures Value(base, Digits(base, n)) == n
    decreases n
  {
    if n == 0 {
    } else {
      DivShrinks(n, base);
      DivParts(n, base);
      var q, r := n / base, n % base;
      DigitsValue(base, q);
      ValueSnoc(base, Digits(base, q), r);
    }
  }

  /** A representation without leading zero is the minimal one: positional notation is unique. */
  lemma {:induction false} DigitsUnique(base: nat, ds: seq<nat>)
    requires base > 1 && DigitsBelow(base, ds)
    requires ds == [] || ds[0] != 0
    ensures Digits(base, Value(base, ds)) == ds
  {
    if ds == [] {
    } else {
      var init, d := ds[..|ds| - 1], ds[|ds| - 1];
      DigitsUnique(base, init);
      DivModUnique(Value(base, init), d, base);
      assert ds == init + [d];
      MulMono(Value(base, init), 1, base);
      assert Value(base, ds) > 0;
    }
  }

  lemma {:induction false} ValueLeadingZeroes(base: nat, n: nat, ds: seq<nat>)
    ensures Value(base, Zeros(n) + ds) == Value(base, ds)
  {
    if n == 0 {
      assert Zeros(0) + ds == ds;
    } else {
      ValueLeadingZeroes(base, n - 1, ds);
      ValueCons(base, 0, Zeros(n - 1) + ds);
      assert [0] + (Zeros(n - 1) + ds) == Zeros(n) + ds;
    }
  }

  /** How many zeros lead `ds`. */
  function LeadingZeroes(ds: seq<nat>): (n: nat)
    ensures n <= |ds|
    ensures ds[..n] == Zeros(n)
    ensures n < |ds| ==> ds[n] != 0
  {
    if ds == [] || ds[0] != 0 then 0 else
      assert ds[1..][..LeadingZeroes(ds[1..])] == Zeros(LeadingZeroes(ds[1..]));
      1 + LeadingZeroes(ds[1..])
  }

  /** Skipping the leading zeros of a number leaves its minimal representation. */
  lemma SkipZeroes(base: nat, ds: seq<nat>, n: nat)
    requires base > 1 && DigitsBelow(base, ds)
    requires n <= |ds| && ds[..n] == Zeros(n) && (n < |ds| ==> ds[n] != 0)
    ensures ds[n..] == Digits(base, Value(base, ds))
  {
    assert ds == Zeros(n) + ds[n..];
    ValueLeadingZeroes(base, n, ds[n..]);
    DigitsUnique(base, ds[n..]);
  }

  lemma ValueAtLeast(base: nat, ds: seq<nat>)
    requires base > 0 && ds != [] && ds[0] != 0
    ensures Pow(base, |ds| - 1) <= Value(base, ds)
  {
    assert ds == [ds[0]] + ds[1..];
    ValueCons(base, ds[0], ds[1..]);
    MulMono(Pow(base, |ds| - 1), 1, ds[0]);
  }

  lemma DigitsAtMost(base: nat, n: nat, k: nat)
    requires base > 1 && n < Pow(base, k)
    ensures |Digits(base, n)| <= k
  {
    var ds := Digits(base, n);
    DigitsValue(base, n);
    if |ds| > k {
      PowMono(base, k, |ds| - 1);
      ValueAtLeast(base, ds);
    }
  }

  /** The length of the minimal representation is fixed by the powers around the value. */
  lemma DigitsLength(base: nat, n: nat, k: nat)
    requires base > 1 && Pow(base, k) <= n < Pow(base, k + 1)
    ensures |Digits(base, n)| == k + 1
  {
    var ds := Digits(base, n);
    DigitsValue(base, n);
    ValueBelow(base, ds);
    DigitsAtMost(base, n, k + 1);
    if |ds| <= k {
      PowMono(base, |ds|, k);
    }
  }
}
