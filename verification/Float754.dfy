/** `pack754`/`unpack754` (util/pack.cpp) over exact reals: the layout of section 3.4 of
    IEEE 754-2008 without subnormals, infinities or NaN. */
module Float754 {
  import opened Bytes
  import opened Positional
  import opened Bits

  // ---------- powers of two of either sign ----------

  /** `x * 2^e`. */
  function Scale(x: real, e: int): real
    decreases if e < 0 then -e else e
  {
    if e == 0 then x else if e > 0 then Scale(x * 2.0, e - 1) else Scale(x / 2.0, e + 1)
  }

  lemma {:induction false} ScaleDouble(x: real, e: int)
    ensures Scale(x * 2.0, e) == Scale(x, e) * 2.0
    decreases if e < 0 then -e else e
  {
    if e > 0 {
      ScaleDouble(x * 2.0, e - 1);
    } else if e < 0 {
      ScaleDouble(x / 2.0, e + 1);
      assert x * 2.0 / 2.0 == x / 2.0 * 2.0;
    }
  }

  lemma ScaleNext(x: real, e: int)
    ensures Scale(x, e + 1) == Scale(x * 2.0, e)
  {
    if e < 0 {
      assert x * 2.0 / 2.0 == x;
    }
  }

  lemma {:induction false} ScaleOrder(x: real, y: real, e: int)
    requires x < y
    ensures Scale(x, e) < Scale(y, e)
    decreases if e < 0 then -e else e
  {
    if e > 0 {
      ScaleOrder(x * 2.0, y * 2.0, e - 1);
    } else if e < 0 {
      ScaleOrder(x / 2.0, y / 2.0, e + 1);
    }
  }

  lemma {:induction false} ScaleZero(e: int)
    ensures Scale(0.0, e) == 0.0
    decreases if e < 0 then -e else e
  {
    if e > 0 {
      ScaleZero(e - 1);
    } else if e < 0 {
      ScaleZero(e + 1);
    }
  }

  lemma {:induction false} OneGrows(a: int, b: int)
    requires a <= b
    ensures Scale(1.0, a) <= Scale(1.0, b)
    decreases b - a
  {
    if a < b {
      OneGrows(a, b - 1);
      ScaleNext(1.0, b - 1);
      ScaleOrder(1.0, 2.0, b - 1);
    }
  }

  /** Only one exponent puts the significand in [1, 2), so the normal form is unique. */
  lemma NormalUnique(m: real, e: int, n: real, d: int)
    requires 1.0 <= m < 2.0 && 1.0 <= n < 2.0
    requires Scale(m, e) == Scale(n, d)
    ensures m == n && e == d
  {
    if e < d {
      ExponentOrder(m, e, n, d);
    } else if d < e {
      ExponentOrder(n, d, m, e);
    } else if m < n {
      ScaleOrder(m, n, e);
    } else if n < m {
      ScaleOrder(n, m, e);
    }
  }

  lemma ExponentOrder(m: real, e: int, n: real, d: int)
    requires m < 2.0 && 1.0 <= n && e < d
    ensures Scale(m, e) < Scale(n, d)
  {
    ScaleOrder(m, 2.0, e);
    ScaleNext(1.0, e);
    OneGrows(e + 1, d);
    if 1.0 < n {
      ScaleOrder(1.0, n, d);
    }
  }

  // ---------- normalisation ----------

  /** A positive real brought into [1, 2): its significand and its exponent. */
  datatype Normal = Normal(m: real, e: int)

  function Normalize(x: real): (n: Normal)
    requires x > 0.0
    ensures 1.0 <= n.m < 2.0 && Scale(n.m, n.e) == x
    decreases if x >= 2.0 then x.Floor else if x < 1.0 then (1.0 / x).Floor else 0
  {
    if x >= 2.0 then
      var n := Normalize(x / 2.0);
      ScaleDouble(n.m, n.e);
      ScaleNext(n.m, n.e);
      Normal(n.m, n.e + 1)
    else if x < 1.0 then
      HalfInverse(x);
      var n := Normalize(x * 2.0);
      ScaleNext(n.m, n.e - 1);
      ScaleDouble(n.m, n.e - 1);
      Normal(n.m, n.e - 1)
    else Normal(x, 0)
  }

  lemma HalfInverse(x: real)
    requires 0.0 < x < 1.0
    ensures (1.0 / x).Floor > 0
    ensures x * 2.0 < 1.0 ==> (1.0 / (x * 2.0)).Floor < (1.0 / x).Floor
  {
    var y := 1.0 / x;
    assert y * x == 1.0;
    assert y > 1.0;
    assert 1.0 / (x * 2.0) == y / 2.0 by {
      assert (y / 2.0) * (x * 2.0) == 1.0;
    }
  }

  // ---------- the bit layout ----------

  /** The weights of a layout: `s` is 2 to the number of significand bits, and there are `2 * h` exponents. */
  datatype Weights = Weights(s: nat, h: nat) {
    predicate Valid() {
      s > 0 && h > 0
    }

    function E(): nat { 2 * h }

    function Bias(): int { h - 1 }
  }

  predicate ValidWidths(bits: nat, expbits: nat) {
    1 <= expbits && expbits + 1 <= bits <= 64
  }

  function Layout(bits: nat, expbits: nat): (l: Weights)
    requires ValidWidths(bits, expbits)
    ensures l.Valid()
  {
    Weights(Pow(2, bits - expbits - 1), Pow(2, expbits - 1))
  }

  lemma LayoutPowers(bits: nat, expbits: nat)
    requires ValidWidths(bits, expbits)
    ensures var l := Layout(bits, expbits);
            && Pow(2, expbits) == l.E()
            && Pow(2, bits - 1) == l.E() * l.s
            && Pow(2, bits) == 2 * (l.E() * l.s)
  {
    PowAdd(2, expbits, bits - expbits - 1);
  }

  /** Sign, biased exponent and significand fields, side by side. */
  function Join(sign: nat, exp: nat, sig: nat, e: nat, s: nat): nat {
    (sign * e + exp) * s + sig
  }

  lemma JoinFields(sign: nat, exp: nat, sig: nat, e: nat, s: nat)
    requires sign < 2 && exp < e && sig < s
    ensures var i := Join(sign, exp, sig, e, s);
            && i % s == sig && i / s % e == exp && i / (e * s) % 2 == sign && i < 2 * (e * s)
  {
    var i, hi := Join(sign, exp, sig, e, s), sign * e + exp;
    DivModUnique(hi, sig, s);
    DivModUnique(sign, exp, e);
    assert i == sign * (e * s) + (exp * s + sig);
    MulMono(s, exp + 1, e);
    DivModUnique(sign, exp * s + sig, e * s);
    MulMono(e * s, sign + 1, 2);
  }

  lemma JoinZero(sign: nat, exp: nat, sig: nat, e: nat, s: nat)
    requires e > 0 && s > 0
    ensures Join(sign, exp, sig, e, s) == 0 <==> sign == 0 && exp == 0 && sig == 0
  {
    MulMono(e, 0, sign);
    if sign * e + exp > 0 {
      MulMono(s, 1, sign * e + exp);
    }
    if sign > 0 {
      MulMono(e, 1, sign);
    }
  }

  lemma FieldsJoin(i: nat, e: nat, s: nat)
    requires e > 0 && s > 0 && i < 2 * (e * s)
    ensures e * s > 0 && 0 <= i / (e * s) % 2 < 2 && 0 <= i / s % e < e && 0 <= i % s < s
    ensures Join(i / (e * s) % 2, i / s % e, i % s, e, s) == i
  {
    MulMono(e, 1, s);
    DivParts(i, s);
    var hi, sig := i / s, i % s;
    DivParts(hi, e);
    var sign, exp := hi / e, hi % e;
    assert hi == sign * e + exp;
    if sign >= 2 {
      MulMono(e, 2, sign);
      MulMono(s, 2 * e, hi);
    }
    JoinFields(sign, exp, sig, e, s);
  }

  // ---------- unpack754 ----------

  datatype Fields = Fields(sign: nat, exp: nat, sig: nat) {
    predicate In(l: Weights) {
      sign < 2 && exp < l.E() && sig < l.s
    }
  }

  /** The three fields of a pattern, cut out by shifts and masks. */
  function Split(i: nat, l: Weights): (x: Fields)
    requires l.Valid() && i < 2 * (l.E() * l.s)
    ensures x.In(l) && Join(x.sign, x.exp, x.sig, l.E(), l.s) == i
  {
    FieldsJoin(i, l.E(), l.s);
    Fields(i / (l.E() * l.s) % 2, i / l.s % l.E(), i % l.s)
  }

  /** The real in normal form with these fields; every combination of fields stands for one. */
  function Assemble(x: Fields, l: Weights): real
    requires l.Valid()
  {
    var v := Scale(x.sig as real / l.s as real + 1.0, x.exp - l.Bias());
    if x.sign == 1 then -v else v
  }

  function Unpack754(i: nat, l: Weights): real
    requires l.Valid() && i < 2 * (l.E() * l.s)
  {
    if i == 0 then 0.0 else Assemble(Split(i, l), l)
  }

  /** The loops of the source: masks and shifts are written as `%` and `/` by powers of two. */
  method RunUnpack754(i: nat, bits: nat, expbits: nat) returns (result: real)
    requires ValidWidths(bits, expbits) && i < Pow(2, bits)
    ensures var l := Layout(bits, expbits); i < 2 * (l.E() * l.s) && result == Unpack754(i, l)
  {
    LayoutPowers(bits, expbits);
    var significandbits := bits - expbits - 1;
    if i == 0 { return 0.0; }
    ghost var x := Split(i, Layout(bits, expbits));
    result := (i % Pow(2, significandbits)) as real;
    result := result / Pow(2, significandbits) as real;
    result := result + 1.0;
    ghost var frac := result;
    var bias := Pow(2, expbits - 1) - 1;
    var shift := i / Pow(2, significandbits) % Pow(2, expbits) - bias;
    result := Shift(result, shift);
    result := result * if i / Pow(2, bits - 1) % 2 == 1 then -1.0 else 1.0;
  }

  /** The two exponent loops. */
  method Shift(frac: real, exponent: int) returns (result: real)
    ensures result == Scale(frac, exponent)
  {
    result := frac;
    var shift := exponent;
    while shift > 0
      invariant Scale(result, shift) == Scale(frac, exponent)
      invariant exponent >= 0 ==> shift >= 0
    {
      result := result * 2.0;
      shift := shift - 1;
    }
    while shift < 0
      invariant Scale(result, shift) == Scale(frac, exponent) && shift <= 0
    {
      result := result / 2.0;
      shift := shift + 1;
    }
  }

  // ---------- pack754 ----------

  function Abs(f: real): (a: real)
    ensures a >= 0.0
  {
    if f < 0.0 then -f else f
  }

  /** The biased exponent fits its field; outside of this the shifts of the source overlap fields. */
  predicate InRange(f: real, l: Weights) {
    f == 0.0 || 0 <= Normalize(Abs(f)).e + l.Bias() < l.E()
  }

  /** The fraction in units of the last place, half a unit per whole added, truncated. */
  function Significand(m: real, s: nat): int {
    ((m - 1.0) * (s as real + 0.5)).Floor
  }

  lemma SignificandBounds(m: real, s: nat)
    requires 1.0 <= m < 2.0 && s > 0
    ensures 0 <= Significand(m, s) <= s
  {
    var x, w := m - 1.0, s as real + 0.5;
    FactorBelow(x, w);
    FloorBelow(x * w, s);
  }

  lemma FactorBelow(x: real, w: real)
    requires 0.0 <= x < 1.0 && w > 0.0
    ensures 0.0 <= x * w < w
  {
    assert (1.0 - x) * w > 0.0;
  }

  lemma FloorBelow(y: real, s: nat)
    requires 0.0 <= y < s as real + 0.5
    ensures 0 <= y.Floor <= s
  {
  }

  /** The fields the OR of sign, exponent and significand leaves. A significand rounded up to
      `2^significandbits` lands on the lowest exponent bit, which the OR can only set: see `OrIsFields`. */
  function OrFields(sign: nat, exp: nat, sig: nat, s: nat): Fields {
    if sig < s then Fields(sign, exp, sig)
    else if exp % 2 == 0 then Fields(sign, exp + 1, 0)
    else Fields(sign, exp, 0)
  }

  function PackFields(f: real, l: Weights): (x: Fields)
    requires l.Valid() && f != 0.0 && InRange(f, l)
    ensures x.In(l)
  {
    var n := Normalize(Abs(f));
    SignificandBounds(n.m, l.s);
    OrFields(if f < 0.0 then 1 else 0, n.e + l.Bias(), Significand(n.m, l.s), l.s)
  }

  function Pack754(f: real, l: Weights): (i: nat)
    requires l.Valid() && InRange(f, l)
    ensures i < 2 * (l.E() * l.s)
  {
    MulMono(l.E(), 1, l.s);
    if f == 0.0 then 0 else
      var x := PackFields(f, l);
      JoinFields(x.sign, x.exp, x.sig, l.E(), l.s);
      Join(x.sign, x.exp, x.sig, l.E(), l.s)
  }

  /** Both normalisation loops end, with the one exponent that puts the number in [1, 2). */
  method RunNormalize(x: real) returns (fnorm: real, shift: int)
    requires x > 0.0
    ensures 1.0 <= fnorm < 2.0 && Scale(fnorm, shift) == x
    ensures Normal(fnorm, shift) == Normalize(x)
  {
    fnorm, shift := x, 0;
    while fnorm >= 2.0
      invariant fnorm > 0.0 && shift >= 0 && Scale(fnorm, shift) == x
      invariant shift > 0 ==> fnorm >= 1.0
      decreases fnorm.Floor
    {
      ScaleNext(fnorm / 2.0, shift);
      fnorm := fnorm / 2.0;
      shift := shift + 1;
    }
    while fnorm < 1.0
      invariant 0.0 < fnorm < 2.0 && Scale(fnorm, shift) == x
      decreases if fnorm < 1.0 then (1.0 / fnorm).Floor else 0
    {
      HalfInverse(fnorm);
      ScaleNext(fnorm, shift - 1);
      fnorm := fnorm * 2.0;
      shift := shift - 1;
    }
    NormalUnique(fnorm, shift, Normalize(x).m, Normalize(x).e);
  }

  /** The binary form of the significand data. */
  method RunSignificand(m: real, s: nat) returns (significand: int)
    requires 1.0 <= m < 2.0 && s > 0
    ensures significand == Significand(m, s) && 0 <= significand <= s
  {
    var fnorm := m - 1.0;
    significand := (fnorm * (s as real + 0.5)).Floor;
    SignificandBounds(m, s);
  }

  /** `unsigned long long` holds what the shifts and the OR leave in 64 bits. */
  const WORD := 0x1_0000_0000_0000_0000

  function BiasedExponent(f: real, l: Weights): int
    requires f != 0.0
  {
    Normalize(Abs(f)).e + l.Bias()
  }

  /** What is returned for any real, whether or not its exponent fits its field: sign, exponent (in
      two's complement if it is negative) and significand, each shifted to its place and ORed. */
  function Pattern(f: real, bits: nat, expbits: nat): nat
    requires ValidWidths(bits, expbits)
  {
    if f == 0.0 then 0 else
      var l := Layout(bits, expbits);
      var sign, exp, m := if f < 0.0 then 1 else 0, BiasedExponent(f, l), Normalize(Abs(f)).m;
      SignificandBounds(m, l.s);
      Or(Or(sign * Pow(2, bits - 1), exp * l.s % WORD), Significand(m, l.s))
  }

  method RunPack754(f: real, bits: nat, expbits: nat) returns (r: nat)
    requires ValidWidths(bits, expbits)
    ensures r == Pattern(f, bits, expbits)
  {
    if f == 0.0 { return 0; }
    var significandbits := bits - expbits - 1;
    var sign := if f < 0.0 then 1 else 0;
    var fnorm, shift := RunNormalize(if f < 0.0 then -f else f);
    ghost var n := Normal(fnorm, shift);
    assert Normalize(Abs(f)) == n;
    var significand := RunSignificand(fnorm, Pow(2, significandbits));
    var exp := shift + (Pow(2, expbits - 1) - 1);
    r := Or(Or(sign * Pow(2, bits - 1), exp * Pow(2, significandbits) % WORD), significand);
  }

  /** OR-ing the fields: sign and exponent lie side by side, and so does a significand that fits; one
      that rounded up meets the lowest exponent bit. */
  lemma OrIsFields(sign: nat, exp: nat, sig: nat, bits: nat, expbits: nat)
    requires ValidWidths(bits, expbits)
    requires sign < 2 && exp < Layout(bits, expbits).E() && sig <= Layout(bits, expbits).s
    ensures var l := Layout(bits, expbits);
            var x := OrFields(sign, exp, sig, l.s);
            Or(Or(sign * Pow(2, bits - 1), exp * l.s), sig) == Join(x.sign, x.exp, x.sig, l.E(), l.s)
  {
    hide Or, Pow;
    var l, k := Layout(bits, expbits), bits - expbits - 1;
    LayoutPowers(bits, expbits);
    var hi := sign * l.E() + exp;
    SideBySide(sign, exp, l);
    OrDisjoint(sign, exp * l.s, bits - 1);
    if sig < l.s {
      OrDisjoint(hi, sig, k);
    } else {
      OrShifted(hi, 1, k);
      OrOne(hi);
    }
  }

  lemma SideBySide(sign: nat, exp: nat, l: Weights)
    requires l.Valid() && exp < l.E()
    ensures exp * l.s < l.E() * l.s
    ensures sign * (l.E() * l.s) + exp * l.s == (sign * l.E() + exp) * l.s
    ensures (sign * l.E() + exp) % 2 == exp % 2
  {
    MulMono(l.s, exp + 1, l.E());
    Parity(sign * l.h, exp);
    assert sign * l.E() == 2 * (sign * l.h);
  }

  lemma Parity(x: nat, y: nat)
    ensures (2 * x + y) % 2 == y % 2
  {
  }

  /** When the exponent fits, the pattern is that of the fields. */
  lemma PatternInRange(f: real, bits: nat, expbits: nat)
    requires ValidWidths(bits, expbits) && InRange(f, Layout(bits, expbits))
    ensures Pattern(f, bits, expbits) == Pack754(f, Layout(bits, expbits))
  {
    if f != 0.0 {
      hide Or, Normalize, Significand, OrFields, Pow;
      var l := Layout(bits, expbits);
      var sign, exp, m := if f < 0.0 then 1 else 0, BiasedExponent(f, l), Normalize(Abs(f)).m;
      SignificandBounds(m, l.s);
      ExponentInWord(exp, bits, expbits);
      OrIsFields(sign, exp, Significand(m, l.s), bits, expbits);
    }
  }

  /** A shifted exponent that fits its field is well within the word. */
  lemma ExponentInWord(exp: nat, bits: nat, expbits: nat)
    requires ValidWidths(bits, expbits) && exp < Layout(bits, expbits).E()
    ensures exp * Layout(bits, expbits).s % WORD == exp * Layout(bits, expbits).s
  {
    hide Pow;
    LayoutPowers(bits, expbits);
    SideBySide(0, exp, Layout(bits, expbits));
    PowMono(2, bits - 1, 63);
    Power63();
  }

  lemma Power63()
    ensures Pow(2, 63) == 0x8000_0000_0000_0000
  {
    assert Pow(2, 7) == 128;
    PowAdd(2, 7, 7);
    PowAdd(2, 14, 14);
    PowAdd(2, 28, 28);
    PowAdd(2, 56, 7);
  }

  // ---------- round trips ----------

  /** An exact significand is recovered in spite of the half added before truncation. */
  lemma SignificandExact(sig: nat, s: nat)
    requires sig < s
    ensures 1.0 <= sig as real / s as real + 1.0 < 2.0
    ensures Significand(sig as real / s as real + 1.0, s) == sig
  {
    var x := sig as real / s as real;
    assert x * s as real == sig as real;
    assert x * (s as real + 0.5) == sig as real + x * 0.5;
  }

  lemma AssembleNormal(x: Fields, l: Weights)
    requires l.Valid() && x.In(l)
    ensures var f := Assemble(x, l);
            && f != 0.0 && (f < 0.0 <==> x.sign == 1)
            && Normalize(Abs(f)) == Normal(x.sig as real / l.s as real + 1.0, x.exp - l.Bias())
  {
    SignificandExact(x.sig, l.s);
    var m, e := x.sig as real / l.s as real + 1.0, x.exp - l.Bias();
    ScaleZero(e);
    ScaleOrder(0.0, m, e);
    var f := Assemble(x, l);
    assert Abs(f) == Scale(m, e);
    NormalUnique(m, e, Normalize(Abs(f)).m, Normalize(Abs(f)).e);
  }

  lemma PackAssemble(x: Fields, l: Weights)
    requires l.Valid() && x.In(l)
    ensures var f := Assemble(x, l); f != 0.0 && InRange(f, l) && PackFields(f, l) == x
  {
    AssembleNormal(x, l);
    SignificandExact(x.sig, l.s);
  }

  /** Packing what was unpacked gives the same bits, for every bit pattern. */
  lemma PackUnpack(i: nat, l: Weights)
    requires l.Valid() && i < 2 * (l.E() * l.s)
    ensures InRange(Unpack754(i, l), l) && Pack754(Unpack754(i, l), l) == i
  {
    if i != 0 {
      PackAssemble(Split(i, l), l);
    }
  }

  /** A significand in units of its last place. */
  function Units(m: real, s: nat): real {
    (m - 1.0) * s as real
  }

  /** The reals the layout represents: zero, and an exponent in range with a significand that is
      a whole number of last-place units -- except the least positive one, whose pattern is all zeros. */
  predicate Representable(f: real, l: Weights)
    requires l.Valid()
  {
    f == 0.0 ||
    (var n := Normalize(Abs(f));
     && InRange(f, l)
     && Units(n.m, l.s) == Units(n.m, l.s).Floor as real
     && !(f > 0.0 && n.m == 1.0 && n.e + l.Bias() == 0))
  }

  /** A real in range survives exactly when it is representable. */
  lemma UnpackPack(f: real, l: Weights)
    requires l.Valid() && InRange(f, l)
    ensures Unpack754(Pack754(f, l), l) == f <==> Representable(f, l)
  {
    if f != 0.0 {
      var i := Pack754(f, l);
      if Representable(f, l) {
        PackRepresentable(f, l);
      }
      if Unpack754(i, l) == f {
        UnpackRepresentable(i, l);
      }
    }
  }

  lemma PackRepresentable(f: real, l: Weights)
    requires l.Valid() && f != 0.0 && Representable(f, l)
    ensures Unpack754(Pack754(f, l), l) == f
  {
    var n := Normalize(Abs(f));
    var sig := Units(n.m, l.s).Floor;
    WholeUnits(n.m, l.s, sig);
    SignificandExact(sig, l.s);
    var x := Fields(if f < 0.0 then 1 else 0, n.e + l.Bias(), sig);
    assert PackFields(f, l) == x;
    assert Assemble(x, l) == f;
    JoinFields(x.sign, x.exp, x.sig, l.E(), l.s);
    assert Split(Pack754(f, l), l) == x;
    JoinZero(x.sign, x.exp, x.sig, l.E(), l.s);
  }

  lemma WholeUnits(m: real, s: nat, sig: int)
    requires 1.0 <= m < 2.0 && s > 0 && Units(m, s) == sig as real
    ensures 0 <= sig < s && sig as real / s as real + 1.0 == m
  {
    var x, w := m - 1.0, s as real;
    UnitsBound(x, w, sig, s);
    DivideBack(x, w, sig as real);
  }

  lemma UnitsBound(x: real, w: real, sig: int, s: nat)
    requires 0.0 <= x < 1.0 && w > 0.0 && w == s as real && x * w == sig as real
    ensures 0 <= sig < s
  {
    FactorBelow(x, w);
    IntOrder(sig, s);
  }

  lemma IntOrder(a: int, b: int)
    requires 0.0 <= a as real < b as real
    ensures 0 <= a < b
  {
  }

  lemma DivideBack(x: real, w: real, y: real)
    requires w > 0.0 && x * w == y
    ensures y / w == x
  {
  }

  lemma WholeSignificand(sig: nat, s: nat)
    requires sig < s
    ensures Units(sig as real / s as real + 1.0, s) == sig as real
    ensures sig as real / s as real == 0.0 ==> sig == 0
  {
    assert sig as real / s as real * s as real == sig as real;
  }

  lemma UnpackRepresentable(i: nat, l: Weights)
    requires l.Valid() && 0 < i < 2 * (l.E() * l.s)
    ensures Representable(Unpack754(i, l), l)
  {
    var x := Split(i, l);
    AssembleNormal(x, l);
    WholeSignificand(x.sig, l.s);
    JoinZero(x.sign, x.exp, x.sig, l.E(), l.s);
  }

  // ---------- rounding ----------

  lemma {:induction false} ScaleLinear(x: real, e: int)
    ensures Scale(x, e) == x * Scale(1.0, e)
    decreases if e < 0 then -e else e
  {
    if e > 0 {
      ScaleLinear(x * 2.0, e - 1);
      ScaleLinear(2.0, e - 1);
    } else if e < 0 {
      ScaleLinear(x / 2.0, e + 1);
      ScaleLinear(0.5, e + 1);
    }
  }

  /** Truncating after adding half a unit per unit lands less than one unit away. */
  lemma SignificandError(m: real, s: nat)
    requires 1.0 <= m < 2.0 && s > 0
    ensures -1.0 < Significand(m, s) as real - Units(m, s) < 1.0
  {
    HalfAdded(m - 1.0, s as real, Significand(m, s));
  }

  lemma HalfAdded(x: real, w: real, sig: int)
    requires 0.0 <= x < 1.0 && sig == (x * (w + 0.5)).Floor
    ensures -1.0 < sig as real - x * w < 1.0
  {
    assert x * (w + 0.5) == x * w + x * 0.5;
  }

  /** The OR loses a carry exactly here: rounding reached the next power of two from an odd exponent. */
  predicate CarryLost(f: real, l: Weights)
    requires l.Valid() && f != 0.0
  {
    var n := Normalize(Abs(f));
    Significand(n.m, l.s) == l.s && (n.e + l.Bias()) % 2 == 1
  }

  /** The significand that comes back, in the unit of the exponent of `f`: 0 stands for the
      all-zero pattern, 2 for the next exponent. */
  function Recovered(f: real, l: Weights): real
    requires l.Valid() && f != 0.0 && InRange(f, l)
  {
    var sig := Significand(Normalize(Abs(f)).m, l.s);
    if Pack754(f, l) == 0 then 0.0
    else if sig < l.s then sig as real / l.s as real + 1.0
    else if CarryLost(f, l) then 1.0
    else 2.0
  }

  lemma FieldsValue(f: real, l: Weights)
    requires l.Valid() && f != 0.0 && InRange(f, l) && Pack754(f, l) != 0
    ensures var x := PackFields(f, l);
            Scale(x.sig as real / l.s as real + 1.0, x.exp - l.Bias())
            == Scale(Recovered(f, l), Normalize(Abs(f)).e)
  {
    var n, x := Normalize(Abs(f)), PackFields(f, l);
    SignificandBounds(n.m, l.s);
    if Significand(n.m, l.s) == l.s {
      assert x.sig as real / l.s as real + 1.0 == 1.0;
      ScaleNext(1.0, n.e);
    }
  }

  /** How far a significand is from `m`, in units of the last place. */
  function Offset(back: real, m: real, s: nat): real {
    (back - m) * s as real
  }

  /** Packing and unpacking any real in range replaces its significand `m` by one less than a unit
      in the last place (`1 / 2^significandbits`) away, unless the OR loses the carry or the
      pattern is that of zero: then it is at least a unit away. */
  lemma PackAccuracy(f: real, l: Weights)
    requires l.Valid() && l.s >= 2 && f != 0.0 && InRange(f, l)
    ensures var v := Scale(Recovered(f, l), Normalize(Abs(f)).e);
            Unpack754(Pack754(f, l), l) == if f < 0.0 then -v else v
    ensures Abs(Offset(Recovered(f, l), Normalize(Abs(f)).m, l.s)) < 1.0
            <==> !CarryLost(f, l) && Pack754(f, l) != 0
  {
    var x := PackFields(f, l);
    JoinFields(x.sign, x.exp, x.sig, l.E(), l.s);
    if Pack754(f, l) == 0 {
      ScaleZero(Normalize(Abs(f)).e);
    } else {
      assert Split(Pack754(f, l), l) == x;
      FieldsValue(f, l);
    }
    RecoveredNear(f, l);
  }

  lemma RecoveredNear(f: real, l: Weights)
    requires l.Valid() && l.s >= 2 && f != 0.0 && InRange(f, l)
    ensures Abs(Offset(Recovered(f, l), Normalize(Abs(f)).m, l.s)) < 1.0
            <==> !CarryLost(f, l) && Pack754(f, l) != 0
  {
    var m := Normalize(Abs(f)).m;
    var sig := Significand(m, l.s);
    SignificandBounds(m, l.s);
    SignificandError(m, l.s);
    OffsetValues(m, l.s, sig);
  }

  lemma OffsetValues(m: real, s: nat, sig: nat)
    requires m >= 1.0 && s >= 2
    ensures Offset(0.0, m, s) <= -2.0
    ensures Offset(sig as real / s as real + 1.0, m, s) == sig as real - Units(m, s)
    ensures Offset(1.0, m, s) == 0.0 - Units(m, s)
    ensures Offset(2.0, m, s) == s as real - Units(m, s)
  {
    var q := s as real;
    OffsetFrom(-1.0, m, q);
    OffsetFrom(0.0, m, q);
    OffsetFrom(1.0, m, q);
    OffsetFrom(sig as real / q, m, q);
    assert sig as real / q * q == sig as real;
    assert (m - 1.0) * q >= 0.0;
  }

  lemma OffsetFrom(r: real, m: real, q: real)
    ensures (r + 1.0 - m) * q == r * q - (m - 1.0) * q
  {
  }

  /** A real whose carry is lost: with ten significand and five exponent bits 1.9999 comes back as 1. */
  lemma CarryLostExample(f: real, l: Weights)
    requires f == 1.9999 && l == Weights(1024, 16)
    ensures InRange(f, l) && CarryLost(f, l) && Unpack754(Pack754(f, l), l) == 1.0
  {
    hide Unpack754, Join;
    assert Normalize(Abs(f)) == Normal(f, 0);
    assert Significand(f, 1024) == 1024;
    var x := PackFields(f, l);
    JoinZero(x.sign, x.exp, x.sig, l.E(), l.s);
    PackAccuracy(f, l);
  }
}
