/** What each format character carries (the table in util/pack.h), and string limits. */
module Formats {
  import opened Bytes
  import opened Positional
  import opened Integers
  import opened Bits
  import opened Float754
  import opened Pack

  lemma OneItem(ch: char, it: Item, v: Value)
    requires ItemOf(ch) == Some(it) && it.Takes(v)
    ensures Matching([ch], [v]) && PackBytes([ch], [v]) == ItemBytes(it, v)
    ensures var x, n := ReadItem(it, 0, ItemBytes(it, v)), |ItemBytes(it, v)|;
            Faithful([ch], [v]) <==> x.Some? && x.value.value == v && x.value.size == n
  {
    hide ReadItem, ItemBytes;
    assert [ch][1..] == [] && [v][1..] == [];
    FirstItem([ch], 0, it, v, []);
    assert ItemBytes(it, v) + [] == ItemBytes(it, v) && [v] + [] == [v];
    var x := ReadItem(it, 0, ItemBytes(it, v));
    if x.Some? {
      UnpackItem([ch], 0, it, ItemBytes(it, v), x.value.value, x.value.advance, x.value.size, Reading([], 0));
      assert [x.value.value] + [] == [x.value.value];
      assert [x.value.value][0] == x.value.value && [v][0] == v;
    }
  }

  lemma SignedBytes(w: nat, b: seq<byte>)
    requires w in {2, 4, 8} && |b| == w
    ensures ReadItem(Signed(w), 0, b) == Some(ItemRead(Int(Resign(w, Unsigned(b))), w, w))
  {
    hide Resign, Unsigned;
    assert b[..w] == b;
  }

  lemma SignedItemIff(w: nat, n: int)
    requires w in {1, 2, 4, 8}
    ensures var b := ItemBytes(Signed(w), Int(n));
            var x := ReadItem(Signed(w), 0, b);
            && b == BigEndian(w, n) && x.Some? && x.value.size == w
            && (x.value.value == Int(n) <==> -(Modulus(w) / 2) <= n < Modulus(w) / 2)
  {
    hide Resign, Unsigned, BigEndian;
    SignedSurvives(w, n);
    if w == 1 {
      CharItemIff(n);
    } else {
      hide ReadItem;
      SignedBytes(w, BigEndian(w, n));
    }
  }

  lemma CharItemIff(n: int)
    ensures var b := ItemBytes(Signed(1), Int(n));
            var x := ReadItem(Signed(1), 0, b);
            b == BigEndian(1, n) && x.Some? && x.value.size == 1 && (x.value.value == Int(n) <==> -128 <= n < 128)
  {
    ByteRead(n);
    var b := [n % 256];
    assert b[..1] == b;
  }

  lemma NaturalBytes(w: nat, b: seq<byte>)
    requires w in {1, 2, 4, 8} && |b| == w
    ensures ReadItem(Natural(w), 0, b) == Some(ItemRead(Int(Unsigned(b)), w, w))
  {
    hide Unsigned;
    assert b[..w] == b;
  }

  lemma NaturalItemIff(w: nat, n: int)
    requires w in {1, 2, 4, 8}
    ensures var b := ItemBytes(Natural(w), Int(n));
            var x := ReadItem(Natural(w), 0, b);
            && b == BigEndian(w, n) && x.Some? && x.value.size == w
            && (x.value.value == Int(n) <==> 0 <= n < Modulus(w))
  {
    hide ReadItem, Unsigned, BigEndian;
    UnsignedSurvives(w, n);
    NaturalBytes(w, BigEndian(w, n));
  }

  /** The numbers a character is for. */
  predicate Carries(ch: char, n: int) {
    match ch
    case 'B' => n == 0 || n == 1
    case 'c' => -0x80 <= n < 0x80
    case 'C' => 0 <= n < 0x100
    case 'h' => -0x8000 <= n < 0x8000
    case 'H' => 0 <= n < 0x1_0000
    case 'l' => -0x8000_0000 <= n < 0x8000_0000
    case 'L' => 0 <= n < 0x1_0000_0000
    case 'q' => -0x8000_0000_0000_0000 <= n < 0x8000_0000_0000_0000
    case 'Q' => 0 <= n < 0x1_0000_0000_0000_0000
    case _ => false
  }

  function Width(ch: char): nat {
    if ch in "BcC" then 1 else if ch in "hHf" then 2 else if ch in "lLd" then 4 else 8
  }

  /** Each character of an integer stores its low bytes, and carries exactly the numbers it is for. */
  lemma IntegerTable(ch: char, n: int)
    requires ch in "BcChHlLqQ"
    ensures Matching([ch], [Int(n)]) && PackBytes([ch], [Int(n)]) == BigEndian(Width(ch), n)
    ensures Faithful([ch], [Int(n)]) <==> Carries(ch, n)
  {
    TableAgrees(ch, n);
    hide ItemOf, Carries, Width;
    var it := ItemOf(ch).value;
    OneItem(ch, it, Int(n));
    hide ReadItem, ItemBytes, Faithful, PackBytes, Matching;
    match it
    case Boolean => BooleanIff(n);
    case Signed(w) => SignedItemIff(w, n);
    case Natural(w) => NaturalItemIff(w, n);
  }

  lemma TableAgrees(ch: char, n: int)
    requires ch in "BcChHlLqQ"
    ensures ItemOf(ch).Some?
    ensures match ItemOf(ch).value
            case Boolean => Width(ch) == 1 && (Carries(ch, n) <==> n == 0 || n == 1)
            case Signed(w) => Width(ch) == w && (Carries(ch, n) <==> -(Modulus(w) / 2) <= n < Modulus(w) / 2)
            case Natural(w) => Width(ch) == w && (Carries(ch, n) <==> 0 <= n < Modulus(w))
            case _ => false
  {
  }

  lemma BooleanIff(n: int)
    ensures var b := ItemBytes(Boolean, Int(n));
            var x := ReadItem(Boolean, 0, b);
            && b == BigEndian(1, n) && x.Some? && x.value.size == 1
            && (x.value.value == Int(n) <==> n == 0 || n == 1)
  {
    ByteRead(n);
  }

  /** How many bytes each character of a float takes, and where it puts sign, exponent and fraction: the
      pattern of 1, of -1 and of the next number above 1. */
  lemma FloatTable(r: real, ulp: real)
    requires r == 1.0
    ensures ItemOf('f') == Some(Floating(2)) && ItemOf('d') == Some(Floating(4)) && ItemOf('g') == Some(Floating(8))
    ensures ulp == 1.0 / 1024.0 ==>
              FloatBits(2, r) == 0x3c00 && FloatBits(2, -r) == 0xbc00 && FloatBits(2, r + ulp) == 0x3c01
    ensures ulp == 1.0 / 8388608.0 ==>
              FloatBits(4, r) == 0x3f80_0000 && FloatBits(4, -r) == 0xbf80_0000 && FloatBits(4, r + ulp) == 0x3f80_0001
    ensures ulp == 1.0 / 4503599627370496.0 ==>
              && FloatBits(8, r) == 0x3ff0_0000_0000_0000 && FloatBits(8, -r) == 0xbff0_0000_0000_0000
              && FloatBits(8, r + ulp) == 0x3ff0_0000_0000_0001
  {
    assert ItemOf('f') == Some(Floating(2)) && ItemOf('d') == Some(Floating(4)) && ItemOf('g') == Some(Floating(8));
    LayoutTable();
    hide FloatBits, WeightsOf, ItemOf;
    if ulp == 1.0 / 1024.0 { AroundOne(2, r, ulp); }
    if ulp == 1.0 / 8388608.0 { AroundOne(4, r, ulp); }
    if ulp == 1.0 / 4503599627370496.0 { AroundOne(8, r, ulp); }
  }

  /** The 16-, 32- and 64-bit layouts of section 3.6 of IEEE 754-2008. */
  lemma LayoutTable()
    ensures WeightsOf(2) == Weights(0x400, 0x10)
    ensures WeightsOf(4) == Weights(0x80_0000, 0x80)
    ensures WeightsOf(8) == Weights(0x10_0000_0000_0000, 0x400)
  {
    HalfWeights();
    assert Pow(2, 7) == 128;
    PowAdd(2, 7, 7);
    PowAdd(2, 14, 9);
    assert Pow(2, 9) == 512;
    PowAdd(2, 9, 1);
    assert Pow(2, 1) == 2;
    PowAdd(2, 14, 14);
    PowAdd(2, 28, 14);
    PowAdd(2, 42, 10);
  }

  lemma AroundOne(w: nat, r: real, ulp: real)
    requires w in {2, 4, 8} && r == 1.0 && WeightsOf(w).s >= 2 && ulp == 1.0 / WeightsOf(w).s as real
    ensures var l := WeightsOf(w);
            && FloatBits(w, r) == (l.h - 1) * l.s
            && FloatBits(w, r + ulp) == (l.h - 1) * l.s + 1
            && FloatBits(w, -r) == (2 * l.h + (l.h - 1)) * l.s
  {
    hide FloatBits, Pack754, Unpack754, InRange, Representable;
    var l := WeightsOf(w);
    NearOne(l, 0, 0, r);
    NearOne(l, 1, 0, r + ulp);
    NearOne(l, 0, 1, -r);
    FloatSurvivesIff(w, r);
    FloatSurvivesIff(w, -r);
    FloatSurvivesIff(w, r + ulp);
  }

  lemma NearOne(l: Weights, sig: nat, sign: nat, f: real)
    requires l.Valid() && sig < l.s && sign < 2
    requires f == (sig as real / l.s as real + 1.0) * (if sign == 1 then -1.0 else 1.0)
    ensures InRange(f, l) && Pack754(f, l) == (sign * (2 * l.h) + (l.h - 1)) * l.s + sig
  {
    hide Normalize, InRange, PackFields;
    var x := Fields(sign, l.h - 1, sig);
    PackAssemble(x, l);
    assert Assemble(x, l) == f;
  }

  /** Which bits are stored, for every real but zero: those of the sign at the top, of the biased exponent
      above the fraction, whether or not it fits there, and of the rounded fraction. */
  lemma FloatBitsAre(w: nat, r: real, i: nat)
    requires w in {2, 4, 8} && r != 0.0 && i < 8 * w
    ensures var l, n := WeightsOf(w), Normalize(Abs(r));
            Significand(n.m, l.s) >= 0 &&
            (Bit(FloatBits(w, r), i)
             <==> || (r < 0.0 && Bit(Pow(2, 8 * w - 1), i))
                  || Bit((n.e + l.h - 1) * l.s % 0x1_0000_0000_0000_0000, i)
                  || Bit(Significand(n.m, l.s), i))
  {
    hide Bit, Or, Pow, Significand, Normalize;
    var l, n := WeightsOf(w), Normalize(Abs(r));
    SignificandBounds(n.m, l.s);
    var sign: nat, exp: nat := if r < 0.0 then 1 else 0, (n.e + l.h - 1) * l.s % WORD;
    ModulusBits(w);
    BitMod(Pattern(r, 8 * w, ExponentBits(w)), 8 * w, i);
    OrBit(sign * Pow(2, 8 * w - 1), exp, i);
    OrBit(Or(sign * Pow(2, 8 * w - 1), exp), Significand(n.m, l.s), i);
    NoBits(i);
  }

  lemma {:induction false} NoBits(i: nat)
    ensures !Bit(0, i)
  {
    if i > 0 { NoBits(i - 1); }
  }

  lemma ModulusBits(w: nat)
    requires w in {2, 4, 8}
    ensures Modulus(w) == Pow(2, 8 * w)
  {
    ModulusPow(w);
    assert Pow(2, 8) == 256;
    PowMul(2, 8, w);
  }

  // ---------- string limits ----------

  function DigitChars(ds: seq<nat>): string
    requires DigitsBelow(10, ds)
  {
    seq(|ds|, i requires 0 <= i < |ds| => '0' + ds[i] as char)
  }

  lemma UnpackDigit(d: nat, fmt: string, maxlen: nat, buf: seq<byte>)
    requires d < 10
    ensures UnpackBytes(['0' + d as char] + fmt, maxlen, buf) == UnpackBytes(fmt, maxlen * 10 + d, buf)
  {
    hide ReadItem;
    assert (['0' + d as char] + fmt)[1..] == fmt;
  }

  /** Digits before an item are read as the decimal number they spell. */
  lemma {:induction false} LimitIsDecimal(ds: seq<nat>, fmt: string, maxlen: nat, buf: seq<byte>)
    requires DigitsBelow(10, ds)
    ensures UnpackBytes(DigitChars(ds) + fmt, maxlen, buf)
            == UnpackBytes(fmt, maxlen * Pow(10, |ds|) + Positional.Value(10, ds), buf)
    decreases ds
  {
    hide UnpackBytes;
    if ds == [] {
      assert DigitChars(ds) + fmt == fmt;
    } else {
      var d, tail := ds[0], ds[1..];
      assert DigitChars(ds) + fmt == ['0' + d as char] + (DigitChars(tail) + fmt);
      UnpackDigit(d, DigitChars(tail) + fmt, maxlen, buf);
      LimitIsDecimal(tail, fmt, maxlen * 10 + d, buf);
      ValueCons(10, d, tail);
      assert ds == [d] + tail;
      Distributed(maxlen, d, Pow(10, |tail|));
    }
  }

  lemma Distributed(m: nat, d: nat, p: nat)
    ensures (m * 10 + d) * p == m * (10 * p) + d * p
  {
  }

  lemma LimitedItem(n: nat, head: seq<byte>, s: NulFree, kept: NulFree)
    requires 0 < n && |head| == 2 && Unsigned(head) == |s| && kept == if |s| <= n then s else s[..n - 1]
    ensures ReadItem(String, n, head + s) == Some(ItemRead(Text(kept), |s| + 2, |s| + 2))
  {
    hide Unsigned;
    UpToNulPadded(kept, 0);
    assert kept + Zeros(0) == kept;
    assert (head + s)[..2] == head && (head + s)[2..2 + |kept|] == kept;
  }

  lemma ReadLimited(n: nat, s: NulFree, kept: NulFree)
    requires 0 < n && |s| < 0x1_0000 && kept == if |s| <= n then s else s[..n - 1]
    ensures UnpackBytes("s", n, BigEndian(2, |s|) + s) == Some(Reading([Text(kept)], |s| + 2))
  {
    hide ReadItem, UnpackBytes, BigEndian, Unsigned;
    var b := BigEndian(2, |s|) + s;
    UnsignedSurvives(2, |s|);
    LimitedItem(n, BigEndian(2, |s|), s, kept);
    NothingLeft(b[|b|..]);
    assert "s"[1..] == "";
    UnpackItem("s", n, String, b, Text(kept), |b|, |b|, Reading([], 0));
    assert [Text(kept)] + [] == [Text(kept)];
  }

  lemma NothingLeft(buf: seq<byte>)
    ensures forall maxlen: nat :: UnpackBytes("", maxlen, buf) == Some(Reading([], 0))
  {
  }

  /** With a limit n before it, an 's' gives a string of at most n bytes back whole, and of a longer one
      its first n - 1 bytes; the size reported is that of the whole. */
  lemma LimitedString(n: nat, s: NulFree, kept: NulFree)
    requires 0 < n && |s| < 0x1_0000 && kept == if |s| <= n then s else s[..n - 1]
    ensures Matching("s", [Text(s)])
    ensures UnpackBytes(DigitChars(Digits(10, n)) + "s", 0, PackBytes("s", [Text(s)]))
            == Some(Reading([Text(kept)], |s| + 2))
  {
    hide ReadItem, UnpackBytes, Digits, BigEndian, Faithful, PackBytes, Matching;
    DigitsValue(10, n);
    OneItem('s', String, Text(s));
    assert "s" == ['s'];
    LimitIsDecimal(Digits(10, n), "s", 0, BigEndian(2, |s|) + s);
    ReadLimited(n, s, kept);
  }
}
