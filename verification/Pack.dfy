/** The format interpreters `pack` and `unpack` (util/pack.cpp). */
module Pack {
  import opened Bytes
  import opened Positional
  import opened Integers
  import opened Float754

  /** The memory a `char*` argument points to, up to its terminator. */
  type NulFree = s: seq<byte> | 0 !in s

  datatype Value = Int(n: int) | Real(r: real) | Text(s: NulFree)

  /** What a format character stands for; `w` is a width in bytes. */
  datatype Item = Boolean | Signed(w: nat) | Natural(w: nat) | Floating(w: nat) | String {
    predicate Valid() {
      match this
      case Signed(w) => w in {1, 2, 4, 8}
      case Natural(w) => w in {1, 2, 4, 8}
      case Floating(w) => w in {2, 4, 8}
      case _ => true
    }

    predicate Takes(v: Value) {
      match this
      case Floating(_) => v.Real?
      case String => v.Text?
      case _ => v.Int?
    }
  }

  function ItemOf(ch: char): (it: Option<Item>)
    ensures it.Some? ==> it.value.Valid()
  {
    match ch
    case 'B' => Some(Boolean)
    case 'c' => Some(Signed(1))
    case 'C' => Some(Natural(1))
    case 'h' => Some(Signed(2))
    case 'H' => Some(Natural(2))
    case 'l' => Some(Signed(4))
    case 'L' => Some(Natural(4))
    case 'q' => Some(Signed(8))
    case 'Q' => Some(Natural(8))
    case 'f' => Some(Floating(2))
    case 'd' => Some(Floating(4))
    case 'g' => Some(Floating(8))
    case 's' => Some(String)
    case _ => None
  }

  // ---------- one item ----------

  function ExponentBits(w: nat): nat {
    if w == 2 then 5 else if w == 4 then 8 else 11
  }

  function WeightsOf(w: nat): (l: Weights)
    requires w in {2, 4, 8}
    ensures l.Valid()
  {
    Layout(8 * w, ExponentBits(w))
  }

  lemma WeightsModulus(w: nat)
    requires w in {2, 4, 8}
    ensures var l := WeightsOf(w); 2 * (l.E() * l.s) == Modulus(w) && l.s >= 2
  {
    var expbits := ExponentBits(w);
    LayoutPowers(8 * w, expbits);
    ModulusPow(w);
    assert Pow(2, 8) == 256;
    PowMul(2, 8, w);
    PowMono(2, 1, 8 * w - expbits - 1);
    assert Pow(2, 1) == 2;
  }

  /** The low bytes of the pattern are what is stored. */
  function FloatBits(w: nat, r: real): nat
    requires w in {2, 4, 8}
  {
    Pattern(r, 8 * w, ExponentBits(w)) % Modulus(w)
  }

  /** Over all reals: what is stored reads back as the same real exactly when the real is
      representable; a real whose exponent does not fit its field never survives. */
  lemma FloatSurvivesIff(w: nat, r: real)
    requires w in {2, 4, 8}
    ensures var l := WeightsOf(w);
            && FloatBits(w, r) < 2 * (l.E() * l.s)
            && (Unpack754(FloatBits(w, r), l) == r <==> InRange(r, l) && Representable(r, l))
            && (InRange(r, l) ==> FloatBits(w, r) == Pack754(r, l))
  {
    hide Pack754, Unpack754, Pattern;
    var l := WeightsOf(w);
    WeightsModulus(w);
    PackUnpack(FloatBits(w, r), l);
    if InRange(r, l) {
      PatternInRange(r, 8 * w, ExponentBits(w));
      UnpackPack(r, l);
    }
  }

  /** What the lost carry does to a format: 'f' stores 1.9999 so that it reads back as 1. */
  lemma CarryLostInFormat(r: real)
    requires r == 1.9999
    ensures Unpack754(FloatBits(2, r), WeightsOf(2)) == 1.0
  {
    hide Unpack754, Pack754, Pattern;
    HalfWeights();
    CarryLostExample(r, WeightsOf(2));
    FloatSurvivesIff(2, r);
  }

  lemma HalfWeights()
    ensures WeightsOf(2) == Weights(1024, 16)
  {
    assert Pow(2, 4) == 16;
    PowAdd(2, 5, 5);
  }

  function ItemBytes(it: Item, v: Value): seq<byte>
    requires it.Valid() && it.Takes(v)
  {
    match it
    case Boolean => [v.n % 256]
    case Signed(w) => BigEndian(w, v.n)
    case Natural(w) => BigEndian(w, v.n)
    case Floating(w) => BigEndian(w, FloatBits(w, v.r))
    case String => BigEndian(2, |v.s|) + v.s
  }

  // The range constants of util/pack.h, as they come out of their types.
  const PACK_SC_MIN := -127
  const PACK_SC_MAX := 127
  const PACK_SH_MIN := -32768
  const PACK_SH_MAX := -32768  // 32768 stored in a 16-bit short
  const PACK_SL_MIN := -2147483648
  const PACK_SL_MAX := 2147483648
  const PACK_SQ_MIN := -9223372036854775807
  const PACK_SQ_MAX := 9223372036854775807

  /** The assertions `pack` makes about an argument. Arguments of 'B', 'c' and 'C' are first cast to a byte. */
  predicate Asserted(it: Item, v: Value)
    requires it.Valid() && it.Takes(v)
  {
    match it
    case Boolean => true
    case Signed(w) =>
      if w == 1 then PACK_SC_MIN <= Resign(1, v.n % 256) <= PACK_SC_MAX
      else if w == 2 then PACK_SH_MIN <= v.n <= PACK_SH_MAX
      else if w == 4 then PACK_SL_MIN <= v.n <= PACK_SL_MAX
      else PACK_SQ_MIN <= v.n <= PACK_SQ_MAX
    case Natural(w) => w == 1 || 0 <= v.n < Modulus(w)
    case Floating(_) => true
    case String => true
  }

  /** One item read: its value, how far the buffer pointer moves, and what is added to the size. */
  datatype ItemRead = ItemRead(value: Value, advance: nat, size: nat)

  /** `maxlen` is the string limit the format has accumulated; `None` is a read past the bytes at hand. */
  function ReadItem(it: Item, maxlen: nat, buf: seq<byte>): (r: Option<ItemRead>)
    requires it.Valid()
    ensures r.Some? ==> r.value.advance <= |buf|
  {
    match it
    case Boolean =>
      if |buf| < 1 then None else Some(ItemRead(Int(if buf[0] == 0 then 0 else 1), 1, 1))
    case Signed(w) =>
      if |buf| < w then None
      // The branch for a negative 'c' does not advance the pointer.
      else if w == 1 && buf[0] > 0x7f then Some(ItemRead(Int(-1 - (0xff - buf[0] as int)), 0, 1))
      else Some(ItemRead(Int(Resign(w, Unsigned(buf[..w]))), w, w))
    case Natural(w) =>
      if |buf| < w then None else Some(ItemRead(Int(Unsigned(buf[..w])), w, w))
    case Floating(w) =>
      if |buf| < w then None else
        WeightsModulus(w);
        ModulusPow(w);
        ValueBelow(256, buf[..w]);
        Some(ItemRead(Real(Unpack754(Unsigned(buf[..w]), WeightsOf(w))), w, w))
    case String =>
      if |buf| < 2 || |buf| < 2 + Unsigned(buf[..2]) then None else
        var len := Unsigned(buf[..2]);
        var count := if maxlen > 0 && len > maxlen then maxlen - 1 else len;
        Some(ItemRead(Text(UpToNul(buf[2..2 + count])), 2 + len, 2 + len))
  }

  /** The values that are meant to survive: a bool, the two's-complement or unsigned range, a
      representable float, a string shorter than 65536 and within the limit of the format. */
  predicate Fits(it: Item, maxlen: nat, v: Value)
    requires it.Valid() && it.Takes(v)
  {
    match it
    case Boolean => v.n == 0 || v.n == 1
    case Signed(w) => -(Modulus(w) / 2) <= v.n < Modulus(w) / 2
    case Natural(w) => 0 <= v.n < Modulus(w)
    case Floating(w) => InRange(v.r, WeightsOf(w)) && Representable(v.r, WeightsOf(w))
    case String => |v.s| < 0x1_0000 && (maxlen > 0 ==> |v.s| <= maxlen)
  }

  predicate NegativeChar(it: Item, v: Value)
    requires it.Valid() && it.Takes(v)
  {
    it == Signed(1) && v.n % 256 > 0x7f
  }

  lemma ByteRead(n: int)
    ensures BigEndian(1, n) == [n % 256] && Unsigned([n % 256]) == n % 256
  {
    assert BigEndian(1, n) == BigEndian(0, n / 256) + [n % 256];
    UnsignedMod(1, n);
  }

  /** One item is read back exactly; only after a negative 'c' is the pointer not where the size says. */
  ghost predicate Survives(it: Item, maxlen: nat, v: Value, suffix: seq<byte>)
    requires it.Valid() && it.Takes(v)
  {
    var n := |ItemBytes(it, v)|;
    ReadItem(it, maxlen, ItemBytes(it, v) + suffix) == Some(ItemRead(v, if NegativeChar(it, v) then 0 else n, n))
  }

  lemma CharRead(maxlen: nat, n: int, suffix: seq<byte>)
    requires -128 <= n < 128
    ensures Survives(Signed(1), maxlen, Int(n), suffix)
  {
    ByteRead(n);
    var buf := [n % 256] + suffix;
    assert buf[..1] == [n % 256];
  }

  lemma SignedRead(w: nat, maxlen: nat, n: int, suffix: seq<byte>)
    requires w in {2, 4, 8} && -(Modulus(w) / 2) <= n < Modulus(w) / 2
    ensures Survives(Signed(w), maxlen, Int(n), suffix)
  {
    assert (BigEndian(w, n) + suffix)[..w] == BigEndian(w, n);
    SignedSurvives(w, n);
  }

  lemma NaturalRead(w: nat, maxlen: nat, n: nat, suffix: seq<byte>)
    requires w in {1, 2, 4, 8} && n < Modulus(w)
    ensures Survives(Natural(w), maxlen, Int(n), suffix)
  {
    assert (BigEndian(w, n) + suffix)[..w] == BigEndian(w, n);
    UnsignedSurvives(w, n);
  }

  lemma FloatRead(w: nat, maxlen: nat, r: real, suffix: seq<byte>)
    requires w in {2, 4, 8} && InRange(r, WeightsOf(w)) && Representable(r, WeightsOf(w))
    ensures Survives(Floating(w), maxlen, Real(r), suffix)
  {
    var bytes := BigEndian(w, FloatBits(w, r));
    assert (bytes + suffix)[..w] == bytes;
    WeightsModulus(w);
    UnsignedSurvives(w, FloatBits(w, r));
    FloatSurvivesIff(w, r);
  }

  lemma StringRead(maxlen: nat, s: NulFree, suffix: seq<byte>)
    requires |s| < 0x1_0000 && (maxlen > 0 ==> |s| <= maxlen)
    ensures Survives(String, maxlen, Text(s), suffix)
  {
    UnsignedSurvives(2, |s|);
    UpToNulPadded(s, 0);
    assert s + Zeros(0) == s;
    StringSlices(BigEndian(2, |s|), s, suffix);
  }

  lemma StringSlices(head: seq<byte>, s: seq<byte>, suffix: seq<byte>)
    requires |head| == 2
    ensures var buf := head + s + suffix; buf[..2] == head && buf[2..2 + |s|] == s
  {
  }

  /** Every value that fits is read back exactly, from any longer buffer. */
  lemma ItemSurvives(it: Item, maxlen: nat, v: Value, suffix: seq<byte>)
    requires it.Valid() && it.Takes(v) && Fits(it, maxlen, v)
    ensures Survives(it, maxlen, v, suffix)
  {
    match it
    case Boolean =>
    case Signed(w) =>
      if w == 1 { CharRead(maxlen, v.n, suffix); } else { SignedRead(w, maxlen, v.n, suffix); }
    case Natural(w) => NaturalRead(w, maxlen, v.n, suffix);
    case Floating(w) => FloatRead(w, maxlen, v.r, suffix);
    case String => StringRead(maxlen, v.s, suffix);
  }

  // ---------- whole formats ----------

  /** The argument list has one value of the right type for every format character that takes one. */
  predicate Matching(fmt: string, vals: seq<Value>) {
    if fmt == [] then vals == []
    else match ItemOf(fmt[0])
      case None => Matching(fmt[1..], vals)
      case Some(it) => vals != [] && it.Takes(vals[0]) && Matching(fmt[1..], vals[1..])
  }

  function PackBytes(fmt: string, vals: seq<Value>): seq<byte>
    requires Matching(fmt, vals)
  {
    if fmt == [] then []
    else match ItemOf(fmt[0])
      case None => PackBytes(fmt[1..], vals)
      case Some(it) => ItemBytes(it, vals[0]) + PackBytes(fmt[1..], vals[1..])
  }

  predicate AllAsserted(fmt: string, vals: seq<Value>)
    requires Matching(fmt, vals)
  {
    if fmt == [] then true
    else match ItemOf(fmt[0])
      case None => AllAsserted(fmt[1..], vals)
      case Some(it) => Asserted(it, vals[0]) && AllAsserted(fmt[1..], vals[1..])
  }

  /** The string limit after a format character: digits accumulate, anything else resets. */
  function NextLimit(ch: char, maxlen: nat): nat {
    if '0' <= ch <= '9' then maxlen * 10 + (ch as int - '0' as int) else 0
  }

  predicate AllFit(fmt: string, maxlen: nat, vals: seq<Value>)
    requires Matching(fmt, vals)
  {
    if fmt == [] then true
    else match ItemOf(fmt[0])
      case None => AllFit(fmt[1..], NextLimit(fmt[0], maxlen), vals)
      case Some(it) => Fits(it, maxlen, vals[0]) && AllFit(fmt[1..], NextLimit(fmt[0], maxlen), vals[1..])
  }

  datatype Reading = Reading(vals: seq<Value>, size: nat)

  function UnpackBytes(fmt: string, maxlen: nat, buf: seq<byte>): (r: Option<Reading>) {
    if fmt == [] then Some(Reading([], 0))
    else match ItemOf(fmt[0])
      case None => UnpackBytes(fmt[1..], NextLimit(fmt[0], maxlen), buf)
      case Some(it) =>
        match ReadItem(it, maxlen, buf)
        case None => None
        case Some(x) =>
          match UnpackBytes(fmt[1..], NextLimit(fmt[0], maxlen), buf[x.advance..])
          case None => None
          case Some(rest) => Some(Reading([x.value] + rest.vals, x.size + rest.size))
  }

  /** No negative 'c' value has another value after it. */
  predicate NegativeCharsLast(fmt: string, vals: seq<Value>)
    requires Matching(fmt, vals)
  {
    if fmt == [] then true
    else match ItemOf(fmt[0])
      case None => NegativeCharsLast(fmt[1..], vals)
      case Some(it) =>
        && (NegativeChar(it, vals[0]) ==> vals[1..] == [])
        && NegativeCharsLast(fmt[1..], vals[1..])
  }

  lemma {:induction false} UnpackNothing(fmt: string, maxlen: nat, buf: seq<byte>)
    requires Matching(fmt, [])
    ensures UnpackBytes(fmt, maxlen, buf) == Some(Reading([], 0))
    ensures PackBytes(fmt, []) == []
  {
    if fmt != [] {
      UnpackNothing(fmt[1..], NextLimit(fmt[0], maxlen), buf);
    }
  }

  /** For every format and every fitting argument list, from any longer buffer: the same values
      come back, and both sides report the same number of bytes. */
  lemma {:induction false} RoundTrip(fmt: string, maxlen: nat, vals: seq<Value>, suffix: seq<byte>)
    requires Matching(fmt, vals) && AllFit(fmt, maxlen, vals) && NegativeCharsLast(fmt, vals)
    ensures UnpackBytes(fmt, maxlen, PackBytes(fmt, vals) + suffix) == Some(Reading(vals, |PackBytes(fmt, vals)|))
    decreases fmt
  {
    hide ReadItem, ItemBytes, Fits, Asserted;
    if fmt != [] {
      var limit := NextLimit(fmt[0], maxlen);
      match ItemOf(fmt[0])
      case None =>
        RoundTrip(fmt[1..], limit, vals, suffix);
      case Some(it) =>
        var bytes, rest := ItemBytes(it, vals[0]), PackBytes(fmt[1..], vals[1..]);
        var buf := bytes + (rest + suffix);
        assert PackBytes(fmt, vals) + suffix == buf;
        ItemSurvives(it, maxlen, vals[0], rest + suffix);
        if NegativeChar(it, vals[0]) {
          UnpackNothing(fmt[1..], limit, buf);
          assert buf[0..] == buf;
          UnpackItem(fmt, maxlen, it, buf, vals[0], 0, |bytes|, Reading([], 0));
        } else {
          assert buf[|bytes|..] == rest + suffix;
          RoundTrip(fmt[1..], limit, vals[1..], suffix);
          UnpackItem(fmt, maxlen, it, buf, vals[0], |bytes|, |bytes|, Reading(vals[1..], |rest|));
        }
        assert [vals[0]] + vals[1..] == vals;
    }
  }

  /** One step of the interpreter. */
  lemma UnpackItem(fmt: string, maxlen: nat, it: Item, buf: seq<byte>, v: Value, advance: nat, n: nat, rest: Reading)
    requires fmt != [] && ItemOf(fmt[0]) == Some(it)
    requires ReadItem(it, maxlen, buf) == Some(ItemRead(v, advance, n)) && advance <= |buf|
    requires UnpackBytes(fmt[1..], NextLimit(fmt[0], maxlen), buf[advance..]) == Some(rest)
    ensures UnpackBytes(fmt, maxlen, buf) == Some(Reading([v] + rest.vals, n + rest.size))
  {
    hide ReadItem, ItemBytes, Fits, Asserted;
  }

  // ---------- which formats are safe ----------

  predicate HasItem(fmt: string) {
    fmt != [] && (ItemOf(fmt[0]).Some? || HasItem(fmt[1..]))
  }

  /** Nothing is read after a 'c'. */
  predicate FormatSafe(fmt: string) {
    fmt == [] || ((fmt[0] == 'c' ==> !HasItem(fmt[1..])) && FormatSafe(fmt[1..]))
  }

  ghost predicate Faithful(fmt: string, vals: seq<Value>)
    requires Matching(fmt, vals)
  {
    UnpackBytes(fmt, 0, PackBytes(fmt, vals)) == Some(Reading(vals, |PackBytes(fmt, vals)|))
  }

  /** A format carries every fitting argument list exactly when no item follows a 'c'. */
  lemma FormatIff(fmt: string)
    ensures (forall vals | Matching(fmt, vals) && AllFit(fmt, 0, vals) :: Faithful(fmt, vals)) <==> FormatSafe(fmt)
  {
    if FormatSafe(fmt) {
      forall vals | Matching(fmt, vals) && AllFit(fmt, 0, vals) ensures Faithful(fmt, vals) {
        SafeCharsLast(fmt, vals);
        RoundTrip(fmt, 0, vals, []);
        assert PackBytes(fmt, vals) + [] == PackBytes(fmt, vals);
      }
    } else {
      Unfaithful(fmt, 0);
      assert !Faithful(fmt, Trap(fmt));
    }
  }

  lemma {:induction false} MatchingItems(fmt: string, vals: seq<Value>)
    requires Matching(fmt, vals)
    ensures vals == [] <==> !HasItem(fmt)
    decreases fmt
  {
    if fmt != [] && ItemOf(fmt[0]).None? {
      MatchingItems(fmt[1..], vals);
    }
  }

  lemma {:induction false} SafeCharsLast(fmt: string, vals: seq<Value>)
    requires Matching(fmt, vals) && FormatSafe(fmt)
    ensures NegativeCharsLast(fmt, vals)
    decreases fmt
  {
    if fmt != [] {
      match ItemOf(fmt[0])
      case None => SafeCharsLast(fmt[1..], vals);
      case Some(it) =>
        MatchingItems(fmt[1..], vals[1..]);
        SafeCharsLast(fmt[1..], vals[1..]);
    }
  }

  function Zero(it: Item): Value {
    match it
    case Floating(_) => Real(0.0)
    case String => Text([])
    case _ => Int(0)
  }

  function ZeroValues(fmt: string): (vals: seq<Value>)
    ensures Matching(fmt, vals)
  {
    if fmt == [] then [] else
      var rest := ZeroValues(fmt[1..]);
      match ItemOf(fmt[0])
      case None => rest
      case Some(it) => var vals := [Zero(it)] + rest; assert vals[1..] == rest; vals
  }

  /** Zeros, but -1 for the first 'c' that something follows. */
  function Trap(fmt: string): (vals: seq<Value>)
    ensures Matching(fmt, vals)
  {
    if fmt == [] then []
    else if fmt[0] == 'c' && HasItem(fmt[1..]) then
      var vals := [Int(-1)] + ZeroValues(fmt[1..]); assert vals[1..] == ZeroValues(fmt[1..]); vals
    else
      var rest := Trap(fmt[1..]);
      match ItemOf(fmt[0])
      case None => rest
      case Some(it) => var vals := [Zero(it)] + rest; assert vals[1..] == rest; vals
  }

  lemma ZeroFits(it: Item, maxlen: nat)
    requires it.Valid()
    ensures it.Takes(Zero(it)) && Fits(it, maxlen, Zero(it)) && !NegativeChar(it, Zero(it))
  {
  }

  lemma {:induction false} ZeroValuesFit(fmt: string, maxlen: nat)
    ensures AllFit(fmt, maxlen, ZeroValues(fmt))
    decreases fmt
  {
    if fmt != [] {
      ZeroValuesFit(fmt[1..], NextLimit(fmt[0], maxlen));
      if ItemOf(fmt[0]).Some? {
        ZeroFits(ItemOf(fmt[0]).value, maxlen);
        assert ZeroValues(fmt)[1..] == ZeroValues(fmt[1..]);
      }
    }
  }

  /** However the bytes are read, no item reports fewer than it takes to write a zero. */
  lemma {:induction false} SizeAtLeast(fmt: string, maxlen: nat, buf: seq<byte>)
    ensures var r := UnpackBytes(fmt, maxlen, buf); r.Some? ==> r.value.size >= |PackBytes(fmt, ZeroValues(fmt))|
    decreases fmt
  {
    if fmt != [] && UnpackBytes(fmt, maxlen, buf).Some? {
      match ItemOf(fmt[0])
      case None => SizeAtLeast(fmt[1..], NextLimit(fmt[0], maxlen), buf);
      case Some(it) =>
        SizeAtLeast(fmt[1..], NextLimit(fmt[0], maxlen), buf[ReadItem(it, maxlen, buf).value.advance..]);
        assert ZeroValues(fmt)[1..] == ZeroValues(fmt[1..]);
    }
  }

  /** Read with the pointer still on a 255 byte, no item gives its zero at its size. */
  lemma StuckItem(it: Item, maxlen: nat, buf: seq<byte>)
    requires it.Valid() && buf != [] && buf[0] == 255
    ensures var r := ReadItem(it, maxlen, buf);
            r.Some? ==> r.value.value != Zero(it) || r.value.size > |ItemBytes(it, Zero(it))|
  {
    match it
    case Boolean =>
    case Signed(w) =>
      if w <= |buf| {
        UnsignedLeading(buf[..w]);
        ModulusPow(w);
        ValueBelow(256, buf[..w]);
        ResignZero(w, Unsigned(buf[..w]));
      }
    case Natural(w) =>
      if w <= |buf| { UnsignedLeading(buf[..w]); }
    case Floating(w) =>
      if w <= |buf| {
        UnsignedLeading(buf[..w]);
        NonZeroFloat(w, maxlen, buf);
      }
    case String =>
      if 2 <= |buf| { UnsignedLeading(buf[..2]); }
  }

  lemma ResignZero(w: nat, u: nat)
    requires w in {1, 2, 4, 8} && 0 < u < Modulus(w)
    ensures Resign(w, u) != 0
  {
  }

  lemma NonZeroFloat(w: nat, maxlen: nat, buf: seq<byte>)
    requires w in {2, 4, 8} && w <= |buf| && Unsigned(buf[..w]) > 0
    ensures var r := ReadItem(Floating(w), maxlen, buf); r.Some? && r.value.value != Real(0.0)
  {
    WeightsModulus(w);
    ModulusPow(w);
    ValueBelow(256, buf[..w]);
    AssembleNormal(Split(Unsigned(buf[..w]), WeightsOf(w)), WeightsOf(w));
  }

  lemma {:induction false} StuckFormat(fmt: string, maxlen: nat, buf: seq<byte>)
    requires HasItem(fmt) && buf != [] && buf[0] == 255
    ensures UnpackBytes(fmt, maxlen, buf) != Some(Reading(ZeroValues(fmt), |PackBytes(fmt, ZeroValues(fmt))|))
    decreases fmt
  {
    hide ReadItem, ItemBytes, Fits, Asserted;
    match ItemOf(fmt[0])
    case None => StuckFormat(fmt[1..], NextLimit(fmt[0], maxlen), buf);
    case Some(it) =>
      StuckItem(it, maxlen, buf);
      assert ZeroValues(fmt)[1..] == ZeroValues(fmt[1..]);
      var x := ReadItem(it, maxlen, buf);
      if x.Some? {
        SizeAtLeast(fmt[1..], NextLimit(fmt[0], maxlen), buf[x.value.advance..]);
      }
  }

  lemma {:induction false} Unfaithful(fmt: string, maxlen: nat)
    requires !FormatSafe(fmt)
    ensures AllFit(fmt, maxlen, Trap(fmt))
    ensures UnpackBytes(fmt, maxlen, PackBytes(fmt, Trap(fmt))) != Some(Reading(Trap(fmt), |PackBytes(fmt, Trap(fmt))|))
    decreases fmt
  {
    hide ReadItem, ItemBytes, Fits, Asserted;
    var limit, vals := NextLimit(fmt[0], maxlen), Trap(fmt);
    if fmt[0] == 'c' && HasItem(fmt[1..]) {
      TrapSprings(fmt, maxlen);
    } else {
      Unfaithful(fmt[1..], limit);
      if ItemOf(fmt[0]).Some? {
        var it := ItemOf(fmt[0]).value;
        var bytes, rest := ItemBytes(it, Zero(it)), PackBytes(fmt[1..], Trap(fmt[1..]));
        assert vals == [Zero(it)] + Trap(fmt[1..]) && vals[1..] == Trap(fmt[1..]);
        ZeroFits(it, maxlen);
        ItemSurvives(it, maxlen, Zero(it), rest);
        assert (bytes + rest)[|bytes|..] == rest;
      }
    }
  }

  lemma TrapIs(fmt: string)
    requires fmt != [] && fmt[0] == 'c' && HasItem(fmt[1..])
    ensures Trap(fmt) == [Int(-1)] + ZeroValues(fmt[1..])
  {
  }

  /** The bytes and the fit of an argument list, first item first. */
  lemma FirstItem(fmt: string, maxlen: nat, it: Item, v: Value, vals: seq<Value>)
    requires fmt != [] && ItemOf(fmt[0]) == Some(it) && it.Takes(v) && Matching(fmt[1..], vals)
    ensures Matching(fmt, [v] + vals)
    ensures PackBytes(fmt, [v] + vals) == ItemBytes(it, v) + PackBytes(fmt[1..], vals)
    ensures AllFit(fmt, maxlen, [v] + vals)
            <==> Fits(it, maxlen, v) && AllFit(fmt[1..], NextLimit(fmt[0], maxlen), vals)
  {
    hide ItemBytes, Fits;
    assert ([v] + vals)[1..] == vals;
  }

  lemma TrapBytes(fmt: string, maxlen: nat)
    requires fmt != [] && fmt[0] == 'c' && HasItem(fmt[1..])
    ensures Trap(fmt) == [Int(-1)] + ZeroValues(fmt[1..]) && AllFit(fmt, maxlen, Trap(fmt))
    ensures PackBytes(fmt, Trap(fmt)) == [255] + PackBytes(fmt[1..], ZeroValues(fmt[1..]))
  {
    hide PackBytes, AllFit, Trap, ZeroValues;
    TrapIs(fmt);
    ZeroValuesFit(fmt[1..], 0);
    FirstItem(fmt, maxlen, Signed(1), Int(-1), ZeroValues(fmt[1..]));
    ByteRead(-1);
  }

  lemma TrapSprings(fmt: string, maxlen: nat)
    requires fmt != [] && fmt[0] == 'c' && HasItem(fmt[1..])
    ensures AllFit(fmt, maxlen, Trap(fmt))
    ensures UnpackBytes(fmt, maxlen, PackBytes(fmt, Trap(fmt))) != Some(Reading(Trap(fmt), |PackBytes(fmt, Trap(fmt))|))
  {
    hide ReadItem, ItemBytes, Fits, UnpackBytes, PackBytes;
    TrapBytes(fmt, maxlen);
    var zeros := ZeroValues(fmt[1..]);
    var rest := PackBytes(fmt[1..], zeros);
    var buf: seq<byte> := [255] + rest;
    StuckFormat(fmt[1..], 0, buf);
    StuckAfterChar(fmt, maxlen, buf, Reading(zeros, |rest|));
  }

  lemma StuckAfterChar(fmt: string, maxlen: nat, buf: seq<byte>, rest: Reading)
    requires fmt != [] && fmt[0] == 'c' && buf != [] && buf[0] == 255
    requires UnpackBytes(fmt[1..], 0, buf) != Some(rest)
    ensures UnpackBytes(fmt, maxlen, buf) != Some(Reading([Int(-1)] + rest.vals, 1 + rest.size))
  {
    assert buf[0..] == buf;
    var r := UnpackBytes(fmt[1..], 0, buf);
    if r.Some? && [Int(-1)] + r.value.vals == [Int(-1)] + rest.vals {
      assert ([Int(-1)] + r.value.vals)[1..] == r.value.vals && ([Int(-1)] + rest.vals)[1..] == rest.vals;
    }
  }

  /** What the assertions of `pack` let through against what survives: the 32-bit limit is one too
      high, the 8-bit and 64-bit ones miss the least number, and the 16-bit one, stored in a short,
      admits a single value. */
  lemma RangeConstants(w: nat, n: int)
    requires w in {2, 4, 8}
    ensures Asserted(Signed(w), Int(n)) && !Fits(Signed(w), 0, Int(n)) <==> w == 4 && n == 2147483648
    ensures Fits(Signed(w), 0, Int(n)) && !Asserted(Signed(w), Int(n))
            <==> (w == 2 && -32768 < n < 32768) || (w == 8 && n == -9223372036854775808)
    ensures -128 <= n < 128 ==> (Asserted(Signed(1), Int(n)) <==> n != -128)
    ensures Asserted(Natural(w), Int(n)) <==> Fits(Natural(w), 0, Int(n))
  {
  }

  // ---------- the two interpreters ----------

  /** `s` with `bytes` stored from index `at` on. */
  function Spliced(s: seq<byte>, at: nat, bytes: seq<byte>): (r: seq<byte>)
    requires at + |bytes| <= |s|
    ensures |r| == |s|
  {
    s[..at] + bytes + s[at + |bytes|..]
  }

  lemma SplicedTwice(s: seq<byte>, at: nat, a: seq<byte>, b: seq<byte>)
    requires at + |a| + |b| <= |s|
    ensures Spliced(Spliced(s, at, a), at + |a|, b) == Spliced(s, at, a + b)
  {
  }

  lemma PackStep(fmt: string, vals: seq<Value>, i: nat, k: nat)
    requires i < |fmt| && k <= |vals| && Matching(fmt[i..], vals[k..])
    ensures match ItemOf(fmt[i])
            case None =>
              && Matching(fmt[i + 1..], vals[k..])
              && PackBytes(fmt[i..], vals[k..]) == PackBytes(fmt[i + 1..], vals[k..])
              && AllAsserted(fmt[i..], vals[k..]) == AllAsserted(fmt[i + 1..], vals[k..])
            case Some(it) =>
              && k < |vals| && it.Takes(vals[k]) && Matching(fmt[i + 1..], vals[k + 1..])
              && PackBytes(fmt[i..], vals[k..]) == ItemBytes(it, vals[k]) + PackBytes(fmt[i + 1..], vals[k + 1..])
              && AllAsserted(fmt[i..], vals[k..]) == (Asserted(it, vals[k]) && AllAsserted(fmt[i + 1..], vals[k + 1..]))
  {
    hide ReadItem, ItemBytes, Fits, Asserted;
    assert fmt[i..][1..] == fmt[i + 1..];
    if k < |vals| {
      assert vals[k..][1..] == vals[k + 1..];
    }
  }

  /** Packs at a place in a buffer. A failed assertion ends the program: no size is returned. */
  method RunPack(buf: Buffer, place: nat, fmt: string, vals: seq<Value>) returns (size: Option<nat>)
    requires Matching(fmt, vals) && place + |PackBytes(fmt, vals)| <= |buf.bytes|
    modifies buf
    ensures size.Some? <==> AllAsserted(fmt, vals)
    ensures size.Some? ==> size.value == |PackBytes(fmt, vals)|
                           && buf.bytes == Spliced(old(buf.bytes), place, PackBytes(fmt, vals))
  {
    hide ReadItem, ItemBytes, Fits, Asserted;
    var i, k, n := 0, 0, 0;
    ghost var was, done: seq<byte> := buf.bytes, [];
    assert fmt[0..] == fmt && vals[0..] == vals;
    while i < |fmt|
      invariant 0 <= i <= |fmt| && 0 <= k <= |vals| && n == |done|
      invariant Matching(fmt[i..], vals[k..])
      invariant PackBytes(fmt, vals) == done + PackBytes(fmt[i..], vals[k..])
      invariant AllAsserted(fmt, vals) == AllAsserted(fmt[i..], vals[k..])
      invariant buf.bytes == Spliced(was, place, done)
    {
      PackStep(fmt, vals, i, k);
      match ItemOf(fmt[i]) {
        case None =>
        case Some(it) =>
          if !Asserted(it, vals[k]) {
            return None;
          }
          var bytes := ItemBytes(it, vals[k]);
          ghost var rest := PackBytes(fmt[i + 1..], vals[k + 1..]);
          assert done + (bytes + rest) == done + bytes + rest;
          SplicedTwice(was, place, done, bytes);
          buf.bytes := Spliced(buf.bytes, place + n, bytes);
          done := done + bytes;
          n := n + |bytes|;
          k := k + 1;
      }
      i := i + 1;
    }
    size := Some(n);
  }

  /** The pointer and the reported size move separately. */
  method RunUnpack(buf: seq<byte>, fmt: string) returns (r: Option<Reading>)
    ensures r == UnpackBytes(fmt, 0, buf)
  {
    hide ReadItem, ItemBytes, Fits, Asserted;
    var i, p, size: nat, maxlen: nat := 0, 0, 0, 0;
    var vals: seq<Value> := [];
    assert fmt[0..] == fmt && buf[0..] == buf;
    PrefixedNothing(UnpackBytes(fmt, 0, buf));
    while i < |fmt|
      invariant 0 <= i <= |fmt| && 0 <= p <= |buf|
      invariant UnpackBytes(fmt, 0, buf) == Prefixed(vals, size, UnpackBytes(fmt[i..], maxlen, buf[p..]))
    {
      assert fmt[i..][1..] == fmt[i + 1..];
      match ItemOf(fmt[i]) {
        case None =>
        case Some(it) =>
          var x := ReadItem(it, maxlen, buf[p..]);
          if x.None? {
            return None;
          }
          UnpackStep(fmt[i..], maxlen, it, buf, p, vals, size);
          vals := vals + [x.value.value];
          size := size + x.value.size;
          p := p + x.value.advance;
      }
      maxlen := NextLimit(fmt[i], maxlen);
      i := i + 1;
    }
    assert fmt[i..] == [] && vals + [] == vals;
    r := Some(Reading(vals, size));
  }

  lemma UnpackStep(fmt: string, maxlen: nat, it: Item, buf: seq<byte>, p: nat, vals: seq<Value>, size: nat)
    requires fmt != [] && ItemOf(fmt[0]) == Some(it) && p <= |buf| && ReadItem(it, maxlen, buf[p..]).Some?
    ensures var x := ReadItem(it, maxlen, buf[p..]).value;
            Prefixed(vals, size, UnpackBytes(fmt, maxlen, buf[p..]))
            == Prefixed(vals + [x.value], size + x.size,
                        UnpackBytes(fmt[1..], NextLimit(fmt[0], maxlen), buf[p + x.advance..]))
  {
    hide ReadItem, ItemBytes, Fits, Asserted;
    var x := ReadItem(it, maxlen, buf[p..]).value;
    assert buf[p..][x.advance..] == buf[p + x.advance..];
    var r := UnpackBytes(fmt[1..], NextLimit(fmt[0], maxlen), buf[p + x.advance..]);
    if r.Some? {
      assert vals + ([x.value] + r.value.vals) == vals + [x.value] + r.value.vals;
    }
  }

  lemma PrefixedNothing(r: Option<Reading>)
    ensures Prefixed([], 0, r) == r
  {
    if r.Some? {
      assert [] + r.value.vals == r.value.vals;
    }
  }

  ghost function Prefixed(vals: seq<Value>, size: nat, r: Option<Reading>): Option<Reading> {
    match r
    case None => None
    case Some(x) => Some(Reading(vals + x.vals, size + x.size))
  }
}
