/** Base58 (util/b58check.cpp): in-place conversion between base 256 and base 58. */
module Base58 {
  import opened Bytes
  import opened Positional

  // ---------- the alphabet ----------

  function AlphabetChar(d: nat): char
    requires d < 58
  {
    if d < 9 then '1' + d as char
    else if d < 17 then 'A' + (d - 9) as char
    else if d < 22 then 'J' + (d - 17) as char
    else if d < 33 then 'P' + (d - 22) as char
    else if d < 44 then 'a' + (d - 33) as char
    else 'm' + (d - 44) as char
  }

  function Alphabet(): (s: string)
    ensures |s| == 58
    ensures forall d :: 0 <= d < 58 ==> s[d] == AlphabetChar(d)
  {
    seq(58, d requires 0 <= d < 58 => AlphabetChar(d))
  }

  /** The table is the literal of the source: no "0", "I", "O" or "l". */
  lemma AlphabetTable()
    ensures Alphabet() ==
            "123456789" + "ABCDEFGH" + "JKLMN" + "PQRSTUVWXYZ" + "abcdefghijk" + "mnopqrstuvwxyz"
  {
    assert Alphabet()[..9] == "123456789";
    assert Alphabet()[9..17] == "ABCDEFGH";
    assert Alphabet()[17..22] == "JKLMN";
    assert Alphabet()[22..33] == "PQRSTUVWXYZ";
    assert Alphabet()[33..44] == "abcdefghijk";
    assert Alphabet()[44..] == "mnopqrstuvwxyz";
  }

  /** `strchr`: the first index of `c`. */
  function StrChr(s: string, c: char): (r: Option<nat>)
    ensures r.Some? ==> r.value < |s| && s[r.value] == c
    ensures r.None? ==> c !in s
  {
    if s == [] then None
    else if s[0] == c then Some(0)
    else match StrChr(s[1..], c) case None => None case Some(i) => Some(i + 1)
  }

  /** No character occurs twice, so looking a digit's character up gives the digit back. */
  lemma AlphabetInjective(i: nat, j: nat)
    requires i < 58 && j < 58 && Alphabet()[i] == Alphabet()[j]
    ensures i == j
  {
  }

  predicate IsSpace(c: char) {
    c == ' ' || 9 as char <= c <= 13 as char
  }

  /** White space as C's default locale has it: blank, tab, line feed, vertical tab, form feed, return. */
  lemma SpaceTable(c: char)
    ensures IsSpace(c) <==> c == ' ' || c == '\t' || c == '\n' || c == '\U{0B}' || c == '\U{0C}' || c == '\r'
  {
  }

  lemma AlphabetNotSpace(c: char)
    requires c in Alphabet()
    ensures !IsSpace(c) && c != '\0'
  {
  }

  function Chars(ds: seq<nat>): (s: string)
    requires DigitsBelow(58, ds)
    ensures |s| == |ds|
    ensures forall i :: 0 <= i < |s| ==> s[i] == Alphabet()[ds[i]]
  {
    seq(|ds|, i requires 0 <= i < |ds| => Alphabet()[ds[i]])
  }

  ghost predicate AllAlphabet(s: string) {
    forall i :: 0 <= i < |s| ==> s[i] in Alphabet()
  }

  ghost function DigitOf(c: char): (d: nat)
    requires c in Alphabet()
    ensures d < 58 && Alphabet()[d] == c
  {
    var d: nat :| d < 58 && Alphabet()[d] == c;
    d
  }

  ghost function DigitsOf(s: string): (ds: seq<nat>)
    requires AllAlphabet(s)
    ensures DigitsBelow(58, ds) && |ds| == |s|
    ensures forall i :: 0 <= i < |s| ==> Alphabet()[ds[i]] == s[i]
  {
    seq(|s|, i requires 0 <= i < |s| => DigitOf(s[i]))
  }

  lemma CharsInverse(ds: seq<nat>, s: string)
    requires DigitsBelow(58, ds)
    ensures s == Chars(ds) <==> AllAlphabet(s) && DigitsOf(s) == ds
  {
    if s == Chars(ds) {
      forall i | 0 <= i < |s| ensures s[i] in Alphabet() && DigitOf(s[i]) == ds[i] {
        assert Alphabet()[ds[i]] in Alphabet();
        AlphabetInjective(DigitOf(s[i]), ds[i]);
      }
    }
  }

  // ---------- what a code means ----------

  /** Re-expresses a digit string in another base, keeping the count of leading zeros. */
  function Rebase(from: nat, to: nat, ds: seq<nat>): (r: seq<nat>)
    requires to > 1
    ensures DigitsBelow(to, r)
  {
    Zeros(LeadingZeroes(ds)) + Digits(to, Value(from, ds))
  }

  lemma LeadingZeroesOf(z: nat, ds: seq<nat>)
    requires ds == [] || ds[0] != 0
    ensures LeadingZeroes(Zeros(z) + ds) == z
  {
    var all := Zeros(z) + ds;
    var n := LeadingZeroes(all);
    assert forall i :: 0 <= i < n ==> all[i] == all[..n][i] == 0;
    assert forall i :: 0 <= i < z ==> all[i] == 0;
    assert z < |all| ==> all[z] == ds[0];
  }

  /** A number in another base has the same value and the same count of leading zeros. */
  lemma RebaseKeeps(a: nat, b: nat, ds: seq<nat>)
    requires b > 1
    ensures LeadingZeroes(Rebase(a, b, ds)) == LeadingZeroes(ds)
    ensures Value(b, Rebase(a, b, ds)) == Value(a, ds)
  {
    var z, core := LeadingZeroes(ds), Digits(b, Value(a, ds));
    LeadingZeroesOf(z, core);
    ValueLeadingZeroes(b, z, core);
    DigitsValue(b, Value(a, ds));
  }

  lemma RebaseInverse(a: nat, b: nat, ds: seq<nat>)
    requires a > 1 && b > 1 && DigitsBelow(a, ds)
    ensures Rebase(b, a, Rebase(a, b, ds)) == ds
  {
    hide Value, Digits;
    var z := LeadingZeroes(ds);
    RebaseKeeps(a, b, ds);
    SkipZeroes(a, ds, z);
    assert ds == ds[..z] + ds[z..];
  }

  function Encode(v: seq<byte>): string {
    Chars(Rebase(256, 58, v))
  }

  function DropLeadingSpace(s: string): string {
    if s != [] && IsSpace(s[0]) then DropLeadingSpace(s[1..]) else s
  }

  function DropTrailingSpace(s: string): string {
    if s != [] && IsSpace(s[|s| - 1]) then DropTrailingSpace(s[..|s| - 1]) else s
  }

  function Trim(s: string): string {
    DropTrailingSpace(DropLeadingSpace(s))
  }

  /** The accepted strings and their meaning, said without the loops of the decoder. */
  ghost function Decode(s: string): Option<seq<byte>> {
    if AllAlphabet(Trim(s)) then Some(Rebase(58, 256, DigitsOf(Trim(s)))) else None
  }

  // ---------- round trips ----------

  /** A string decodes to `v` exactly when, stripped of surrounding space, it is the encoding of `v`. */
  lemma DecodeIff(s: string, v: seq<byte>)
    ensures Decode(s) == Some(v) <==> Encode(v) == Trim(s)
  {
    var t := Trim(s);
    var code := Rebase(256, 58, v);
    CharsInverse(code, t);
    RebaseInverse(256, 58, v);
    if AllAlphabet(t) {
      RebaseInverse(58, 256, DigitsOf(t));
    }
  }

  lemma {:induction false} TrimAlphabet(s: string)
    requires AllAlphabet(s)
    ensures Trim(s) == s
  {
    if s != [] {
      AlphabetNotSpace(s[0]);
      AlphabetNotSpace(s[|s| - 1]);
    }
  }

  /** Every byte string survives, leading zero bytes included. */
  lemma DecodeEncode(v: seq<byte>)
    ensures Decode(Encode(v)) == Some(v)
  {
    CharsInverse(Rebase(256, 58, v), Encode(v));
    TrimAlphabet(Encode(v));
    DecodeIff(Encode(v), v);
  }

  /** Decoding is injective up to surrounding white space. */
  lemma DecodeInjective(s: string, t: string)
    requires Decode(s).Some? && Decode(s) == Decode(t)
    ensures Trim(s) == Trim(t)
  {
    DecodeIff(s, Decode(s).value);
    DecodeIff(t, Decode(s).value);
  }

  ghost predicate SpaceBetween(s: string, p: nat, q: nat)
    requires p <= q <= |s|
  {
    forall i :: p <= i < q ==> IsSpace(s[i])
  }

  /** The core of a string is fixed by where its non-space part begins and ends. */
  lemma {:induction false} LeadingSpaceAt(s: string, p: nat)
    requires p <= |s| && SpaceBetween(s, 0, p) && (p < |s| ==> !IsSpace(s[p]))
    ensures DropLeadingSpace(s) == s[p..]
  {
    if p > 0 {
      LeadingSpaceAt(s[1..], p - 1);
    }
  }

  lemma {:induction false} TrailingSpaceAt(s: string, p: nat)
    requires p <= |s| && SpaceBetween(s, p, |s|) && (p > 0 ==> !IsSpace(s[p - 1]))
    ensures DropTrailingSpace(s) == s[..p]
  {
    if p < |s| {
      TrailingSpaceAt(s[..|s| - 1], p);
      assert s[..|s| - 1][..p] == s[..p];
    }
  }

  /** Only white space is ever dropped from the end. */
  lemma {:induction false} TrailingKeeps(s: string, k: nat)
    requires k < |s| && !IsSpace(s[k])
    ensures k < |DropTrailingSpace(s)| && DropTrailingSpace(s) <= s
  {
    if IsSpace(s[|s| - 1]) {
      TrailingKeeps(s[..|s| - 1], k);
    }
  }

  lemma TrimAt(s: string, p: nat, q: nat)
    requires p <= q <= |s| && SpaceBetween(s, 0, p) && SpaceBetween(s, q, |s|)
    requires p < |s| ==> !IsSpace(s[p])
    requires p < q ==> !IsSpace(s[q - 1])
    ensures Trim(s) == s[p..q]
  {
    LeadingSpaceAt(s, p);
    TrailingSpaceAt(s[p..], q - p);
    assert s[p..][..q - p] == s[p..q];
  }

  lemma SplitSpaces(s: string) returns (p: nat, q: nat)
    ensures p <= q <= |s|
    ensures SpaceBetween(s, 0, p) && SpaceBetween(s, q, |s|) && Trim(s) == s[p..q]
  {
    p := 0;
    while p < |s| && IsSpace(s[p])
      invariant p <= |s| && SpaceBetween(s, 0, p)
    {
      p := p + 1;
    }
    q := |s|;
    while q > p && IsSpace(s[q - 1])
      invariant p <= q <= |s| && SpaceBetween(s, q, |s|)
    {
      q := q - 1;
    }
    TrimAt(s, p, q);
  }

  lemma TrimCore(s: string, p: nat, q: nat)
    requires p <= q <= |s| && SpaceBetween(s, 0, p) && AllAlphabet(s[p..q]) && SpaceBetween(s, q, |s|)
    ensures Trim(s) == s[p..q]
  {
    if p == q {
      TrimAt(s, |s|, |s|);
    } else {
      assert s[p] == s[p..q][0] && s[q - 1] == s[p..q][q - 1 - p];
      AlphabetNotSpace(s[p]);
      AlphabetNotSpace(s[q - 1]);
      TrimAt(s, p, q);
    }
  }

  /** Space, then alphabet characters, then space. */
  ghost predicate WellFormed(s: string) {
    exists p, q :: 0 <= p <= q <= |s| && SpaceBetween(s, 0, p) && AllAlphabet(s[p..q]) && SpaceBetween(s, q, |s|)
  }

  /** Exactly the strings of that form are accepted. */
  lemma DecodeAccepts(s: string)
    ensures Decode(s).Some? <==> WellFormed(s)
  {
    var p0, q0 := SplitSpaces(s);
    if WellFormed(s) {
      var p, q :| 0 <= p <= q <= |s| && SpaceBetween(s, 0, p) && AllAlphabet(s[p..q]) && SpaceBetween(s, q, |s|);
      TrimCore(s, p, q);
    }
  }

  /** A character outside the alphabet with something other than space at or after it is fatal. */
  lemma Rejects(s: string, start: nat, k: nat, j: nat)
    requires start <= k <= j < |s| && SpaceBetween(s, 0, start) && !IsSpace(s[start])
    requires s[k] !in Alphabet() && !IsSpace(s[j])
    ensures Decode(s).None?
  {
    LeadingSpaceAt(s, start);
    TrailingKeeps(s[start..], j - start);
    assert Trim(s)[k - start] == s[k];
  }

  /** What an accepted string means once its leading ones are counted apart. */
  lemma DecodedCore(s: string, start: nat, zeroes: nat, end: nat, digits: seq<nat>)
    requires start + zeroes <= end <= |s|
    requires SpaceBetween(s, 0, start) && SpaceBetween(s, end, |s|)
    requires forall i :: start <= i < start + zeroes ==> s[i] == '1'
    requires AllAlphabet(s[start + zeroes..end]) && digits == DigitsOf(s[start + zeroes..end])
    requires start + zeroes < end ==> s[start + zeroes] != '1'
    ensures Decode(s) == Some(Zeros(zeroes) + Digits(256, Value(58, digits)))
  {
    var core, rest := s[start..end], s[start + zeroes..end];
    var all := Zeros(zeroes) + digits;
    assert core == Chars(all) by {
      forall i | 0 <= i < |core| ensures core[i] == Alphabet()[all[i]] {
        if i >= zeroes { assert core[i] == rest[i - zeroes]; }
      }
    }
    CharsInverse(all, core);
    TrimCore(s, start, end);
    if digits != [] {
      assert Alphabet()[digits[0]] == rest[0] == s[start + zeroes];
    }
    LeadingZeroesOf(zeroes, digits);
    ValueLeadingZeroes(58, zeroes, digits);
  }

  // ---------- buffer sizes ----------

  lemma Certificate58()
    ensures Pow(256, 8) <= Pow(58, 11)
  {
    assert Pow(256, 4) == 4294967296;
    PowAdd(256, 4, 4);
    assert Pow(58, 3) == 195112;
    PowAdd(58, 3, 3);
    PowAdd(58, 6, 3);
    PowAdd(58, 9, 2);
    assert Pow(58, 2) == 3364;
  }

  /** `n * 138 / 100 + 1` base-58 cells hold any n-byte number. */
  lemma EncodeFits(n: nat)
    ensures Pow(256, n) <= Pow(58, n * 138 / 100 + 1)
  {
    Certificate58();
    PowersCompare(256, 58, 8, 11, n, n * 138 / 100 + 1);
  }

  lemma PowSum(b: nat, m: nat, n: nat, x: nat, y: nat)
    requires Pow(b, m) == x && Pow(b, n) == y
    ensures Pow(b, m + n) == x * y
  {
    PowAdd(b, m, n);
  }

  const POW58_32: nat := 268965015114358137726910587140455987105619365599731777536
  const POW256_16: nat := 340282366920938463463374607431768211456

  lemma Power58At32()
    ensures Pow(58, 32) == POW58_32
  {
    assert Pow(58, 4) == 11316496;
    PowSum(58, 4, 4, 11316496, 11316496);
    PowSum(58, 8, 8, 128063081718016, 128063081718016);
    PowSum(58, 16, 16, 16400152899115243850138976256, 16400152899115243850138976256);
  }

  lemma Power58At71()
    ensures Pow(58, 71) == POW58_32 * POW58_32 * 2207984167552
  {
    assert Pow(58, 3) == 195112 && Pow(58, 4) == 11316496;
    Power58At32();
    PowSum(58, 32, 32, POW58_32, POW58_32);
    PowSum(58, 4, 3, 11316496, 195112);
    PowSum(58, 64, 7, POW58_32 * POW58_32, 2207984167552);
  }

  lemma Power256At16()
    ensures Pow(256, 16) == POW256_16
  {
    assert Pow(256, 4) == 4294967296;
    PowSum(256, 4, 4, 4294967296, 4294967296);
    PowSum(256, 8, 8, 18446744073709551616, 18446744073709551616);
  }

  lemma Power256At52()
    ensures Pow(256, 52) == POW256_16 * POW256_16 * POW256_16 * 4294967296
  {
    assert Pow(256, 4) == 4294967296;
    Power256At16();
    PowSum(256, 16, 16, POW256_16, POW256_16);
    PowSum(256, 32, 16, POW256_16 * POW256_16, POW256_16);
    PowSum(256, 48, 4, POW256_16 * POW256_16 * POW256_16, 4294967296);
  }

  /** `n * 733 / 1000 + 1` bytes hold any number of n base-58 digits. */
  lemma DecodeFits(n: nat)
    ensures Pow(58, n) <= Pow(256, n * 733 / 1000 + 1)
  {
    Power58At71();
    Power256At52();
    PowersCompare(58, 256, 71, 52, n, n * 733 / 1000 + 1);
  }

  // ---------- the carry loops ----------

  lemma Weigh(radix: nat, factor: nat, w: nat, carry: nat, d: nat, q: nat, r: nat, tail: nat, wasTail: nat, addend: nat)
    requires tail + carry * w == wasTail * factor + addend
    requires q * radix + r == carry + factor * d
    ensures r * w + tail + q * (radix * w) == (d * w + wasTail) * factor + addend
  {
    assert (q * radix + r) * w == q * (radix * w) + r * w;
    assert (carry + factor * d) * w == carry * w + (d * w) * factor;
    assert (d * w + wasTail) * factor == (d * w) * factor + wasTail * factor;
  }

  /** The carry handed to the next cell stays below the factor. */
  lemma CarryBelow(radix: nat, factor: nat, carry: nat, d: nat, q: nat, r: nat)
    requires carry < factor && d < radix
    requires q * radix + r == carry + factor * d
    ensures q < factor
  {
    MulMono(factor, d + 1, radix);
    if q >= factor {
      MulMono(radix, factor, q);
      assert false;
    }
  }

  /** One cell of the pass: what leaves the cell is carried, and nothing is lost. */
  lemma PassStep(radix: nat, factor: nat, carry: nat, addend: nat, d: nat, q: nat, r: nat,
                 tail: seq<nat>, wasTail: seq<nat>)
    requires |tail| == |wasTail|
    requires q * radix + r == carry + factor * d
    requires Value(radix, tail) + carry * Pow(radix, |tail|) == Value(radix, wasTail) * factor + addend
    ensures Value(radix, [r] + tail) + q * Pow(radix, |tail| + 1) == Value(radix, [d] + wasTail) * factor + addend
  {
    Weigh(radix, factor, Pow(radix, |tail|), carry, d, q, r, Value(radix, tail), Value(radix, wasTail), addend);
    ValueCons(radix, r, tail);
    ValueCons(radix, d, wasTail);
  }

  /** One cell: what leaves it is the next carry, what stays is a digit. */
  method Cell(radix: nat, factor: nat, carry: nat, d: nat, ghost addend: nat,
              ghost tail: seq<nat>, ghost wasTail: seq<nat>)
    returns (q: nat, r: nat)
    requires 0 < radix && carry < factor && d < radix && |tail| == |wasTail|
    requires Value(radix, tail) + carry * Pow(radix, |tail|) == Value(radix, wasTail) * factor + addend
    ensures q < factor && r < radix
    ensures Value(radix, [r] + tail) + q * Pow(radix, |tail| + 1) == Value(radix, [d] + wasTail) * factor + addend
  {
    var out := carry + factor * d;
    DivParts(out, radix);
    q, r := out / radix, out % radix;
    CarryBelow(radix, factor, carry, d, q, r);
    PassStep(radix, factor, carry, addend, d, q, r, tail, wasTail);
  }

  /** Multiplies the number in the cells by the factor and adds the digit, in place, the last and least
      significant cell first. */
  method MultiplyAdd(cells: array<byte>, radix: nat, factor: nat, addend: nat) returns (carry: nat)
    requires 1 < radix <= 256 && addend < factor
    requires DigitsBelow(radix, cells[..])
    modifies cells
    ensures DigitsBelow(radix, cells[..])
    ensures Value(radix, cells[..]) + carry * Pow(radix, cells.Length) == Value(radix, old(cells[..])) * factor + addend
    ensures carry < factor
  {
    carry := addend;
    var i := cells.Length;
    ghost var was: seq<nat> := cells[..];
    ghost var tail: seq<nat>, wasTail: seq<nat> := [], [];
    while i > 0
      invariant 0 <= i <= cells.Length
      invariant cells[..i] == was[..i]
      invariant cells[i..] == tail && was[i..] == wasTail
      invariant DigitsBelow(radix, tail)
      invariant carry < factor
      invariant Value(radix, tail) + carry * Pow(radix, |tail|) == Value(radix, wasTail) * factor + addend
    {
      i := i - 1;
      assert cells[i] == cells[..i + 1][i] == was[i];
      var r;
      carry, r := Cell(radix, factor, carry, cells[i], addend, tail, wasTail);
      cells[i] := r;
      tail, wasTail := [r] + tail, [was[i]] + wasTail;
      assert cells[i..] == tail && was[i..] == wasTail;
    }
    assert cells[..] == tail && was == wasTail;
  }

  /** A result that fits in the cells leaves no carry. */
  lemma NoCarry(value: nat, carry: nat, total: nat, w: nat)
    requires value + carry * w == total && total < w
    ensures carry == 0
  {
    if carry > 0 {
      MulMono(w, 1, carry);
    }
  }

  lemma {:induction false} ZeroesValue(base: nat, n: nat)
    ensures Value(base, Zeros(n)) == 0
  {
    ValueLeadingZeroes(base, n, []);
    assert Zeros(n) + [] == Zeros(n);
  }

  /** One digit of input: the pass multiplies the number so far and never overflows the cells. */
  method Append(cells: array<byte>, radix: nat, from: nat, ghost done: seq<nat>, digit: nat, ghost limit: nat)
    requires 1 < radix <= 256 && digit < from
    requires DigitsBelow(radix, cells[..]) && DigitsBelow(from, done) && |done| < limit
    requires Value(radix, cells[..]) == Value(from, done)
    requires Pow(from, limit) <= Pow(radix, cells.Length)
    modifies cells
    ensures DigitsBelow(radix, cells[..])
    ensures Value(radix, cells[..]) == Value(from, done + [digit])
  {
    var carry := MultiplyAdd(cells, radix, from, digit);
    ValueSnoc(from, done, digit);
    ValueBelow(from, done + [digit]);
    PowMono(from, |done| + 1, limit);
    NoCarry(Value(radix, cells[..]), carry, Value(from, done + [digit]), Pow(radix, cells.Length));
    assert carry == 0;
  }

  /** Skips the leading zero cells; what is left is the minimal representation. */
  method SkipLeadingCells(cells: array<byte>, radix: nat) returns (it: nat)
    requires radix > 1 && DigitsBelow(radix, cells[..])
    ensures it <= cells.Length && cells[it..] == Digits(radix, Value(radix, cells[..]))
  {
    it := 0;
    while it != cells.Length && cells[it] == 0
      invariant it <= cells.Length && cells[..it] == Zeros(it)
    {
      it := it + 1;
    }
    SkipZeroes(radix, cells[..], it);
    assert cells[..][it..] == cells[it..];
  }

  method NewCells(n: nat, radix: nat) returns (cells: array<byte>)
    requires radix > 0
    ensures fresh(cells) && cells.Length == n
    ensures DigitsBelow(radix, cells[..]) && Value(radix, cells[..]) == 0
  {
    cells := new byte[n](_ => 0);
    assert cells[..] == Zeros(n);
    ZeroesValue(radix, n);
  }

  /** Translates the digits from `it` on into a string, after `zeroes` ones. */
  method Translate(zeroes: nat, b58: array<byte>, it: nat) returns (str: string)
    requires it <= b58.Length && DigitsBelow(58, b58[it..])
    ensures str == Chars(Zeros(zeroes) + b58[it..])
  {
    str := seq(zeroes, _ => Alphabet()[0]);
    ghost var digits: seq<nat> := b58[it..];
    var k := it;
    while k != b58.Length
      invariant it <= k <= b58.Length
      invariant str == Chars(Zeros(zeroes) + digits[..k - it])
    {
      assert b58[k] == digits[k - it];
      str := str + [Alphabet()[b58[k]]];
      k := k + 1;
    }
    assert digits[..k - it] == digits;
  }

  /** The conversion loop: base-58 cells of the bytes from `from` on. */
  method ReadBytes(v: seq<byte>, from: nat) returns (b58: array<byte>)
    requires from <= |v|
    ensures fresh(b58) && DigitsBelow(58, b58[..])
    ensures Value(58, b58[..]) == Value(256, v[from..])
  {
    b58 := NewCells((|v| - from) * 138 / 100 + 1, 58);
    EncodeFits(|v| - from);
    var p := from;
    ghost var done: seq<nat> := [];
    while p != |v|
      invariant from <= p <= |v| && done == v[from..p]
      invariant DigitsBelow(58, b58[..])
      invariant Value(58, b58[..]) == Value(256, done)
    {
      SliceSnoc(v, from, p);
      Append(b58, 58, 256, done, v[p], |v| - from);
      done := done + [v[p]];
      p := p + 1;
    }
    assert done == v[from..];
  }

  method EncodeBase58(v: seq<byte>) returns (str: string)
    ensures str == Encode(v)
  {
    // Leading zero bytes are counted apart.
    var zeroes := 0;
    while zeroes != |v| && v[zeroes] == 0
      invariant zeroes <= |v| && v[..zeroes] == Zeros(zeroes)
    {
      zeroes := zeroes + 1;
    }
    ValueAfterZeroes(256, v, zeroes);
    var b58 := ReadBytes(v, zeroes);
    var it := SkipLeadingCells(b58, 58);
    str := Translate(zeroes, b58, it);
    EncodeIs(v, zeroes, b58[it..]);
  }

  lemma EncodeIs(v: seq<byte>, zeroes: nat, digits: seq<nat>)
    requires LeadingZeroes(v) == zeroes && digits == Digits(58, Value(256, v))
    ensures Encode(v) == Chars(Zeros(zeroes) + digits)
  {
  }

  lemma ValueAfterZeroes(base: nat, ds: seq<nat>, n: nat)
    requires n <= |ds| && ds[..n] == Zeros(n) && (n < |ds| ==> ds[n] != 0)
    ensures LeadingZeroes(ds) == n && Value(base, ds[n..]) == Value(base, ds)
  {
    assert ds == Zeros(n) + ds[n..];
    LeadingZeroesOf(n, ds[n..]);
    ValueLeadingZeroes(base, n, ds[n..]);
  }

  // ---------- the decoder ----------

  type CString = s: string | '\0' !in s

  /** `psz[p]` of a zero-terminated string. */
  function At(psz: CString, p: nat): char {
    if p < |psz| then psz[p] else '\0'
  }

  /** An embedded zero character ends a string passed on as a C string. */
  function CStr(s: string): (r: CString)
    ensures r <= s
    ensures |r| < |s| ==> s[|r|] == '\0'
  {
    if s == [] || s[0] == '\0' then [] else [s[0]] + CStr(s[1..])
  }

  /** Moves past white space. */
  method SkipSpaces(psz: CString, from: nat) returns (p: nat)
    requires from <= |psz|
    ensures from <= p <= |psz| && SpaceBetween(psz, from, p)
    ensures !IsSpace(At(psz, p))
  {
    p := from;
    while IsSpace(At(psz, p))
      invariant from <= p <= |psz| && SpaceBetween(psz, from, p)
      decreases |psz| - p
    {
      p := p + 1;
    }
  }

  /** Skips and counts leading '1's. */
  method SkipOnes(psz: CString, start: nat) returns (zeroes: nat)
    requires start <= |psz|
    ensures start + zeroes <= |psz| && At(psz, start + zeroes) != '1'
    ensures forall i :: start <= i < start + zeroes ==> psz[i] == '1'
  {
    zeroes := 0;
    while At(psz, start + zeroes) == '1'
      invariant start + zeroes <= |psz|
      invariant forall i :: start <= i < start + zeroes ==> psz[i] == '1'
      decreases |psz| - zeroes
    {
      zeroes := zeroes + 1;
    }
  }

  method Lookup(c: char) returns (ch: Option<nat>)
    ensures ch.Some? <==> c in Alphabet()
    ensures ch.Some? ==> ch.value == DigitOf(c)
  {
    ch := StrChr(Alphabet(), c);
    if ch.Some? {
      AlphabetInjective(ch.value, DigitOf(c));
    }
  }

  /** The conversion loop: reads alphabet characters up to a space or the end, or meets another character. */
  method ReadDigits(psz: CString, first: nat) returns (ok: bool, p: nat, b256: array<byte>)
    requires first <= |psz|
    ensures fresh(b256) && DigitsBelow(256, b256[..])
    ensures first <= p <= |psz| && AllAlphabet(psz[first..p])
    ensures ok ==> Value(256, b256[..]) == Value(58, DigitsOf(psz[first..p]))
    ensures ok ==> p == |psz| || IsSpace(psz[p])
    ensures !ok ==> p < |psz| && psz[p] !in Alphabet() && !IsSpace(psz[p])
  {
    hide AllAlphabet, DigitsOf;
    b256 := NewCells((|psz| - first) * 733 / 1000 + 1, 256);
    DecodeFits(|psz| - first);
    p := first;
    ghost var done := "";
    NoDigits();
    while At(psz, p) != '\0' && !IsSpace(At(psz, p))
      invariant first <= p <= |psz| && done == psz[first..p]
      invariant AllAlphabet(done) && |DigitsOf(done)| == p - first && DigitsBelow(58, DigitsOf(done))
      invariant DigitsBelow(256, b256[..])
      invariant Value(256, b256[..]) == Value(58, DigitsOf(done))
      decreases |psz| - p
    {
      var ch := Lookup(psz[p]);
      if ch.None? {
        return false, p, b256;
      }
      Append(b256, 256, 58, DigitsOf(done), ch.value, |psz| - first);
      DigitsSnoc(done, psz[p]);
      SliceSnoc(psz, first, p);
      done := done + [psz[p]];
      p := p + 1;
    }
    ok := true;
  }

  lemma NoDigits()
    ensures AllAlphabet("") && DigitsOf("") == []
  {
  }

  lemma DigitsSnoc(s: string, c: char)
    requires AllAlphabet(s) && c in Alphabet()
    ensures AllAlphabet(s + [c]) && DigitsOf(s + [c]) == DigitsOf(s) + [DigitOf(c)]
    ensures |DigitsOf(s)| == |s| && DigitsBelow(58, DigitsOf(s + [c]))
  {
  }

  method DecodeBase58(psz: CString, vch: Buffer) returns (ok: bool)
    modifies vch
    ensures ok <==> Decode(psz).Some?
    ensures vch.bytes == if ok then Decode(psz).value else old(vch.bytes)
  {
    var start := SkipSpaces(psz, 0);
    var zeroes := SkipOnes(psz, start);
    var converted, end, b256 := ReadDigits(psz, start + zeroes);
    if !converted {
      Rejects(psz, start, end, end);
      return false;
    }
    var p := SkipSpaces(psz, end);
    if At(psz, p) != '\0' {
      if psz[end] in Alphabet() { AlphabetNotSpace(psz[end]); }
      Rejects(psz, start, end, p);
      return false;
    }
    DecodedCore(psz, start, zeroes, end, DigitsOf(psz[start + zeroes..end]));
    // The output is the counted zeros and the cells from the first non-zero one on.
    var it := SkipLeadingCells(b256, 256);
    vch.bytes := Zeros(zeroes) + b256[it..];
    return true;
  }
}
