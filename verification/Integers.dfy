/** Fixed-width big-endian integers (util/pack.cpp `packi*`, `unpacki*`, `unpacku*`). */
module Integers {
  import opened Bytes
  import opened Positional

  /** The low `w` bytes of `n`, most significant first; negative numbers in two's complement. */
  function BigEndian(w: nat, n: int): (b: seq<byte>)
    ensures |b| == w
  {
    if w == 0 then [] else BigEndian(w - 1, n / 256) + [n % 256]
  }

  function Unsigned(b: seq<byte>): nat {
    Value(256, b)
  }

  /** 256 to the power `w`, for the widths in use. */
  function Modulus(w: nat): (m: nat)
    requires w in {1, 2, 4, 8}
  {
    if w == 1 then 0x100 else if w == 2 then 0x1_0000 else if w == 4 then 0x1_0000_0000 else 0x1_0000_0000_0000_0000
  }

  lemma ModulusPow(w: nat)
    requires w in {1, 2, 4, 8}
    ensures Modulus(w) == Pow(256, w)
  {
    assert Pow(256, 1) == 256 && Pow(256, 2) == 65536 && Pow(256, 4) == 4294967296;
    PowAdd(256, 4, 4);
  }

  /** The signed number with these bytes in two's complement. */
  function Resign(w: nat, u: nat): int
    requires w in {1, 2, 4, 8}
  {
    if u <= Modulus(w) / 2 - 1 then u else -1 - (Modulus(w) - 1 - u)
  }

  lemma {:induction false} UnsignedBigEndian(w: nat, n: nat)
    requires n < Pow(256, w)
    ensures Unsigned(BigEndian(w, n)) == n
  {
    if w > 0 {
      DivParts(n, 256);
      UnsignedBigEndian(w - 1, n / 256);
      ValueSnoc(256, BigEndian(w - 1, n / 256), n % 256);
    }
  }

  /** Only the residue matters. */
  lemma {:induction false} BigEndianMod(w: nat, n: int, k: int)
    ensures BigEndian(w, n + k * Pow(256, w)) == BigEndian(w, n)
  {
    if w > 0 {
      var t := k * Pow(256, w - 1);
      assert k * Pow(256, w) == t * 256;
      assert (n + t * 256) / 256 == n / 256 + t && (n + t * 256) % 256 == n % 256;
      BigEndianMod(w - 1, n / 256, k);
    }
  }

  lemma UnsignedMod(w: nat, n: int)
    requires w in {1, 2, 4, 8}
    ensures Unsigned(BigEndian(w, n)) == n % Modulus(w)
  {
    ModulusPow(w);
    var m := Modulus(w);
    var q, r := n / m, n % m;
    BigEndianMod(w, r, q);
    assert r + q * m == n;
    UnsignedBigEndian(w, r);
  }

  /** An unsigned number comes back exactly when it fits. */
  lemma UnsignedSurvives(w: nat, n: int)
    requires w in {1, 2, 4, 8}
    ensures Unsigned(BigEndian(w, n)) == n <==> 0 <= n < Modulus(w)
  {
    UnsignedMod(w, n);
  }

  /** Re-signing recovers a signed number exactly when it is in the two's-complement range. */
  lemma SignedSurvives(w: nat, n: int)
    requires w in {1, 2, 4, 8}
    ensures Resign(w, Unsigned(BigEndian(w, n))) == n <==> -(Modulus(w) / 2) <= n < Modulus(w) / 2
  {
    UnsignedMod(w, n);
    ResignMod(w, Modulus(w), n);
  }

  lemma ResignMod(w: nat, m: nat, n: int)
    requires w in {1, 2, 4, 8} && m == Modulus(w)
    ensures 0 <= n % m && (Resign(w, n % m) == n <==> -(m / 2) <= n < m / 2)
  {
    if w == 1 {
      assert m == 0x100;
    } else if w == 2 {
      assert m == 0x1_0000;
    } else if w == 4 {
      assert m == 0x1_0000_0000;
    } else {
      assert m == 0x1_0000_0000_0000_0000;
    }
  }

  /** A nonzero leading byte makes a nonzero number. */
  lemma {:induction false} UnsignedLeading(b: seq<byte>)
    requires b != [] && b[0] > 0
    ensures Unsigned(b) > 0
  {
    ValueCons(256, b[0], b[1..]);
    assert b == [b[0]] + b[1..];
    MulMono(Pow(256, |b| - 1), 1, b[0]);
  }
}
