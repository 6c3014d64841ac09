/** Bytes, C strings and the small result types shared by every component. */
module Bytes {
  type byte = b: int | 0 <= b < 256

  /** The length of an agent's address and of every address field (netvend/common_constants.h). */
  const MAX_ADDRESS_SIZE := 34

  datatype Option<+T> = None | Some(value: T)

  /** The memory behind a `std::vector<unsigned char>` or a fixed `unsigned char[]`:
      the writers resize it and store through pointers into it. */
  class Buffer {
    var bytes: seq<byte>

    constructor ()
      ensures bytes == []
    {
      bytes := [];
    }

    /** `vector::resize` to a larger size: the new cells are zero. */
    method Resize(size: nat)
      requires |bytes| <= size
      modifies this
      ensures bytes == old(bytes) + Zeros(size - |old(bytes)|)
    {
      bytes := bytes + Zeros(size - |bytes|);
    }
  }

  function Zeros(n: nat): (z: seq<byte>)
    ensures |z| == n
  {
    seq(n, _ => 0)
  }

  /** What a reader of a `char*` sees: everything before the first zero byte. */
  function UpToNul(s: seq<byte>): (r: seq<byte>)
    ensures r <= s
    ensures 0 !in r
    ensures |r| < |s| ==> s[|r|] == 0
  {
    if s == [] || s[0] == 0 then [] else [s[0]] + UpToNul(s[1..])
  }

  /** A string without zero bytes survives zero padding. */
  lemma {:induction false} UpToNulPadded(s: seq<byte>, n: nat)
    requires 0 !in s
    ensures UpToNul(s + Zeros(n)) == s
  {
    if s == [] {
      assert s + Zeros(n) == Zeros(n);
    } else {
      assert (s + Zeros(n))[1..] == s[1..] + Zeros(n);
      UpToNulPadded(s[1..], n);
    }
  }

  /** The low byte of each character of an ASCII literal. */
  function Ascii(s: string): (r: seq<byte>)
    ensures |r| == |s|
    ensures forall i :: 0 <= i < |s| ==> r[i] == s[i] as int % 256
  {
    seq(|s|, i requires 0 <= i < |s| => s[i] as int % 256)
  }

  lemma SliceSnoc<T>(s: seq<T>, a: nat, b: nat)
    requires a <= b < |s|
    ensures s[a..b + 1] == s[a..b] + [s[b]]
  {
  }
}
