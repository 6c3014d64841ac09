/** Records on the wire: fields written by `pack` at the end of a growing vector and read by
    `unpack` at a moving pointer. */
module Wire {
  import opened Bytes
  import opened Positional
  import opened Integers
  import opened Pack

  /** Why a record could not be read. A read past the bytes at hand is undefined in the source. */
  datatype Failure = Truncated | UnknownCommand(typeChar: nat) | UnknownError(errorType: nat) | NoCommand | BadPacket

  /** A value and the bytes after it, or the reason there is none. */
  datatype Decoded<+T> = Got(value: T, rest: seq<byte>) | Failed(why: Failure)

  /** A method's outcome against a decoding function: same value and same place, or the same failure. */
  ghost predicate Follows<T>(d: Decoded<T>, value: Option<T>, why: Failure, left: seq<byte>) {
    match d
    case Failed(e) => value == None && why == e
    case Got(v, rest) => value == Some(v) && left == rest
  }

  // ---------- formats of unsigned fields ----------

  predicate Unsigneds(fmt: string) {
    fmt == [] || (ItemOf(fmt[0]).Some? && ItemOf(fmt[0]).value.Natural? && Unsigneds(fmt[1..]))
  }

  predicate InFields(fmt: string, ns: seq<nat>)
    requires Unsigneds(fmt)
  {
    if fmt == [] then ns == []
    else ns != [] && ns[0] < Modulus(ItemOf(fmt[0]).value.w) && InFields(fmt[1..], ns[1..])
  }

  function Ints(ns: seq<nat>): (vals: seq<Value>)
    ensures |vals| == |ns|
    ensures forall i :: 0 <= i < |ns| ==> vals[i] == Int(ns[i])
  {
    seq(|ns|, i requires 0 <= i < |ns| => Int(ns[i]))
  }

  function Put(fmt: string, ns: seq<nat>): (b: seq<byte>)
    requires Unsigneds(fmt) && InFields(fmt, ns)
  {
    if fmt == [] then [] else BigEndian(ItemOf(fmt[0]).value.w, ns[0]) + Put(fmt[1..], ns[1..])
  }

  function Take(fmt: string, buf: seq<byte>): (r: Decoded<seq<nat>>)
    requires Unsigneds(fmt)
    ensures r.Got? ==> |r.value| == |fmt|
  {
    if fmt == [] then Got([], buf) else
      var w := ItemOf(fmt[0]).value.w;
      if |buf| < w then Failed(Truncated) else
        match Take(fmt[1..], buf[w..])
        case Failed(e) => Failed(e)
        case Got(ns, rest) => Got([Unsigned(buf[..w])] + ns, rest)
  }

  function Size(fmt: string): nat
    requires Unsigneds(fmt)
  {
    if fmt == [] then 0 else ItemOf(fmt[0]).value.w + Size(fmt[1..])
  }

  lemma {:induction false} PutSize(fmt: string, ns: seq<nat>)
    requires Unsigneds(fmt) && InFields(fmt, ns)
    ensures |Put(fmt, ns)| == Size(fmt)
  {
    if fmt != [] { PutSize(fmt[1..], ns[1..]); }
  }

  /** The variables the addresses passed to `unpack` point to. */
  function Nats(vals: seq<Value>): (ns: seq<nat>) {
    seq(|vals|, i requires 0 <= i < |vals| => if vals[i].Int? && vals[i].n >= 0 then vals[i].n else 0)
  }

  lemma NatsInts(ns: seq<nat>)
    ensures Nats(Ints(ns)) == ns
  {
  }

  lemma IntsCons(ns: seq<nat>)
    requires ns != []
    ensures Ints(ns)[1..] == Ints(ns[1..])
    ensures Ints(ns) == [Int(ns[0])] + Ints(ns[1..])
  {
  }

  /** `Put` is what `pack` stores, and none of its assertions fail. */
  lemma {:induction false} PutIsPack(fmt: string, ns: seq<nat>)
    requires Unsigneds(fmt) && InFields(fmt, ns)
    ensures Matching(fmt, Ints(ns)) && AllAsserted(fmt, Ints(ns)) && PackBytes(fmt, Ints(ns)) == Put(fmt, ns)
    decreases fmt
  {
    if fmt != [] {
      PutIsPack(fmt[1..], ns[1..]);
      IntsCons(ns);
    }
  }

  lemma NaturalItem(w: nat, maxlen: nat, buf: seq<byte>)
    requires w in {1, 2, 4, 8}
    ensures ReadItem(Natural(w), maxlen, buf)
            == if |buf| < w then None else Some(ItemRead(Int(Unsigned(buf[..w])), w, w))
  {
  }

  /** `Take` is what `unpack` reads. */
  lemma {:induction false} TakeIsUnpack(fmt: string, maxlen: nat, buf: seq<byte>)
    requires Unsigneds(fmt)
    ensures match Take(fmt, buf)
            case Failed(e) => e == Truncated && UnpackBytes(fmt, maxlen, buf) == None
            case Got(ns, rest) =>
              && |rest| <= |buf|
              && UnpackBytes(fmt, maxlen, buf) == Some(Reading(Ints(ns), |buf| - |rest|))
    decreases fmt
  {
    hide ReadItem;
    if fmt == [] {
      assert Ints([]) == [];
    } else {
      var it, limit := ItemOf(fmt[0]).value, NextLimit(fmt[0], maxlen);
      NaturalItem(it.w, maxlen, buf);
      if it.w <= |buf| {
        var n := Unsigned(buf[..it.w]);
        TakeIsUnpack(fmt[1..], limit, buf[it.w..]);
        match Take(fmt[1..], buf[it.w..])
        case Failed(_) =>
        case Got(ns, rest) =>
          IntsCons([n] + ns);
          UnpackItem(fmt, maxlen, it, buf, Int(n), it.w, it.w, Reading(Ints(ns), |buf[it.w..]| - |rest|));
      }
    }
  }

  lemma TakeStep(fmt: string, buf: seq<byte>, w: nat, ns: seq<nat>, rest: seq<byte>)
    requires fmt != [] && Unsigneds(fmt) && w == ItemOf(fmt[0]).value.w <= |buf|
    requires Take(fmt[1..], buf[w..]) == Got(ns, rest)
    ensures Take(fmt, buf) == Got([Unsigned(buf[..w])] + ns, rest)
  {
  }

  lemma PutStep(fmt: string, n: nat, ns: seq<nat>, rest: seq<byte>)
    requires fmt != [] && Unsigneds(fmt) && n < Modulus(ItemOf(fmt[0]).value.w) && InFields(fmt[1..], ns)
    ensures InFields(fmt, [n] + ns)
    ensures Put(fmt, [n] + ns) + rest == BigEndian(ItemOf(fmt[0]).value.w, n) + (Put(fmt[1..], ns) + rest)
  {
    assert ([n] + ns)[1..] == ns;
    Regroup(BigEndian(ItemOf(fmt[0]).value.w, n), Put(fmt[1..], ns), rest);
  }

  lemma {:induction false} TakePut(fmt: string, ns: seq<nat>, rest: seq<byte>)
    requires Unsigneds(fmt) && InFields(fmt, ns)
    ensures Take(fmt, Put(fmt, ns) + rest) == Got(ns, rest)
    decreases fmt
  {
    if fmt == [] {
      assert ns == [] && Put(fmt, ns) + rest == rest;
    } else {
      hide Take, Put, BigEndian, Unsigned;
      var w, n, tail := ItemOf(fmt[0]).value.w, ns[0], ns[1..];
      assert [n] + tail == ns;
      TakePut(fmt[1..], tail, rest);
      PutStep(fmt, n, tail, rest);
      var head, after := BigEndian(w, n), Put(fmt[1..], tail) + rest;
      assert (head + after)[..w] == head && (head + after)[w..] == after;
      UnsignedSurvives(w, n);
      TakeStep(fmt, head + after, w, tail, rest);
    }
  }

  lemma {:induction false} PutTake(fmt: string, buf: seq<byte>)
    requires Unsigneds(fmt) && Take(fmt, buf).Got?
    ensures var t := Take(fmt, buf); InFields(fmt, t.value) && buf == Put(fmt, t.value) + t.rest
    decreases fmt
  {
    if fmt != [] {
      var w := ItemOf(fmt[0]).value.w;
      assert |buf| >= w && Take(fmt[1..], buf[w..]).Got?;
      PutTakeStep(fmt, buf, w);
    }
  }

  lemma {:induction false} PutTakeStep(fmt: string, buf: seq<byte>, w: nat)
    requires fmt != [] && Unsigneds(fmt) && w == ItemOf(fmt[0]).value.w <= |buf|
    requires Take(fmt[1..], buf[w..]).Got?
    ensures Take(fmt, buf).Got?
    ensures var t := Take(fmt, buf); InFields(fmt, t.value) && buf == Put(fmt, t.value) + t.rest
    decreases fmt, 0
  {
    hide Take, Put, BigEndian, Unsigned;
    var head, t := buf[..w], Take(fmt[1..], buf[w..]);
    PutTake(fmt[1..], buf[w..]);
    FieldBack(head);
    TakeStep(fmt, buf, w, t.value, t.rest);
    PutStep(fmt, Unsigned(head), t.value, t.rest);
    assert buf == head + buf[w..];
  }

  /** What a reading loop has so far, put before what it still has to read. */
  ghost function Prepended<T>(a: seq<T>, d: Decoded<seq<T>>): Decoded<seq<T>> {
    match d
    case Failed(e) => Failed(e)
    case Got(b, rest) => Got(a + b, rest)
  }

  lemma PrependedNothing<T>(d: Decoded<seq<T>>)
    ensures Prepended([], d) == d
  {
    if d.Got? {
      assert [] + d.value == d.value;
    }
  }

  lemma PrependedTwice<T>(a: seq<T>, c: T, d: Decoded<seq<T>>)
    ensures Prepended(a, Prepended([c], d)) == Prepended(a + [c], d)
  {
    if d.Got? {
      assert a + ([c] + d.value) == a + [c] + d.value;
    }
  }

  lemma Regroup<T>(a: seq<T>, b: seq<T>, c: seq<T>)
    ensures a + b + c == a + (b + c)
  {
  }

  lemma FieldBack(b: seq<byte>)
    requires |b| in {1, 2, 4, 8}
    ensures Unsigned(b) < Modulus(|b|) && BigEndian(|b|, Unsigned(b)) == b
  {
    ModulusPow(|b|);
    ValueBelow(256, b);
    BigEndianUnsigned(b);
  }

  /** Unsigned fields are read exactly where they were written: reading and writing determine each other. */
  lemma TakeIff(fmt: string, buf: seq<byte>, ns: seq<nat>, rest: seq<byte>)
    requires Unsigneds(fmt)
    ensures Take(fmt, buf) == Got(ns, rest) <==> InFields(fmt, ns) && buf == Put(fmt, ns) + rest
  {
    if Take(fmt, buf).Got? {
      PutTake(fmt, buf);
    }
    if InFields(fmt, ns) {
      TakePut(fmt, ns, rest);
    }
  }

  lemma {:induction false} BigEndianUnsigned(b: seq<byte>)
    ensures BigEndian(|b|, Unsigned(b)) == b
  {
    if b != [] {
      var init, d := b[..|b| - 1], b[|b| - 1];
      BigEndianUnsigned(init);
      DivModUnique(Unsigned(init), d, 256);
      assert b == init + [d];
    }
  }

  lemma OneField(ch: char, n: nat)
    requires Unsigneds([ch])
    ensures InFields([ch], [n]) <==> n < Modulus(ItemOf(ch).value.w)
  {
    assert [ch][1..] == [] && [n][1..] == [];
  }

  lemma TwoFields(c: char, d: char, m: nat, n: nat)
    requires Unsigneds([c, d]) && Unsigneds([d])
    ensures InFields([c, d], [m, n]) <==> m < Modulus(ItemOf(c).value.w) && n < Modulus(ItemOf(d).value.w)
  {
    assert [c, d][1..] == [d] && [m, n][1..] == [n];
    OneField(d, n);
  }

  /** The formats in use. */
  lemma Formats()
    ensures Unsigneds("C") && Unsigneds("H") && Unsigneds("L") && Unsigneds("Q")
    ensures Unsigneds("LH") && Unsigneds("CQ") && Unsigneds("QQ") && Unsigneds("LQ") && Unsigneds("LLQ")
    ensures forall n: nat :: InFields("C", [n]) <==> n < 0x100
    ensures forall n: nat :: InFields("H", [n]) <==> n < 0x1_0000
    ensures forall n: nat :: InFields("L", [n]) <==> n < 0x1_0000_0000
    ensures forall m: nat, n: nat :: InFields("LH", [m, n]) <==> m < 0x1_0000_0000 && n < 0x1_0000
    ensures forall m: nat, n: nat :: InFields("CQ", [m, n]) <==> m < 0x100 && n < 0x1_0000_0000_0000_0000
    ensures forall m: nat, n: nat :: InFields("QQ", [m, n])
              <==> m < 0x1_0000_0000_0000_0000 && n < 0x1_0000_0000_0000_0000
    ensures forall k: nat, m: nat, n: nat :: InFields("LLQ", [k, m, n])
              <==> k < 0x1_0000_0000 && m < 0x1_0000_0000 && n < 0x1_0000_0000_0000_0000
  {
    assert "LH"[1..] == "H" && "CQ"[1..] == "Q" && "QQ"[1..] == "Q" && "LLQ"[1..] == "LQ" && "LQ"[1..] == "Q";
    forall n: nat ensures InFields("C", [n]) <==> n < 0x100 { OneField('C', n); }
    forall n: nat ensures InFields("H", [n]) <==> n < 0x1_0000 { OneField('H', n); }
    forall n: nat ensures InFields("L", [n]) <==> n < 0x1_0000_0000 { OneField('L', n); }
    forall m: nat, n: nat ensures InFields("LH", [m, n]) <==> m < 0x1_0000_0000 && n < 0x1_0000 {
      TwoFields('L', 'H', m, n);
    }
    forall m: nat, n: nat ensures InFields("CQ", [m, n]) <==> m < 0x100 && n < 0x1_0000_0000_0000_0000 {
      TwoFields('C', 'Q', m, n);
    }
    forall m: nat, n: nat
      ensures InFields("QQ", [m, n]) <==> m < 0x1_0000_0000_0000_0000 && n < 0x1_0000_0000_0000_0000
    {
      TwoFields('Q', 'Q', m, n);
    }
    forall k: nat, m: nat, n: nat
      ensures InFields("LLQ", [k, m, n]) <==> k < 0x1_0000_0000 && m < 0x1_0000_0000 && n < 0x1_0000_0000_0000_0000
    {
      assert [k, m, n][1..] == [m, n];
      TwoFields('L', 'Q', m, n);
    }
  }

  // ---------- type characters and flags ----------

  function TakeTag(buf: seq<byte>): Decoded<byte> {
    if buf == [] then Failed(Truncated) else Got(buf[0], buf[1..])
  }

  /** A small type character is packed by "c" as itself. */
  lemma TagIsPack(t: nat)
    requires t <= 0x7f
    ensures Matching("c", [Int(t)]) && AllAsserted("c", [Int(t)]) && PackBytes("c", [Int(t)]) == [t]
  {
    ByteRead(t);
    assert PackBytes("c"[1..], [Int(t)][1..]) == [];
  }

  /** "c" read into an `unsigned char` keeps the byte, whatever its sign. */
  lemma TagIsUnpack(buf: seq<byte>)
    ensures UnpackBytes("c", 0, buf).Some? <==> buf != []
    ensures buf != [] ==> var r := UnpackBytes("c", 0, buf).value;
                          |r.vals| == 1 && r.vals[0].Int? && r.vals[0].n % 256 == buf[0] && r.size == 1
  {
    if buf != [] {
      ByteRead(buf[0]);
      assert buf[..1] == [buf[0]];
      var x := ReadItem(Signed(1), 0, buf).value;
      assert UnpackBytes("c"[1..], 0, buf[x.advance..]) == Some(Reading([], 0));
    }
  }

  function PutFlag(b: bool): seq<byte> {
    [if b then 1 else 0]
  }

  function TakeFlag(buf: seq<byte>): Decoded<bool> {
    if buf == [] then Failed(Truncated) else Got(buf[0] != 0, buf[1..])
  }

  lemma FlagIsPack(b: bool)
    ensures var v := Int(if b then 1 else 0);
            Matching("B", [v]) && AllAsserted("B", [v]) && PackBytes("B", [v]) == PutFlag(b)
  {
    var v := Int(if b then 1 else 0);
    assert PackBytes("B"[1..], [v][1..]) == [];
  }

  lemma FlagIsUnpack(buf: seq<byte>)
    ensures UnpackBytes("B", 0, buf)
            == if buf == [] then None else Some(Reading([Int(if buf[0] == 0 then 0 else 1)], 1))
  {
    if buf != [] {
      var v := Int(if buf[0] == 0 then 0 else 1);
      assert UnpackBytes("B"[1..], 0, buf[1..]) == Some(Reading([], 0));
      UnpackItem("B", 0, Boolean, buf, v, 1, 1, Reading([], 0));
      assert [v] + [] == [v];
    }
  }

  // ---------- blocks of bytes ----------

  function TakeBlock(n: nat, buf: seq<byte>): (r: Decoded<seq<byte>>) {
    if |buf| < n then Failed(Truncated) else Got(buf[..n], buf[n..])
  }

  lemma TakeBlockIff(n: nat, buf: seq<byte>, b: seq<byte>, rest: seq<byte>)
    ensures TakeBlock(n, buf) == Got(b, rest) <==> |b| == n && buf == b + rest
  {
    if |b| == n && buf == b + rest {
      assert buf[..n] == b && buf[n..] == rest;
    }
  }

  /** What is sent of a block whose size is stored in a field too narrow for it. The source still
      copies the whole block: what it writes past the end of the vector is undefined there. */
  function Cut(b: seq<byte>, m: nat): (r: seq<byte>)
    requires m > 0
    ensures |r| == |b| % m && r <= b
    ensures |b| < m ==> r == b
  {
    b[..|b| % m]
  }

  /** An address in its fixed field, filled up with zeros. */
  function PadAddress(a: seq<byte>): (p: seq<byte>)
    ensures |p| == MAX_ADDRESS_SIZE
  {
    if |a| <= MAX_ADDRESS_SIZE then a + Zeros(MAX_ADDRESS_SIZE - |a|) else a[..MAX_ADDRESS_SIZE]
  }

  /** It is read back exactly when it fits and no zero byte ends it early. */
  lemma PadAddressIff(a: seq<byte>)
    ensures UpToNul(PadAddress(a)) == a <==> |a| <= MAX_ADDRESS_SIZE && 0 !in a
  {
    if |a| <= MAX_ADDRESS_SIZE && 0 !in a {
      UpToNulPadded(a, MAX_ADDRESS_SIZE - |a|);
    }
  }

  /** A length field of format `fmt`, then that many bytes. */
  function PutCounted(fmt: string, b: seq<byte>): seq<byte>
    requires Unsigneds(fmt) && InFields(fmt, [|b|])
  {
    Put(fmt, [|b|]) + b
  }

  function TakeCounted(fmt: string, buf: seq<byte>): (r: Decoded<seq<byte>>)
    requires Unsigneds(fmt) && |fmt| == 1
  {
    match Take(fmt, buf)
    case Failed(e) => Failed(e)
    case Got(ns, rest) =>
      TakeIff(fmt, buf, ns, rest);
      TakeBlock(ns[0], rest)
  }

  lemma TakeCountedIff(fmt: string, buf: seq<byte>, b: seq<byte>, rest: seq<byte>)
    requires Unsigneds(fmt) && |fmt| == 1
    ensures TakeCounted(fmt, buf) == Got(b, rest) <==> InFields(fmt, [|b|]) && buf == PutCounted(fmt, b) + rest
  {
    TakeIff(fmt, buf, [|b|], b + rest);
    if InFields(fmt, [|b|]) {
      assert Put(fmt, [|b|]) + (b + rest) == PutCounted(fmt, b) + rest;
    }
    match Take(fmt, buf)
    case Failed(_) =>
    case Got(ns, r) =>
      TakeIff(fmt, buf, ns, r);
      assert ns == [ns[0]];
      TakeBlockIff(ns[0], r, b, rest);
      TakeBlockIff(|b|, b + rest, b, rest);
  }

  // ---------- the vector and the pointer ----------

  /** The vector grows by the size of the fields, which are packed into the new space. */
  method Append(vch: Buffer, fmt: string, ns: seq<nat>)
    requires Unsigneds(fmt) && InFields(fmt, ns)
    modifies vch
    ensures vch.bytes == old(vch.bytes) + Put(fmt, ns)
  {
    PutIsPack(fmt, ns);
    var place := |vch.bytes|;
    ghost var was := vch.bytes;
    vch.Resize(place + |Put(fmt, ns)|);
    var size := RunPack(vch, place, fmt, Ints(ns));
    place := place + size.value;
    assert place == |vch.bytes|;
    assert vch.bytes == was + Put(fmt, ns);
  }

  method AppendTag(vch: Buffer, t: nat)
    requires t <= 0x7f
    modifies vch
    ensures vch.bytes == old(vch.bytes) + [t]
  {
    TagIsPack(t);
    var place := |vch.bytes|;
    ghost var was := vch.bytes;
    vch.Resize(place + 1);
    var size := RunPack(vch, place, "c", [Int(t)]);
    assert vch.bytes == was + [t];
  }

  method AppendFlag(vch: Buffer, b: bool)
    modifies vch
    ensures vch.bytes == old(vch.bytes) + PutFlag(b)
  {
    FlagIsPack(b);
    var place := |vch.bytes|;
    ghost var was := vch.bytes;
    vch.Resize(place + 1);
    var size := RunPack(vch, place, "B", [Int(if b then 1 else 0)]);
    assert vch.bytes == was + PutFlag(b);
  }

  /** The address field: zeros first, then the address over them. */
  method AppendPadded(vch: Buffer, a: seq<byte>)
    modifies vch
    ensures vch.bytes == old(vch.bytes) + PadAddress(a)
  {
    var place := |vch.bytes|;
    var n := if |a| <= MAX_ADDRESS_SIZE then |a| else MAX_ADDRESS_SIZE;
    vch.Resize(place + MAX_ADDRESS_SIZE);
    vch.bytes := vch.bytes[..place] + a[..n] + vch.bytes[place + n..];
    assert a[..n] + Zeros(MAX_ADDRESS_SIZE)[n..] == PadAddress(a);
  }

  /** The vector grows by a block of bytes. */
  method AppendBlock(vch: Buffer, b: seq<byte>)
    modifies vch
    ensures vch.bytes == old(vch.bytes) + b
  {
    var place := |vch.bytes|;
    vch.Resize(place + |b|);
    vch.bytes := vch.bytes[..place] + b;
  }

  /** The readers' pointer to a pointer: a buffer and the place the next read starts. */
  class Pointer {
    const buf: seq<byte>
    var place: nat

    ghost predicate Valid()
      reads this
    {
      place <= |buf|
    }

    /** The bytes not read yet. */
    ghost function Left(): seq<byte>
      requires Valid()
      reads this
    {
      buf[place..]
    }

    constructor (buf: seq<byte>)
      ensures Valid() && this.buf == buf && Left() == buf
    {
      this.buf := buf;
      place := 0;
    }

    /** Unpacks at the place and moves it by the size reported; a read past the end yields no values. */
    method Read(fmt: string) returns (ns: Option<seq<nat>>)
      requires Valid() && Unsigneds(fmt)
      modifies this
      ensures Valid()
      ensures match Take(fmt, old(Left()))
              case Failed(e) => e == Truncated && ns == None
              case Got(v, rest) => ns == Some(v) && Left() == rest
    {
      hide UnpackBytes, Take;
      TakeIsUnpack(fmt, 0, buf[place..]);
      if Take(fmt, buf[place..]).Got? { PutTake(fmt, buf[place..]); }
      var r := RunUnpack(buf[place..], fmt);
      if r.None? { return None; }
      place := place + r.value.size;
      NatsInts(Take(fmt, old(Left())).value);
      ns := Some(Nats(r.value.vals));
    }

    method ReadBlock(n: nat) returns (b: Option<seq<byte>>)
      requires Valid()
      modifies this
      ensures Valid()
      ensures match TakeBlock(n, old(Left()))
              case Failed(e) => e == Truncated && b == None
              case Got(v, rest) => b == Some(v) && Left() == rest
    {
      if |buf| - place < n { return None; }
      b := Some(buf[place..place + n]);
      assert buf[place..][..n] == buf[place..place + n];
      place := place + n;
    }
  
    method ReadTag() returns (t: Option<byte>)
      requires Valid()
      modifies this
      ensures Valid()
      ensures match TakeTag(old(Left()))
              case Failed(e) => e == Truncated && t == None
              case Got(v, rest) => t == Some(v) && Left() == rest
    {
      hide UnpackBytes;
      TagIsUnpack(buf[place..]);
      var r := RunUnpack(buf[place..], "c");
      if r.None? { return None; }
      t := Some(r.value.vals[0].n % 256);
      place := place + r.value.size;
    }

    method ReadFlag() returns (b: Option<bool>)
      requires Valid()
      modifies this
      ensures Valid()
      ensures match TakeFlag(old(Left()))
              case Failed(e) => e == Truncated && b == None
              case Got(v, rest) => b == Some(v) && Left() == rest
    {
      hide UnpackBytes;
      FlagIsUnpack(buf[place..]);
      var r := RunUnpack(buf[place..], "B");
      if r.None? { return None; }
      b := Some(r.value.vals[0].n != 0);
      place := place + r.value.size;
    }
  }
}
