/** Commands and command batches (netvend/commands.cpp, first half). */
module Commands {
  import opened Bytes
  import opened Pack
  import opened Wire

  datatype Command =
    | CreatePocket
    | RequestPocketDepositAddress(pocketID: nat)
    | PocketTransfer(fromPocketID: nat, toPocketID: nat, amount: nat)
    | CreateFile(name: seq<byte>, newFilePocketID: nat)
    | UpdateFileByID(updatedID: nat, data: seq<byte>)
    | ReadFileByID(fileID: nat)
  {
    function TypeChar(): nat {
      match this
      case CreatePocket => 0
      case RequestPocketDepositAddress(_) => 1
      case PocketTransfer(_, _, _) => 2
      case CreateFile(_, _) => 3
      case UpdateFileByID(_, _) => 4
      case ReadFileByID(_) => 5
    }

    /** What the writer's types and assertions demand: 32-bit ids, a 64-bit amount, a 16-bit data size. */
    predicate Writable() {
      match this
      case CreatePocket => true
      case RequestPocketDepositAddress(p) => p < 0x1_0000_0000
      case PocketTransfer(f, t, a) => f < 0x1_0000_0000 && t < 0x1_0000_0000 && a < 0x1_0000_0000_0000_0000
      case CreateFile(_, p) => p < 0x1_0000_0000
      case UpdateFileByID(f, data) => f < 0x1_0000_0000 && |data| < 0x1_0000
      case ReadFileByID(f) => f < 0x1_0000_0000
    }

    /** A name is sent with its size in one byte. */
    function Sent(): Command {
      if CreateFile? then CreateFile(Cut(name, 0x100), newFilePocketID) else this
    }

    predicate Valid() {
      Writable() && (CreateFile? ==> |name| < 0x100)
    }
  }

  // ---------- one command ----------

  function EncodeBody(c: Command): seq<byte>
    requires c.Writable()
  {
    Formats();
    match c
    case CreatePocket => []
    case RequestPocketDepositAddress(p) => Put("L", [p])
    case PocketTransfer(f, t, a) => Put("LLQ", [f, t, a])
    case CreateFile(name, p) => PutCounted("C", Cut(name, 0x100)) + Put("L", [p])
    case UpdateFileByID(f, data) => Put("LH", [f, |data|]) + data
    case ReadFileByID(f) => Put("L", [f])
  }

  function Encode(c: Command): seq<byte>
    requires c.Writable()
  {
    [c.TypeChar()] + EncodeBody(c)
  }

  function DecodeBody(typeChar: nat, b: seq<byte>): Decoded<Command> {
    Formats();
    if typeChar == 0 then Got(CreatePocket, b)
    else if typeChar == 1 then
      match Take("L", b)
      case Failed(e) => Failed(e)
      case Got(ns, rest) => Got(RequestPocketDepositAddress(ns[0]), rest)
    else if typeChar == 2 then
      match Take("LLQ", b)
      case Failed(e) => Failed(e)
      case Got(ns, rest) => Got(PocketTransfer(ns[0], ns[1], ns[2]), rest)
    else if typeChar == 3 then DecodeCreateFile(b)
    else if typeChar == 4 then DecodeUpdateFile(b)
    else if typeChar == 5 then
      match Take("L", b)
      case Failed(e) => Failed(e)
      case Got(ns, rest) => Got(ReadFileByID(ns[0]), rest)
    else Failed(UnknownCommand(typeChar))
  }

  function DecodeCreateFile(b: seq<byte>): Decoded<Command> {
    Formats();
    match TakeCounted("C", b)
    case Failed(e) => Failed(e)
    case Got(name, more) =>
      match Take("L", more)
      case Failed(e) => Failed(e)
      case Got(ns, rest) => Got(CreateFile(name, ns[0]), rest)
  }

  function DecodeUpdateFile(b: seq<byte>): Decoded<Command> {
    Formats();
    match Take("LH", b)
    case Failed(e) => Failed(e)
    case Got(ns, more) =>
      match TakeBlock(ns[1], more)
      case Failed(e) => Failed(e)
      case Got(data, rest) => Got(UpdateFileByID(ns[0], data), rest)
  }

  function Decode(buf: seq<byte>): Decoded<Command> {
    match TakeTag(buf)
    case Failed(e) => Failed(e)
    case Got(t, b) => DecodeBody(t, b)
  }

  lemma CreateFileIff(b: seq<byte>, name: seq<byte>, p: nat, rest: seq<byte>)
    ensures DecodeCreateFile(b) == Got(CreateFile(name, p), rest)
            <==> CreateFile(name, p).Valid() && b == EncodeBody(CreateFile(name, p)) + rest
  {
    Formats();
    if p < 0x1_0000_0000 {
      var more := Put("L", [p]) + rest;
      TakeCountedIff("C", b, name, more);
      TakeIff("L", more, [p], rest);
      if |name| < 0x100 {
        Regroup(PutCounted("C", name), Put("L", [p]), rest);
      }
    }
    match TakeCounted("C", b)
    case Failed(_) =>
    case Got(n, m) =>
      TakeCountedIff("C", b, n, m);
      if Take("L", m).Got? {
        var ns := Take("L", m).value;
        assert ns == [ns[0]];
        TakeIff("L", m, ns, Take("L", m).rest);
        Regroup(PutCounted("C", n), Put("L", ns), Take("L", m).rest);
      }
  }

  lemma UpdateFileIff(b: seq<byte>, f: nat, data: seq<byte>, rest: seq<byte>)
    ensures DecodeUpdateFile(b) == Got(UpdateFileByID(f, data), rest)
            <==> UpdateFileByID(f, data).Valid() && b == EncodeBody(UpdateFileByID(f, data)) + rest
  {
    Formats();
    TakeIff("LH", b, [f, |data|], data + rest);
    TakeBlockIff(|data|, data + rest, data, rest);
    if UpdateFileByID(f, data).Valid() {
      Regroup(Put("LH", [f, |data|]), data, rest);
    }
    match Take("LH", b)
    case Failed(_) =>
    case Got(ns, m) =>
      assert ns == [ns[0], ns[1]];
      TakeBlockIff(ns[1], m, data, rest);
  }

  lemma OneNumber(b: seq<byte>, n: nat, rest: seq<byte>)
    ensures Unsigneds("L")
    ensures (n < 0x1_0000_0000 <==> InFields("L", [n]))
    ensures (Take("L", b).Got? && Take("L", b).value[0] == n && Take("L", b).rest == rest)
            <==> n < 0x1_0000_0000 && b == Put("L", [n]) + rest
  {
    Formats();
    TakeIff("L", b, [n], rest);
    if Take("L", b).Got? {
      assert Take("L", b).value == [Take("L", b).value[0]];
    }
  }

  lemma TransferIff(b: seq<byte>, f: nat, t: nat, a: nat, rest: seq<byte>)
    ensures DecodeBody(2, b) == Got(PocketTransfer(f, t, a), rest)
            <==> PocketTransfer(f, t, a).Valid() && b == EncodeBody(PocketTransfer(f, t, a)) + rest
  {
    Formats();
    TakeIff("LLQ", b, [f, t, a], rest);
    if Take("LLQ", b).Got? {
      var ns := Take("LLQ", b).value;
      assert ns == [ns[0], ns[1], ns[2]];
    }
  }

  lemma BodyIff(t: nat, b: seq<byte>, c: Command, rest: seq<byte>)
    ensures DecodeBody(t, b) == Got(c, rest)
            <==> c.TypeChar() == t && c.Valid() && b == EncodeBody(c) + rest
  {
    hide Take, Put;
    match c
    case CreatePocket => assert [] + rest == rest;
    case RequestPocketDepositAddress(p) => OneNumber(b, p, rest);
    case PocketTransfer(f, to, a) => TransferIff(b, f, to, a, rest);
    case CreateFile(name, p) => CreateFileIff(b, name, p, rest);
    case UpdateFileByID(f, data) => UpdateFileIff(b, f, data, rest);
    case ReadFileByID(f) => OneNumber(b, f, rest);
  }

  /** Reading a command and writing it determine each other: `c` is read, leaving `rest`, exactly
      when the bytes are the encoding of a valid `c` followed by `rest`. */
  lemma DecodeIff(buf: seq<byte>, c: Command, rest: seq<byte>)
    ensures Decode(buf) == Got(c, rest) <==> c.Valid() && buf == Encode(c) + rest
  {
    if buf != [] {
      BodyIff(buf[0], buf[1..], c, rest);
      if c.Valid() {
        var t: byte := c.TypeChar();
        Regroup([t], EncodeBody(c), rest);
        assert ([t] + (EncodeBody(c) + rest))[1..] == EncodeBody(c) + rest;
      }
      assert buf == [buf[0]] + buf[1..];
    }
  }

  /** Whatever the writer's assertions let through, the reader gets what was sent of it: the command
      itself exactly when a file name fits its size byte. */
  lemma WrittenIff(c: Command, rest: seq<byte>)
    requires c.Writable()
    ensures Decode(Encode(c) + rest) == Got(c.Sent(), rest)
    ensures c.Sent() == c <==> c.Valid()
  {
    assert Encode(c) == Encode(c.Sent());
    DecodeIff(Encode(c) + rest, c.Sent(), rest);
  }

  // ---------- batches ----------

  const MAX_COMMANDS := 255

  predicate ValidAll(cs: seq<Command>) {
    forall i :: 0 <= i < |cs| ==> cs[i].Valid()
  }

  predicate WritableAll(cs: seq<Command>) {
    forall i :: 0 <= i < |cs| ==> cs[i].Writable()
  }

  function SentAll(cs: seq<Command>): (sent: seq<Command>)
    ensures |sent| == |cs| && forall i :: 0 <= i < |cs| ==> sent[i] == cs[i].Sent()
    ensures WritableAll(cs) ==> ValidAll(sent)
    ensures WritableAll(cs) ==> (sent == cs <==> ValidAll(cs))
  {
    seq(|cs|, i requires 0 <= i < |cs| => cs[i].Sent())
  }

  function EncodeAll(cs: seq<Command>): seq<byte>
    requires WritableAll(cs)
  {
    if cs == [] then [] else Encode(cs[0]) + EncodeAll(cs[1..])
  }

  function DecodeMany(n: nat, buf: seq<byte>): Decoded<seq<Command>> {
    if n == 0 then Got([], buf) else
      match Decode(buf)
      case Failed(e) => Failed(e)
      case Got(c, more) =>
        match DecodeMany(n - 1, more)
        case Failed(e) => Failed(e)
        case Got(cs, rest) => Got([c] + cs, rest)
  }

  function EncodeBatch(cs: seq<Command>): seq<byte>
    requires WritableAll(cs) && |cs| <= MAX_COMMANDS
  {
    Formats();
    Put("C", [|cs|]) + EncodeAll(cs)
  }

  function DecodeBatch(buf: seq<byte>): Decoded<seq<Command>> {
    Formats();
    match Take("C", buf)
    case Failed(e) => Failed(e)
    case Got(ns, more) => DecodeMany(ns[0], more)
  }

  lemma {:induction false} DecodeManyIff(n: nat, buf: seq<byte>, cs: seq<Command>, rest: seq<byte>)
    ensures DecodeMany(n, buf) == Got(cs, rest) <==> |cs| == n && ValidAll(cs) && buf == EncodeAll(cs) + rest
    decreases n
  {
    hide Decode, Encode;
    if n == 0 {
      assert cs == [] ==> EncodeAll(cs) + rest == rest;
    } else {
      if |cs| == n && ValidAll(cs) {
        var c, tail := cs[0], cs[1..];
        var more := EncodeAll(tail) + rest;
        DecodeIff(buf, c, more);
        Regroup(Encode(c), EncodeAll(tail), rest);
        DecodeManyIff(n - 1, more, tail, rest);
        assert [c] + tail == cs;
      }
      if DecodeMany(n, buf) == Got(cs, rest) {
        DecodedMany(n, buf, cs, rest);
      }
    }
  }

  lemma {:induction false} DecodedMany(n: nat, buf: seq<byte>, cs: seq<Command>, rest: seq<byte>)
    requires n > 0 && DecodeMany(n, buf) == Got(cs, rest)
    ensures |cs| == n && ValidAll(cs) && buf == EncodeAll(cs) + rest
    decreases n, 0
  {
    hide Decode, Encode;
    var c, more := Decode(buf).value, Decode(buf).rest;
    DecodeIff(buf, c, more);
    assert cs[0] == c && cs[1..] == DecodeMany(n - 1, more).value;
    DecodeManyIff(n - 1, more, cs[1..], rest);
    assert ValidAll(cs);
    Regroup(Encode(c), EncodeAll(cs[1..]), rest);
  }

  /** At any place in any buffer, a batch is read exactly where it was written. */
  lemma DecodeBatchIff(buf: seq<byte>, cs: seq<Command>, rest: seq<byte>)
    ensures DecodeBatch(buf) == Got(cs, rest)
            <==> |cs| <= MAX_COMMANDS && ValidAll(cs) && buf == EncodeBatch(cs) + rest
  {
    Formats();
    if |cs| <= MAX_COMMANDS && ValidAll(cs) {
      var more := EncodeAll(cs) + rest;
      TakeIff("C", buf, [|cs|], more);
      DecodeManyIff(|cs|, more, cs, rest);
      Regroup(Put("C", [|cs|]), EncodeAll(cs), rest);
    }
    match Take("C", buf)
    case Failed(_) =>
    case Got(ns, more) =>
      assert ns == [ns[0]];
      TakeIff("C", buf, ns, more);
      DecodeManyIff(ns[0], more, cs, rest);
  }

  /** The bytes of a valid batch, perhaps with others after them. */
  ghost predicate BeginsWithBatch(buf: seq<byte>) {
    exists cs, rest :: |cs| <= MAX_COMMANDS && ValidAll(cs) && buf == EncodeBatch(cs) + rest
  }

  /** Exactly those decode. */
  lemma DecodesIff(buf: seq<byte>)
    ensures DecodeBatch(buf).Got? <==> BeginsWithBatch(buf)
  {
    hide EncodeBatch, DecodeBatch;
    match DecodeBatch(buf)
    case Got(cs, rest) => DecodeBatchIff(buf, cs, rest);
    case Failed(_) =>
      if BeginsWithBatch(buf) {
        var cs, rest :| |cs| <= MAX_COMMANDS && ValidAll(cs) && buf == EncodeBatch(cs) + rest;
        DecodeBatchIff(buf, cs, rest);
      }
  }

  lemma {:induction false} EncodeAllSent(cs: seq<Command>)
    requires WritableAll(cs)
    ensures EncodeAll(cs) == EncodeAll(SentAll(cs))
  {
    if cs != [] {
      EncodeAllSent(cs[1..]);
      assert SentAll(cs)[1..] == SentAll(cs[1..]);
      assert Encode(cs[0]) == Encode(cs[0].Sent());
    }
  }

  /** The reader gets what was sent of a batch: the batch itself exactly when every name fits. */
  lemma BatchWrittenIff(cs: seq<Command>, rest: seq<byte>)
    requires WritableAll(cs) && |cs| <= MAX_COMMANDS
    ensures DecodeBatch(EncodeBatch(cs) + rest) == Got(SentAll(cs), rest)
    ensures SentAll(cs) == cs <==> ValidAll(cs)
  {
    hide Put;
    EncodeAllSent(cs);
    DecodeBatchIff(EncodeBatch(cs) + rest, SentAll(cs), rest);
  }

  /** No batch's encoding is another's, nor the beginning of another's. */
  lemma BatchPrefixFree(a: seq<Command>, b: seq<Command>, x: seq<byte>, y: seq<byte>)
    requires |a| <= MAX_COMMANDS && |b| <= MAX_COMMANDS && ValidAll(a) && ValidAll(b)
    requires EncodeBatch(a) + x == EncodeBatch(b) + y
    ensures a == b && x == y
  {
    DecodeBatchIff(EncodeBatch(a) + x, a, x);
    DecodeBatchIff(EncodeBatch(b) + y, b, y);
  }

  // ---------- the methods of the source ----------

  method WriteToVch(c: Command, vch: Buffer)
    requires c.Writable()
    modifies vch
    ensures vch.bytes == old(vch.bytes) + Encode(c)
  {
    AppendTag(vch, c.TypeChar());
    WriteBody(c, vch);
    Regroup(old(vch.bytes), [c.TypeChar()], EncodeBody(c));
  }

  method WriteBody(c: Command, vch: Buffer)
    requires c.Writable()
    modifies vch
    ensures vch.bytes == old(vch.bytes) + EncodeBody(c)
  {
    hide Put, InFields;
    Formats();
    ghost var was := vch.bytes;
    match c {
      case CreatePocket => assert was + [] == was;
      case RequestPocketDepositAddress(p) =>
        Append(vch, "L", [p]);
      case PocketTransfer(f, t, a) =>
        Append(vch, "LLQ", [f, t, a]);
      case CreateFile(name, p) =>
        var nameSize := |name| % 0x100;
        Append(vch, "C", [nameSize]);
        AppendBlock(vch, name[..nameSize]);
        Regroup(was, Put("C", [nameSize]), name[..nameSize]);
        Append(vch, "L", [p]);
        Regroup(was, PutCounted("C", name[..nameSize]), Put("L", [p]));
      case UpdateFileByID(f, data) =>
        Append(vch, "LH", [f, |data|]);
        AppendBlock(vch, data);
        Regroup(was, Put("LH", [f, |data|]), data);
      case ReadFileByID(f) =>
        Append(vch, "L", [f]);
    }
  }

  method ConsumeFromBuf(ptr: Pointer) returns (c: Option<Command>, why: Failure)
    requires ptr.Valid()
    modifies ptr
    ensures ptr.Valid()
    ensures Follows(Decode(old(ptr.Left())), c, why, ptr.Left())
  {
    hide Take;
    Formats();
    c, why := None, Truncated;
    var t := ptr.ReadTag();
    if t.None? { return; }
    if t.value == 0 {
      c := Some(CreatePocket);
    } else if t.value == 1 {
      var ns := ptr.Read("L");
      if ns.Some? { c := Some(RequestPocketDepositAddress(ns.value[0])); }
    } else if t.value == 2 {
      var ns := ptr.Read("LLQ");
      if ns.Some? { c := Some(PocketTransfer(ns.value[0], ns.value[1], ns.value[2])); }
    } else if t.value == 3 {
      c := ConsumeCreateFile(ptr);
    } else if t.value == 4 {
      var ns := ptr.Read("LH");
      if ns.None? { return; }
      var data := ptr.ReadBlock(ns.value[1]);
      if data.Some? { c := Some(UpdateFileByID(ns.value[0], data.value)); }
    } else if t.value == 5 {
      var ns := ptr.Read("L");
      if ns.Some? { c := Some(ReadFileByID(ns.value[0])); }
    } else {
      why := UnknownCommand(t.value);
    }
  }

  method ConsumeCreateFile(ptr: Pointer) returns (c: Option<Command>)
    requires ptr.Valid()
    modifies ptr
    ensures ptr.Valid()
    ensures Follows(DecodeCreateFile(old(ptr.Left())), c, Truncated, ptr.Left())
  {
    hide Take;
    Formats();
    var size := ptr.Read("C");
    if size.None? { return None; }
    var name := ptr.ReadBlock(size.value[0]);
    if name.None? { return None; }
    var ns := ptr.Read("L");
    if ns.None? { return None; }
    c := Some(CreateFile(name.value, ns.value[0]));
  }

  method WriteBatchToVch(cs: seq<Command>, vch: Buffer)
    requires 0 < |cs| <= MAX_COMMANDS && WritableAll(cs)
    modifies vch
    ensures vch.bytes == old(vch.bytes) + EncodeBatch(cs)
  {
    hide Put, InFields, Encode;
    Formats();
    ghost var was := vch.bytes;
    Append(vch, "C", [|cs|]);
    ghost var head := Put("C", [|cs|]);
    for i := 0 to |cs|
      invariant vch.bytes + EncodeAll(cs[i..]) == was + (head + EncodeAll(cs))
    {
      assert cs[i..][1..] == cs[i + 1..];
      Regroup(vch.bytes, Encode(cs[i]), EncodeAll(cs[i + 1..]));
      WriteToVch(cs[i], vch);
    }
    assert vch.bytes + [] == vch.bytes;
  }

  method ConsumeBatchFromBuf(ptr: Pointer) returns (cs: Option<seq<Command>>, why: Failure)
    requires ptr.Valid()
    modifies ptr
    ensures ptr.Valid()
    ensures Follows(DecodeBatch(old(ptr.Left())), cs, why, ptr.Left())
  {
    hide Take, Decode;
    Formats();
    var numCmds := ptr.Read("C");
    if numCmds.None? { return None, Truncated; }
    var n := numCmds.value[0];
    ghost var from := ptr.Left();
    var commands: seq<Command> := [];
    why := Truncated;
    PrependedNothing(DecodeMany(n, from));
    for i := 0 to n
      invariant ptr.Valid() && |commands| == i
      invariant DecodeMany(n, from) == Prepended(commands, DecodeMany(n - i, ptr.Left()))
    {
      ghost var left := ptr.Left();
      var c;
      c, why := ConsumeFromBuf(ptr);
      if c.None? { return None, why; }
      PrependedTwice(commands, c.value, DecodeMany(n - i - 1, ptr.Left()));
      commands := commands + [c.value];
    }
    assert commands + [] == commands;
    cs := Some(commands);
  }
}
