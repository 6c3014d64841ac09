/** The bytes of every record, spelled out (netvend/commands.cpp, response.cpp, packet.cpp and the type
    codes of their headers). */
module Layouts {
  import opened Bytes
  import opened Positional
  import opened Integers
  import opened Pack
  import opened Wire
  import C = Commands
  import R = Results
  import F = Framing

  /** Byte `i` of a big-endian number of `w` bytes. */
  lemma {:induction false} BigEndianAt(w: nat, n: nat, i: nat)
    requires i < w
    ensures BigEndian(w, n)[i] == n / Pow(256, w - 1 - i) % 256
  {
    if i < w - 1 {
      BigEndianAt(w - 1, n / 256, i);
      DivTwice(n, Pow(256, w - 2 - i));
    }
  }

  lemma DivTwice(n: nat, p: nat)
    requires p > 0
    ensures n / 256 / p == n / (256 * p)
  {
    var q, r := n / 256, n % 256;
    DivParts(q, p);
    var k, s := q / p, q % p;
    MulMono(256, s + 1, p);
    assert n == k * (256 * p) + (s * 256 + r) by { assert n == (k * p + s) * 256 + r; }
    DivModUnique(k, s * 256 + r, 256 * p);
  }

  /** One more field in front. */
  lemma FieldBefore(fmt: string, w: nat, n: nat, ns: seq<nat>)
    requires fmt != [] && Unsigneds(fmt) && ItemOf(fmt[0]) == Some(Natural(w)) && n < Modulus(w)
    requires InFields(fmt[1..], ns)
    ensures InFields(fmt, [n] + ns) && Put(fmt, [n] + ns) == BigEndian(w, n) + Put(fmt[1..], ns)
  {
    hide BigEndian;
    assert ([n] + ns)[1..] == ns;
  }

  lemma NoFields()
    ensures Unsigneds("") && InFields("", []) && Put("", []) == []
  {
  }

  lemma OneFieldBytes(n: nat)
    ensures Unsigneds("C") && Unsigneds("H") && Unsigneds("L") && Unsigneds("Q")
    ensures n < 0x100 ==> InFields("C", [n]) && Put("C", [n]) == [n]
    ensures n < 0x1_0000 ==> InFields("H", [n]) && Put("H", [n]) == BigEndian(2, n)
    ensures n < 0x1_0000_0000 ==> InFields("L", [n]) && Put("L", [n]) == BigEndian(4, n)
    ensures n < 0x1_0000_0000_0000_0000 ==> InFields("Q", [n]) && Put("Q", [n]) == BigEndian(8, n)
  {
    Formats();
    NoFields();
    ByteRead(n);
    hide BigEndian, Put, InFields, Unsigneds;
    assert "C"[1..] == "" && "H"[1..] == "" && "L"[1..] == "" && "Q"[1..] == "" && [n] + [] == [n];
    if n < 0x100 { FieldBefore("C", 1, n, []); }
    if n < 0x1_0000 { FieldBefore("H", 2, n, []); }
    if n < 0x1_0000_0000 { FieldBefore("L", 4, n, []); }
    if n < 0x1_0000_0000_0000_0000 { FieldBefore("Q", 8, n, []); }
  }

  lemma TwoFieldBytes(m: nat, n: nat)
    requires n < 0x1_0000_0000_0000_0000
    ensures Unsigneds("LH") && Unsigneds("CQ") && Unsigneds("QQ") && Unsigneds("LQ")
    ensures m < 0x1_0000_0000 && n < 0x1_0000 ==>
              InFields("LH", [m, n]) && Put("LH", [m, n]) == BigEndian(4, m) + BigEndian(2, n)
    ensures m < 0x100 ==> InFields("CQ", [m, n]) && Put("CQ", [m, n]) == [m] + BigEndian(8, n)
    ensures m < 0x1_0000_0000_0000_0000 ==>
              InFields("QQ", [m, n]) && Put("QQ", [m, n]) == BigEndian(8, m) + BigEndian(8, n)
    ensures m < 0x1_0000_0000 ==> InFields("LQ", [m, n]) && Put("LQ", [m, n]) == BigEndian(4, m) + BigEndian(8, n)
  {
    Formats();
    OneFieldBytes(n);
    ByteRead(m);
    hide BigEndian, Put, InFields, Unsigneds;
    assert "LH"[1..] == "H" && "CQ"[1..] == "Q" && "QQ"[1..] == "Q" && "LQ"[1..] == "Q" && [m] + [n] == [m, n];
    if m < 0x1_0000_0000 && n < 0x1_0000 { FieldBefore("LH", 4, m, [n]); }
    if m < 0x100 { FieldBefore("CQ", 1, m, [n]); }
    if m < 0x1_0000_0000_0000_0000 { FieldBefore("QQ", 8, m, [n]); }
    if m < 0x1_0000_0000 { FieldBefore("LQ", 4, m, [n]); }
  }

  lemma TransferBytes(k: nat, m: nat, n: nat)
    requires k < 0x1_0000_0000 && m < 0x1_0000_0000 && n < 0x1_0000_0000_0000_0000
    ensures Unsigneds("LLQ") && InFields("LLQ", [k, m, n])
    ensures Put("LLQ", [k, m, n]) == BigEndian(4, k) + (BigEndian(4, m) + BigEndian(8, n))
  {
    Formats();
    TwoFieldBytes(m, n);
    hide BigEndian, Put, InFields, Unsigneds;
    assert "LLQ"[1..] == "LQ" && [k] + [m, n] == [k, m, n];
    FieldBefore("LLQ", 4, k, [m, n]);
  }

  /** A command: its type code, and its fields in order. */
  lemma CommandBytes(c: C.Command)
    requires c.Writable()
    ensures C.Encode(c) ==
            match c
            case CreatePocket => [0]
            case RequestPocketDepositAddress(p) => [1] + BigEndian(4, p)
            case PocketTransfer(from, to, amount) =>
              [2] + (BigEndian(4, from) + (BigEndian(4, to) + BigEndian(8, amount)))
            case CreateFile(name, p) => [3] + ([|name| % 256] + name[..|name| % 256] + BigEndian(4, p))
            case UpdateFileByID(f, data) => [4] + (BigEndian(4, f) + BigEndian(2, |data|) + data)
            case ReadFileByID(f) => [5] + BigEndian(4, f)
  {
    hide Put, BigEndian;
    match c
    case CreatePocket =>
    case RequestPocketDepositAddress(p) => OneFieldBytes(p);
    case PocketTransfer(from, to, amount) => TransferBytes(from, to, amount);
    case CreateFile(name, p) => OneFieldBytes(p); OneFieldBytes(|name| % 256);
    case UpdateFileByID(f, data) => TwoFieldBytes(f, |data|);
    case ReadFileByID(f) => OneFieldBytes(f);
  }

  /** A batch: the number of its commands, and the commands one after the other. */
  lemma BatchBytes(cs: seq<C.Command>, ds: seq<C.Command>)
    requires C.WritableAll(cs) && C.WritableAll(ds) && |cs| + |ds| <= 255
    ensures C.EncodeBatch(cs) == [|cs|] + C.EncodeAll(cs)
    ensures C.EncodeAll(cs + ds) == C.EncodeAll(cs) + C.EncodeAll(ds)
    ensures |cs| == 1 ==> C.EncodeAll(cs) == C.Encode(cs[0])
    ensures cs == [] ==> C.EncodeAll(cs) == []
  {
    hide Put, C.Encode;
    OneFieldBytes(|cs|);
    CommandsJoin(cs, ds);
  }

  lemma {:induction false} CommandsJoin(cs: seq<C.Command>, ds: seq<C.Command>)
    requires C.WritableAll(cs) && C.WritableAll(ds)
    ensures C.EncodeAll(cs + ds) == C.EncodeAll(cs) + C.EncodeAll(ds)
  {
    hide C.Encode;
    if cs == [] {
      assert cs + ds == ds;
    } else {
      assert (cs + ds)[1..] == cs[1..] + ds;
      CommandsJoin(cs[1..], ds);
    }
  }

  // ---------- results ----------

  /** An error: whether it is fatal, and its text or its two amounts. */
  lemma ErrorBytes(e: R.CommandError)
    requires e.Writable()
    ensures R.EncodeError(e) ==
            match e
            case ServerLogic(s) => [|s| % 256] + s[..|s| % 256]
            case InvalidTarget(s) => [|s| % 256] + s[..|s| % 256]
            case TargetNotOwned(s) => [|s| % 256] + s[..|s| % 256]
            case CreditInsufficient(m, n) => BigEndian(8, m) + BigEndian(8, n)
            case CreditOverflow(m, n) => BigEndian(8, m) + BigEndian(8, n)
  {
    hide Put, BigEndian;
    match e
    case ServerLogic(s) => OneFieldBytes(|s| % 256);
    case InvalidTarget(s) => OneFieldBytes(|s| % 256);
    case TargetNotOwned(s) => OneFieldBytes(|s| % 256);
    case CreditInsufficient(m, n) => TwoFieldBytes(m, n);
    case CreditOverflow(m, n) => TwoFieldBytes(m, n);
  }

  function ErrorCode(r: R.Result): nat {
    match r
    case Error(_, _, ServerLogic(_)) => 1
    case Error(_, _, InvalidTarget(_)) => 2
    case Error(_, _, TargetNotOwned(_)) => 3
    case Error(_, _, CreditInsufficient(_, _)) => 4
    case Error(_, _, CreditOverflow(_, _)) => 5
    case _ => 0
  }

  /** A result: its error code, its cost, and its fields. */
  lemma ResultBytes(r: R.Result)
    requires r.Writable()
    ensures R.Encode(r) == [ErrorCode(r)] + BigEndian(8, r.cost) +
            match r
            case PocketCreated(_, p) => BigEndian(4, p)
            case DepositAddress(_, a) => if |a| <= 34 then a + Zeros(34 - |a|) else a[..34]
            case FileCreated(_, f) => BigEndian(4, f)
            case FileRead(_, data) => BigEndian(2, |data| % 65536) + data[..|data| % 65536]
            case Error(_, fatal, e) => [if fatal then 1 else 0] + R.EncodeError(e)
            case _ => []
  {
    hide Put, BigEndian, R.EncodeError;
    TwoFieldBytes(ErrorCode(r), r.cost);
    match r
    case PocketCreated(_, p) => OneFieldBytes(p);
    case FileCreated(_, f) => OneFieldBytes(f);
    case FileRead(_, data) => OneFieldBytes(|data| % 65536);
    case _ =>
  }

  lemma {:induction false} ResultsJoin(rs: seq<R.Result>, qs: seq<R.Result>)
    requires R.WritableAll(rs) && R.WritableAll(qs)
    ensures R.EncodeAll(rs + qs) == R.EncodeAll(rs) + R.EncodeAll(qs)
  {
    hide R.Encode;
    if rs == [] {
      assert rs + qs == qs;
    } else {
      assert (rs + qs)[1..] == rs[1..] + qs;
      ResultsJoin(rs[1..], qs);
    }
  }

  /** A result batch: the number of its results, and the results one after the other. */
  lemma ResultBatchBytes(rs: seq<R.Result>, qs: seq<R.Result>)
    requires R.WritableAll(rs) && R.WritableAll(qs) && |rs| + |qs| <= 255
    ensures R.EncodeBatch(rs) == [|rs|] + R.EncodeAll(rs)
    ensures R.EncodeAll(rs + qs) == R.EncodeAll(rs) + R.EncodeAll(qs)
    ensures |rs| == 1 ==> R.EncodeAll(rs) == R.Encode(rs[0])
    ensures rs == [] ==> R.EncodeAll(rs) == []
  {
    hide Put, R.Encode;
    OneFieldBytes(|rs|);
    ResultsJoin(rs, qs);
  }

  // ---------- responses and packets ----------

  /** A response: completion code 2, the size in 16 bits, the results. */
  lemma ResponseBytes(rs: seq<R.Result>)
    requires R.WritableAll(rs) && |rs| <= 255
    ensures F.EncodeResponse(rs) == [2] + (BigEndian(2, |R.EncodeBatch(rs)| % 65536) + R.EncodeBatch(rs))
  {
    hide Put, BigEndian, R.EncodeBatch;
    OneFieldBytes(2);
    OneFieldBytes(|R.EncodeBatch(rs)| % 65536);
  }

  lemma HandshakeResponseBytes(h: F.HandshakeResponse)
    requires h.defaultPocketID < 0x1_0000_0000
    ensures F.EncodeHandshakeResponse(h) == [if h.isNewAgent then 1 else 0] + BigEndian(4, h.defaultPocketID)
  {
    hide Put, BigEndian;
    OneFieldBytes(if h.isNewAgent then 1 else 0);
    OneFieldBytes(h.defaultPocketID);
  }

  /** A packet: the letter of its type; then the key of a handshake, or address, size, commands and
      signature of a batch, in fields of fixed size but for the commands. */
  lemma PacketBytes(p: F.Packet)
    requires p.Writable()
    ensures F.EncodePacket(p) ==
            match p
            case NoPacket => []
            case Handshake(k) => ['H' as int] + k
            case CommandBatch(a, data, sig) =>
              ['C' as int] + (a + Zeros(34 - |a|) + (BigEndian(2, |data|) + data + sig))
    ensures p.Handshake? ==> |F.EncodePacket(p)| == 1 + 420
    ensures p.CommandBatch? ==> |F.EncodePacket(p)| == 1 + 34 + 2 + |p.data| + 384
  {
    hide Put, BigEndian;
    if p.CommandBatch? { OneFieldBytes(|p.data|); }
  }

  // ---------- the reading side ----------

  /** The first field, and then the others. */
  lemma FieldFirst(fmt: string, w: nat, buf: seq<byte>)
    requires fmt != [] && Unsigneds(fmt) && ItemOf(fmt[0]) == Some(Natural(w))
    ensures |buf| < w ==> Take(fmt, buf) == Failed(Truncated)
    ensures |buf| >= w ==>
              Take(fmt, buf) ==
              match Take(fmt[1..], buf[w..])
              case Failed(e) => Failed(e)
              case Got(ns, rest) => Got([Unsigned(buf[..w])] + ns, rest)
  {
    hide Unsigned;
  }

  lemma LastField(fmt: string, w: nat, buf: seq<byte>)
    requires |fmt| == 1 && Unsigneds(fmt) && ItemOf(fmt[0]) == Some(Natural(w))
    ensures Take(fmt, buf) == if |buf| < w then Failed(Truncated) else Got([Unsigned(buf[..w])], buf[w..])
  {
    hide Unsigned;
    FieldFirst(fmt, w, buf);
    if |buf| >= w { assert [Unsigned(buf[..w])] + [] == [Unsigned(buf[..w])]; }
  }

  lemma FirstByte(buf: seq<byte>)
    requires buf != []
    ensures Unsigned(buf[..1]) == buf[0]
  {
    assert buf[..1] == [buf[0]];
    ByteRead(buf[0]);
  }

  lemma OneFieldRead(buf: seq<byte>)
    ensures Unsigneds("C") && Unsigneds("H") && Unsigneds("L") && Unsigneds("Q")
    ensures Take("C", buf) == if |buf| < 1 then Failed(Truncated) else Got([buf[0] as nat], buf[1..])
    ensures Take("H", buf) == if |buf| < 2 then Failed(Truncated) else Got([Unsigned(buf[..2])], buf[2..])
    ensures Take("L", buf) == if |buf| < 4 then Failed(Truncated) else Got([Unsigned(buf[..4])], buf[4..])
    ensures Take("Q", buf) == if |buf| < 8 then Failed(Truncated) else Got([Unsigned(buf[..8])], buf[8..])
  {
    Formats();
    hide Take, Unsigned, Unsigneds;
    LastField("C", 1, buf);
    LastField("H", 2, buf);
    LastField("L", 4, buf);
    LastField("Q", 8, buf);
    if buf != [] { FirstByte(buf); }
  }

  lemma PairRead(fmt: string, w: nat, buf: seq<byte>)
    requires |fmt| == 2 && Unsigneds(fmt) && ItemOf(fmt[0]) == Some(Natural(w)) && fmt[1..] == "Q"
    ensures Take(fmt, buf)
            == if |buf| < w + 8 then Failed(Truncated)
               else Got([Unsigned(buf[..w]), Unsigned(buf[w..w + 8])], buf[w + 8..])
  {
    hide Take, Unsigned, Unsigneds;
    FieldFirst(fmt, w, buf);
    if |buf| >= w {
      OneFieldRead(buf[w..]);
      if |buf| >= w + 8 {
        assert buf[w..][..8] == buf[w..w + 8] && buf[w..][8..] == buf[w + 8..];
        var m, n := Unsigned(buf[..w]), Unsigned(buf[w..w + 8]);
        assert [m] + [n] == [m, n];
      }
    }
  }

  lemma TwoFieldRead(buf: seq<byte>)
    ensures Unsigneds("CQ") && Unsigneds("QQ")
    ensures Take("CQ", buf)
            == if |buf| < 9 then Failed(Truncated) else Got([buf[0] as nat, Unsigned(buf[1..9])], buf[9..])
    ensures Take("QQ", buf)
            == if |buf| < 16 then Failed(Truncated) else Got([Unsigned(buf[..8]), Unsigned(buf[8..16])], buf[16..])
  {
    Formats();
    hide Take, Unsigned, Unsigneds;
    assert "CQ"[1..] == "Q" && "QQ"[1..] == "Q";
    PairRead("CQ", 1, buf);
    PairRead("QQ", 8, buf);
    if buf != [] { FirstByte(buf); }
  }

  /** A counted block, its size in one byte. */
  function ShortText(b: seq<byte>): Decoded<seq<byte>> {
    if |b| < 1 then Failed(Truncated) else
      var n: nat := b[0];
      if |b| < 1 + n then Failed(Truncated) else Got(b[1..1 + n], b[1 + n..])
  }

  lemma ShortTextRead(b: seq<byte>)
    ensures Unsigneds("C") && TakeCounted("C", b) == ShortText(b)
  {
    hide Take;
    OneFieldRead(b);
    if |b| >= 1 {
      var n: nat := b[0];
      if |b| >= 1 + n { assert b[1..][..n] == b[1..1 + n] && b[1..][n..] == b[1 + n..]; }
    }
  }

  /** What a client makes of the bytes of an error of each code. */
  lemma ErrorRead(code: nat, b: seq<byte>)
    ensures 1 <= code <= 3 ==>
              R.DecodeError(code, b) ==
              match ShortText(b)
              case Failed(e) => Failed(e)
              case Got(s, rest) =>
                Got(if code == 1 then R.ServerLogic(s)
                    else if code == 2 then R.InvalidTarget(s)
                    else R.TargetNotOwned(s), rest)
    ensures 4 <= code <= 5 ==>
              R.DecodeError(code, b) ==
              if |b| < 16 then Failed(Truncated) else
                var m, n := Unsigned(b[..8]), Unsigned(b[8..16]);
                Got(if code == 4 then R.CreditInsufficient(m, n) else R.CreditOverflow(m, n), b[16..])
    ensures code == 0 || code > 5 ==> R.DecodeError(code, b) == Failed(UnknownError(code))
  {
    hide Take, TakeCounted, Unsigned;
    Formats();
    ShortTextRead(b);
    TwoFieldRead(b);
  }

  /** What a client makes of the bytes of a result, given the type code of its command. */
  function ReadResult(typeCode: nat, buf: seq<byte>): Decoded<R.Result> {
    if |buf| < 9 then Failed(Truncated)
    else if buf[0] != 0 then
      (if |buf| < 10 then Failed(Truncated) else
         match R.DecodeError(buf[0], buf[10..])
         case Failed(e) => Failed(e)
         case Got(e, rest) => Got(R.Error(Unsigned(buf[1..9]), buf[9] != 0, e), rest))
    else ReadBody(typeCode, Unsigned(buf[1..9]), buf[9..])
  }

  function ReadBody(typeCode: nat, cost: nat, b: seq<byte>): Decoded<R.Result> {
    if typeCode == 0 then
      (if |b| < 4 then Failed(Truncated) else Got(R.PocketCreated(cost, Unsigned(b[..4])), b[4..]))
    else if typeCode == 1 then
      (if |b| < 34 then Failed(Truncated) else Got(R.DepositAddress(cost, UpToNul(b[..34])), b[34..]))
    else if typeCode == 2 then Got(R.Transferred(cost), b)
    else if typeCode == 3 then
      (if |b| < 4 then Failed(Truncated) else Got(R.FileCreated(cost, Unsigned(b[..4])), b[4..]))
    else if typeCode == 4 then Got(R.FileUpdated(cost), b)
    else if typeCode == 5 then
      (if |b| < 2 || |b| < 2 + Unsigned(b[..2]) then Failed(Truncated) else
         Got(R.FileRead(cost, b[2..2 + Unsigned(b[..2])]), b[2 + Unsigned(b[..2])..]))
    else Failed(UnknownCommand(typeCode))
  }

  lemma BodyRead(typeCode: nat, cost: nat, b: seq<byte>)
    ensures R.DecodeBody(typeCode, 0, cost, b) == ReadBody(typeCode, cost, b)
  {
    hide Take, Unsigned;
    OneFieldRead(b);
    if typeCode == 5 && |b| >= 2 && |b| >= 2 + Unsigned(b[..2]) {
      var n := Unsigned(b[..2]);
      assert b[2..][..n] == b[2..2 + n] && b[2..][n..] == b[2 + n..];
    }
  }

  lemma ResultRead(typeCode: nat, buf: seq<byte>)
    ensures R.Decode(typeCode, buf) == ReadResult(typeCode, buf)
  {
    TwoFieldRead(buf);
    if |buf| >= 9 {
      hide Take, ReadBody, R.DecodeError, Unsigned;
      BodyRead(typeCode, Unsigned(buf[1..9]), buf[9..]);
      if |buf| >= 10 { assert buf[9..][1..] == buf[10..]; }
    }
  }

  /** Why bytes are not a command: they begin with no type code in use, or end too early. */
  lemma CommandUnread(buf: seq<byte>)
    ensures C.Decode(buf).Failed? ==>
              C.Decode(buf).why == if buf != [] && buf[0] > 5 then UnknownCommand(buf[0]) else Truncated
    ensures buf == [] || buf[0] > 5 ==> C.Decode(buf).Failed?
  {
    if buf != [] { BodyUnread(buf[0], buf[1..]); }
  }

  lemma BodyUnread(t: nat, b: seq<byte>)
    ensures C.DecodeBody(t, b).Failed? ==> C.DecodeBody(t, b).why == if t > 5 then UnknownCommand(t) else Truncated
    ensures t > 5 ==> C.DecodeBody(t, b).Failed?
  {
    Formats();
    hide Unsigneds, Take, C.DecodeCreateFile;
    TakeFails("L", b);
    TakeFails("LLQ", b);
    TakeFails("LH", b);
    NameFails(b);
  }

  lemma NameFails(b: seq<byte>)
    ensures C.DecodeCreateFile(b).Failed? ==> C.DecodeCreateFile(b).why == Truncated
  {
    Formats();
    hide Take;
    TakeFails("C", b);
    match TakeCounted("C", b)
    case Failed(_) =>
    case Got(_, more) => TakeFails("L", more);
  }

  lemma {:induction false} TakeFails(fmt: string, b: seq<byte>)
    requires Unsigneds(fmt)
    ensures Take(fmt, b).Failed? ==> Take(fmt, b).why == Truncated
  {
    if fmt != [] && |b| >= ItemOf(fmt[0]).value.w { TakeFails(fmt[1..], b[ItemOf(fmt[0]).value.w..]); }
  }

  /** What a client makes of the bytes of a handshake's answer. */
  lemma HandshakeResponseRead(stream: seq<byte>)
    ensures F.DecodeHandshakeResponse(stream)
            == if |stream| < 5 then Failed(Truncated)
               else Got(F.HandshakeResponse(stream[0] != 0, Unsigned(stream[1..5])), stream[5..])
  {
    hide Take, Unsigned;
    OneFieldRead(stream);
    if stream != [] {
      OneFieldRead(stream[1..]);
      if |stream| >= 5 { assert stream[1..][..4] == stream[1..5] && stream[1..][4..] == stream[5..]; }
    }
  }

  /** What the server makes of the bytes of a connection: any other tag than the two is no packet. */
  lemma PacketRead(stream: seq<byte>)
    ensures stream == [] ==> F.DecodePacket(stream) == Failed(Truncated)
    ensures stream != [] && stream[0] != 'H' as int && stream[0] != 'C' as int ==>
              F.DecodePacket(stream) == Got(F.NoPacket, stream[1..])
    ensures stream != [] && stream[0] == 'H' as int ==>
              F.DecodePacket(stream)
              == if |stream| < 421 then Failed(Truncated) else Got(F.Handshake(stream[1..421]), stream[421..])
    ensures stream != [] && stream[0] == 'C' as int ==> F.DecodePacket(stream) == ReadRequest(stream[1..])
  {
    hide Take;
    if stream != [] && stream[0] == 'H' as int && |stream| >= 421 {
      assert stream[1..][..420] == stream[1..421] && stream[1..][420..] == stream[421..];
    }
    if stream != [] && stream[0] == 'C' as int { RequestRead(stream[1..]); }
  }

  function ReadRequest(b: seq<byte>): Decoded<F.Packet> {
    if |b| < 36 then Failed(Truncated) else
      var n := Unsigned(b[34..36]);
      if |b| < 36 + n + 384 then Failed(Truncated)
      else if n >= 65535 then Failed(BadPacket)
      else Got(F.CommandBatch(UpToNul(b[..34]), b[36..36 + n], b[36 + n..36 + n + 384]), b[36 + n + 384..])
  }

  lemma RequestRead(b: seq<byte>)
    ensures F.DecodeBatchPacket(b) == ReadRequest(b)
  {
    hide Take, Unsigned;
    if |b| >= 34 {
      OneFieldRead(b[34..]);
      if |b| >= 36 {
        assert b[34..][..2] == b[34..36] && b[34..][2..] == b[36..];
        var n := Unsigned(b[34..36]);
        if |b| >= 36 + n {
          assert b[36..][..n] == b[36..36 + n] && b[36..][n..] == b[36 + n..];
          if |b| >= 36 + n + 384 {
            assert b[36 + n..][..384] == b[36 + n..36 + n + 384] && b[36 + n..][384..] == b[36 + n + 384..];
          }
        }
      }
    } else {
      OneFieldRead([]);
    }
  }

  /** What a client makes of the bytes of a response: the results are read from exactly as many bytes as
      the size says, and what follows those bytes is left. */
  lemma ResponseRead(cs: seq<C.Command>, stream: seq<byte>)
    ensures |stream| < 3 || |stream| < 3 + Unsigned(stream[1..3]) ==> F.DecodeResponse(cs, stream) == Failed(Truncated)
    ensures |stream| >= 3 && |stream| >= 3 + Unsigned(stream[1..3]) ==>
              var n := Unsigned(stream[1..3]);
              F.DecodeResponse(cs, stream) ==
              match R.DecodeBatch(cs, stream[3..3 + n])
              case Failed(e) => Failed(e)
              case Got(rs, _) => Got(rs, stream[3 + n..])
  {
    hide Take, Unsigned, R.DecodeBatch;
    OneFieldRead(stream);
    if stream != [] {
      OneFieldRead(stream[1..]);
      if |stream| >= 3 {
        assert stream[1..][..2] == stream[1..3] && stream[1..][2..] == stream[3..];
        var n := Unsigned(stream[1..3]);
        if |stream| >= 3 + n {
          assert stream[3..][..n] == stream[3..3 + n] && stream[3..][n..] == stream[3 + n..];
        }
      }
    }
  }
}
