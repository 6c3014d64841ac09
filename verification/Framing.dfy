/** Packets and responses over a byte stream (netvend/packet.cpp, netvend/response.cpp). */
module Framing {
  import opened Bytes
  import opened Pack
  import opened Wire
  import C = Commands
  import R = Results

  const DERENCODED_PUBKEY_SIZE := 420
  const MAX_SIG_SIZE := 384
  const PACKETTYPECHAR_HANDSHAKE: byte := 72   // 'H'
  const PACKETTYPECHAR_COMMANDBATCH: byte := 67  // 'C'
  const COMPLETION_ALL := 2

  // ---------- responses ----------

  /** Completion, a 16-bit size and the results. The size field is an `unsigned short`: it holds
      the size modulo 65536. */
  function EncodeResponse(rs: seq<R.Result>): seq<byte>
    requires R.WritableAll(rs) && |rs| <= R.MAX_RESULTS
  {
    Formats();
    Put("C", [COMPLETION_ALL]) + (Put("H", [|R.EncodeBatch(rs)| % 0x1_0000]) + R.EncodeBatch(rs))
  }

  function DecodeResponse(cs: seq<C.Command>, stream: seq<byte>): Decoded<seq<R.Result>> {
    Formats();
    match Take("C", stream)
    case Failed(e) => Failed(e)
    case Got(completion, more) =>
      match Take("H", more)
      case Failed(e) => Failed(e)
      case Got(size, rest) =>
        match TakeBlock(size[0], rest)
        case Failed(e) => Failed(e)
        case Got(data, after) =>
          match R.DecodeBatch(cs, data)
          case Failed(e) => Failed(e)
          case Got(rs, unread) => Got(rs, after)
  }

  /** The client gets the server's results back exactly when each of them fits its fields and their
      encoding fits the size field. */
  lemma ResponseIff(cs: seq<C.Command>, rs: seq<R.Result>, rest: seq<byte>)
    requires R.WritableAll(rs) && R.AnswerAll(cs, rs) && |rs| <= R.MAX_RESULTS
    ensures DecodeResponse(cs, EncodeResponse(rs) + rest) == Got(rs, rest)
            <==> |R.EncodeBatch(rs)| < 0x1_0000 && R.ValidAll(rs)
  {
    hide Take, Put, TakeBlock, R.EncodeBatch, R.DecodeBatch;
    Formats();
    var data := R.EncodeBatch(rs);
    var n := |data| % 0x1_0000;
    var sent, left := data[..n], data[n..] + rest;
    ResponseParts(rs, rest, n);
    TakeBlockIff(n, data + rest, sent, left);
    assert data + rest == sent + left;
    if |data| < 0x1_0000 {
      assert sent == data && left == rest;
      R.BatchRoundTrip(cs, rs, []);
      assert data + [] == data;
    } else {
      R.BatchCutShort(cs, rs, sent);
    }
  }

  lemma ResponseParts(rs: seq<R.Result>, rest: seq<byte>, n: nat)
    requires R.WritableAll(rs) && |rs| <= R.MAX_RESULTS && n == |R.EncodeBatch(rs)| % 0x1_0000
    ensures Unsigneds("C") && Unsigneds("H")
    ensures var more := EncodeResponse(rs) + rest;
            && Take("C", more).Got?
            && Take("H", Take("C", more).rest) == Got([n], R.EncodeBatch(rs) + rest)
  {
    hide Take, Put, R.EncodeBatch;
    Formats();
    var data := R.EncodeBatch(rs);
    var size := Put("H", [n]);
    Regroup(Put("C", [COMPLETION_ALL]), size + data, rest);
    Regroup(size, data, rest);
    TakeIff("C", EncodeResponse(rs) + rest, [COMPLETION_ALL], size + (data + rest));
    TakeIff("H", size + (data + rest), [n], data + rest);
  }

  method WriteResponse(batch: R.ResultBatch, stream: Buffer)
    requires R.WritableAll(batch.results) && |batch.results| <= R.MAX_RESULTS
    modifies stream
    ensures stream.bytes == old(stream.bytes) + EncodeResponse(batch.results)
  {
    hide Put, InFields, R.EncodeBatch;
    Formats();
    ghost var was := stream.bytes;
    var completionbuf := new Buffer();
    Append(completionbuf, "C", [COMPLETION_ALL]);
    var dataVch := new Buffer();
    batch.WriteToVch(dataVch);
    var dvsbuf := new Buffer();
    Append(dvsbuf, "H", [|dataVch.bytes| % 0x1_0000]);
    assert forall b: seq<byte> :: [] + b == b;
    stream.bytes := stream.bytes + completionbuf.bytes;
    stream.bytes := stream.bytes + dvsbuf.bytes;
    stream.bytes := stream.bytes + dataVch.bytes;
    Regroup(was + completionbuf.bytes, dvsbuf.bytes, dataVch.bytes);
    Regroup(was, completionbuf.bytes, dvsbuf.bytes + dataVch.bytes);
  }

  method ReadResponse(cs: seq<C.Command>, stream: Pointer) returns (batch: R.ResultBatch, ok: bool, why: Failure)
    requires stream.Valid()
    modifies stream
    ensures stream.Valid() && fresh(batch) && batch.commands == cs
    ensures match DecodeResponse(cs, old(stream.Left()))
            case Failed(e) => !ok && why == e
            case Got(rs, rest) => ok && batch.results == rs && stream.Left() == rest
  {
    hide Take, R.DecodeBatch;
    Formats();
    batch := new R.ResultBatch(cs);
    ok, why := false, Truncated;
    var completion := stream.Read("C");
    if completion.None? { return; }
    var dataVchSize := stream.Read("H");
    if dataVchSize.None? { return; }
    var dataVch := stream.ReadBlock(dataVchSize.value[0]);
    if dataVch.None? { return; }
    var ptr := new Pointer(dataVch.value);
    ok, why := batch.ConsumeFromBuf(ptr);
  }

  // ---------- handshake responses ----------

  datatype HandshakeResponse = HandshakeResponse(isNewAgent: bool, defaultPocketID: nat)

  function EncodeHandshakeResponse(h: HandshakeResponse): seq<byte>
    requires h.defaultPocketID < 0x1_0000_0000
  {
    Formats();
    Put("C", [if h.isNewAgent then 1 else 0]) + Put("L", [h.defaultPocketID])
  }

  function DecodeHandshakeResponse(stream: seq<byte>): Decoded<HandshakeResponse> {
    Formats();
    match Take("C", stream)
    case Failed(e) => Failed(e)
    case Got(isNew, more) =>
      match Take("L", more)
      case Failed(e) => Failed(e)
      case Got(id, rest) => Got(HandshakeResponse(isNew[0] != 0, id[0]), rest)
  }

  lemma HandshakeRoundTrip(h: HandshakeResponse, rest: seq<byte>)
    requires h.defaultPocketID < 0x1_0000_0000
    ensures DecodeHandshakeResponse(EncodeHandshakeResponse(h) + rest) == Got(h, rest)
  {
    hide Take, Put;
    Formats();
    var flag, id := [if h.isNewAgent then 1 else 0], [h.defaultPocketID];
    Regroup(Put("C", flag), Put("L", id), rest);
    TakeIff("C", EncodeHandshakeResponse(h) + rest, flag, Put("L", id) + rest);
    TakeIff("L", Put("L", id) + rest, id, rest);
  }

  method WriteHandshakeResponse(h: HandshakeResponse, stream: Buffer)
    requires h.defaultPocketID < 0x1_0000_0000
    modifies stream
    ensures stream.bytes == old(stream.bytes) + EncodeHandshakeResponse(h)
  {
    hide Put, InFields;
    Formats();
    var buf := new Buffer();
    var isNewAgentChar := if h.isNewAgent then 1 else 0;
    Append(buf, "C", [isNewAgentChar]);
    Append(buf, "L", [h.defaultPocketID]);
    assert [] + Put("C", [isNewAgentChar]) == Put("C", [isNewAgentChar]);
    stream.bytes := stream.bytes + buf.bytes;
  }

  method ReadHandshakeResponse(stream: Pointer) returns (h: Option<HandshakeResponse>)
    requires stream.Valid()
    modifies stream
    ensures stream.Valid()
    ensures Follows(DecodeHandshakeResponse(old(stream.Left())), h, Truncated, stream.Left())
  {
    hide Take;
    Formats();
    var isNewAgentChar := stream.Read("C");
    if isNewAgentChar.None? { return None; }
    var defaultPocketID := stream.Read("L");
    if defaultPocketID.None? { return None; }
    h := Some(HandshakeResponse(isNewAgentChar.value[0] != 0, defaultPocketID.value[0]));
  }

  // ---------- packets ----------

  /** `NoPacket` is the null pointer returned for a tag that is neither packet's. */
  datatype Packet =
    | NoPacket
    | Handshake(pubkey: seq<byte>)
    | CommandBatch(agentAddress: seq<byte>, data: seq<byte>, sig: seq<byte>)
  {
    /** The assertions of the writers. */
    predicate Writable() {
      match this
      case NoPacket => false
      case Handshake(k) => |k| == DERENCODED_PUBKEY_SIZE
      case CommandBatch(a, data, sig) =>
        0 < |a| <= MAX_ADDRESS_SIZE && 0 < |data| < 0x1_0000 && |sig| == MAX_SIG_SIZE
    }
  }

  function EncodePacket(p: Packet): seq<byte>
    requires p.Writable()
  {
    Formats();
    match p
    case Handshake(k) => [PACKETTYPECHAR_HANDSHAKE] + k
    case CommandBatch(a, data, sig) =>
      [PACKETTYPECHAR_COMMANDBATCH] + (PadAddress(a) + (PutCounted("H", data) + sig))
  }

  function DecodePacket(stream: seq<byte>): Decoded<Packet> {
    match TakeTag(stream)
    case Failed(e) => Failed(e)
    case Got(t, more) =>
      if t == PACKETTYPECHAR_HANDSHAKE then
        match TakeBlock(DERENCODED_PUBKEY_SIZE, more)
        case Failed(e) => Failed(e)
        case Got(k, rest) => Got(Handshake(k), rest)
      else if t == PACKETTYPECHAR_COMMANDBATCH then DecodeBatchPacket(more)
      else Got(NoPacket, more)
  }

  /** The constructor asserts that the data is shorter than 65535 bytes. */
  function DecodeBatchPacket(stream: seq<byte>): Decoded<Packet> {
    Formats();
    match TakeBlock(MAX_ADDRESS_SIZE, stream)
    case Failed(e) => Failed(e)
    case Got(addrbuf, more) =>
      match TakeCounted("H", more)
      case Failed(e) => Failed(e)
      case Got(data, rest) =>
        match TakeBlock(MAX_SIG_SIZE, rest)
        case Failed(e) => Failed(e)
        case Got(sig, after) =>
          if |data| < 65535 then Got(CommandBatch(UpToNul(addrbuf), data, sig), after) else Failed(BadPacket)
  }

  /** A command packet is read back exactly when its address has no zero byte and its data is
      within the constructor's limit; a handshake packet always is. */
  lemma PacketIff(p: Packet, rest: seq<byte>)
    requires p.Writable()
    ensures DecodePacket(EncodePacket(p) + rest) == Got(p, rest)
            <==> (p.CommandBatch? ==> 0 !in p.agentAddress && |p.data| < 65535)
  {
    match p
    case Handshake(k) =>
      var t := [PACKETTYPECHAR_HANDSHAKE];
      assert (t + k + rest)[1..] == k + rest;
      TakeBlockIff(DERENCODED_PUBKEY_SIZE, k + rest, k, rest);
    case CommandBatch(a, data, sig) =>
      BatchPacketIff(p, rest);
      var body := PadAddress(a) + (PutCounted("H", data) + sig);
      assert ([PACKETTYPECHAR_COMMANDBATCH] + body + rest)[1..] == body + rest;
  }

  lemma BatchPacketIff(p: Packet, rest: seq<byte>)
    requires p.CommandBatch? && p.Writable()
    ensures Unsigneds("H") && InFields("H", [|p.data|])
    ensures DecodeBatchPacket(PadAddress(p.agentAddress) + (PutCounted("H", p.data) + p.sig) + rest) == Got(p, rest)
            <==> 0 !in p.agentAddress && |p.data| < 65535
  {
    hide Take, Put, TakeBlock, TakeCounted, PutCounted;
    Formats();
    var a, counted, sig := PadAddress(p.agentAddress), PutCounted("H", p.data), p.sig;
    Regroup(a, counted + sig, rest);
    Regroup(counted, sig, rest);
    TakeBlockIff(MAX_ADDRESS_SIZE, a + (counted + (sig + rest)), a, counted + (sig + rest));
    TakeCountedIff("H", counted + (sig + rest), p.data, sig + rest);
    TakeBlockIff(MAX_SIG_SIZE, sig + rest, sig, rest);
    PadAddressIff(p.agentAddress);
  }

  method WritePacket(p: Packet, stream: Buffer)
    requires p.Writable()
    modifies stream
    ensures stream.bytes == old(stream.bytes) + EncodePacket(p)
  {
    hide Put, InFields;
    Formats();
    ghost var was := stream.bytes;
    var buf := new Buffer();
    assert [] + [PACKETTYPECHAR_HANDSHAKE] == [PACKETTYPECHAR_HANDSHAKE];
    assert [] + [PACKETTYPECHAR_COMMANDBATCH] == [PACKETTYPECHAR_COMMANDBATCH];
    match p {
      case Handshake(k) =>
        AppendTag(buf, PACKETTYPECHAR_HANDSHAKE);
        stream.bytes := stream.bytes + buf.bytes;
        stream.bytes := stream.bytes + k;
        Regroup(was, buf.bytes, k);
      case CommandBatch(a, data, sig) =>
        AppendTag(buf, PACKETTYPECHAR_COMMANDBATCH);
        stream.bytes := stream.bytes + buf.bytes;
        var addrbuf := Zeros(MAX_ADDRESS_SIZE);
        addrbuf := a + addrbuf[|a|..];
        assert addrbuf == PadAddress(a);
        var cbsbuf := new Buffer();
        Append(cbsbuf, "H", [|data|]);
        assert [] + Put("H", [|data|]) == Put("H", [|data|]);
        stream.bytes := stream.bytes + addrbuf;
        stream.bytes := stream.bytes + cbsbuf.bytes;
        stream.bytes := stream.bytes + data;
        stream.bytes := stream.bytes + sig;
        Regroup5(was, buf.bytes, addrbuf, cbsbuf.bytes, data, sig);
    }
  }

  lemma Regroup5(s: seq<byte>, t: seq<byte>, a: seq<byte>, n: seq<byte>, d: seq<byte>, g: seq<byte>)
    ensures s + t + a + n + d + g == s + (t + (a + (n + d + g)))
  {
    Regroup(s + t + a, n + d, g);
    Regroup(s + t + a, n, d);
    Regroup(s + t, a, n + d + g);
    Regroup(s, t, a + (n + d + g));
  }

  method ReadPacket(stream: Pointer) returns (p: Option<Packet>, why: Failure)
    requires stream.Valid()
    modifies stream
    ensures stream.Valid()
    ensures Follows(DecodePacket(old(stream.Left())), p, why, stream.Left())
  {
    p, why := None, Truncated;
    var t := stream.ReadTag();
    if t.None? { return; }
    if t.value == PACKETTYPECHAR_HANDSHAKE {
      var k := stream.ReadBlock(DERENCODED_PUBKEY_SIZE);
      if k.Some? { p := Some(Handshake(k.value)); }
    } else if t.value == PACKETTYPECHAR_COMMANDBATCH {
      p, why := ReadBatchPacket(stream);
    } else {
      p := Some(NoPacket);
    }
  }

  method ReadBatchPacket(stream: Pointer) returns (p: Option<Packet>, why: Failure)
    requires stream.Valid()
    modifies stream
    ensures stream.Valid()
    ensures Follows(DecodeBatchPacket(old(stream.Left())), p, why, stream.Left())
  {
    hide Take;
    Formats();
    p, why := None, Truncated;
    var addrbuf := stream.ReadBlock(MAX_ADDRESS_SIZE);
    if addrbuf.None? { return; }
    var size := stream.Read("H");
    if size.None? { return; }
    var data := stream.ReadBlock(size.value[0]);
    if data.None? { return; }
    var sig := stream.ReadBlock(MAX_SIG_SIZE);
    if sig.None? { return; }
    if |data.value| < 65535 {
      p := Some(CommandBatch(UpToNul(addrbuf.value), data.value, sig.value));
    } else {
      why := BadPacket;
    }
  }
}
