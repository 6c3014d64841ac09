/** Runs in which the program does something other than it seems meant to. */
module Counterexamples {
  import opened Bytes
  import opened Ledger
  import opened Service
  import opened Machine
  import opened Serial
  import opened EndToEnd
  import C = Commands
  import R = Results
  import F = Framing
  import W = Wire
  import P = Pack
  import opened Float754

  // ---------- the race the two fee transactions leave open ----------

  /** One agent with 10 in pocket 1, nothing in pocket 2, and one empty file paid for by pocket 1. */
  function RaceStart(a: Address): Sys {
    Sys(SmallTables(a), Idle, None, map[], map[])
  }

  function Transfer(amount: nat): seq<C.Command> {
    [C.PocketTransfer(1, 2, amount)]
  }

  lemma TransferFits(a: Address, amount: nat)
    requires 0 < |a| <= MAX_ADDRESS_SIZE && amount < 0x1_0000_0000_0000_0000
    ensures C.WritableAll(Transfer(amount)) && C.SentAll(Transfer(amount)) == Transfer(amount)
    ensures F.CommandBatch(a, C.EncodeBatch(Transfer(amount)), Zeros(F.MAX_SIG_SIZE)).Writable()
    ensures |C.EncodeBatch(Transfer(amount))| < 65535
  {
    W.Formats();
    var c := Transfer(amount)[0];
    assert Transfer(amount)[1..] == [];
    W.PutSize("C", [1]);
    W.PutSize("LLQ", [1, 2, amount]);
    assert W.Size("C") == 1 by { assert "C"[1..] == []; }
    assert W.Size("LLQ") == 16 by { assert "LLQ"[1..] == "LQ" && "LQ"[1..] == "Q" && "Q"[1..] == []; }
    assert C.EncodeAll(Transfer(amount)) == C.Encode(c) + [];
    assert |C.Encode(c)| == 17;
  }

  /** A client connects, sends a transfer from pocket 1 to pocket 2, and is read up to the first command. */
  function Opening(a: Address, amount: nat): seq<Event>
    requires 0 < |a| <= MAX_ADDRESS_SIZE && amount < 0x1_0000_0000_0000_0000
  {
    TransferFits(a, amount);
    [Connects(Request(a, Transfer(amount), Zeros(F.MAX_SIG_SIZE)), [0]), IoStep] + [IoStep]
  }

  lemma Opens(s: Sys, a: Address, amount: nat)
    requires 0 < |a| <= MAX_ADDRESS_SIZE && 0 !in a && amount < 0x1_0000_0000_0000_0000
    requires Free(s.io) && a in s.db.agents
    ensures Run(s, Opening(a, amount)) == s.(io := Running(a, Transfer(amount), [], false))
  {
    hide Run, Request, Accepted, C.EncodeBatch, C.DecodeBatch, C.SentAll;
    TransferFits(a, amount);
    var cs, sig := Transfer(amount), Zeros(F.MAX_SIG_SIZE);
    var stream, data := Request(a, cs, sig), C.EncodeBatch(cs);
    RequestArrives(a, cs, sig, [], [0]);
    assert stream + [] == stream;
    ConnectionRead(s, stream, [0], a, data);
    RunJoin(s, [Connects(stream, [0]), IoStep], [IoStep]);
    RunOne(s.(io := Auth(a, data)), IoStep);
  }

  /** The agent moves its money between the snapshot of a pass and its application. */
  function RaceEvents(a: Address): seq<Event>
    requires 0 < |a| <= MAX_ADDRESS_SIZE
  {
    [FeeSnapshot(10, 0)] + (Opening(a, 10) + ([IoStep] + [FeeApply]))
  }

  lemma RaceBill(a: Address)
    ensures FetchFees(SmallTables(a), 10, 0) == map[1 := Charge(10, false)]
  {
    var t := SmallTables(a);
    assert Payers(t) == {1};
    assert Count(t.files, 1, 1) == 0 && Octets(t.files, 1, 1) == 0;
    assert TotalFees(t, 1, 10, 0) == 10;
  }

  lemma RaceTransfer(t: Tables, a: Address)
    requires t == SmallTables(a)
    ensures var x := Ledger.PocketTransfer(t, a, 1, 2, 10);
            && x.out == Ok(()) && x.tables.agents == t.agents
            && 1 in x.tables.pockets && x.tables.pockets[1] == Pocket(Some(a), 0, None)
  {
  }

  lemma RaceCommand(s: Sys, a: Address)
    requires s.db == SmallTables(a) && s.io == Running(a, Transfer(10), [], false)
    ensures var u := IoNext(s);
            && u == s.(db := u.db, io := Running(a, Transfer(10), [R.Transferred(0)], false))
            && u.db.agents == s.db.agents && 1 in u.db.pockets && u.db.pockets[1] == Pocket(Some(a), 0, None)
  {
    hide Ledger.PocketTransfer, SmallTables;
    RaceTransfer(s.db, a);
    assert [] + [R.Transferred(0)] == [R.Transferred(0)];
  }

  /** Balances do go negative: here a pocket that was charged 10 while it held 10 ends at -10. */
  lemma RaceGoesNegative(a: Address)
    requires 0 < |a| <= MAX_ADDRESS_SIZE && 0 !in a
    ensures Start(RaceStart(a)) && NonNegative(RaceStart(a).db)
    ensures var u := Run(RaceStart(a), RaceEvents(a));
            && 1 in u.db.pockets && u.db.pockets[1] == Pocket(Some(a), -10, None)
            && u.db.agents == RaceStart(a).db.agents && u.bill == None
            && u.io == Running(a, Transfer(10), [R.Transferred(0)], false)
  {
    RaceStarts(a);
    RaceBill(a);
    hide Start, NonNegative, FetchFees, CommandStep, Run, Opening;
    var s := RaceStart(a);
    var later := [IoStep] + [FeeApply];
    RunJoin(s, [FeeSnapshot(10, 0)], Opening(a, 10) + later);
    RunOne(s, FeeSnapshot(10, 0));
    var s1 := Step(s, FeeSnapshot(10, 0));
    RunJoin(s1, Opening(a, 10), later);
    Opens(s1, a, 10);
    var s2 := s1.(io := Running(a, Transfer(10), [], false));
    RunJoin(s2, [IoStep], [FeeApply]);
    RunOne(s2, IoStep);
    RaceCommand(s2, a);
    RunOne(IoNext(s2), FeeApply);
    RaceCharge(IoNext(s2), a);
  }

  lemma RaceStarts(a: Address)
    requires a != []
    ensures Start(RaceStart(a)) && NonNegative(RaceStart(a).db)
  {
    hide Consistent, NonNegative;
    SmallTablesConsistent(a);
  }

  lemma RaceCharge(s: Sys, a: Address)
    requires s.bill == Some(map[1 := Charge(10, false)]) && s.io.Running?
    requires 1 in s.db.pockets && s.db.pockets[1] == Pocket(Some(a), 0, None)
    ensures var u := Step(s, FeeApply);
            && u.io == s.io && u.bill == None && u.db.agents == s.db.agents
            && 1 in u.db.pockets && u.db.pockets[1] == Pocket(Some(a), -10, None)
  {
  }

  // ---------- what a negative balance leads to ----------

  /** The same run, and then the agent's next request. */
  function StopEvents(a: Address): seq<Event>
    requires 0 < |a| <= MAX_ADDRESS_SIZE
  {
    RaceEvents(a) + ([IoStep] + (Opening(a, 1) + [IoStep]))
  }

  lemma NegativeTransfer(s: Sys, a: Address)
    requires s.io == Running(a, Transfer(1), [], false)
    requires 1 in s.db.pockets && s.db.pockets[1] == Pocket(Some(a), -10, None)
    ensures IoNext(s).io == Stopped(NegativeBalance)
  {
  }

  lemma LastCommandDone(s: Sys, a: Address)
    requires s.io == Running(a, Transfer(10), [R.Transferred(0)], false)
    ensures IoNext(s) == s.(io := Finished(a, Transfer(10), [R.Transferred(0)]))
  {
  }

  /** A transfer of 1 from that pocket stops the server. */
  lemma NegativeBalanceStops(a: Address)
    requires 0 < |a| <= MAX_ADDRESS_SIZE && 0 !in a
    ensures Run(RaceStart(a), StopEvents(a)).io == Stopped(NegativeBalance)
  {
    hide CommandStep, Run, Opening, RaceEvents, RaceStart, SmallTables;
    RaceGoesNegative(a);
    AgentThere(a);
    var s := Run(RaceStart(a), RaceEvents(a));
    var later := Opening(a, 1) + [IoStep];
    RunJoin(RaceStart(a), RaceEvents(a), [IoStep] + later);
    RunJoin(s, [IoStep], later);
    RunOne(s, IoStep);
    LastCommandDone(s, a);
    var s1 := IoNext(s);
    RunJoin(s1, Opening(a, 1), [IoStep]);
    Opens(s1, a, 1);
    var s2 := s1.(io := Running(a, Transfer(1), [], false));
    RunOne(s2, IoStep);
    NegativeTransfer(s2, a);
  }

  lemma AgentThere(a: Address)
    ensures a in RaceStart(a).db.agents
  {
  }

  // ---------- a response too long for its size field ----------

  /** One agent with a file of 40000 bytes. */
  function BigFileTables(a: Address): Tables {
    var t := SmallTables(a);
    t.(files := map[1 := File(a, [], 1, Some(Zeros(40000)))])
  }

  const TWO_READS: seq<C.Command> := [C.ReadFileByID(1), C.ReadFileByID(1)]

  lemma BigFileConsistent(a: Address)
    requires a != []
    ensures Consistent(BigFileTables(a))
  {
  }

  lemma TwoReadsRun(t: Tables, a: Address, r: R.Result)
    requires Handle(t, a, C.ReadFileByID(1)) == Reply(t, Some(r), Uncaught) && !Fatal(r)
    ensures RunBatch(t, a, TWO_READS) == BatchRun(t, [r, r], None)
  {
    hide Handle, Fatal;
    var cs := TWO_READS;
    assert Handler(a)(t, cs[0]) == Handler(a)(t, cs[1]) == Handle(t, a, C.ReadFileByID(1));
    assert RunLoop(Handler(a), t, cs, [r, r]) == BatchRun(t, [r, r], None);
    assert [r] + [r] == [r, r] && [] + [r] == [r];
    assert RunLoop(Handler(a), t, cs, [r]) == RunLoop(Handler(a), t, cs, [r] + [r]);
    assert RunLoop(Handler(a), t, cs, []) == RunLoop(Handler(a), t, cs, [] + [r]);
  }

  lemma TwoBigReads(data: seq<byte>)
    requires |data| == 40000
    ensures var r := R.FileRead(0, data); r.Valid() && |R.EncodeBatch([r, r])| >= 0x1_0000
  {
    W.Formats();
    var r := R.FileRead(0, data);
    assert [r, r][1..] == [r];
    assert |R.Encode(r)| >= 40000;
    hide R.Encode;
    assert |R.EncodeAll([r])| >= 40000 && |R.EncodeAll([r, r])| >= 80000;
  }

  /** Reading one file of 40000 bytes twice is a batch whose results the client cannot read back. */
  lemma OversizeConversation(a: Address, more: seq<byte>)
    requires a != []
    ensures Consistent(BigFileTables(a)) && C.ValidAll(TWO_READS)
    ensures var b := RunBatch(BigFileTables(a), a, TWO_READS);
            && b.escaped.None? && |b.results| == 2 && R.WritableAll(b.results)
            && F.DecodeResponse(TWO_READS, F.EncodeResponse(b.results) + more) != W.Got(b.results, more)
  {
    hide RunLoop, F.EncodeResponse, F.DecodeResponse, R.EncodeBatch;
    BigFileConsistent(a);
    var t, r := BigFileTables(a), R.FileRead(0, Zeros(40000));
    BigRead(t, a);
    TwoReadsRun(t, a, r);
    TwoBigReads(Zeros(40000));
    F.ResponseIff(TWO_READS, [r, r], more);
  }

  lemma BigRead(t: Tables, a: Address)
    requires t == BigFileTables(a)
    ensures Handle(t, a, C.ReadFileByID(1)) == Reply(t, Some(R.FileRead(0, Zeros(40000))), Uncaught)
  {
  }

  // ---------- single values ----------

  /** A file name of 256 bytes arrives empty. */
  lemma LongNameLost()
    ensures var c := C.CreateFile(Zeros(256), 1);
            c.Writable() && C.Decode(C.Encode(c)) == W.Got(C.CreateFile([], 1), [])
  {
    hide C.Encode, C.Decode;
    var c := C.CreateFile(Zeros(256), 1);
    C.WrittenIff(c, []);
    assert C.Encode(c) + [] == C.Encode(c);
    assert c.Sent() == C.CreateFile([], 1);
  }

  /** 65535 bytes of commands pass the packet writer and not its reader. */
  lemma LongestPacketRefused()
    ensures var p := F.CommandBatch([49], Zeros(65535), Zeros(F.MAX_SIG_SIZE));
            p.Writable() && F.DecodePacket(F.EncodePacket(p) + []) != W.Got(p, [])
  {
    hide F.DecodePacket, F.EncodePacket;
    F.PacketIff(F.CommandBatch([49], Zeros(65535), Zeros(F.MAX_SIG_SIZE)), []);
  }

  /** After a negative 'c' the next value is read from the same byte. */
  lemma NegativeCharReadTwice()
    ensures var vals := [P.Int(-1), P.Int(0)];
            P.Matching("cC", vals) && P.UnpackBytes("cC", 0, P.PackBytes("cC", vals))
                                      == Some(P.Reading([P.Int(-1), P.Int(255)], 2))
  {
    var vals := [P.Int(-1), P.Int(0)];
    assert "cC"[1..] == "C" && vals[1..] == [P.Int(0)] && [P.Int(0)][1..] == [] && "C"[1..] == "";
    NegativeCharBytes(vals);
    var buf: seq<byte> := [255, 0];
    assert buf[0..] == buf && buf[..1] == [255];
    P.ByteRead(255);
    assert P.UnpackBytes("", 0, buf[1..]) == Some(P.Reading([], 0));
    P.UnpackItem("C", 0, P.Natural(1), buf, P.Int(255), 1, 1, P.Reading([], 0));
    assert [P.Int(255)] + [] == [P.Int(255)];
    assert [P.Int(-1)] + [P.Int(255)] == [P.Int(-1), P.Int(255)];
    P.UnpackItem("cC", 0, P.Signed(1), buf, P.Int(-1), 0, 1, P.Reading([P.Int(255)], 1));
  }

  lemma NegativeCharBytes(vals: seq<P.Value>)
    requires vals == [P.Int(-1), P.Int(0)]
    ensures P.Matching("cC", vals) && P.PackBytes("cC", vals) == [255, 0]
  {
    assert "cC"[1..] == "C" && vals[1..] == [P.Int(0)] && [P.Int(0)][1..] == [] && "C"[1..] == "";
    P.ByteRead(-1);
    P.ByteRead(0);
  }

  /** A 16-bit float cannot hold 131072, and what it stores instead is another number. */
  lemma ExponentTooBig(r: real)
    requires r == 131072.0
    ensures P.FloatBits(2, r) < 0x1_0000 && Unpack754(P.FloatBits(2, r), Weights(1024, 16)) != r
  {
    P.HalfWeights();
    P.FloatSurvivesIff(2, r);
    hide Unpack754, P.FloatBits, Normalize;
    assert Scale(512.0, 8) == Scale(131072.0, 0);
    assert Scale(1.0, 17) == Scale(512.0, 8);
    NormalUnique(1.0, 17, Normalize(r).m, Normalize(r).e);
  }
}
