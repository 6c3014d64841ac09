/** From the client's commands to the client's results, through packet, batch loop and response. */
module EndToEnd {
  import opened Bytes
  import opened Ledger
  import opened Service
  import opened Machine
  import opened Framing
  import opened Server
  import opened Serial
  import B = Base58Check
  import B58 = Base58
  import C = Commands
  import R = Results
  import W = Wire

  // ---------- a batch's results fit the wire ----------

  lemma HandleKeeps(t: Tables, a: Address, c: C.Command)
    requires Consistent(t) && a in t.agents && c.Valid()
    ensures var x := Handle(t, a, c);
            && Consistent(x.tables) && Extends(t, x.tables)
            && (x.result.Some? ==> x.result.value.Valid() && x.result.value.Answers(c.TypeChar())
                                   && (x.result.value.Error? ==> Fatal(x.result.value)))
  {
    hide Consistent, Extends, Act, Check, StillOwned;
    AgentsNamed(t);
    if TwoPhase(c) && !Check(t, a, c).Ok? {
      CheckGrants(t, a, c);
      SameOwnersKeep(t, t);
    } else {
      if TwoPhase(c) { CheckGrants(t, a, c); }
      NoCheckNeeded(t, a, c);
      ActKeeps(t, a, c);
      ActAnswers(t, a, c);
    }
  }

  lemma ExtendsTwice(t: Tables, u: Tables, v: Tables)
    requires Serials(t) && Extends(t, u) && Extends(u, v)
    ensures Extends(t, v)
  {
  }

  /** The batch loop keeps the tables consistent, and its results answer the batch and fit the wire,
      cut short by a fatal error or not. */
  lemma {:induction false} LoopKeeps(t: Tables, a: Address, cs: seq<C.Command>, rs: seq<R.Result>)
    requires Consistent(t) && a in t.agents && ValidBatch(cs) && SoFar(cs, rs)
    ensures var b := RunLoop(Handler(a), t, cs, rs);
            Consistent(b.tables) && Extends(t, b.tables) && (b.escaped.None? ==> Complete(cs, b.results))
    decreases |cs| - |rs|
  {
    hide Consistent, Extends, Handle;
    SameOwnersKeep(t, t);
    AgentsNamed(t);
    if |rs| < |cs| {
      var c := cs[|rs|];
      var x := Handler(a)(t, c);
      assert x == Handle(t, a, c);
      HandleKeeps(t, a, c);
      if x.result.Some? && !Fatal(x.result.value) {
        AgentStays(t, x.tables, a);
        LoopKeeps(x.tables, a, cs, rs + [x.result.value]);
        ExtendsTwice(t, x.tables, RunLoop(Handler(a), x.tables, cs, rs + [x.result.value]).tables);
      }
    }
  }

  lemma AgentStays(t: Tables, u: Tables, a: Address)
    requires Extends(t, u) && a in t.agents
    ensures a in u.agents
  {
  }

  // ---------- requests ----------

  lemma AlphabetByte(c: char)
    requires c in B58.Alphabet()
    ensures 0 < c as int < 128
  {
  }

  /** The address of every agent fills the packet's field and has no zero byte to end it early. */
  lemma AddressTravels(sha: B.Sha256, keyHash: seq<byte>)
    requires |keyHash| == B.KEY_HASH_SIZE
    ensures var a := Ascii(B.AgentAddress(sha, keyHash)); |a| == MAX_ADDRESS_SIZE && 0 !in a && W.PadAddress(a) == a
  {
    hide B.AgentAddress;
    B.AddressIs34(sha, keyHash);
    var s := B.AgentAddress(sha, keyHash);
    forall i | 0 <= i < |s| ensures Ascii(s)[i] != 0 {
      AlphabetByte(s[i]);
    }
    assert W.PadAddress(Ascii(s)) == Ascii(s);
  }

  /** A request as the client sends it. */
  function Request(a: Address, cs: seq<C.Command>, sig: seq<byte>): seq<byte>
    requires C.WritableAll(cs) && |cs| <= C.MAX_COMMANDS && CommandBatch(a, C.EncodeBatch(cs), sig).Writable()
  {
    EncodePacket(CommandBatch(a, C.EncodeBatch(cs), sig))
  }

  /** The server takes the request for what it is: the agent named, and what was sent of the batch. */
  lemma RequestArrives(a: Address, cs: seq<C.Command>, sig: seq<byte>, rest: seq<byte>, keyAddr: KeyAddress)
    requires C.WritableAll(cs) && |cs| <= C.MAX_COMMANDS && CommandBatch(a, C.EncodeBatch(cs), sig).Writable()
    requires 0 !in a && |C.EncodeBatch(cs)| < 65535
    ensures Accepted(Request(a, cs, sig) + rest, keyAddr) == Auth(a, C.EncodeBatch(cs))
    ensures C.DecodeBatch(C.EncodeBatch(cs)) == W.Got(C.SentAll(cs), [])
  {
    hide EncodePacket, DecodePacket, C.EncodeBatch, C.DecodeBatch;
    var data := C.EncodeBatch(cs);
    PacketIff(CommandBatch(a, data, sig), rest);
    C.BatchWrittenIff(cs, []);
    assert data + [] == data;
  }

  // ---------- end to end ----------

  /** For every batch a client can write and every consistent database with the agent in it: the
      server runs exactly what was sent of the batch, and unless an exception stops it the client
      reads exactly the server's results, whole batch or cut short, if and only if their encoding is
      below 65536 bytes. */
  lemma Conversation(t: Tables, a: Address, cs: seq<C.Command>, sig: seq<byte>, rest: seq<byte>, keyAddr: KeyAddress,
                     more: seq<byte>)
    requires Consistent(t) && a in t.agents
    requires C.WritableAll(cs) && |cs| <= C.MAX_COMMANDS && CommandBatch(a, C.EncodeBatch(cs), sig).Writable()
    requires 0 !in a && |C.EncodeBatch(cs)| < 65535
    ensures var data, b := C.EncodeBatch(cs), RunBatch(t, a, C.SentAll(cs));
            && Accepted(Request(a, cs, sig) + rest, keyAddr) == Auth(a, data) && Serve(t, a, data) == b
            && (b.escaped.None? ==>
                  && Complete(C.SentAll(cs), b.results)
                  && (DecodeResponse(cs, EncodeResponse(b.results) + more) == W.Got(b.results, more)
                      <==> |R.EncodeBatch(b.results)| < 0x1_0000))
  {
    hide Consistent, Accepted, Request, RunLoop, C.EncodeBatch, C.DecodeBatch, EncodeResponse, DecodeResponse,
      R.EncodeBatch;
    RequestArrives(a, cs, sig, rest, keyAddr);
    var b := RunBatch(t, a, C.SentAll(cs));
    LoopKeeps(t, a, C.SentAll(cs), []);
    if b.escaped.None? {
      SameTypes(cs, b.results);
      ResponseIff(cs, b.results, more);
    }
  }

  /** Sending keeps the types, by which the client reads the results. */
  lemma SameTypes(cs: seq<C.Command>, rs: seq<R.Result>)
    requires R.AnswerAll(C.SentAll(cs), rs)
    ensures R.AnswerAll(cs, rs)
  {
    forall i | 0 <= i < |rs| ensures rs[i].Answers(cs[i].TypeChar()) {
      assert C.SentAll(cs)[i] == cs[i].Sent();
    }
  }

  /** And so in the state machine, from any state in which a client can connect. */
  lemma RequestServed(s: Sys, a: Address, cs: seq<C.Command>, sig: seq<byte>, rest: seq<byte>, keyAddr: KeyAddress)
    requires s.io.Idle? || s.io.HsDone? || s.io.Finished?
    requires C.WritableAll(cs) && |cs| <= C.MAX_COMMANDS && CommandBatch(a, C.EncodeBatch(cs), sig).Writable()
    requires 0 !in a && |C.EncodeBatch(cs)| < 65535
    ensures exists n ::
              Run(s, [Connects(Request(a, cs, sig) + rest, keyAddr), IoStep] + Alone(n))
              == Answered(s, a, C.EncodeBatch(cs))
  {
    hide Run, Answered, Request, Accepted, C.EncodeBatch, C.DecodeBatch;
    RequestArrives(a, cs, sig, rest, keyAddr);
    var stream, data := Request(a, cs, sig) + rest, C.EncodeBatch(cs);
    ConnectionRead(s, stream, keyAddr, a, data);
    var v := s.(io := Auth(a, data));
    SameAnswer(s, a, data);
    BatchAlone(v, a, data);
    var n :| Run(v, Alone(n)) == Answered(v, a, data);
    RunJoin(s, [Connects(stream, keyAddr), IoStep], Alone(n));
  }

  lemma ConnectionRead(s: Sys, stream: seq<byte>, keyAddr: KeyAddress, a: Address, data: seq<byte>)
    requires Free(s.io) && Accepted(stream, keyAddr) == Auth(a, data)
    ensures Run(s, [Connects(stream, keyAddr), IoStep]) == s.(io := Auth(a, data))
  {
    hide Accepted;
    RunOne(s, Connects(stream, keyAddr));
    assert [Connects(stream, keyAddr), IoStep][..1] == [Connects(stream, keyAddr)];
  }

  lemma SameAnswer(s: Sys, a: Address, data: seq<byte>)
    ensures Answered(s.(io := Auth(a, data)), a, data) == Answered(s, a, data)
  {
    hide Serve, C.DecodeBatch;
  }

  lemma RunOne(s: Sys, e: Event)
    ensures Run(s, [e]) == Step(s, e)
  {
    assert [e][..0] == [] && Run(s, []) == s;
  }

  /** The same in every run with both threads: whatever fee transactions came between the
      commands', the client of a finished request reads exactly the server's results if and only if
      their encoding is below 65536 bytes. */
  lemma FinishedRunDelivers(s: Sys, es: seq<Event>, more: seq<byte>)
    requires Start(s) && Run(s, es).io.Finished?
    ensures var io := Run(s, es).io;
            && Complete(io.cmds, io.results) && |io.results| <= R.MAX_RESULTS
            && (DecodeResponse(io.cmds, EncodeResponse(io.results) + more) == W.Got(io.results, more)
                <==> |R.EncodeBatch(io.results)| < 0x1_0000)
  {
    hide Consistent, OwnersSet, EncodeResponse, DecodeResponse, Run;
    RunKeeps(s, es);
    var io := Run(s, es).io;
    ResponseIff(io.cmds, io.results, more);
  }

  // ---------- handshakes ----------

  /** A handshake packet is taken for a handshake, with exactly the key it carries. */
  lemma HandshakeArrives(k: seq<byte>, rest: seq<byte>, keyAddr: KeyAddress)
    requires |k| == 420
    ensures Accepted(EncodePacket(Handshake(k)) + rest, keyAddr) == HsCheck(keyAddr, k)
  {
    hide EncodePacket, DecodePacket;
    PacketIff(Handshake(k), rest);
  }

  /** Where a handshake leaves the server. */
  function Greeted(s: Sys, a: Address, k: seq<byte>): Sys {
    var x := Greet(s.db, a, k);
    s.(db := x.tables,
       io := match x.out
             case Ok(h) => HsDone(a, h.isNewAgent, h.defaultPocketID)
             case Throw(_) => Stopped(Uncaught)
             case Escapes(w) => Stopped(w))
  }

  /** From any state in which a client can connect, sending a handshake and taking the io thread's steps
      alone ends in the tables and the answer of the handshake: an agent already known is told so and
      nothing changes; a new one ends recorded with this key and with an empty pocket of its own, whose
      id it is told, unless the pocket ids are spent. */
  lemma HandshakeServed(s: Sys, a: KeyAddress, k: seq<byte>, rest: seq<byte>)
    requires (s.io.Idle? || s.io.HsDone? || s.io.Finished?) && Consistent(s.db) && |k| == 420
    ensures var u := Run(s, [Connects(EncodePacket(Handshake(k)) + rest, a), IoStep] + Alone(4));
            && u == Greeted(s, a, k)
            && (a in s.db.agents ==> u == s.(io := HsDone(a, false, 0)))
            && (a !in s.db.agents && s.db.nextPocket > MAX_SERIAL ==> u == s.(io := Stopped(SerialExhausted)))
            && (a !in s.db.agents && s.db.nextPocket <= MAX_SERIAL ==>
                  && u.io.HsDone? && u.io.isNew && a in u.db.agents && u.db.agents[a] == Agent(k, u.io.pocket)
                  && u.io.pocket !in s.db.pockets && u.io.pocket in u.db.pockets
                  && u.db.pockets[u.io.pocket] == Pocket(Some(a), 0, None))
  {
    hide Run, Greet, Accepted, EncodePacket, Consistent;
    var stream := EncodePacket(Handshake(k)) + rest;
    HandshakeArrives(k, rest, a);
    var v := s.(io := HsCheck(a, k));
    HandshakeRead(s, stream, a, k);
    RunJoin(s, [Connects(stream, a), IoStep], Alone(4));
    HandshakeAlone(v, a, k);
    HandshakeOutcome(s.db, a, k);
    assert s.(db := s.db) == s;
  }

  lemma HandshakeRead(s: Sys, stream: seq<byte>, a: KeyAddress, k: seq<byte>)
    requires Free(s.io) && Accepted(stream, a) == HsCheck(a, k)
    ensures Run(s, [Connects(stream, a), IoStep]) == s.(io := HsCheck(a, k))
  {
    hide Accepted;
    RunOne(s, Connects(stream, a));
    assert [Connects(stream, a), IoStep][..1] == [Connects(stream, a)];
  }

  /** A handshake's answer reaches the client: whether the agent is new and, if so, its pocket. */
  lemma HandshakeDelivers(t: Tables, a: Address, key: seq<byte>, more: seq<byte>)
    requires Consistent(t) && Greet(t, a, key).out.Ok?
    ensures var x := Greet(t, a, key);
            && x.out.value.defaultPocketID < 0x1_0000_0000
            && DecodeHandshakeResponse(EncodeHandshakeResponse(x.out.value) + more) == W.Got(x.out.value, more)
            && (x.out.value.isNewAgent ==> x.tables.agents[a].defaultPocket == x.out.value.defaultPocketID
                                           && Owned(x.tables, a, x.out.value.defaultPocketID))
            && (x.out.value.isNewAgent <==> a !in t.agents)
  {
    hide Consistent, Greet, EncodeHandshakeResponse, DecodeHandshakeResponse;
    HandshakeOutcome(t, a, key);
    HandshakeRoundTrip(Greet(t, a, key).out.value, more);
  }
}
