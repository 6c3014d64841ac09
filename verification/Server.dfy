/** The io thread of server.cpp: handlers, batch loop and handshake, as methods on the database. */
module Server {
  import opened Bytes
  import opened Ledger
  import opened Service
  import opened Database
  import C = Commands
  import R = Results
  import F = Framing
  import W = Wire

  /** A handshake with nothing happening between its transactions. */
  function Greet(t: Tables, a: Address, key: seq<byte>): Tx<F.HandshakeResponse> {
    if a in t.agents then Tx(t, Ok(F.HandshakeResponse(false, 0)))
    else
      var x := Ledger.InsertPocket(t, []);
      match x.out
      case Throw(e) => Tx(x.tables, Throw(e))
      case Escapes(w) => Tx(x.tables, Escapes(w))
      case Ok(p) =>
        var y := Ledger.InsertAgent(x.tables, a, key, p);
        match y.out
        case Throw(e) => Tx(y.tables, Throw(e))
        case Escapes(w) => Tx(y.tables, Escapes(w))
        case Ok(_) =>
          var z := Ledger.UpdatePocketOwner(y.tables, p, a);
          match z.out
          case Throw(e) => Tx(z.tables, Throw(e))
          case Escapes(w) => Tx(z.tables, Escapes(w))
          case Ok(_) => Tx(z.tables, Ok(F.HandshakeResponse(true, p)))
  }

  /** A known agent's handshake changes nothing; a new agent gets its key recorded and an empty
      pocket of its own, whose id fits the response, unless the pocket ids are spent. */
  lemma HandshakeOutcome(t: Tables, a: Address, key: seq<byte>)
    requires Consistent(t)
    ensures var x := Greet(t, a, key);
            && (a in t.agents ==> x == Tx(t, Ok(F.HandshakeResponse(false, 0))))
            && (a !in t.agents && t.nextPocket > MAX_SERIAL ==> x == Tx(t, Escapes(SerialExhausted)))
            && (a !in t.agents && t.nextPocket <= MAX_SERIAL ==>
                  && x.out == Ok(F.HandshakeResponse(true, t.nextPocket)) && t.nextPocket < 0x1_0000_0000
                  && t.nextPocket !in t.pockets
                  && x.tables == t.(agents := t.agents[a := Agent(key, t.nextPocket)],
                                    pockets := t.pockets[t.nextPocket := Pocket(Some(a), 0, None)],
                                    nextPocket := t.nextPocket + 1))
  {
    hide Ascii, PocketTarget, OwnersAgree, UniqueNames, DataBounded;
    if a !in t.agents && t.nextPocket <= MAX_SERIAL {
      var p := t.nextPocket;
      var row := Pocket(Some(a), 0, None);
      assert t.pockets[p := Pocket(None, 0, None)][p := row] == t.pockets[p := row];
    }
  }

  class Server {
    const db: Database

    constructor (db: Database)
      ensures this.db == db
    {
      this.db := db;
    }

    method ProcessHandshakePacket(a: Address, key: seq<byte>) returns (out: Outcome<F.HandshakeResponse>)
      modifies db
      ensures Tx(db.State(), out) == Greet(old(db.State()), a, key)
    {
      hide Ledger.InsertPocket, Ledger.InsertAgent, Ledger.UpdatePocketOwner;
      var found := db.AgentRowExists(a);
      if found { return Ok(F.HandshakeResponse(false, 0)); }
      var p := db.InsertPocket([]);
      match p {
        case Throw(e) => return Throw(e);
        case Escapes(w) => return Escapes(w);
        case Ok(_) =>
      }
      var inserted := db.InsertAgent(a, key, p.value);
      match inserted {
        case Throw(e) => return Throw(e);
        case Escapes(w) => return Escapes(w);
        case Ok(_) =>
      }
      var updated := db.UpdatePocketOwner(p.value, a);
      match updated {
        case Throw(e) => return Throw(e);
        case Escapes(w) => return Escapes(w);
        case Ok(_) => out := Ok(F.HandshakeResponse(true, p.value));
      }
    }

    method ProcessCreatePocket(a: Address) returns (out: Outcome<R.Result>)
      modifies db
      ensures Tx(db.State(), out) == RunCommand(old(db.State()), a, C.CreatePocket)
    {
      hide Ledger.InsertPocket;
      var id := db.InsertPocket(a);
      match id {
        case Ok(p) => out := Ok(R.PocketCreated(0, p));
        case Throw(e) => out := Throw(e);
        case Escapes(w) => out := Escapes(w);
      }
    }

    method ProcessRequestPocketDepositAddress(a: Address, p: nat) returns (out: Outcome<R.Result>)
      modifies db
      ensures Tx(db.State(), out) == RunCommand(old(db.State()), a, C.RequestPocketDepositAddress(p))
    {
      hide Ledger.VerifyPocketOwner, Ledger.UpdatePocketDepositAddress;
      var checked := db.VerifyPocketOwner(p, a);
      match checked {
        case Throw(e) => return Throw(e);
        case Escapes(w) => return Escapes(w);
        case Ok(_) =>
      }
      var updated := db.UpdatePocketDepositAddress(a, p, DEPOSIT_ADDRESS);
      match updated {
        case Ok(_) => out := Ok(R.DepositAddress(0, DEPOSIT_ADDRESS));
        case Throw(e) => out := Throw(e);
        case Escapes(w) => out := Escapes(w);
      }
    }

    method ProcessPocketTransfer(a: Address, from: nat, to: nat, amount: nat) returns (out: Outcome<R.Result>)
      modifies db
      ensures Tx(db.State(), out) == RunCommand(old(db.State()), a, C.PocketTransfer(from, to, amount))
    {
      hide Ledger.PocketTransfer;
      var moved := db.PocketTransfer(a, from, to, amount);
      match moved {
        case Ok(_) => out := Ok(R.Transferred(0));
        case Throw(e) => out := Throw(e);
        case Escapes(w) => out := Escapes(w);
      }
    }

    method ProcessCreateFile(a: Address, name: seq<byte>, p: nat) returns (out: Outcome<R.Result>)
      modifies db
      ensures Tx(db.State(), out) == RunCommand(old(db.State()), a, C.CreateFile(name, p))
    {
      hide Ledger.VerifyPocketOwner, Ledger.InsertFile;
      var checked := db.VerifyPocketOwner(p, a);
      match checked {
        case Throw(e) => return Throw(e);
        case Escapes(w) => return Escapes(w);
        case Ok(_) =>
      }
      var id := db.InsertFile(a, name, p);
      match id {
        case Ok(f) => out := Ok(R.FileCreated(0, f));
        case Throw(e) => out := Throw(e);
        case Escapes(w) => out := Escapes(w);
      }
    }

    method ProcessUpdateFileByID(a: Address, f: nat, data: seq<byte>) returns (out: Outcome<R.Result>)
      modifies db
      ensures Tx(db.State(), out) == RunCommand(old(db.State()), a, C.UpdateFileByID(f, data))
    {
      hide Ledger.VerifyFileOwner, Ledger.UpdateFileByID;
      var checked := db.VerifyFileOwner(f, a);
      match checked {
        case Throw(e) => return Throw(e);
        case Escapes(w) => return Escapes(w);
        case Ok(_) =>
      }
      var updated := db.UpdateFileByID(f, data);
      match updated {
        case Ok(_) => out := Ok(R.FileUpdated(0));
        case Throw(e) => out := Throw(e);
        case Escapes(w) => out := Escapes(w);
      }
    }

    method ProcessReadFileByID(a: Address, f: nat) returns (out: Outcome<R.Result>)
      modifies db
      ensures Tx(db.State(), out) == RunCommand(old(db.State()), a, C.ReadFileByID(f))
    {
      hide Ledger.ReadFileByID;
      var data := db.ReadFileByID(f);
      match data {
        case Ok(d) => out := Ok(R.FileRead(0, d));
        case Throw(e) => out := Throw(e);
        case Escapes(w) => out := Escapes(w);
      }
    }

    method ProcessCommand(a: Address, c: C.Command) returns (out: Outcome<R.Result>)
      modifies db
      ensures Tx(db.State(), out) == RunCommand(old(db.State()), a, c)
    {
      hide RunCommand;
      match c {
        case CreatePocket => out := ProcessCreatePocket(a);
        case RequestPocketDepositAddress(p) => out := ProcessRequestPocketDepositAddress(a, p);
        case PocketTransfer(from, to, amount) => out := ProcessPocketTransfer(a, from, to, amount);
        case CreateFile(name, p) => out := ProcessCreateFile(a, name, p);
        case UpdateFileByID(f, data) => out := ProcessUpdateFileByID(a, f, data);
        case ReadFileByID(f) => out := ProcessReadFileByID(a, f);
      }
    }

    /** The batch loop: results are appended, a fatal error is appended and ends the batch, any
        other exception leaves with what is there. */
    method ProcessCommands(a: Address, cs: seq<C.Command>) returns (crb: R.ResultBatch, escaped: Option<Escape>)
      modifies db
      ensures fresh(crb) && crb.commands == cs
      ensures BatchRun(db.State(), crb.results, escaped) == RunBatch(old(db.State()), a, cs)
    {
      hide RunCommand;
      crb := new R.ResultBatch(cs);
      escaped := None;
      ghost var was := db.State();
      for i := 0 to |cs|
        invariant fresh(crb) && crb.commands == cs && |crb.results| == i && escaped.None?
        invariant RunBatch(was, a, cs) == RunLoop(Handler(a), db.State(), cs, crb.results)
      {
        LoopRound(db.State(), a, cs, crb.results);
        var out := ProcessCommand(a, cs[i]);
        match out {
          case Ok(r) =>
            crb.AddResult(r);
          case Throw(e) =>
            var commandError := ErrorResult(e);
            crb.AddResult(commandError);
            if commandError.fatal { break; }
          case Escapes(w) =>
            escaped := Some(w);
            return;
        }
      }
    }

    /** The whole request: an unknown agent or a batch that does not decode ends in an exception
        nothing catches. */
    method ProcessCommandBatchPacket(a: Address, data: seq<byte>) returns (crb: R.ResultBatch, escaped: Option<Escape>)
      modifies db
      ensures fresh(crb)
      ensures BatchRun(db.State(), crb.results, escaped) == Serve(old(db.State()), a, data)
      ensures escaped.None? ==> C.DecodeBatch(data).Got? && crb.commands == C.DecodeBatch(data).value
    {
      hide RunBatch;
      crb := new R.ResultBatch([]);
      var known := db.AgentRowExists(a);
      if !known { return crb, Some(UnknownAgent); }
      var ptr := new W.Pointer(data);
      var cb, _ := C.ConsumeBatchFromBuf(ptr);
      if cb.None? { return crb, Some(Uncaught); }
      crb, escaped := ProcessCommands(a, cb.value);
    }
  }

  function Serve(t: Tables, a: Address, data: seq<byte>): BatchRun {
    if a !in t.agents then BatchRun(t, [], Some(UnknownAgent))
    else
      match C.DecodeBatch(data)
      case Failed(_) => BatchRun(t, [], Some(Uncaught))
      case Got(cs, _) => RunBatch(t, a, cs)
  }

  /** One round of the batch loop. */
  lemma LoopRound(t: Tables, a: Address, cs: seq<C.Command>, rs: seq<R.Result>)
    requires |rs| < |cs|
    ensures var x, b := RunCommand(t, a, cs[|rs|]), RunLoop(Handler(a), t, cs, rs);
            match x.out
            case Escapes(w) => b == BatchRun(x.tables, rs, Some(w))
            case Throw(e) => ErrorResult(e).fatal && b == BatchRun(x.tables, rs + [ErrorResult(e)], None)
            case Ok(r) => !Fatal(r) && b == RunLoop(Handler(a), x.tables, cs, rs + [r])
  {
    hide RunCommand;
    SuccessNotFatal(t, a, cs[|rs|]);
    assert Handler(a)(t, cs[|rs|]) == Handle(t, a, cs[|rs|]);
  }

  lemma SuccessNotFatal(t: Tables, a: Address, c: C.Command)
    ensures RunCommand(t, a, c).out.Ok? ==> !RunCommand(t, a, c).out.value.Error?
  {
  }
}
