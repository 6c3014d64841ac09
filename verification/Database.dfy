/** The functions of util/database.cpp as methods of a database that holds the three tables. Each
    transaction works on copies of the rows it touches and commits by storing them. */
module Database {
  import opened Bytes
  import opened Ledger
  import opened Fees
  import R = Results

  // ---------- prepared statements ----------

  /** Rows after an update, and how many it affected. */
  datatype Update = Update(rows: map<nat, Pocket>, affected: nat)

  /** Takes the amount from a pocket if it is that owner's and holds enough. Where a number leaves the
      bigint range the statement fails: there is no result. */
  function DeductFromPocketWithOwner(rows: map<nat, Pocket>, id: nat, owner: Address, amount: nat): Option<Update> {
    if id in rows && rows[id].owner == Some(owner) then
      var left := rows[id].amount - amount;
      if left < BIGINT_MIN then None
      else if left >= 0 then Some(Update(rows[id := rows[id].(amount := left)], 1))
      else Some(Update(rows, 0))
    else Some(Update(rows, 0))
  }

  /** Brings the amount to a pocket, whoever owns it. */
  function AddToPocket(rows: map<nat, Pocket>, id: nat, amount: nat): Option<Update> {
    if id in rows then
      var sum := rows[id].amount + amount;
      if sum > BIGINT_MAX then None else Some(Update(rows[id := rows[id].(amount := sum)], 1))
    else Some(Update(rows, 0))
  }

  // ---------- upkeep fees, row by row ----------

  /** A row of the grouped query. */
  datatype FeeRow = FeeRow(pocket: nat, totalFees: nat, wouldBankrupt: bool)

  ghost predicate Distinct(rows: seq<FeeRow>) {
    forall i, j :: 0 <= i < j < |rows| ==> rows[i].pocket != rows[j].pocket
  }

  /** The rows the grouped query may return for a bill: each of its entries once, in any order. */
  ghost predicate RowsOf(rows: seq<FeeRow>, bill: map<nat, Charge>) {
    && Distinct(rows)
    && (forall i :: 0 <= i < |rows| ==>
          rows[i].pocket in bill && bill[rows[i].pocket] == Charge(rows[i].totalFees, rows[i].wouldBankrupt))
    && (forall p :: p in bill ==> exists i :: 0 <= i < |rows| && rows[i].pocket == p)
  }

  /** The pockets whose files are to be deleted. */
  function Bankrupts(rows: seq<FeeRow>): seq<nat> {
    if rows == [] then [] else
      Bankrupts(rows[..|rows| - 1]) + if rows[|rows| - 1].wouldBankrupt then [rows[|rows| - 1].pocket] else []
  }

  /** The rows that say what to take from which pocket; the statement is limited to their pockets. */
  function Arms(rows: seq<FeeRow>): seq<FeeRow> {
    if rows == [] then [] else
      Arms(rows[..|rows| - 1]) + if rows[|rows| - 1].wouldBankrupt then [] else [rows[|rows| - 1]]
  }

  /** The first arm that matches. */
  function Case(arms: seq<FeeRow>, p: nat): Option<nat> {
    if arms == [] then None else if arms[0].pocket == p then Some(arms[0].totalFees) else Case(arms[1..], p)
  }

  /** What that statement makes of the pockets. */
  function Deducted(pockets: map<nat, Pocket>, arms: seq<FeeRow>): map<nat, Pocket> {
    map p | p in pockets ::
      match Case(arms, p)
      case None => pockets[p]
      case Some(fee) => pockets[p].(amount := pockets[p].amount - fee)
  }

  function Deleted(files: map<nat, File>, bankrupts: seq<nat>): map<nat, File> {
    map f | f in files && files[f].pocket !in bankrupts :: files[f]
  }

  lemma {:induction false} BankruptsAre(rows: seq<FeeRow>, p: nat)
    ensures p in Bankrupts(rows) <==> exists i :: 0 <= i < |rows| && rows[i].pocket == p && rows[i].wouldBankrupt
  {
    if rows != [] {
      var init, r := rows[..|rows| - 1], rows[|rows| - 1];
      BankruptsAre(init, p);
      if i :| 0 <= i < |rows| && rows[i].pocket == p && rows[i].wouldBankrupt {
        assert i < |init| ==> init[i] == rows[i];
      }
    }
  }

  lemma {:induction false} ArmsAre(rows: seq<FeeRow>, r: FeeRow)
    ensures r in Arms(rows) <==> r in rows && !r.wouldBankrupt
  {
    if rows != [] {
      ArmsAre(rows[..|rows| - 1], r);
      assert rows == rows[..|rows| - 1] + [rows[|rows| - 1]];
    }
  }

  lemma {:induction false} CaseIs(arms: seq<FeeRow>, p: nat)
    ensures match Case(arms, p)
            case Some(fee) => exists i :: 0 <= i < |arms| && arms[i].pocket == p && arms[i].totalFees == fee
            case None => forall i :: 0 <= i < |arms| ==> arms[i].pocket != p
  {
    if arms != [] && arms[0].pocket != p {
      CaseIs(arms[1..], p);
      if Case(arms, p).Some? {
        var i :| 0 <= i < |arms[1..]| && arms[1..][i].pocket == p && arms[1..][i].totalFees == Case(arms, p).value;
        assert arms[i + 1].pocket == p;
      } else {
        forall i | 0 <= i < |arms| ensures arms[i].pocket != p {
          if i > 0 { assert arms[i] == arms[1..][i - 1]; }
        }
      }
    }
  }

  lemma FeeOfRow(rows: seq<FeeRow>, bill: map<nat, Charge>, p: nat)
    requires RowsOf(rows, bill)
    ensures FeeOf(bill, p) == match Case(Arms(rows), p) case None => 0 case Some(fee) => fee
    ensures Evicted(bill, p) <==> p in Bankrupts(rows)
  {
    var arms := Arms(rows);
    CaseIs(arms, p);
    BankruptsAre(rows, p);
    if Case(arms, p).Some? {
      var i :| 0 <= i < |arms| && arms[i].pocket == p && arms[i].totalFees == Case(arms, p).value;
      ArmsAre(rows, arms[i]);
    } else if p in bill {
      var i :| 0 <= i < |rows| && rows[i].pocket == p;
      ArmsAre(rows, rows[i]);
    }
  }

  /** However the rows are ordered, the two statements built from them do what the bill says. */
  lemma RowsApply(t: Tables, rows: seq<FeeRow>, bill: map<nat, Charge>)
    requires RowsOf(rows, bill)
    ensures t.(files := Deleted(t.files, Bankrupts(rows)), pockets := Deducted(t.pockets, Arms(rows)))
            == ApplyFees(t, bill)
  {
    hide RowsOf, FeeOf, Evicted;
    forall p ensures FeeOf(bill, p) == match Case(Arms(rows), p) case None => 0 case Some(fee) => fee
             ensures Evicted(bill, p) <==> p in Bankrupts(rows) {
      FeeOfRow(rows, bill, p);
    }
    assert Deleted(t.files, Bankrupts(rows)) == ApplyFees(t, bill).files;
    assert Deducted(t.pockets, Arms(rows)) == ApplyFees(t, bill).pockets;
  }

  /** Any two answers the query may give for the same tables have the same effect. */
  lemma RowOrder(t: Tables, rows: seq<FeeRow>, others: seq<FeeRow>, perFile: nat, perByte: nat)
    requires RowsOf(rows, FetchFees(t, perFile, perByte)) && RowsOf(others, FetchFees(t, perFile, perByte))
    ensures Deleted(t.files, Bankrupts(rows)) == Deleted(t.files, Bankrupts(others))
    ensures Deducted(t.pockets, Arms(rows)) == Deducted(t.pockets, Arms(others))
  {
    hide RowsOf, Deleted, Deducted, FetchFees;
    RowsApply(t, rows, FetchFees(t, perFile, perByte));
    RowsApply(t, others, FetchFees(t, perFile, perByte));
  }

  // ---------- the database ----------

  class Database {
    var agents: map<Address, Agent>
    var pockets: map<nat, Pocket>
    var files: map<nat, File>
    var nextPocket: nat
    var nextFile: nat

    function State(): Tables
      reads this
    {
      Tables(agents, pockets, files, nextPocket, nextFile)
    }

    method AgentRowExists(a: Address) returns (found: bool)
      ensures found <==> a in State().agents
    {
      found := a in agents;
    }

    method InsertAgent(a: Address, key: seq<byte>, defaultPocket: nat) returns (out: Outcome<()>)
      modifies this
      ensures Tx(State(), out) == Ledger.InsertAgent(old(State()), a, key, defaultPocket)
    {
      if !Storable(defaultPocket) { return Escapes(OutOfRange); }
      if a in agents { return Throw(R.ServerLogic(AGENT_EXISTS)); }
      var work := agents[a := Agent(key, defaultPocket)];
      if defaultPocket !in pockets { return Escapes(ForeignKey); }
      agents := work;
      out := Ok(());
    }

    method InsertPocket(owner: Address) returns (out: Outcome<nat>)
      modifies this
      ensures Tx(State(), out) == Ledger.InsertPocket(old(State()), owner)
    {
      out := InsertPocketWithAddress(owner, []);
    }

    method InsertPocketWithAddress(owner: Address, deposit: seq<byte>) returns (out: Outcome<nat>)
      modifies this
      ensures Tx(State(), out) == Ledger.InsertPocketWithAddress(old(State()), owner, deposit)
    {
      var id := nextPocket;
      if id > MAX_SERIAL { return Escapes(SerialExhausted); }
      nextPocket := nextPocket + 1;
      var work;
      if deposit != [] {
        work := pockets[id := Pocket(Some(owner), 0, Some(deposit))];
        if owner !in agents { return Escapes(ForeignKey); }
      } else if owner != [] {
        work := pockets[id := Pocket(Some(owner), 0, None)];
        if owner !in agents { return Escapes(ForeignKey); }
      } else {
        work := pockets[id := Pocket(None, 0, None)];
      }
      pockets := work;
      out := Ok(id);
    }

    method FetchPocketOwner(id: nat) returns (out: Outcome<Address>)
      ensures match out
              case Ok(o) => Storable(id) && id in State().pockets
                            && o == (match State().pockets[id].owner case None => [] case Some(a) => a)
              case Throw(e) => Storable(id) && id !in State().pockets && e == R.InvalidTarget(PocketTarget(id))
              case Escapes(w) => !Storable(id) && w == OutOfRange
    {
      if !Storable(id) { return Escapes(OutOfRange); }
      if id !in pockets { return Throw(R.InvalidTarget(PocketTarget(id))); }
      var owner := [];
      match pockets[id].owner {
        case None =>
        case Some(a) => owner := a;
      }
      out := Ok(owner);
    }

    method VerifyPocketOwner(id: nat, a: Address) returns (out: Outcome<()>)
      ensures out == Ledger.VerifyPocketOwner(State(), id, a)
    {
      var owner := FetchPocketOwner(id);
      match owner {
        case Ok(o) =>
          if o != a { return Throw(R.TargetNotOwned(PocketTarget(id))); }
          out := Ok(());
        case Throw(e) => out := Throw(e);
        case Escapes(w) => out := Escapes(w);
      }
    }

    method UpdatePocketOwner(id: nat, a: Address) returns (out: Outcome<()>)
      modifies this
      ensures Tx(State(), out) == Ledger.UpdatePocketOwner(old(State()), id, a)
    {
      if !Storable(id) { return Escapes(OutOfRange); }
      var affected := 0;
      if id in pockets {
        if a !in agents { return Escapes(ForeignKey); }
        pockets := pockets[id := pockets[id].(owner := Some(a))];
        affected := 1;
      }
      if affected == 0 { return Throw(R.InvalidTarget(PocketTarget(id))); }
      out := Ok(());
    }

    method UpdatePocketDepositAddress(a: Address, id: nat, deposit: seq<byte>) returns (out: Outcome<()>)
      modifies this
      ensures Tx(State(), out) == Ledger.UpdatePocketDepositAddress(old(State()), a, id, deposit)
    {
      if !Storable(id) { return Escapes(OutOfRange); }
      var affected := 0;
      if id in pockets && pockets[id].owner == Some(a) {
        pockets := pockets[id := pockets[id].(depositAddress := Some(deposit))];
        affected := 1;
      }
      if affected == 0 { return Throw(R.InvalidTarget(PocketTarget(id))); }
      out := Ok(());
    }

    /** Debit, find out what went wrong if no row was affected, credit, commit. */
    method PocketTransfer(a: Address, from: nat, to: nat, amount: nat) returns (out: Outcome<()>)
      modifies this
      ensures Tx(State(), out) == Ledger.PocketTransfer(old(State()), a, from, to, amount)
    {
      hide PocketTarget, TransferFailed;
      var work := pockets;
      if !Storable(from) || amount > BIGINT_MAX { return Escapes(OutOfRange); }
      var result := DeductFromPocketWithOwner(work, from, a, amount);
      if result.None? { return Escapes(OutOfRange); }
      work := result.value.rows;
      if result.value.affected == 0 {
        if from !in work {
          return Throw(R.InvalidTarget(PocketTarget(from)));
        }
        if work[from].owner.None? { return Escapes(NullOwner); }
        if work[from].owner.value != a {
          return Throw(R.TargetNotOwned(PocketTarget(from)));
        }
        if work[from].amount < 0 { return Escapes(NegativeBalance); }
        var balance: nat := work[from].amount;
        if (balance - amount) % 0x1_0000_0000_0000_0000 < 0 {
          return Throw(R.CreditInsufficient(amount, balance));
        }
        return Throw(R.ServerLogic(TransferFailed(from)));
      }
      if !Storable(to) { return Escapes(OutOfRange); }
      result := AddToPocket(work, to, amount);
      if result.None? { return Escapes(OutOfRange); }
      work := result.value.rows;
      if result.value.affected == 0 {
        return Throw(R.InvalidTarget(PocketTarget(to)));
      }
      assert work == Moved(pockets, from, to, amount);
      pockets := work;
      out := Ok(());
    }

    method InsertFile(a: Address, name: seq<byte>, pocket: nat) returns (out: Outcome<nat>)
      modifies this
      ensures Tx(State(), out) == Ledger.InsertFile(old(State()), a, name, pocket)
    {
      if !Storable(pocket) { return Escapes(OutOfRange); }
      var id := nextFile;
      if id > MAX_SERIAL { return Escapes(SerialExhausted); }
      nextFile := nextFile + 1;
      if exists f :: f in files && files[f].owner == a && files[f].name == name {
        return Throw(R.ServerLogic(FILE_EXISTS));
      }
      var work := files[id := File(a, name, pocket, None)];
      if a !in agents || pocket !in pockets { return Escapes(ForeignKey); }
      files := work;
      out := Ok(id);
    }

    method FetchFileOwner(id: nat) returns (out: Outcome<Address>)
      ensures match out
              case Ok(o) => Storable(id) && id in State().files && o == State().files[id].owner
              case Throw(e) => Storable(id) && id !in State().files && e == R.InvalidTarget(FileTarget(id))
              case Escapes(w) => !Storable(id) && w == OutOfRange
    {
      if !Storable(id) { return Escapes(OutOfRange); }
      if id !in files { return Throw(R.InvalidTarget(FileTarget(id))); }
      out := Ok(files[id].owner);
    }

    method VerifyFileOwner(id: nat, a: Address) returns (out: Outcome<()>)
      ensures out == Ledger.VerifyFileOwner(State(), id, a)
    {
      var owner := FetchFileOwner(id);
      match owner {
        case Ok(o) =>
          if o != a { return Throw(R.TargetNotOwned(FileTarget(id))); }
          out := Ok(());
        case Throw(e) => out := Throw(e);
        case Escapes(w) => out := Escapes(w);
      }
    }

    method UpdateFileByID(id: nat, data: seq<byte>) returns (out: Outcome<()>)
      modifies this
      ensures Tx(State(), out) == Ledger.UpdateFileByID(old(State()), id, data)
    {
      if !Storable(id) { return Escapes(OutOfRange); }
      var affected := 0;
      if id in files {
        files := files[id := files[id].(data := Some(data))];
        affected := 1;
      }
      if affected == 0 { return Throw(R.InvalidTarget(FileTarget(id))); }
      out := Ok(());
    }

    method ReadFileByID(id: nat) returns (out: Outcome<seq<byte>>)
      ensures out == Ledger.ReadFileByID(State(), id)
    {
      if !Storable(id) { return Escapes(OutOfRange); }
      if id !in files { return Throw(R.InvalidTarget(FileTarget(id))); }
      out := Ok(FileData(files[id]));
    }

    /** The snapshot: rows in whatever order the query yields them. */
    method FetchFees(perFile: nat, perByte: nat) returns (rows: seq<FeeRow>)
      ensures RowsOf(rows, Ledger.FetchFees(State(), perFile, perByte))
    {
      var bill := Ledger.FetchFees(State(), perFile, perByte);
      var left := bill.Keys;
      rows := [];
      while left != {}
        invariant left <= bill.Keys
        invariant Distinct(rows)
        invariant forall i :: 0 <= i < |rows| ==>
          rows[i].pocket in bill && rows[i].pocket !in left
          && bill[rows[i].pocket] == Charge(rows[i].totalFees, rows[i].wouldBankrupt)
        invariant forall p :: p in bill ==> p in left || exists i :: 0 <= i < |rows| && rows[i].pocket == p
        decreases left
      {
        var p :| p in left;
        ghost var was := rows;
        rows := rows + [FeeRow(p, bill[p].fee, bill[p].bankrupt)];
        left := left - {p};
        assert rows[|was|].pocket == p;
        assert forall i :: 0 <= i < |was| ==> rows[i] == was[i];
      }
    }

    /** The loop that sorts the rows into the two statements, and the transaction that runs them. */
    method ApplyRows(rows: seq<FeeRow>)
      modifies this
      ensures State() == old(State()).(files := Deleted(old(files), Bankrupts(rows)),
                                       pockets := Deducted(old(pockets), Arms(rows)))
    {
      var bankruptPocketsList: seq<nat>, deductArms: seq<FeeRow> := [], [];
      for i := 0 to |rows|
        invariant bankruptPocketsList == Bankrupts(rows[..i]) && deductArms == Arms(rows[..i])
      {
        assert rows[..i + 1][..i] == rows[..i];
        if rows[i].wouldBankrupt {
          bankruptPocketsList := bankruptPocketsList + [rows[i].pocket];
        } else {
          deductArms := deductArms + [rows[i]];
        }
      }
      assert rows[..|rows|] == rows;
      var workFiles, workPockets := files, pockets;
      if bankruptPocketsList != [] {
        workFiles := map f | f in files && files[f].pocket !in bankruptPocketsList :: files[f];
      }
      if deductArms != [] {
        workPockets := Deducted(pockets, deductArms);
      }
      assert workFiles == Deleted(files, bankruptPocketsList);
      assert workPockets == Deducted(pockets, deductArms);
      files, pockets := workFiles, workPockets;
    }

    /** A pass with nothing between its two transactions. */
    method ChargeFileUpkeepFees(perFile: nat, perByte: nat)
      modifies this
      ensures State() == AtomicPass(old(State()), perFile, perByte)
    {
      var rows := FetchFees(perFile, perByte);
      RowsApply(State(), rows, Ledger.FetchFees(State(), perFile, perByte));
      ApplyRows(rows);
    }
  }
}
