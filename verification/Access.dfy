/** Who can touch what. A request acts as the agent its packet names: the server verifies the
    signature but ignores the outcome, so anyone may name any agent. */
module Access {
  import opened Bytes
  import opened Ledger
  import opened Service
  import opened Machine
  import C = Commands
  import R = Results

  /** What one command of a batch that names agent `a` may do: rewrite a file of `a`, move money out of
      a pocket of `a`, set its deposit address, add a file of `a` paid for by a pocket of `a`, or add an
      empty pocket of `a`. */
  ghost predicate ByOwner(t: Tables, u: Tables, a: Address, c: C.Command) {
    && u.agents == t.agents
    && (forall f :: f in t.files ==> f in u.files)
    && (forall f :: f in t.files && u.files[f] != t.files[f] ==>
          c.UpdateFileByID? && c.updatedID == f && t.files[f].owner == a
          && u.files[f] == t.files[f].(data := Some(c.data)))
    && (forall f :: f in u.files && f !in t.files ==>
          c.CreateFile? && u.files[f] == File(a, c.name, c.newFilePocketID, None) && Owned(t, a, c.newFilePocketID))
    && (forall p :: p in t.pockets ==> p in u.pockets && u.pockets[p].owner == t.pockets[p].owner)
    && (forall p :: p in t.pockets && u.pockets[p].amount < t.pockets[p].amount ==>
          c.PocketTransfer? && c.fromPocketID == p && c.toPocketID != p && Owned(t, a, p)
          && u.pockets[p].amount == t.pockets[p].amount - c.amount)
    && (forall p :: p in t.pockets && u.pockets[p].amount > t.pockets[p].amount ==>
          c.PocketTransfer? && c.toPocketID == p && c.fromPocketID != p && Owned(t, a, c.fromPocketID)
          && u.pockets[p].amount == t.pockets[p].amount + c.amount)
    && (forall p :: p in t.pockets && u.pockets[p].depositAddress != t.pockets[p].depositAddress ==>
          c.RequestPocketDepositAddress? && c.pocketID == p && Owned(t, a, p))
    && (forall p :: p in u.pockets && p !in t.pockets ==> c.CreatePocket? && u.pockets[p] == Pocket(Some(a), 0, None))
  }

  /** What a handshake for address `a` may do: add an empty pocket without owner, add the agent `a`,
      and make `a` the owner of a pocket that had none. */
  ghost predicate ByHandshake(t: Tables, u: Tables, a: Address) {
    && u.files == t.files
    && (forall b :: b in t.agents ==> b in u.agents && u.agents[b] == t.agents[b])
    && (forall b :: b in u.agents && b !in t.agents ==> b == a)
    && (forall p :: p in t.pockets ==>
          && p in u.pockets && u.pockets[p] == t.pockets[p].(owner := u.pockets[p].owner)
          && (u.pockets[p].owner != t.pockets[p].owner ==> t.pockets[p].owner == None && u.pockets[p].owner == Some(a)))
    && (forall p :: p in u.pockets && p !in t.pockets ==> u.pockets[p] == Pocket(None, 0, None))
  }

  /** What applying a bill does: it deletes the files of evicted pockets and takes each fee billed. */
  ghost predicate Billed(t: Tables, u: Tables, bill: map<nat, Charge>) {
    && u.agents == t.agents
    && (forall f :: f in t.files ==> (f in u.files <==> !Evicted(bill, t.files[f].pocket)))
    && (forall f :: f in u.files ==> f in t.files && u.files[f] == t.files[f])
    && u.pockets.Keys == t.pockets.Keys
    && (forall p :: p in t.pockets ==>
          u.pockets[p] == t.pockets[p].(amount := t.pockets[p].amount - FeeOf(bill, p)))
  }

  // ---------- commands ----------

  lemma CreatePocketByOwner(t: Tables, a: Address)
    requires Serials(t) && a != []
    ensures ByOwner(t, InsertPocket(t, a).tables, a, C.CreatePocket)
  {
  }

  lemma CreateFileByOwner(t: Tables, a: Address, name: seq<byte>, p: nat)
    requires Serials(t) && Owned(t, a, p)
    ensures ByOwner(t, InsertFile(t, a, name, p).tables, a, C.CreateFile(name, p))
  {
    hide Ascii;
  }

  lemma DepositByOwner(t: Tables, a: Address, p: nat)
    ensures ByOwner(t, UpdatePocketDepositAddress(t, a, p, DEPOSIT_ADDRESS).tables, a, C.RequestPocketDepositAddress(p))
  {
    hide PocketTarget, Ascii;
  }

  lemma UpdateByOwner(t: Tables, a: Address, f: nat, data: seq<byte>)
    requires StillOwned(t, a, C.UpdateFileByID(f, data))
    ensures ByOwner(t, Ledger.UpdateFileByID(t, f, data).tables, a, C.UpdateFileByID(f, data))
  {
    hide FileTarget;
  }

  lemma TransferByOwner(t: Tables, a: Address, from: nat, to: nat, amount: nat)
    ensures ByOwner(t, Ledger.PocketTransfer(t, a, from, to, amount).tables, a, C.PocketTransfer(from, to, amount))
  {
    hide RefuseTransfer, PocketTarget;
  }

  lemma NothingByOwner(t: Tables, a: Address, c: C.Command)
    ensures ByOwner(t, t, a, c)
  {
  }

  lemma ActByOwner(t: Tables, a: Address, c: C.Command)
    requires Serials(t) && a != [] && StillOwned(t, a, c)
    ensures ByOwner(t, Act(t, a, c).tables, a, c)
  {
    hide ByOwner, Serials, InsertPocket, InsertFile, UpdatePocketDepositAddress,
      Ledger.PocketTransfer, Ledger.UpdateFileByID, Ledger.ReadFileByID;
    match c
    case CreatePocket => CreatePocketByOwner(t, a);
    case RequestPocketDepositAddress(p) => DepositByOwner(t, a, p);
    case PocketTransfer(from, to, amount) => TransferByOwner(t, a, from, to, amount);
    case CreateFile(name, p) => CreateFileByOwner(t, a, name, p);
    case UpdateFileByID(f, data) => UpdateByOwner(t, a, f, data);
    case ReadFileByID(f) => NothingByOwner(t, a, c);
  }

  lemma CommandByOwner(s: Sys, a: Address, cs: seq<C.Command>, rs: seq<R.Result>, v: bool)
    requires Inv(s) && s.io == Running(a, cs, rs, v) && |rs| < |cs|
    ensures ByOwner(s.db, CommandStep(s, a, cs, rs, v).db, a, cs[|rs|])
  {
    hide Act, Check, Fatal, ErrorResult, Consistent, OwnersSet, StillOwned, ByOwner;
    AgentsNamed(s.db);
    NoCheckNeeded(s.db, a, cs[|rs|]);
    NothingByOwner(s.db, a, cs[|rs|]);
    if !TwoPhase(cs[|rs|]) || v {
      ActByOwner(s.db, a, cs[|rs|]);
    }
  }

  // ---------- handshakes ----------

  lemma PocketInserted(t: Tables, a: Address)
    requires Serials(t)
    ensures ByHandshake(t, InsertPocket(t, []).tables, a)
  {
  }

  lemma AgentInserted(t: Tables, a: Address, key: seq<byte>, p: nat)
    ensures ByHandshake(t, InsertAgent(t, a, key, p).tables, a)
  {
    hide Ascii;
  }

  lemma OwnerUpdated(t: Tables, p: nat, a: Address)
    requires p in t.pockets && t.pockets[p].owner == None
    ensures ByHandshake(t, UpdatePocketOwner(t, p, a).tables, a)
  {
    hide PocketTarget;
  }

  lemma HandshakeAccess(s: Sys)
    requires Inv(s) && (s.io.HsPocket? || s.io.HsAgent? || s.io.HsOwner?)
    ensures ByHandshake(s.db, IoNext(s).db, s.io.newAddr)
  {
    hide InsertPocket, InsertAgent, UpdatePocketOwner, CommandStep, ByHandshake, Consistent, OwnersSet;
    AgentsNamed(s.db);
    match s.io
    case HsPocket(a, _) => PocketInserted(s.db, a);
    case HsAgent(a, k, p) => AgentInserted(s.db, a, k, p);
    case HsOwner(a, p) => OwnerUpdated(s.db, p, a);
  }

  // ---------- every step ----------

  lemma ApplyBilled(t: Tables, bill: map<nat, Charge>)
    ensures Billed(t, ApplyFees(t, bill), bill)
  {
  }

  /** One step of either thread, for every row of every table: nothing changes but by a command of a
      batch, within the bounds of the agent its packet names, by a handshake, or by a bill. */
  lemma StepAccess(s: Sys, e: Event)
    requires Inv(s)
    ensures var u := Step(s, e);
            || u.db == s.db
            || (e.IoStep? && s.io.Running? && |s.io.results| < |s.io.cmds|
                && ByOwner(s.db, u.db, s.io.addr, s.io.cmds[|s.io.results|]))
            || (e.IoStep? && (s.io.HsPocket? || s.io.HsAgent? || s.io.HsOwner?)
                && ByHandshake(s.db, u.db, s.io.newAddr))
            || (e.FeeApply? && s.bill.Some? && Billed(s.db, u.db, s.bill.value))
  {
    hide Inv, CommandStep, ByOwner, ByHandshake, Billed, FetchFees, ApplyFees, Opened, Accepted;
    match e
    case IoStep =>
      if s.io.Running? && |s.io.results| < |s.io.cmds| {
        CommandByOwner(s, s.io.addr, s.io.cmds, s.io.results, s.io.verified);
      } else if s.io.HsPocket? || s.io.HsAgent? || s.io.HsOwner? {
        HandshakeAccess(s);
      }
    case FeeApply =>
      if s.bill.Some? { ApplyBilled(s.db, s.bill.value); }
    case _ =>
  }
}
