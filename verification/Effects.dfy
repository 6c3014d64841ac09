/** What each transaction and each command does, said by what can be observed afterwards, and why it is
    refused when it is. */
module Effects {
  import opened Bytes
  import opened Ledger
  import opened Service
  import C = Commands
  import R = Results

  // ---------- ownership checks ----------

  /** An agent's check of a pocket passes exactly for its own; the error for a missing pocket and for
      another's are told apart and name the pocket. */
  lemma PocketCheckReasons(t: Tables, id: nat, a: Address, k: nat)
    requires a != []
    ensures var out := VerifyPocketOwner(t, id, a);
            && (out == Ok(()) <==> Storable(id) && Owned(t, a, id))
            && (out == Throw(R.TargetNotOwned(PocketTarget(k)))
                <==> k == id && Storable(id) && id in t.pockets && !Owned(t, a, id))
            && (out == Throw(R.InvalidTarget(PocketTarget(k))) <==> k == id && Storable(id) && id !in t.pockets)
            && (out == Escapes(OutOfRange) <==> !Storable(id))
  {
    hide PocketTarget;
    if PocketTarget(k) == PocketTarget(id) { PocketTargetInjective(k, id); }
  }

  /** The same for files. */
  lemma FileCheckReasons(t: Tables, id: nat, a: Address, k: nat)
    ensures var out := VerifyFileOwner(t, id, a);
            && (out == Ok(()) <==> Storable(id) && id in t.files && t.files[id].owner == a)
            && (out == Throw(R.TargetNotOwned(FileTarget(k)))
                <==> k == id && Storable(id) && id in t.files && t.files[id].owner != a)
            && (out == Throw(R.InvalidTarget(FileTarget(k))) <==> k == id && Storable(id) && id !in t.files)
            && (out == Escapes(OutOfRange) <==> !Storable(id))
  {
    hide FileTarget;
    if FileTarget(k) == FileTarget(id) { FileTargetInjective(k, id); }
  }

  // ---------- files ----------

  /** An update that succeeds is read back, by anyone; every other file reads as before, and nothing
      but that file's data changes. One that fails changes nothing. */
  lemma UpdateIsRead(t: Tables, f: nat, data: seq<byte>, g: nat)
    ensures var x := UpdateFileByID(t, f, data);
            && (x.out == Ok(()) <==> Storable(f) && f in t.files)
            && (x.out == Throw(R.InvalidTarget(FileTarget(f))) <==> Storable(f) && f !in t.files)
            && (x.out == Escapes(OutOfRange) <==> !Storable(f))
            && (x.out.Ok? ==>
                  && ReadFileByID(x.tables, g) == (if g == f then Ok(data) else ReadFileByID(t, g))
                  && x.tables == t.(files := x.tables.files) && x.tables.files.Keys == t.files.Keys
                  && (g in t.files ==> x.tables.files[g] == t.files[g].(data := x.tables.files[g].data)))
            && (!x.out.Ok? ==> x.tables == t)
  {
    hide FileTarget;
  }

  /** Reading answers the data, empty if never written, or why not. */
  lemma ReadReasons(t: Tables, f: nat)
    ensures var out := ReadFileByID(t, f);
            && (out.Ok? <==> Storable(f) && f in t.files)
            && (out.Ok? ==> out.value == (if t.files[f].data.Some? then t.files[f].data.value else []))
            && (out == Throw(R.InvalidTarget(FileTarget(f))) <==> Storable(f) && f !in t.files)
            && (out == Escapes(OutOfRange) <==> !Storable(f))
  {
    hide FileTarget;
  }

  ghost predicate HasFile(t: Tables, a: Address, name: seq<byte>) {
    !forall f :: f in t.files && t.files[f].owner == a ==> t.files[f].name != name
  }

  /** The id of a new file is a new key and the only one; the file is the agent's, paid for by the
      pocket named, and reads as empty; its name, free before, is taken from then on. */
  ghost predicate FileIsNew(t: Tables, u: Tables, a: Address, name: seq<byte>, p: nat, id: nat) {
    && id !in t.files && Storable(id) && u.files.Keys == t.files.Keys + {id}
    && (forall g :: g in t.files ==> u.files[g] == t.files[g])
    && u == t.(files := u.files, nextFile := u.nextFile) && t.nextFile <= id < u.nextFile
    && u.files[id].owner == a && u.files[id].name == name && u.files[id].pocket == p
    && ReadFileByID(u, id) == Ok([])
    && !HasFile(t, a, name) && HasFile(u, a, name)
  }

  lemma InsertFileReasons(t: Tables, a: Address, name: seq<byte>, p: nat)
    requires Serials(t)
    ensures var x := InsertFile(t, a, name, p);
            && (x.out.Ok? <==> && Storable(p) && t.nextFile <= MAX_SERIAL && !HasFile(t, a, name)
                               && a in t.agents && p in t.pockets)
            && (x.out.Ok? ==> FileIsNew(t, x.tables, a, name, p, x.out.value))
            && x.tables.nextFile == t.nextFile + (if Storable(p) && t.nextFile <= MAX_SERIAL then 1 else 0)
            && (!x.out.Ok? ==> x.tables == t.(nextFile := x.tables.nextFile))
            && (x.out == Throw(R.ServerLogic(Ascii("File with that owner and name already exists")))
                <==> Storable(p) && t.nextFile <= MAX_SERIAL && HasFile(t, a, name))
            && (x.out == Escapes(OutOfRange) <==> !Storable(p))
            && (x.out == Escapes(SerialExhausted) <==> Storable(p) && t.nextFile > MAX_SERIAL)
            && (x.out == Escapes(ForeignKey)
                <==> && Storable(p) && t.nextFile <= MAX_SERIAL && !HasFile(t, a, name)
                     && (a !in t.agents || p !in t.pockets))
  {
    hide Ascii;
    var x := InsertFile(t, a, name, p);
    if x.out.Ok? {
      assert x.tables.files[x.out.value].owner == a && x.tables.files[x.out.value].name == name;
    }
  }

  /** A second file of that owner and name is refused, whichever pocket is to pay. */
  lemma NameIsTaken(t: Tables, a: Address, name: seq<byte>, p: nat, q: nat)
    requires Serials(t) && Storable(q)
    ensures var x := InsertFile(t, a, name, p);
            x.out.Ok? && x.tables.nextFile <= MAX_SERIAL ==>
              InsertFile(x.tables, a, name, q).out
              == Throw(R.ServerLogic(Ascii("File with that owner and name already exists")))
  {
    hide Ascii, InsertFile, HasFile;
    InsertFileReasons(t, a, name, p);
    var x := InsertFile(t, a, name, p);
    if x.out.Ok? {
      SerialsAfterFile(t, x.tables, a, name, p, x.out.value);
      InsertFileReasons(x.tables, a, name, q);
    }
  }

  lemma SerialsAfterFile(t: Tables, u: Tables, a: Address, name: seq<byte>, p: nat, id: nat)
    requires Serials(t) && FileIsNew(t, u, a, name, p, id)
    ensures Serials(u)
  {
    hide HasFile, ReadFileByID;
    assert id in u.files;
  }

  // ---------- pockets ----------

  /** The id of a new pocket is a new key and the only one; the pocket is empty and has that owner. */
  ghost predicate PocketIsNew(t: Tables, u: Tables, owner: Option<Address>, deposit: Option<seq<byte>>, id: nat) {
    && id !in t.pockets && Storable(id) && u.pockets.Keys == t.pockets.Keys + {id}
    && (forall p :: p in t.pockets ==> u.pockets[p] == t.pockets[p])
    && u == t.(pockets := u.pockets, nextPocket := u.nextPocket) && t.nextPocket <= id < u.nextPocket
    && u.pockets[id].owner == owner && u.pockets[id].amount == 0 && u.pockets[id].depositAddress == deposit
  }

  lemma InsertPocketReasons(t: Tables, owner: Address, deposit: seq<byte>)
    requires Serials(t)
    ensures var x := InsertPocketWithAddress(t, owner, deposit);
            && (x.out.Ok? <==> t.nextPocket <= MAX_SERIAL && (owner in t.agents || (owner == [] && deposit == [])))
            && (x.out.Ok? ==>
                  PocketIsNew(t, x.tables, if owner == [] && deposit == [] then None else Some(owner),
                              if deposit == [] then None else Some(deposit), x.out.value))
            && (x.out == Escapes(ForeignKey)
                <==> t.nextPocket <= MAX_SERIAL && owner !in t.agents && !(owner == [] && deposit == []))
            && x.tables.nextPocket == t.nextPocket + (if t.nextPocket > MAX_SERIAL then 0 else 1)
            && (!x.out.Ok? ==> x.tables == t.(nextPocket := x.tables.nextPocket))
            && (x.out == Escapes(SerialExhausted) <==> t.nextPocket > MAX_SERIAL)
            && (deposit == [] ==> InsertPocket(t, owner) == x)
  {
  }

  /** A deposit address is stored exactly when the pocket is the agent's; nothing else changes. */
  lemma DepositStored(t: Tables, a: Address, p: nat, deposit: seq<byte>)
    ensures var x := UpdatePocketDepositAddress(t, a, p, deposit);
            && (x.out == Ok(()) <==> Storable(p) && Owned(t, a, p))
            && (x.out == Throw(R.InvalidTarget(PocketTarget(p))) <==> Storable(p) && !Owned(t, a, p))
            && (x.out == Escapes(OutOfRange) <==> !Storable(p))
            && (x.out.Ok? ==>
                  && x.tables == t.(pockets := x.tables.pockets) && x.tables.pockets.Keys == t.pockets.Keys
                  && (forall q :: q in t.pockets && q != p ==> x.tables.pockets[q] == t.pockets[q])
                  && x.tables.pockets[p] == t.pockets[p].(depositAddress := Some(deposit)))
            && (!x.out.Ok? ==> x.tables == t)
  {
    hide PocketTarget;
  }

  /** An agent is recorded with its key exactly when it is new and its pocket exists. */
  lemma InsertAgentReasons(t: Tables, a: Address, key: seq<byte>, p: nat)
    ensures var x := InsertAgent(t, a, key, p);
            && (x.out == Ok(()) <==> Storable(p) && a !in t.agents && p in t.pockets)
            && (x.out == Throw(R.ServerLogic(Ascii("Agent with that address already exists")))
                <==> Storable(p) && a in t.agents)
            && (x.out == Escapes(ForeignKey) <==> Storable(p) && a !in t.agents && p !in t.pockets)
            && (x.out.Ok? ==>
                  && x.tables == t.(agents := x.tables.agents) && x.tables.agents.Keys == t.agents.Keys + {a}
                  && x.tables.agents[a].publicKey == key && x.tables.agents[a].defaultPocket == p
                  && forall b :: b in t.agents ==> x.tables.agents[b] == t.agents[b])
            && (!x.out.Ok? ==> x.tables == t)
  {
    hide Ascii;
  }

  /** The owner is set exactly where the pocket and the agent exist; nothing else changes. */
  lemma UpdatePocketOwnerReasons(t: Tables, p: nat, a: Address)
    ensures var x := UpdatePocketOwner(t, p, a);
            && (x.out == Ok(()) <==> Storable(p) && p in t.pockets && a in t.agents)
            && (x.out == Throw(R.InvalidTarget(PocketTarget(p))) <==> Storable(p) && p !in t.pockets)
            && (x.out == Escapes(ForeignKey) <==> Storable(p) && p in t.pockets && a !in t.agents)
            && (x.out.Ok? ==>
                  && x.tables == t.(pockets := x.tables.pockets) && x.tables.pockets.Keys == t.pockets.Keys
                  && Owned(x.tables, a, p) && x.tables.pockets[p] == t.pockets[p].(owner := x.tables.pockets[p].owner)
                  && forall q :: q in t.pockets && q != p ==> x.tables.pockets[q] == t.pockets[q])
            && (!x.out.Ok? ==> x.tables == t)
  {
    hide PocketTarget;
  }

  // ---------- what each command answers ----------

  /** The client is told that the command failed, at no cost, and that the batch ends there. */
  predicate Refused(x: Reply, e: R.CommandError) {
    x.result == Some(R.Error(0, true, e))
  }

  predicate Ends(x: Reply, w: Escape) {
    x.result == None && x.why == w
  }

  /** A known agent gets a new, empty pocket of its own, and its id. */
  lemma CreatePocketAnswers(t: Tables, a: Address)
    requires Serials(t) && a in t.agents && a != []
    ensures var x := Handle(t, a, C.CreatePocket);
            && (t.nextPocket > MAX_SERIAL ==> Ends(x, SerialExhausted))
            && (t.nextPocket <= MAX_SERIAL ==>
                  exists id :: x.result == Some(R.PocketCreated(0, id)) && PocketIsNew(t, x.tables, Some(a), None, id))
  {
    hide InsertPocket, InsertPocketWithAddress, PocketIsNew, C.Command.Valid;
    InsertPocketReasons(t, a, []);
    var y := InsertPocket(t, a);
    if y.out.Ok? {
      assert Handle(t, a, C.CreatePocket) == Reply(y.tables, Some(R.PocketCreated(0, y.out.value)), Uncaught);
    }
  }

  /** The deposit address answered is the one stored. */
  lemma DepositAddressAnswers(t: Tables, a: Address, p: nat)
    requires a != []
    ensures var x := Handle(t, a, C.RequestPocketDepositAddress(p));
            var d := Ascii("dummy.dep.address");
            && (x.result == Some(R.DepositAddress(0, d)) <==> Storable(p) && Owned(t, a, p))
            && (x.result == Some(R.DepositAddress(0, d)) ==>
                  p in x.tables.pockets && x.tables.pockets[p] == t.pockets[p].(depositAddress := Some(d)))
            && (Refused(x, R.TargetNotOwned(PocketTarget(p))) <==> Storable(p) && p in t.pockets && !Owned(t, a, p))
            && (Refused(x, R.InvalidTarget(PocketTarget(p))) <==> Storable(p) && p !in t.pockets)
            && (Ends(x, OutOfRange) <==> !Storable(p))
            && (x.result != Some(R.DepositAddress(0, d)) ==> x.tables == t)
  {
    hide Ascii, PocketTarget, VerifyPocketOwner, UpdatePocketDepositAddress;
    PocketCheckReasons(t, p, a, p);
    DepositStored(t, a, p, Ascii("dummy.dep.address"));
  }

  /** A transfer's answer is that of its transaction. */
  lemma TransferAnswers(t: Tables, a: Address, from: nat, to: nat, amount: nat, e: R.CommandError, w: Escape)
    ensures var x, y := Handle(t, a, C.PocketTransfer(from, to, amount)), PocketTransfer(t, a, from, to, amount);
            && x.tables == y.tables
            && (x.result == Some(R.Transferred(0)) <==> y.out.Ok?)
            && (Refused(x, e) <==> y.out == Throw(e))
            && (Ends(x, w) <==> y.out == Escapes(w))
  {
    hide PocketTransfer;
  }

  lemma PocketThere(t: Tables, a: Address, p: nat)
    ensures Owned(t, a, p) ==> p in t.pockets
  {
  }

  /** The id answered is the new file's; the name must be free and the pocket the agent's. */
  lemma CreateFileAnswers(t: Tables, a: Address, name: seq<byte>, p: nat)
    requires Serials(t) && a in t.agents && a != []
    ensures var x := Handle(t, a, C.CreateFile(name, p));
            var may := Storable(p) && Owned(t, a, p) && t.nextFile <= MAX_SERIAL;
            && (may && !HasFile(t, a, name) ==>
                  exists id :: x.result == Some(R.FileCreated(0, id)) && FileIsNew(t, x.tables, a, name, p, id))
            && (Refused(x, R.ServerLogic(Ascii("File with that owner and name already exists")))
                <==> may && HasFile(t, a, name))
            && (Refused(x, R.TargetNotOwned(PocketTarget(p))) <==> Storable(p) && p in t.pockets && !Owned(t, a, p))
            && (Refused(x, R.InvalidTarget(PocketTarget(p))) <==> Storable(p) && p !in t.pockets)
            && (Ends(x, OutOfRange) <==> !Storable(p))
            && (Ends(x, SerialExhausted) <==> Storable(p) && Owned(t, a, p) && t.nextFile > MAX_SERIAL)
            && (!(may && !HasFile(t, a, name)) ==> x.tables == t.(nextFile := x.tables.nextFile))
  {
    hide Ascii, PocketTarget, VerifyPocketOwner, InsertFile, FileIsNew, HasFile, Serials;
    PocketCheckReasons(t, p, a, p);
    InsertFileReasons(t, a, name, p);
    PocketThere(t, a, p);
    var y := InsertFile(t, a, name, p);
    if VerifyPocketOwner(t, p, a).Ok? && y.out.Ok? {
      assert Handle(t, a, C.CreateFile(name, p)) == Reply(y.tables, Some(R.FileCreated(0, y.out.value)), Uncaught);
    }
  }

  /** An update answered as done is read back by every agent. */
  lemma UpdateFileAnswers(t: Tables, a: Address, f: nat, data: seq<byte>, b: Address, g: nat)
    ensures var x := Handle(t, a, C.UpdateFileByID(f, data));
            && (x.result == Some(R.FileUpdated(0)) <==> Storable(f) && f in t.files && t.files[f].owner == a)
            && (x.result == Some(R.FileUpdated(0)) ==>
                  var after, before := Handle(x.tables, b, C.ReadFileByID(g)), Handle(t, b, C.ReadFileByID(g));
                  after.result == if g == f then Some(R.FileRead(0, data)) else before.result)
            && (Refused(x, R.TargetNotOwned(FileTarget(f)))
                <==> Storable(f) && f in t.files && t.files[f].owner != a)
            && (Refused(x, R.InvalidTarget(FileTarget(f))) <==> Storable(f) && f !in t.files)
            && (Ends(x, OutOfRange) <==> !Storable(f))
            && (x.result != Some(R.FileUpdated(0)) ==> x.tables == t)
  {
    hide FileTarget, VerifyFileOwner, Ledger.UpdateFileByID, Ledger.ReadFileByID;
    FileCheckReasons(t, f, a, f);
    UpdateIsRead(t, f, data, g);
  }

  /** A read changes nothing and is anyone's. */
  lemma ReadFileAnswers(t: Tables, a: Address, f: nat)
    ensures var x := Handle(t, a, C.ReadFileByID(f));
            && x.tables == t
            && (Storable(f) && f in t.files ==>
                  x.result == Some(R.FileRead(0, if t.files[f].data.Some? then t.files[f].data.value else [])))
            && (Refused(x, R.InvalidTarget(FileTarget(f))) <==> Storable(f) && f !in t.files)
            && (Ends(x, OutOfRange) <==> !Storable(f))
  {
    hide FileTarget, Ledger.ReadFileByID;
    ReadReasons(t, f);
  }
}
