/** The three tables (tables.sql) and the transactions of util/database.cpp as functions on them.
    A transaction either commits new tables or leaves every row as it was. */
module Ledger {
  import opened Bytes
  import opened Positional
  import R = Results

  type Address = seq<byte>

  datatype Agent = Agent(publicKey: seq<byte>, defaultPocket: nat)
  datatype Pocket = Pocket(owner: Option<Address>, amount: int, depositAddress: Option<seq<byte>>)
  datatype File = File(owner: Address, name: seq<byte>, pocket: nat, data: Option<seq<byte>>)

  datatype Tables = Tables(
    agents: map<Address, Agent>,
    pockets: map<nat, Pocket>,
    files: map<nat, File>,
    nextPocket: nat,
    nextFile: nat)

  const MAX_SERIAL := 0x7fff_ffff
  const BIGINT_MAX := 0x7fff_ffff_ffff_ffff
  const BIGINT_MIN := -0x8000_0000_0000_0000

  /** Ids are 32-bit unsigned on the wire but `int` in the tables: a parameter above that is an SQL
      error, whether or not a row is looked for. */
  predicate Storable(id: nat) {
    id <= MAX_SERIAL
  }

  /** What ends the server: exceptions that nothing catches below `main`, a failed assertion, and the
      null pointer returned for a packet of unknown type. */
  datatype Escape =
    | ForeignKey | OutOfRange | NullOwner | NegativeBalance | SerialExhausted
    | UnknownAgent | Uncaught | AssertionFailed | NullPacket

  /** A value, a `NetvendCommandException` carrying an error, or an exception that escapes. */
  datatype Outcome<+T> = Ok(value: T) | Throw(error: R.CommandError) | Escapes(why: Escape)

  datatype Tx<+T> = Tx(tables: Tables, out: Outcome<T>)

  /** The columns are 32-bit and 64-bit signed numbers. */
  lemma ColumnLimits()
    ensures MAX_SERIAL + 1 == Pow(2, 31) && BIGINT_MAX + 1 == Pow(2, 63) && BIGINT_MIN == 0 - Pow(2, 63)
  {
    assert Pow(2, 7) == 128;
    PowAdd(2, 7, 1);
    assert Pow(2, 1) == 2;
    PowAdd(2, 8, 8);
    PowAdd(2, 16, 8);
    PowAdd(2, 24, 7);
    PowAdd(2, 31, 31);
    PowAdd(2, 62, 1);
  }

  // ---------- error texts ----------

  function Decimal(n: nat): (s: seq<byte>) {
    if n == 0 then [48] else
      var ds := Digits(10, n);
      seq(|ds|, i requires 0 <= i < |ds| => 48 + ds[i])
  }

  function PocketTarget(id: nat): seq<byte> {
    Ascii("p:") + Decimal(id)
  }

  function FileTarget(id: nat): seq<byte> {
    Ascii("f:") + Decimal(id)
  }

  const AGENT_EXISTS := Ascii("Agent with that address already exists")
  const FILE_EXISTS := Ascii("File with that owner and name already exists")

  function TransferFailed(id: nat): seq<byte> {
    Ascii("Transfer from pocket ") + Decimal(id) + Ascii(" failed for an unkown reason")
  }

  function Numerals(s: seq<byte>): seq<nat> {
    seq(|s|, i requires 0 <= i < |s| => if s[i] >= 48 then s[i] - 48 else 0)
  }

  /** The text is the usual decimal of the number: digits only, no leading zero, and that value. */
  ghost predicate Spells(s: seq<byte>, n: nat) {
    && s != [] && (forall i :: 0 <= i < |s| ==> 48 <= s[i] <= 57)
    && (|s| > 1 ==> s[0] != 48)
    && Value(10, Numerals(s)) == n
  }

  lemma DecimalSpells(n: nat)
    ensures Spells(Decimal(n), n)
  {
    var ds := if n == 0 then [0] else Digits(10, n);
    DigitsValue(10, n);
    assert Numerals(Decimal(n)) == ds;
  }

  /** A text that begins and ends with those words and spells the number in between. */
  ghost predicate Names(text: seq<byte>, before: string, n: nat, after: string) {
    && |text| >= |before| + |after|
    && text[..|before|] == Ascii(before) && text[|text| - |after|..] == Ascii(after)
    && Spells(text[|before|..|text| - |after|], n)
  }

  /** Each text about a row spells its id. */
  lemma TextsName(id: nat)
    ensures Names(PocketTarget(id), "p:", id, "") && Names(FileTarget(id), "f:", id, "")
    ensures Names(TransferFailed(id), "Transfer from pocket ", id, " failed for an unkown reason")
  {
    DecimalSpells(id);
    NamesParts("p:", id, "");
    NamesParts("f:", id, "");
    NamesParts("Transfer from pocket ", id, " failed for an unkown reason");
    assert PocketTarget(id) == PocketTarget(id) + Ascii("");
    assert FileTarget(id) == FileTarget(id) + Ascii("");
  }

  lemma NamesParts(before: string, id: nat, after: string)
    ensures Names(Ascii(before) + Decimal(id) + Ascii(after), before, id, after)
  {
    DecimalSpells(id);
    var text := Ascii(before) + Decimal(id) + Ascii(after);
    assert text[|before|..|text| - |after|] == Decimal(id);
  }

  /** So the target named by an error identifies the row. */
  lemma PocketTargetInjective(m: nat, n: nat)
    requires PocketTarget(m) == PocketTarget(n)
    ensures m == n
  {
    TextsName(m);
    TextsName(n);
  }

  lemma FileTargetInjective(m: nat, n: nat)
    requires FileTarget(m) == FileTarget(n)
    ensures m == n
  {
    TextsName(m);
    TextsName(n);
  }

  /** Every 32-bit id is at most ten digits, so every error text fits its length byte. */
  lemma TextsFit(id: nat)
    requires id < 0x1_0000_0000
    ensures |PocketTarget(id)| < 0x100 && |FileTarget(id)| < 0x100 && |TransferFailed(id)| < 0x100
    ensures |AGENT_EXISTS| < 0x100 && |FILE_EXISTS| < 0x100
  {
    assert Pow(10, 5) == 100000;
    PowAdd(10, 5, 5);
    DigitsAtMost(10, id, 10);
  }

  // ---------- agents ----------

  function InsertAgent(t: Tables, a: Address, key: seq<byte>, defaultPocket: nat): Tx<()> {
    if !Storable(defaultPocket) then Tx(t, Escapes(OutOfRange))
    else if a in t.agents then Tx(t, Throw(R.ServerLogic(AGENT_EXISTS)))
    else if defaultPocket !in t.pockets then Tx(t, Escapes(ForeignKey))
    else Tx(t.(agents := t.agents[a := Agent(key, defaultPocket)]), Ok(()))
  }

  // ---------- pockets ----------

  predicate Owned(t: Tables, a: Address, p: nat) {
    p in t.pockets && t.pockets[p].owner == Some(a)
  }

  /** Serial numbers are drawn outside the transaction: a failed insert still uses one up. */
  function InsertPocket(t: Tables, owner: Address): Tx<nat> {
    var id := t.nextPocket;
    if id > MAX_SERIAL then Tx(t, Escapes(SerialExhausted))
    else if owner != [] && owner !in t.agents then Tx(t.(nextPocket := id + 1), Escapes(ForeignKey))
    else
      var row := Pocket(if owner == [] then None else Some(owner), 0, None);
      Tx(t.(pockets := t.pockets[id := row], nextPocket := id + 1), Ok(id))
  }

  /** With a deposit address the owner is inserted as given, so an empty one meets no agent. */
  function InsertPocketWithAddress(t: Tables, owner: Address, deposit: seq<byte>): Tx<nat> {
    var id := t.nextPocket;
    if deposit == [] then InsertPocket(t, owner)
    else if id > MAX_SERIAL then Tx(t, Escapes(SerialExhausted))
    else if owner !in t.agents then Tx(t.(nextPocket := id + 1), Escapes(ForeignKey))
    else
      Tx(t.(pockets := t.pockets[id := Pocket(Some(owner), 0, Some(deposit))], nextPocket := id + 1), Ok(id))
  }

  /** A NULL owner reads as the empty string. */
  function VerifyPocketOwner(t: Tables, id: nat, a: Address): Outcome<()> {
    if !Storable(id) then Escapes(OutOfRange)
    else if id !in t.pockets then Throw(R.InvalidTarget(PocketTarget(id)))
    else if (match t.pockets[id].owner case None => [] case Some(o) => o) != a then
      Throw(R.TargetNotOwned(PocketTarget(id)))
    else Ok(())
  }

  function UpdatePocketOwner(t: Tables, id: nat, a: Address): Tx<()> {
    if !Storable(id) then Tx(t, Escapes(OutOfRange))
    else if id !in t.pockets then Tx(t, Throw(R.InvalidTarget(PocketTarget(id))))
    else if a !in t.agents then Tx(t, Escapes(ForeignKey))
    else Tx(t.(pockets := t.pockets[id := t.pockets[id].(owner := Some(a))]), Ok(()))
  }

  function UpdatePocketDepositAddress(t: Tables, a: Address, id: nat, deposit: seq<byte>): Tx<()> {
    if !Storable(id) then Tx(t, Escapes(OutOfRange))
    else if id in t.pockets && t.pockets[id].owner == Some(a) then
      Tx(t.(pockets := t.pockets[id := t.pockets[id].(depositAddress := Some(deposit))]), Ok(()))
    else Tx(t, Throw(R.InvalidTarget(PocketTarget(id))))
  }

  /** Whether the guarded UPDATE that takes the money finds its row. */
  predicate Debitable(t: Tables, a: Address, from: nat, amount: nat) {
    Owned(t, a, from) && t.pockets[from].amount - amount >= 0
  }

  /** The subtraction in that UPDATE's condition leaves the bigint range: an SQL error. */
  predicate Underflows(t: Tables, a: Address, from: nat, amount: nat) {
    Owned(t, a, from) && t.pockets[from].amount - amount < BIGINT_MIN
  }

  /** All balances after a transfer; nothing when both ends are the same pocket. */
  function Moved(pockets: map<nat, Pocket>, from: nat, to: nat, amount: nat): map<nat, Pocket> {
    map p | p in pockets ::
      pockets[p].(amount := pockets[p].amount - (if p == from then amount else 0) + (if p == to then amount else 0))
  }

  /** What the balance of the receiving row is while the credit is added. */
  function Credited(pockets: map<nat, Pocket>, from: nat, to: nat, amount: nat): int
    requires to in pockets
  {
    pockets[to].amount - (if to == from then amount else 0) + amount
  }

  /** Why nothing could be taken. The test `balance - amount < 0` is on unsigned 64-bit numbers. */
  function RefuseTransfer(t: Tables, a: Address, from: nat, amount: nat): Outcome<()> {
    if from !in t.pockets then Throw(R.InvalidTarget(PocketTarget(from)))
    else
      match t.pockets[from].owner
      case None => Escapes(NullOwner)
      case Some(o) =>
        if o != a then Throw(R.TargetNotOwned(PocketTarget(from)))
        else if t.pockets[from].amount < 0 then Escapes(NegativeBalance)
        else
          var balance: nat := t.pockets[from].amount;
          if (balance - amount) % 0x1_0000_0000_0000_0000 < 0 then Throw(R.CreditInsufficient(amount, balance))
          else Throw(R.ServerLogic(TransferFailed(from)))
  }

  function PocketTransfer(t: Tables, a: Address, from: nat, to: nat, amount: nat): Tx<()> {
    if !Storable(from) || amount > BIGINT_MAX || Underflows(t, a, from, amount) then Tx(t, Escapes(OutOfRange))
    else if !Debitable(t, a, from, amount) then Tx(t, RefuseTransfer(t, a, from, amount))
    else if !Storable(to) then Tx(t, Escapes(OutOfRange))
    else if to !in t.pockets then Tx(t, Throw(R.InvalidTarget(PocketTarget(to))))
    else if Credited(t.pockets, from, to, amount) > BIGINT_MAX then Tx(t, Escapes(OutOfRange))
    else Tx(t.(pockets := Moved(t.pockets, from, to, amount)), Ok(()))
  }

  // ---------- files ----------

  predicate NameTaken(t: Tables, a: Address, name: seq<byte>) {
    exists f :: f in t.files && t.files[f].owner == a && t.files[f].name == name
  }

  function InsertFile(t: Tables, a: Address, name: seq<byte>, pocket: nat): Tx<nat> {
    var id := t.nextFile;
    if !Storable(pocket) then Tx(t, Escapes(OutOfRange))
    else if id > MAX_SERIAL then Tx(t, Escapes(SerialExhausted))
    else if NameTaken(t, a, name) then Tx(t.(nextFile := id + 1), Throw(R.ServerLogic(FILE_EXISTS)))
    else if a !in t.agents || pocket !in t.pockets then Tx(t.(nextFile := id + 1), Escapes(ForeignKey))
    else Tx(t.(files := t.files[id := File(a, name, pocket, None)], nextFile := id + 1), Ok(id))
  }

  function VerifyFileOwner(t: Tables, id: nat, a: Address): Outcome<()> {
    if !Storable(id) then Escapes(OutOfRange)
    else if id !in t.files then Throw(R.InvalidTarget(FileTarget(id)))
    else if t.files[id].owner != a then Throw(R.TargetNotOwned(FileTarget(id)))
    else Ok(())
  }

  function UpdateFileByID(t: Tables, id: nat, data: seq<byte>): Tx<()> {
    if !Storable(id) then Tx(t, Escapes(OutOfRange))
    else if id !in t.files then Tx(t, Throw(R.InvalidTarget(FileTarget(id))))
    else Tx(t.(files := t.files[id := t.files[id].(data := Some(data))]), Ok(()))
  }

  /** Data never written reads as empty. */
  function FileData(f: File): seq<byte> {
    match f.data case None => [] case Some(d) => d
  }

  function ReadFileByID(t: Tables, id: nat): Outcome<seq<byte>> {
    if !Storable(id) then Escapes(OutOfRange)
    else if id !in t.files then Throw(R.InvalidTarget(FileTarget(id)))
    else Ok(FileData(t.files[id]))
  }

  // ---------- upkeep fees ----------

  /** One row of the grouped query. */
  datatype Charge = Charge(fee: nat, bankrupt: bool)

  function Count(files: map<nat, File>, p: nat, n: nat): nat {
    if n == 0 then 0 else Count(files, p, n - 1) + if n - 1 in files && files[n - 1].pocket == p then 1 else 0
  }

  function Octets(files: map<nat, File>, p: nat, n: nat): nat {
    if n == 0 then 0 else
      Octets(files, p, n - 1) + if n - 1 in files && files[n - 1].pocket == p then |FileData(files[n - 1])| else 0
  }

  function TotalFees(t: Tables, p: nat, perFile: nat, perByte: nat): nat {
    Count(t.files, p, t.nextFile) * perFile + Octets(t.files, p, t.nextFile) * perByte
  }

  function Payers(t: Tables): set<nat> {
    set f | f in t.files :: t.files[f].pocket
  }

  function Balance(t: Tables, p: nat): int {
    if p in t.pockets then t.pockets[p].amount else 0
  }

  function FetchFees(t: Tables, perFile: nat, perByte: nat): map<nat, Charge> {
    map p | p in Payers(t) ::
      Charge(TotalFees(t, p, perFile, perByte), Balance(t, p) - TotalFees(t, p, perFile, perByte) < 0)
  }

  function FeeOf(bill: map<nat, Charge>, p: nat): nat {
    if p in bill && !bill[p].bankrupt then bill[p].fee else 0
  }

  predicate Evicted(bill: map<nat, Charge>, p: nat) {
    p in bill && bill[p].bankrupt
  }

  /** Deleting the files of bankrupt pockets and deducting from the others, in one transaction. */
  function ApplyFees(t: Tables, bill: map<nat, Charge>): Tables {
    t.(files := map f | f in t.files && !Evicted(bill, t.files[f].pocket) :: t.files[f],
       pockets := map p | p in t.pockets :: t.pockets[p].(amount := t.pockets[p].amount - FeeOf(bill, p)))
  }

  ghost predicate NonNegative(t: Tables) {
    forall p :: p in t.pockets ==> t.pockets[p].amount >= 0
  }

  // ---------- what every transaction keeps ----------

  /** Both foreign keys of pockets and files, and the one of agents. */
  ghost predicate ForeignKeys(t: Tables) {
    && (forall a :: a in t.agents ==> t.agents[a].defaultPocket in t.pockets)
    && (forall p :: p in t.pockets && t.pockets[p].owner.Some? ==> t.pockets[p].owner.value in t.agents)
    && (forall f :: f in t.files ==> t.files[f].owner in t.agents && t.files[f].pocket in t.pockets)
  }

  /** Ids come from the sequences, which only move up. */
  ghost predicate Serials(t: Tables) {
    && 0 < t.nextPocket && 0 < t.nextFile
    && (forall p :: p in t.pockets ==> 0 < p < t.nextPocket && p <= MAX_SERIAL)
    && (forall f :: f in t.files ==> 0 < f < t.nextFile && f <= MAX_SERIAL)
  }

  /** A file's owner owns the pocket that pays for it. */
  ghost predicate OwnersAgree(t: Tables) {
    forall f :: f in t.files && t.files[f].pocket in t.pockets ==>
      t.pockets[t.files[f].pocket].owner == Some(t.files[f].owner)
  }

  /** UNIQUE (owner, name). */
  ghost predicate UniqueNames(t: Tables) {
    forall f, g | f in t.files && g in t.files ::
      t.files[f].owner == t.files[g].owner && t.files[f].name == t.files[g].name ==> f == g
  }

  ghost predicate DataBounded(t: Tables) {
    && [] !in t.agents
    && forall f :: f in t.files ==> |FileData(t.files[f])| < 0x1_0000
  }

  ghost predicate Consistent(t: Tables) {
    ForeignKeys(t) && Serials(t) && OwnersAgree(t) && UniqueNames(t) && DataBounded(t)
  }

  /** Rows survive, owners once set stay, sequences move up: true of every transaction. */
  ghost predicate Extends(t: Tables, u: Tables) {
    && t.agents.Keys <= u.agents.Keys && t.pockets.Keys <= u.pockets.Keys
    && t.nextPocket <= u.nextPocket && t.nextFile <= u.nextFile
    && (forall a :: a in t.agents ==> u.agents[a] == t.agents[a])
    && (forall p :: p in t.pockets && t.pockets[p].owner.Some? ==> u.pockets[p].owner == t.pockets[p].owner)
    && (forall f :: f in t.files && f in u.files ==>
          u.files[f] == t.files[f].(data := u.files[f].data))
    && (forall f :: f in u.files && f !in t.files ==> f >= t.nextFile)
  }

  lemma InsertAgentKeeps(t: Tables, a: Address, key: seq<byte>, pocket: nat)
    requires Consistent(t) && a != []
    ensures var x := InsertAgent(t, a, key, pocket); Consistent(x.tables) && Extends(t, x.tables)
  {
    hide Ascii;
  }

  lemma PocketAdded(t: Tables, owner: Option<Address>, deposit: Option<seq<byte>>)
    requires Consistent(t) && t.nextPocket <= MAX_SERIAL && (owner.Some? ==> owner.value in t.agents)
    ensures var row := Pocket(owner, 0, deposit);
            var u := t.(pockets := t.pockets[t.nextPocket := row], nextPocket := t.nextPocket + 1);
            Consistent(u) && Extends(t, u)
  {
  }

  lemma InsertPocketKeeps(t: Tables, a: Address)
    requires Consistent(t)
    ensures var x := InsertPocket(t, a); Consistent(x.tables) && Extends(t, x.tables)
  {
    hide Ascii;
    if InsertPocket(t, a).out.Ok? {
      PocketAdded(t, if a == [] then None else Some(a), None);
    }
  }

  lemma InsertPocketWithAddressKeeps(t: Tables, a: Address, deposit: seq<byte>)
    requires Consistent(t)
    ensures var x := InsertPocketWithAddress(t, a, deposit); Consistent(x.tables) && Extends(t, x.tables)
  {
    if deposit == [] {
      InsertPocketKeeps(t, a);
    } else if InsertPocketWithAddress(t, a, deposit).out.Ok? {
      PocketAdded(t, Some(a), Some(deposit));
    }
  }

  /** The owner of a pocket is set only once, so nothing that agreed with it is disturbed. */
  lemma UpdatePocketOwnerKeeps(t: Tables, p: nat, a: Address)
    requires Consistent(t) && (p in t.pockets ==> t.pockets[p].owner == None)
    ensures var x := UpdatePocketOwner(t, p, a); Consistent(x.tables) && Extends(t, x.tables)
  {
    hide PocketTarget;
  }

  /** Changing balances and deposit addresses and deleting files disturbs nothing. */
  lemma SameOwnersKeep(t: Tables, u: Tables)
    requires Consistent(t)
    requires u.agents == t.agents && u.nextPocket == t.nextPocket && u.nextFile == t.nextFile
    requires u.pockets.Keys == t.pockets.Keys && u.files.Keys <= t.files.Keys
    requires forall p :: p in t.pockets ==> u.pockets[p].owner == t.pockets[p].owner
    requires forall f :: f in u.files ==> u.files[f] == t.files[f]
    ensures Consistent(u) && Extends(t, u)
  {
  }

  lemma DepositKeeps(t: Tables, a: Address, p: nat, d: seq<byte>)
    requires Consistent(t)
    ensures var x := UpdatePocketDepositAddress(t, a, p, d); Consistent(x.tables) && Extends(t, x.tables)
  {
    hide PocketTarget, Consistent, Extends;
    SameOwnersKeep(t, UpdatePocketDepositAddress(t, a, p, d).tables);
  }

  lemma TransferKeeps(t: Tables, a: Address, from: nat, to: nat, amount: nat)
    requires Consistent(t)
    ensures var x := PocketTransfer(t, a, from, to, amount); Consistent(x.tables) && Extends(t, x.tables)
  {
    hide PocketTarget, RefuseTransfer, Consistent, Extends;
    SameOwnersKeep(t, PocketTransfer(t, a, from, to, amount).tables);
  }

  lemma ApplyFeesKeeps(t: Tables, bill: map<nat, Charge>)
    requires Consistent(t)
    ensures Consistent(ApplyFees(t, bill)) && Extends(t, ApplyFees(t, bill))
  {
    hide Consistent, Extends;
    SameOwnersKeep(t, ApplyFees(t, bill));
  }

  /** The foreign keys and the agreement of owners rest on the check made one transaction earlier. */
  lemma InsertFileKeeps(t: Tables, a: Address, name: seq<byte>, p: nat)
    requires Consistent(t) && (p in t.pockets ==> t.pockets[p].owner == Some(a))
    ensures var x := InsertFile(t, a, name, p); Consistent(x.tables) && Extends(t, x.tables)
  {
    hide Ascii, Consistent, Extends;
    SequenceMoved(t);
    if InsertFile(t, a, name, p).out.Ok? {
      FileAdded(t, File(a, name, p, None));
    } else {
      SameOwnersKeep(t, t);
    }
  }

  lemma SequenceMoved(t: Tables)
    requires Consistent(t)
    ensures var u := t.(nextFile := t.nextFile + 1); Consistent(u) && Extends(t, u)
  {
  }

  lemma FileAdded(t: Tables, row: File)
    requires Consistent(t) && t.nextFile <= MAX_SERIAL && row.owner in t.agents && row.data == None
    requires row.pocket in t.pockets && t.pockets[row.pocket].owner == Some(row.owner)
    requires !NameTaken(t, row.owner, row.name)
    ensures var u := t.(files := t.files[t.nextFile := row], nextFile := t.nextFile + 1);
            Consistent(u) && Extends(t, u)
  {
    var u := t.(files := t.files[t.nextFile := row], nextFile := t.nextFile + 1);
    assert UniqueNames(u);
    assert OwnersAgree(u);
  }

  lemma SameFilesKeep(t: Tables, u: Tables)
    requires Consistent(t) && DataBounded(u)
    requires u == t.(files := u.files) && u.files.Keys == t.files.Keys
    requires forall f :: f in t.files ==> u.files[f] == t.files[f].(data := u.files[f].data)
    ensures Consistent(u) && Extends(t, u)
  {
    hide DataBounded;
  }

  lemma UpdateFileKeeps(t: Tables, f: nat, data: seq<byte>)
    requires Consistent(t) && |data| < 0x1_0000
    ensures var x := UpdateFileByID(t, f, data); Consistent(x.tables) && Extends(t, x.tables)
  {
    hide FileTarget, ForeignKeys, Serials, OwnersAgree, UniqueNames, Extends;
    SameFilesKeep(t, UpdateFileByID(t, f, data).tables);
  }

  // ---------- transfers ----------

  /** A transfer is all or nothing: it commits exactly when the sender owns the source and its
      balance covers the amount, the destination exists and its balance stays within a bigint;
      then exactly `amount` moves (nothing on balance within one pocket) and nothing else changes. */
  lemma TransferAllOrNothing(t: Tables, a: Address, from: nat, to: nat, amount: nat)
    ensures var x := PocketTransfer(t, a, from, to, amount);
            && (x.out.Ok? <==> && Storable(from) && Storable(to) && Owned(t, a, from)
                               && amount <= BIGINT_MAX && amount <= t.pockets[from].amount
                               && to in t.pockets
                               && (from != to ==> t.pockets[to].amount + amount <= BIGINT_MAX)
                               && (from == to ==> t.pockets[to].amount <= BIGINT_MAX))
            && (!x.out.Ok? ==> x.tables == t)
            && (x.out.Ok? ==>
                  && x.tables == t.(pockets := x.tables.pockets) && x.tables.pockets.Keys == t.pockets.Keys
                  && forall p :: p in t.pockets ==>
                       && x.tables.pockets[p] == t.pockets[p].(amount := x.tables.pockets[p].amount)
                       && x.tables.pockets[p].amount - t.pockets[p].amount
                          == (if from == to then 0
                              else if p == from then 0 - amount
                              else if p == to then amount else 0))
  {
  }

  /** Each answer to a transfer has its own cause: a target is called invalid only for being absent, the
      destination only after the source could pay; a target is called not owned only for being another's;
      a missing owner and a negative balance cannot be read back and escape; and so does a number, or the
      difference the debit computes, that its column cannot hold. */
  lemma TransferReasons(t: Tables, a: Address, from: nat, to: nat, amount: nat, id: nat)
    ensures var out := PocketTransfer(t, a, from, to, amount).out;
            var sent := Storable(from) && amount <= BIGINT_MAX;
            var payable := sent && Owned(t, a, from) && amount <= t.pockets[from].amount;
            && (out == Throw(R.InvalidTarget(PocketTarget(id)))
                <==> id !in t.pockets && ((id == from && sent) || (id == to && payable && Storable(to))))
            && (out == Throw(R.TargetNotOwned(PocketTarget(id)))
                <==> sent && id == from && id in t.pockets && t.pockets[id].owner.Some? && !Owned(t, a, id))
            && (out == Escapes(NullOwner) <==> sent && from in t.pockets && t.pockets[from].owner == None)
            && (out == Escapes(NegativeBalance)
                <==> && sent && Owned(t, a, from) && t.pockets[from].amount < 0
                     && t.pockets[from].amount - amount >= -0x8000_0000_0000_0000)
            && (out == Throw(R.ServerLogic(TransferFailed(from)))
                <==> sent && Owned(t, a, from) && 0 <= t.pockets[from].amount < amount)
            && (out == Escapes(OutOfRange)
                <==> || !sent
                     || (Owned(t, a, from) && t.pockets[from].amount - amount < -0x8000_0000_0000_0000)
                     || (payable && !Storable(to))
                     || (payable && to in t.pockets && Credited(t.pockets, from, to, amount) > BIGINT_MAX))
  {
    if PocketTarget(id) == PocketTarget(from) { PocketTargetInjective(id, from); }
    if PocketTarget(id) == PocketTarget(to) { PocketTargetInjective(id, to); }
  }

  /** A transfer with the comparison that was meant, `balance < amount`. */
  function IntendedTransfer(t: Tables, a: Address, from: nat, to: nat, amount: nat): Outcome<()> {
    if Owned(t, a, from) && 0 <= t.pockets[from].amount < amount then
      Throw(R.CreditInsufficient(amount, t.pockets[from].amount))
    else PocketTransfer(t, a, from, to, amount).out
  }

  /** The unsigned comparison never holds: lack of credit is never reported as such, and the answer
      is the intended one exactly when credit is not what lacks. */
  lemma CreditReason(t: Tables, a: Address, from: nat, to: nat, amount: nat)
    ensures var out := PocketTransfer(t, a, from, to, amount).out;
            && !(out.Throw? && out.error.CreditInsufficient?)
            && (out == IntendedTransfer(t, a, from, to, amount)
                <==> !(Owned(t, a, from) && 0 <= t.pockets[from].amount < amount))
  {
  }

  /** One agent with 10 in its pocket and an empty file. */
  function SmallTables(a: Address): Tables {
    var pockets := map[1 := Pocket(Some(a), 10, None), 2 := Pocket(Some(a), 0, None)];
    Tables(map[a := Agent([], 1)], pockets, map[1 := File(a, [], 1, None)], 3, 2)
  }

  lemma SmallTablesConsistent(a: Address)
    requires a != []
    ensures Consistent(SmallTables(a)) && NonNegative(SmallTables(a))
  {
  }

  /** A transfer of 11 from a pocket with 10 in it is refused, but not for lack of credit. */
  lemma CreditReasonExample(a: Address)
    ensures PocketTransfer(SmallTables(a), a, 1, 2, 11).out == Throw(R.ServerLogic(TransferFailed(1)))
    ensures IntendedTransfer(SmallTables(a), a, 1, 2, 11) == Throw(R.CreditInsufficient(11, 10))
  {
    hide TransferFailed, PocketTarget;
  }
}
