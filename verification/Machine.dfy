/** The server as two threads on one database (server.cpp): the io thread runs handshakes and
    batches, transaction by transaction; the fee thread runs passes of two transactions. Every
    interleaving of their transactions is a run. */
module Machine {
  import opened Bytes
  import opened Ledger
  import opened Service
  import C = Commands
  import R = Results
  import F = Framing

  /** The address the server computes from a handshake's key: an encoded hash is never empty. */
  type KeyAddress = a: Address | a != [] witness [0]

  /** Where the io thread is, between two of its transactions. */
  datatype Io =
    | Idle
    | Reading(stream: seq<byte>, keyAddr: KeyAddress)
    | HsCheck(newAddr: Address, key: seq<byte>)
    | HsPocket(newAddr: Address, key: seq<byte>)
    | HsAgent(newAddr: Address, key: seq<byte>, pocket: nat)
    | HsOwner(newAddr: Address, pocket: nat)
    | HsDone(newAddr: Address, isNew: bool, pocket: nat)
    | Auth(addr: Address, data: seq<byte>)
    | Running(addr: Address, cmds: seq<C.Command>, results: seq<R.Result>, verified: bool)
    | Finished(addr: Address, cmds: seq<C.Command>, results: seq<R.Result>)
    | Stopped(why: Escape)

  /** The database, both threads, and two records the program does not keep: the fees collected from
      each pocket so far, and the last one. `bill` is the snapshot of a pass not yet applied. */
  datatype Sys = Sys(
    db: Tables,
    io: Io,
    bill: Option<map<nat, Charge>>,
    collected: map<nat, nat>,
    lastFee: map<nat, nat>)

  /** What can happen next. A client may connect and send any bytes at all; if they are a handshake,
      `keyAddr` is the address of its key. */
  datatype Event =
    | Connects(stream: seq<byte>, keyAddr: KeyAddress)
    | IoStep
    | FeeSnapshot(perFile: nat, perByte: nat)
    | FeeApply

  predicate Free(io: Io) {
    io.Idle? || io.HsDone? || io.Finished?
  }

  /** What the decoder yields: valid commands, at most 255 of them. */
  predicate ValidBatch(cs: seq<C.Command>) {
    |cs| <= C.MAX_COMMANDS && C.ValidAll(cs)
  }

  function Get(m: map<nat, nat>, p: nat): nat {
    if p in m then m[p] else 0
  }

  predicate Chargeable(bill: map<nat, Charge>, p: nat) {
    p in bill && !bill[p].bankrupt
  }

  // ---------- steps ----------

  function Finish(s: Sys, a: Address, cs: seq<C.Command>, r: R.Result, rs: seq<R.Result>): Sys {
    if Fatal(r) then s.(io := Finished(a, cs, rs + [r])) else s.(io := Running(a, cs, rs + [r], false))
  }

  /** The next transaction of command `|rs|`: the ownership check, or the work. */
  function CommandStep(s: Sys, a: Address, cs: seq<C.Command>, rs: seq<R.Result>, verified: bool): Sys
    requires |rs| < |cs|
  {
    var c := cs[|rs|];
    if TwoPhase(c) && !verified then
      match Check(s.db, a, c)
      case Ok(_) => s.(io := Running(a, cs, rs, true))
      case Throw(e) => Finish(s, a, cs, ErrorResult(e), rs)
      case Escapes(w) => s.(io := Stopped(w))
    else
      var x := Act(s.db, a, c);
      var u := s.(db := x.tables);
      match x.out
      case Ok(r) => Finish(u, a, cs, r, rs)
      case Throw(e) => Finish(u, a, cs, ErrorResult(e), rs)
      case Escapes(w) => u.(io := Stopped(w))
  }

  /** The packet is read off the connection and dispatched on its type. */
  function Accepted(stream: seq<byte>, keyAddr: KeyAddress): Io {
    match F.DecodePacket(stream)
    case Failed(BadPacket) => Stopped(AssertionFailed)
    case Failed(_) => Stopped(Uncaught)
    case Got(NoPacket, _) => Stopped(NullPacket)
    case Got(Handshake(k), _) => HsCheck(keyAddr, k)
    case Got(CommandBatch(a, data, _), _) => Auth(a, data)
  }

  /** The agent's key is fetched and the batch decoded; nothing catches what either may throw. */
  function Opened(t: Tables, a: Address, data: seq<byte>): Io {
    if a !in t.agents then Stopped(UnknownAgent)
    else
      match C.DecodeBatch(data)
      case Failed(_) => Stopped(Uncaught)
      case Got(cs, _) => Running(a, cs, [], false)
  }

  /** The io thread's next transaction. */
  function IoNext(s: Sys): Sys {
    match s.io
    case Reading(stream, a) => s.(io := Accepted(stream, a))
    case HsCheck(a, k) => s.(io := if a in s.db.agents then HsDone(a, false, 0) else HsPocket(a, k))
    case HsPocket(a, k) =>
      (var x := InsertPocket(s.db, []);
       match x.out
       case Ok(p) => s.(db := x.tables, io := HsAgent(a, k, p))
       case Throw(_) => s.(db := x.tables, io := Stopped(Uncaught))
       case Escapes(w) => s.(db := x.tables, io := Stopped(w)))
    case HsAgent(a, k, p) =>
      (var x := InsertAgent(s.db, a, k, p);
       match x.out
       case Ok(_) => s.(db := x.tables, io := HsOwner(a, p))
       case Throw(_) => s.(db := x.tables, io := Stopped(Uncaught))
       case Escapes(w) => s.(db := x.tables, io := Stopped(w)))
    case HsOwner(a, p) =>
      (var x := UpdatePocketOwner(s.db, p, a);
       match x.out
       case Ok(_) => s.(db := x.tables, io := HsDone(a, true, p))
       case Throw(_) => s.(db := x.tables, io := Stopped(Uncaught))
       case Escapes(w) => s.(db := x.tables, io := Stopped(w)))
    case Auth(a, data) => s.(io := Opened(s.db, a, data))
    case Running(a, cs, rs, v) =>
      if |rs| < |cs| then CommandStep(s, a, cs, rs, v) else s.(io := Finished(a, cs, rs))
    case _ => s
  }

  function Step(s: Sys, e: Event): Sys {
    if s.io.Stopped? then s else
      match e
      case Connects(stream, a) => if Free(s.io) then s.(io := Reading(stream, a)) else s
      case IoStep => IoNext(s)
      case FeeSnapshot(perFile, perByte) =>
        if s.bill.None? then s.(bill := Some(FetchFees(s.db, perFile, perByte))) else s
      case FeeApply =>
        match s.bill
        case None => s
        case Some(bill) =>
          s.(db := ApplyFees(s.db, bill),
             bill := None,
             collected := (map p | p in s.db.pockets :: Get(s.collected, p) + FeeOf(bill, p)),
             lastFee := (map p | p in s.db.pockets :: if Chargeable(bill, p) then bill[p].fee else Get(s.lastFee, p)))
  }

  function Run(s: Sys, es: seq<Event>): Sys {
    if es == [] then s else Step(Run(s, es[..|es| - 1]), es[|es| - 1])
  }

  // ---------- what all runs keep ----------

  /** What an ownership check has established and nothing has undone since: the pocket still has
      that owner; the file may have been deleted, but if it is there it still has that owner. */
  ghost predicate StillOwned(t: Tables, a: Address, c: C.Command) {
    match c
    case RequestPocketDepositAddress(p) => Owned(t, a, p)
    case CreateFile(_, p) => Owned(t, a, p)
    case UpdateFileByID(f, _) => Storable(f) && (f in t.files ==> t.files[f].owner == a)
    case _ => true
  }

  /** The results of a batch so far: valid, of the right kinds, none of them fatal. */
  ghost predicate SoFar(cs: seq<C.Command>, rs: seq<R.Result>) {
    && R.AnswerAll(cs, rs) && R.ValidAll(rs)
    && forall i :: 0 <= i < |rs| ==> !rs[i].Error?
  }

  /** The results of a finished batch: all of the commands', or cut short after a fatal error. */
  ghost predicate Complete(cs: seq<C.Command>, rs: seq<R.Result>) {
    && R.AnswerAll(cs, rs) && R.ValidAll(rs)
    && (forall i :: 0 <= i < |rs| - 1 ==> !rs[i].Error?)
    && (|rs| < |cs| ==> rs != [] && Fatal(rs[|rs| - 1]))
  }

  ghost predicate IoFacts(t: Tables, io: Io) {
    match io
    case HsCheck(a, _) => a != []
    case HsPocket(a, _) => a != [] && a !in t.agents
    case HsAgent(a, _, p) => a != [] && a !in t.agents && p in t.pockets && t.pockets[p].owner == None
    case HsOwner(a, p) =>
      a in t.agents && t.agents[a].defaultPocket == p && p in t.pockets && t.pockets[p].owner == None
    case HsDone(a, isNew, p) => isNew ==> a in t.agents && t.agents[a].defaultPocket == p && Owned(t, a, p)
    case Running(a, cs, rs, v) =>
      && a in t.agents && ValidBatch(cs) && SoFar(cs, rs)
      && (v ==> |rs| < |cs| && TwoPhase(cs[|rs|]) && StillOwned(t, a, cs[|rs|]))
    case Finished(_, cs, rs) => ValidBatch(cs) && Complete(cs, rs)
    case _ => true
  }

  /** The pocket a handshake has made and not yet given to its agent. */
  ghost predicate InFlight(io: Io, p: nat) {
    (io.HsAgent? && io.pocket == p) || (io.HsOwner? && io.pocket == p)
  }

  ghost predicate OwnersSet(t: Tables, io: Io) {
    && (forall p :: p in t.pockets && t.pockets[p].owner == None ==> InFlight(io, p))
    && (forall a :: a in t.agents ==>
          var p := t.agents[a].defaultPocket; Owned(t, a, p) || io == HsOwner(a, p))
  }

  ghost predicate Inv(s: Sys) {
    Consistent(s.db) && OwnersSet(s.db, s.io) && IoFacts(s.db, s.io)
  }

  // ---------- one transaction of a command ----------

  lemma DepositAddressFits()
    ensures |DEPOSIT_ADDRESS| == 17 && 0 !in DEPOSIT_ADDRESS
  {
    var s := "dummy.dep.address";
    assert forall i :: 0 <= i < |s| ==> s[i] == 'd' || s[i] == 'u' || s[i] == 'm' || s[i] == 'y' || s[i] == '.'
                                        || s[i] == 'e' || s[i] == 'p' || s[i] == 'a' || s[i] == 'r' || s[i] == 's';
  }

  /** The pocket or file an ownership check looks at. */
  function CheckedID(c: C.Command): nat
    requires TwoPhase(c)
  {
    match c
    case RequestPocketDepositAddress(p) => p
    case CreateFile(_, p) => p
    case UpdateFileByID(f, _) => f
  }

  /** An ownership check either grants what it says, or its error fits the wire. */
  lemma CheckGrants(t: Tables, a: Address, c: C.Command)
    requires TwoPhase(c) && c.Valid() && a != []
    ensures var out := Check(t, a, c);
            && (out.Ok? ==> StillOwned(t, a, c))
            && (out.Throw? ==> ErrorResult(out.error).Valid())
            && (out.Escapes? <==> !Storable(CheckedID(c))) && (out.Escapes? ==> out.why == OutOfRange)
  {
    hide PocketTarget, FileTarget;
    match c
    case RequestPocketDepositAddress(p) => TextsFit(p);
    case CreateFile(_, p) => TextsFit(p);
    case UpdateFileByID(f, _) => TextsFit(f);
  }

  /** The work of a command keeps the tables consistent, given the check made before it. */
  lemma ActKeeps(t: Tables, a: Address, c: C.Command)
    requires Consistent(t) && c.Valid() && StillOwned(t, a, c)
    ensures var x := Act(t, a, c); Consistent(x.tables) && Extends(t, x.tables)
  {
    hide Consistent, Extends, Ledger.PocketTransfer, InsertFile, InsertPocket, Ledger.UpdateFileByID,
      Ledger.ReadFileByID, UpdatePocketDepositAddress;
    match c
    case CreatePocket => InsertPocketKeeps(t, a);
    case RequestPocketDepositAddress(p) => DepositKeeps(t, a, p, DEPOSIT_ADDRESS);
    case PocketTransfer(from, to, amount) => TransferKeeps(t, a, from, to, amount);
    case CreateFile(name, p) => InsertFileKeeps(t, a, name, p);
    case UpdateFileByID(f, data) => UpdateFileKeeps(t, f, data);
    case ReadFileByID(f) => SameOwnersKeep(t, t);
  }

  /** Whatever a command answers fits the wire and is of the command's kind. */
  lemma ActAnswers(t: Tables, a: Address, c: C.Command)
    requires Consistent(t) && c.Valid()
    ensures var out := Act(t, a, c).out;
            && (out.Ok? ==> out.value.Valid() && out.value.Answers(c.TypeChar()) && !out.value.Error?)
            && (out.Throw? ==> ErrorResult(out.error).Valid())
  {
    hide PocketTarget, FileTarget, TransferFailed, ForeignKeys, OwnersAgree, UniqueNames;
    match c
    case CreatePocket =>
    case RequestPocketDepositAddress(p) => TextsFit(p); DepositAddressFits();
    case PocketTransfer(from, to, amount) => TextsFit(from); TextsFit(to);
    case CreateFile(name, p) => TextsFit(p);
    case UpdateFileByID(f, data) => TextsFit(f);
    case ReadFileByID(f) => TextsFit(f);
  }

  // ---------- the invariant ----------

  /** Every pocket has an owner, and every agent its own default pocket. */
  ghost predicate AllOwned(t: Tables) {
    && (forall p :: p in t.pockets ==> t.pockets[p].owner.Some?)
    && (forall a :: a in t.agents ==> Owned(t, a, t.agents[a].defaultPocket))
  }

  /** Except inside a handshake, that is what owners being set amounts to. */
  lemma Settled(t: Tables, io: Io)
    ensures !io.HsAgent? && !io.HsOwner? ==> (OwnersSet(t, io) <==> AllOwned(t))
  {
  }

  lemma TransferSameOwners(t: Tables, a: Address, from: nat, to: nat, amount: nat)
    ensures var u := Ledger.PocketTransfer(t, a, from, to, amount).tables;
            && u.agents == t.agents && u.pockets.Keys == t.pockets.Keys
            && forall p :: p in t.pockets ==> u.pockets[p].owner == t.pockets[p].owner
  {
    hide RefuseTransfer, PocketTarget;
  }

  /** A command gives every pocket it makes an owner and takes none away. */
  lemma ActAllOwned(t: Tables, a: Address, c: C.Command)
    requires Serials(t) && a != [] && AllOwned(t)
    ensures AllOwned(Act(t, a, c).tables) && Act(t, a, c).tables.agents == t.agents
  {
    hide Ledger.PocketTransfer, PocketTarget, FileTarget, Ascii;
    if c.PocketTransfer? { TransferSameOwners(t, a, c.fromPocketID, c.toPocketID, c.amount); }
  }

  lemma CommandStepKeeps(s: Sys)
    requires Inv(s) && s.io.Running? && |s.io.results| < |s.io.cmds|
    ensures var u := CommandStep(s, s.io.addr, s.io.cmds, s.io.results, s.io.verified);
            Inv(u) && Extends(s.db, u.db)
  {
    hide Consistent, Extends, StillOwned, Act, Check, OwnersSet, AllOwned;
    var a, cs, rs := s.io.addr, s.io.cmds, s.io.results;
    var c := cs[|rs|];
    var u := CommandStep(s, a, cs, rs, s.io.verified);
    Settled(s.db, s.io);
    Settled(u.db, u.io);
    AgentsNamed(s.db);
    if TwoPhase(c) && !s.io.verified {
      CheckGrants(s.db, a, c);
      SameOwnersKeep(s.db, s.db);
    } else {
      NoCheckNeeded(s.db, a, c);
      ActKeeps(s.db, a, c);
      ActAnswers(s.db, a, c);
      ActAllOwned(s.db, a, c);
    }
  }

  lemma AgentsNamed(t: Tables)
    requires Consistent(t)
    ensures [] !in t.agents && Serials(t)
  {
  }

  lemma NoCheckNeeded(t: Tables, a: Address, c: C.Command)
    ensures !TwoPhase(c) ==> StillOwned(t, a, c)
  {
  }

  lemma PocketStepKeeps(s: Sys)
    requires Inv(s) && s.io.HsPocket?
    ensures var u := IoNext(s); Inv(u) && Extends(s.db, u.db)
  {
    hide Extends, ForeignKeys, UniqueNames, DataBounded, OwnersAgree, CommandStep;
    InsertPocketKeeps(s.db, []);
    assert InsertPocket(s.db, []).tables.agents == s.db.agents;
  }

  lemma StorablePockets(t: Tables)
    requires Serials(t)
    ensures forall p :: p in t.pockets ==> Storable(p)
  {
  }

  lemma AgentStepKeeps(s: Sys)
    requires Inv(s) && s.io.HsAgent?
    ensures var u := IoNext(s); Inv(u) && Extends(s.db, u.db)
  {
    StorablePockets(s.db);
    hide Extends, ForeignKeys, Serials, UniqueNames, DataBounded, OwnersAgree, CommandStep, Ascii;
    InsertAgentKeeps(s.db, s.io.newAddr, s.io.key, s.io.pocket);
  }

  lemma OwnerGiven(s: Sys)
    requires Inv(s) && s.io.HsOwner?
    ensures var a, p := s.io.newAddr, s.io.pocket;
            var t := UpdatePocketOwner(s.db, p, a).tables;
            && p in s.db.pockets && t == s.db.(pockets := s.db.pockets[p := s.db.pockets[p].(owner := Some(a))])
            && IoNext(s) == s.(db := t, io := HsDone(a, true, p))
  {
    hide ForeignKeys, UniqueNames, DataBounded, OwnersAgree, CommandStep, PocketTarget;
  }

  lemma OwnerStepKeeps(s: Sys)
    requires Inv(s) && s.io.HsOwner?
    ensures var u := IoNext(s); Inv(u) && Extends(s.db, u.db)
  {
    hide Extends, Consistent, IoNext, UpdatePocketOwner;
    OwnerGiven(s);
    UpdatePocketOwnerKeeps(s.db, s.io.pocket, s.io.newAddr);
    assert forall a :: a in s.db.agents && s.db.agents[a].defaultPocket == s.io.pocket ==> a == s.io.newAddr;
  }

  lemma HandshakeStepKeeps(s: Sys)
    requires Inv(s) && (s.io.HsCheck? || s.io.HsPocket? || s.io.HsAgent? || s.io.HsOwner?)
    ensures var u := IoNext(s); Inv(u) && Extends(s.db, u.db)
  {
    hide Extends, Consistent;
    match s.io
    case HsCheck(_, _) => SameOwnersKeep(s.db, s.db);
    case HsPocket(_, _) => PocketStepKeeps(s);
    case HsAgent(_, _, _) => AgentStepKeeps(s);
    case HsOwner(_, _) => OwnerStepKeeps(s);
  }

  /** A handshake never meets the exceptions nothing catches: only running out of serial numbers ends it. */
  lemma HandshakeEscapes(s: Sys)
    requires Inv(s) && (s.io.HsCheck? || s.io.HsPocket? || s.io.HsAgent? || s.io.HsOwner?)
    ensures IoNext(s).io.Stopped? <==> s.io.HsPocket? && s.db.nextPocket > MAX_SERIAL
  {
  }

  /** The fee thread disturbs nothing the io thread relies on. */
  lemma FeeKeeps(s: Sys, bill: map<nat, Charge>)
    requires Inv(s)
    ensures var u := ApplyFees(s.db, bill); Consistent(u) && Extends(s.db, u) && OwnersSet(u, s.io) && IoFacts(u, s.io)
  {
    hide Consistent, Extends;
    ApplyFeesKeeps(s.db, bill);
  }

  /** What the decoder yields is valid, whatever the bytes. */
  lemma OpenedIsValid(t: Tables, a: Address, data: seq<byte>)
    ensures var io := Opened(t, a, data); io.Running? ==> ValidBatch(io.cmds) && a in t.agents
  {
    hide C.DecodeBatch;
    match C.DecodeBatch(data)
    case Failed(_) =>
    case Got(cs, rest) => C.DecodeBatchIff(data, cs, rest);
  }

  /** Every step of either thread keeps the invariant, and never changes an owner once set. */
  lemma StepKeeps(s: Sys, e: Event)
    requires Inv(s)
    ensures Inv(Step(s, e)) && Extends(s.db, Step(s, e).db)
  {
    hide Consistent, Extends, OwnersSet, ApplyFees, FetchFees, CommandStep;
    SameOwnersKeep(s.db, s.db);
    var u := Step(s, e);
    Settled(s.db, s.io);
    Settled(u.db, u.io);
    match e
    case FeeApply =>
      if s.bill.Some? { FeeKeeps(s, s.bill.value); }
    case IoStep =>
      if s.io.HsCheck? || s.io.HsPocket? || s.io.HsAgent? || s.io.HsOwner? {
        HandshakeStepKeeps(s);
      } else if s.io.Running? && |s.io.results| < |s.io.cmds| {
        CommandStepKeeps(s);
      } else if s.io.Auth? {
        OpenedIsValid(s.db, s.io.addr, s.io.data);
      }
    case _ =>
  }

  /** A database to start from: consistent, every pocket owned, no pass or request under way. */
  ghost predicate Start(s: Sys) {
    Consistent(s.db) && AllOwned(s.db) && s.io.Idle? && s.bill.None? && s.collected == map[] && s.lastFee == map[]
  }

  lemma {:induction false} RunKeepsFrom(s: Sys, es: seq<Event>)
    requires Inv(s)
    ensures Inv(Run(s, es))
    decreases es
  {
    hide Inv, Step;
    if es != [] {
      RunKeepsFrom(s, es[..|es| - 1]);
      StepKeeps(Run(s, es[..|es| - 1]), es[|es| - 1]);
    }
  }

  /** The invariant holds at every transaction boundary of every run. */
  lemma RunKeeps(s: Sys, es: seq<Event>)
    requires Start(s)
    ensures Inv(Run(s, es))
  {
    Settled(s.db, s.io);
    RunKeepsFrom(s, es);
  }

  // ---------- after the server has stopped ----------

  /** A new server on the same database. */
  function Restarted(s: Sys): Sys {
    Sys(s.db, Idle, None, map[], map[])
  }

  /** Whatever stopped it, and whatever pass was under way, the tables it leaves are ones to start from. */
  lemma StoppedCanRestart(s: Sys, es: seq<Event>)
    requires Start(s) && Run(s, es).io.Stopped?
    ensures Start(Restarted(Run(s, es)))
  {
    hide Consistent;
    RunKeeps(s, es);
    Settled(Run(s, es).db, Run(s, es).io);
  }
}
