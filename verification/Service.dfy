/** The command handlers and the batch loop of server.cpp, on the tables. */
module Service {
  import opened Bytes
  import opened Ledger
  import opened Commands
  import R = Results

  const DEPOSIT_ADDRESS := Ascii("dummy.dep.address")

  /** Whether the handler checks ownership in a transaction of its own before it writes. */
  predicate TwoPhase(c: Command) {
    c.RequestPocketDepositAddress? || c.CreateFile? || c.UpdateFileByID?
  }

  /** The ownership check. */
  function Check(t: Tables, a: Address, c: Command): Outcome<()>
    requires TwoPhase(c)
  {
    match c
    case RequestPocketDepositAddress(p) => VerifyPocketOwner(t, p, a)
    case CreateFile(_, p) => VerifyPocketOwner(t, p, a)
    case UpdateFileByID(f, _) => VerifyFileOwner(t, f, a)
  }

  function Answer<T>(x: Tx<T>, r: T -> R.Result): Tx<R.Result> {
    match x.out
    case Ok(v) => Tx(x.tables, Ok(r(v)))
    case Throw(e) => Tx(x.tables, Throw(e))
    case Escapes(w) => Tx(x.tables, Escapes(w))
  }

  /** The transaction that does the command's work. */
  function Act(t: Tables, a: Address, c: Command): Tx<R.Result> {
    match c
    case CreatePocket => Answer(InsertPocket(t, a), id => R.PocketCreated(0, id))
    case RequestPocketDepositAddress(p) =>
      Answer(UpdatePocketDepositAddress(t, a, p, DEPOSIT_ADDRESS), _ => R.DepositAddress(0, DEPOSIT_ADDRESS))
    case PocketTransfer(from, to, amount) =>
      Answer(Ledger.PocketTransfer(t, a, from, to, amount), _ => R.Transferred(0))
    case CreateFile(name, p) => Answer(InsertFile(t, a, name, p), id => R.FileCreated(0, id))
    case UpdateFileByID(f, data) => Answer(Ledger.UpdateFileByID(t, f, data), _ => R.FileUpdated(0))
    case ReadFileByID(f) => Answer(Tx(t, Ledger.ReadFileByID(t, f)), data => R.FileRead(0, data))
  }

  /** A handler with nothing happening between its transactions. */
  function RunCommand(t: Tables, a: Address, c: Command): Tx<R.Result> {
    if TwoPhase(c) && !Check(t, a, c).Ok? then
      match Check(t, a, c)
      case Throw(e) => Tx(t, Throw(e))
      case Escapes(w) => Tx(t, Escapes(w))
    else Act(t, a, c)
  }

  /** Every error the database functions construct costs nothing and is fatal to the batch. */
  function ErrorResult(e: R.CommandError): R.Result {
    R.Error(0, true, e)
  }

  /** What a command does to the tables, and its result or the exception that escapes. */
  datatype Reply = Reply(tables: Tables, result: Option<R.Result>, why: Escape)

  function Handle(t: Tables, a: Address, c: Command): Reply {
    var x := RunCommand(t, a, c);
    match x.out
    case Ok(r) => Reply(x.tables, Some(r), Uncaught)
    case Throw(e) => Reply(x.tables, Some(ErrorResult(e)), Uncaught)
    case Escapes(w) => Reply(x.tables, None, w)
  }

  lemma HandleAnswers(t: Tables, a: Address, c: Command)
    ensures var r := Handle(t, a, c).result;
            r.Some? ==> r.value.Answers(c.TypeChar()) && (r.value.Error? ==> r.value.fatal)
  {
  }

  // ---------- the batch loop ----------

  predicate Fatal(r: R.Result) {
    r.Error? && r.fatal
  }

  /** Tables, results, and the exception that ended the batch from outside, if one did. */
  datatype BatchRun = BatchRun(tables: Tables, results: seq<R.Result>, escaped: Option<Escape>)

  /** The loop from command `|rs|` on, for any way of handling commands. */
  function RunLoop(handle: (Tables, Command) -> Reply, t: Tables, cs: seq<Command>, rs: seq<R.Result>): (b: BatchRun)
    requires |rs| <= |cs|
    ensures |rs| <= |b.results| <= |cs| && rs <= b.results
    decreases |cs| - |rs|
  {
    if |rs| == |cs| then BatchRun(t, rs, None) else
      var x := handle(t, cs[|rs|]);
      match x.result
      case None => BatchRun(x.tables, rs, Some(x.why))
      case Some(r) => if Fatal(r) then BatchRun(x.tables, rs + [r], None) else RunLoop(handle, x.tables, cs, rs + [r])
  }

  /** The tables after the first `k` commands. */
  function Fold(handle: (Tables, Command) -> Reply, t: Tables, cs: seq<Command>, k: nat): Tables
    requires k <= |cs|
  {
    if k == 0 then t else handle(Fold(handle, t, cs, k - 1), cs[k - 1]).tables
  }

  /** Result i is what command i answers on the tables left by the ones before it. */
  ghost predicate InOrder(handle: (Tables, Command) -> Reply, t: Tables, cs: seq<Command>, rs: seq<R.Result>) {
    |rs| <= |cs| && forall i :: 0 <= i < |rs| ==> handle(Fold(handle, t, cs, i), cs[i]).result == Some(rs[i])
  }

  ghost predicate LoopOutcome(handle: (Tables, Command) -> Reply, t: Tables, cs: seq<Command>, b: BatchRun) {
    && InOrder(handle, t, cs, b.results)
    && (b.escaped.None? ==> b.tables == Fold(handle, t, cs, |b.results|))
    && (b.escaped.Some? ==> |b.results| < |cs| && b.tables == Fold(handle, t, cs, |b.results| + 1))
    && (forall i :: 0 <= i < |b.results| - 1 ==> !Fatal(b.results[i]))
    && (b.escaped.None? && |b.results| < |cs| ==> b.results != [] && Fatal(b.results[|b.results| - 1]))
  }

  /** However commands are handled, a batch leaves the database equal to the fold of its first k
      commands, k being the number of its results (one more when an exception escaped from the
      next); result i is what command i answered; no result before the last is fatal, and fewer
      results than commands, with nothing escaped, means the last one is. */
  lemma {:induction false} LoopIsFold(handle: (Tables, Command) -> Reply, t: Tables, cs: seq<Command>,
                                      rs: seq<R.Result>)
    requires InOrder(handle, t, cs, rs)
    requires forall i :: 0 <= i < |rs| ==> !Fatal(rs[i])
    ensures LoopOutcome(handle, t, cs, RunLoop(handle, Fold(handle, t, cs, |rs|), cs, rs))
    decreases |cs| - |rs|
  {
    hide Fatal;
    var b := RunLoop(handle, Fold(handle, t, cs, |rs|), cs, rs);
    if |rs| < |cs| {
      var x := handle(Fold(handle, t, cs, |rs|), cs[|rs|]);
      assert Fold(handle, t, cs, |rs| + 1) == x.tables;
      match x.result
      case None =>
      case Some(r) =>
        assert InOrder(handle, t, cs, rs + [r]);
        if Fatal(r) {
          assert b == BatchRun(x.tables, rs + [r], None);
        } else {
          assert b == RunLoop(handle, x.tables, cs, rs + [r]);
          LoopIsFold(handle, t, cs, rs + [r]);
        }
    }
  }

  function Handler(a: Address): (Tables, Command) -> Reply {
    (t, c) => Handle(t, a, c)
  }

  function RunBatch(t: Tables, a: Address, cs: seq<Command>): BatchRun {
    RunLoop(Handler(a), t, cs, [])
  }

  /** For the server's handlers moreover: every result answers its command, and all results before
      the last are successes. */
  lemma BatchIsFold(t: Tables, a: Address, cs: seq<Command>)
    ensures var b := RunBatch(t, a, cs);
            && LoopOutcome(Handler(a), t, cs, b)
            && R.AnswerAll(cs, b.results)
            && (forall i :: 0 <= i < |b.results| - 1 ==> !b.results[i].Error?)
  {
    hide Handle;
    LoopIsFold(Handler(a), t, cs, []);
    var b := RunBatch(t, a, cs);
    forall i | 0 <= i < |b.results|
      ensures b.results[i].Answers(cs[i].TypeChar()) && (b.results[i].Error? ==> b.results[i].fatal)
    {
      HandleAnswers(Fold(Handler(a), t, cs, i), a, cs[i]);
    }
  }
}
