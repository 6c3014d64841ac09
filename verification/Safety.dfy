/** Ownership over time, and when balances stay non-negative. */
module Safety {
  import opened Bytes
  import opened Ledger
  import opened Service
  import opened Machine
  import opened Money
  import C = Commands
  import R = Results

  // ---------- ownership ----------

  lemma {:induction false} RunExtends(s: Sys, es: seq<Event>, fs: seq<Event>, p: nat)
    requires Start(s) && p in Run(s, es).db.pockets && Run(s, es).db.pockets[p].owner.Some?
    ensures p in Run(s, es + fs).db.pockets && Run(s, es + fs).db.pockets[p].owner == Run(s, es).db.pockets[p].owner
    decreases fs
  {
    hide Step, Inv, Start;
    if fs == [] {
      assert es + fs == es;
    } else {
      var init := fs[..|fs| - 1];
      RunExtends(s, es, init, p);
      assert (es + fs)[..|es + fs| - 1] == es + init;
      RunKeeps(s, es + init);
      StepKeeps(Run(s, es + init), fs[|fs| - 1]);
    }
  }

  /** What a write finds, one transaction after the check: whatever the fee thread did in between, the
      deposit address goes to the agent's own pocket; a new file meets no foreign key, only a taken
      name or a spent sequence; an update writes the agent's own file or finds it deleted. */
  lemma WriteAfterCheck(s: Sys, es: seq<Event>)
    requires Start(s)
    requires var u := Run(s, es); u.io.Running? && u.io.verified
    ensures |Run(s, es).io.results| < |Run(s, es).io.cmds|
    ensures var u := Run(s, es);
            var a, c := u.io.addr, u.io.cmds[|u.io.results|];
            var out := Act(u.db, a, c).out;
            match c
            case RequestPocketDepositAddress(p) => Owned(u.db, a, p) && out.Ok?
            case CreateFile(name, p) =>
              && Owned(u.db, a, p)
              && (out.Ok? <==> u.db.nextFile <= MAX_SERIAL && !NameTaken(u.db, a, name))
              && (out.Escapes? <==> u.db.nextFile > MAX_SERIAL)
            case UpdateFileByID(f, _) =>
              && (out.Ok? <==> f in u.db.files)
              && (out.Ok? ==> u.db.files[f].owner == a)
              && (!out.Ok? ==> out == Throw(R.InvalidTarget(FileTarget(f))))
            case _ => false
  {
    hide Ascii, FileTarget, PocketTarget;
    RunKeeps(s, es);
  }

  // ---------- balances that stay non-negative ----------

  /** The io thread is about to take money from pocket `p`. */
  ghost predicate Debits(io: Io, p: nat) {
    && io.Running? && |io.results| < |io.cmds|
    && var c := io.cmds[|io.results|];
       c.PocketTransfer? && c.fromPocketID == p && c.toPocketID != p && c.amount > 0
  }

  /** No transfer debits a pocket that a pass under way is going to charge. */
  ghost predicate Quiet(s: Sys, e: Event) {
    e.IoStep? && s.bill.Some? ==> forall p :: Chargeable(s.bill.value, p) ==> !Debits(s.io, p)
  }

  ghost predicate QuietRun(s: Sys, es: seq<Event>) {
    es == [] || (QuietRun(s, es[..|es| - 1]) && Quiet(Run(s, es[..|es| - 1]), es[|es| - 1]))
  }

  /** Every pocket a pass is going to charge can pay. */
  ghost predicate Payable(s: Sys) {
    s.bill.Some? ==>
      forall p :: Chargeable(s.bill.value, p) ==> p in s.db.pockets && s.db.pockets[p].amount >= s.bill.value[p].fee
  }

  /** Only a transfer from it lowers a balance, and never below zero. */
  lemma ActBalances(t: Tables, a: Address, c: C.Command)
    requires Serials(t)
    ensures var u := Act(t, a, c).tables;
            && (forall p :: p in t.pockets ==> p in u.pockets)
            && (forall p :: p in u.pockets && p !in t.pockets ==> u.pockets[p].amount == 0)
            && (forall p :: p in t.pockets && u.pockets[p].amount < t.pockets[p].amount ==>
                  && u.pockets[p].amount >= 0
                  && c.PocketTransfer? && c.fromPocketID == p && c.toPocketID != p && c.amount > 0)
  {
    hide RefuseTransfer, PocketTarget, FileTarget, Ascii;
  }

  lemma IoBalances(s: Sys)
    requires Serials(s.db)
    ensures var u := IoNext(s);
            && u.bill == s.bill
            && (forall p :: p in s.db.pockets ==> p in u.db.pockets)
            && (forall p :: p in u.db.pockets && p !in s.db.pockets ==> u.db.pockets[p].amount == 0)
            && (forall p :: p in s.db.pockets && u.db.pockets[p].amount < s.db.pockets[p].amount ==>
                  u.db.pockets[p].amount >= 0 && Debits(s.io, p))
  {
    hide CommandStep, PocketTarget, Ascii;
    match s.io
    case Running(a, cs, rs, v) =>
      if |rs| < |cs| { CommandBalances(s, a, cs, rs, v); }
    case _ =>
  }

  lemma CommandBalances(s: Sys, a: Address, cs: seq<C.Command>, rs: seq<R.Result>, v: bool)
    requires Serials(s.db) && |rs| < |cs|
    ensures var u, c := CommandStep(s, a, cs, rs, v), cs[|rs|];
            && u.bill == s.bill
            && (forall p :: p in s.db.pockets ==> p in u.db.pockets)
            && (forall p :: p in u.db.pockets && p !in s.db.pockets ==> u.db.pockets[p].amount == 0)
            && (forall p :: p in s.db.pockets && u.db.pockets[p].amount < s.db.pockets[p].amount ==>
                  && u.db.pockets[p].amount >= 0
                  && c.PocketTransfer? && c.fromPocketID == p && c.toPocketID != p && c.amount > 0)
  {
    hide Act, Check, Fatal;
    ActBalances(s.db, a, cs[|rs|]);
  }

  lemma QuietStep(s: Sys, e: Event)
    requires Inv(s) && NonNegative(s.db) && Payable(s) && Quiet(s, e)
    ensures NonNegative(Step(s, e).db) && Payable(Step(s, e))
  {
    hide IoNext, TotalFees, OwnersAgree, UniqueNames, DataBounded, OwnersSet, IoFacts;
    match e
    case IoStep => IoBalances(s);
    case _ =>
  }

  /** Balances that start non-negative stay so in every run in which no transfer debits a charged
      pocket between a snapshot and its application. */
  lemma {:induction false} QuietRunsStayNonNegative(s: Sys, es: seq<Event>)
    requires Start(s) && NonNegative(s.db) && QuietRun(s, es)
    ensures NonNegative(Run(s, es).db) && Payable(Run(s, es))
    decreases es
  {
    if es != [] {
      var init := es[..|es| - 1];
      QuietRunsStayNonNegative(s, init);
      RunKeeps(s, init);
      QuietStep(Run(s, init), es[|es| - 1]);
    }
  }

  /** Each snapshot is followed at once by its application. */
  ghost predicate Atomic(es: seq<Event>) {
    forall i :: 0 <= i < |es| - 1 && es[i].FeeSnapshot? ==> es[i + 1].FeeApply?
  }

  lemma {:induction false} AtomicIsQuiet(s: Sys, es: seq<Event>)
    requires Start(s) && Atomic(es)
    ensures QuietRun(s, es)
    ensures Run(s, es).bill.Some? ==> es != [] && es[|es| - 1].FeeSnapshot? && !Run(s, es).io.Stopped?
    decreases es
  {
    hide IoNext, ApplyFees, FetchFees, Consistent;
    if es != [] {
      var init, e := es[..|es| - 1], es[|es| - 1];
      AtomicIsQuiet(s, init);
      if init != [] { assert init[|init| - 1] == es[|es| - 2]; }
      BillKept(Run(s, init));
    }
  }

  lemma BillKept(s: Sys)
    ensures IoNext(s).bill == s.bill
  {
  }

  /** With atomic passes every balance stays non-negative in every run. */
  lemma AtomicPassesStayNonNegative(s: Sys, es: seq<Event>)
    requires Start(s) && NonNegative(s.db) && Atomic(es)
    ensures NonNegative(Run(s, es).db)
  {
    AtomicIsQuiet(s, es);
    QuietRunsStayNonNegative(s, es);
  }

  /** Applying a bill drives a balance below zero exactly when some charged pocket has less than its
      snapshot fee left by then. */
  lemma ApplyGoesNegativeIff(s: Sys)
    requires s.bill.Some? && !s.io.Stopped? && NonNegative(s.db)
    ensures !NonNegative(Step(s, FeeApply).db) <==>
            exists p :: p in s.db.pockets && Chargeable(s.bill.value, p) && s.db.pockets[p].amount < s.bill.value[p].fee
  {
    var u := Step(s, FeeApply);
    if p :| p in s.db.pockets && Chargeable(s.bill.value, p) && s.db.pockets[p].amount < s.bill.value[p].fee {
      assert u.db.pockets[p].amount < 0;
    }
  }

  /** Every pocket about to be charged still holds its fee. */
  ghost predicate Covered(s: Sys) {
    s.bill.Some? ==>
      forall p :: p in s.db.pockets && Chargeable(s.bill.value, p) ==> s.db.pockets[p].amount >= s.bill.value[p].fee
  }

  /** Nothing but an uncovered charge takes a balance below zero. */
  lemma StepGoesNegativeIff(s: Sys, e: Event)
    requires Serials(s.db) && NonNegative(s.db)
    ensures NonNegative(Step(s, e).db) <==> (e.FeeApply? && !s.io.Stopped? ==> Covered(s))
  {
    hide IoNext, FetchFees, ApplyFees;
    match e
    case IoStep => IoBalances(s);
    case FeeApply =>
      if s.bill.Some? && !s.io.Stopped? { ApplyGoesNegativeIff(s); }
    case _ =>
  }

  ghost predicate NeverNegative(s: Sys, es: seq<Event>) {
    NonNegative(Run(s, es).db) && (es == [] || NeverNegative(s, es[..|es| - 1]))
  }

  ghost predicate AlwaysCovered(s: Sys, es: seq<Event>) {
    es == [] ||
    (var u := Run(s, es[..|es| - 1]);
     && AlwaysCovered(s, es[..|es| - 1])
     && (es[|es| - 1].FeeApply? && !u.io.Stopped? ==> Covered(u)))
  }

  /** For every run: no balance is ever negative exactly when each charge of the run finds every
      pocket on its bill still holding the fee. */
  lemma {:induction false} NeverNegativeIff(s: Sys, es: seq<Event>)
    requires Start(s) && NonNegative(s.db)
    ensures NeverNegative(s, es) <==> AlwaysCovered(s, es)
    decreases es
  {
    if es != [] {
      hide Step, NonNegative, Covered, Consistent, OwnersSet, IoFacts;
      var init := es[..|es| - 1];
      NeverNegativeIff(s, init);
      RunKeeps(s, init);
      AgentsNamed(Run(s, init).db);
      if NeverNegative(s, init) {
        StepGoesNegativeIff(Run(s, init), es[|es| - 1]);
      }
    }
  }
}
