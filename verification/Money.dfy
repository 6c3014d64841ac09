/** What all interleavings keep of the money: conservation, how far a balance can fall, and that no
    credit overflows (util/database.cpp, server.cpp). */
module Money {
  import opened Bytes
  import opened Ledger
  import opened Sums
  import opened Service
  import opened Machine
  import C = Commands
  import R = Results

  /** A pocket's balance and what fees have taken from it so far. */
  ghost function Wealth(s: Sys): nat -> int {
    (p: nat) => Balance(s.db, p) + Get(s.collected, p)
  }

  ghost function Total(s: Sys): int {
    Sum(Wealth(s), s.db.nextPocket)
  }

  /** No balance is further below zero than the fee last taken from it, and a pass under way charges
      only pockets that are not below zero. */
  ghost predicate Bounded(s: Sys) {
    && (forall p :: p in s.db.pockets ==> s.db.pockets[p].amount + Get(s.lastFee, p) >= 0)
    && (forall p :: Get(s.lastFee, p) <= Get(s.collected, p))
    && s.collected.Keys <= s.db.pockets.Keys
    && (s.bill.Some? ==> forall p :: Chargeable(s.bill.value, p) ==> p in s.db.pockets && s.db.pockets[p].amount >= 0)
  }

  /** No fee taken or about to be taken is more than there is. */
  ghost predicate FeesWithin(s: Sys, total: int) {
    && (forall p :: Get(s.lastFee, p) <= total)
    && (s.bill.Some? ==> forall p :: Chargeable(s.bill.value, p) ==> s.bill.value[p].fee <= total)
  }

  ghost predicate Funded(s: Sys, total: int) {
    Bounded(s) && FeesWithin(s, total) && Total(s) == total
  }

  // ---------- how transactions move money ----------

  ghost predicate SameMoney(t: Tables, u: Tables) {
    && u.nextPocket == t.nextPocket && u.pockets.Keys == t.pockets.Keys
    && forall p :: p in t.pockets ==> u.pockets[p].amount == t.pockets[p].amount
  }

  /** A serial number drawn, and with it at most one empty pocket. */
  ghost predicate PocketDrawn(t: Tables, u: Tables) {
    && u.nextPocket == t.nextPocket + 1
    && t.pockets.Keys <= u.pockets.Keys <= t.pockets.Keys + {t.nextPocket}
    && (forall p :: p in t.pockets ==> u.pockets[p].amount == t.pockets[p].amount)
    && (t.nextPocket in u.pockets && t.nextPocket !in t.pockets ==> u.pockets[t.nextPocket].amount == 0)
  }

  /** An amount moved from a pocket that held it to another. */
  ghost predicate MoneyMoved(t: Tables, u: Tables, from: nat, to: nat, amount: nat) {
    && u.nextPocket == t.nextPocket && u.pockets == Moved(t.pockets, from, to, amount)
    && from in t.pockets && to in t.pockets && t.pockets[from].amount >= amount
  }

  ghost predicate MoneyStep(t: Tables, u: Tables) {
    SameMoney(t, u) || PocketDrawn(t, u) || exists from, to, amount :: MoneyMoved(t, u, from, to, amount)
  }

  lemma ActMoney(t: Tables, a: Address, c: C.Command)
    requires Serials(t)
    ensures MoneyStep(t, Act(t, a, c).tables)
  {
    hide RefuseTransfer, PocketTarget, FileTarget, Ascii, Moved;
    var u := Act(t, a, c).tables;
    match c
    case PocketTransfer(from, to, amount) =>
      assert u == t || MoneyMoved(t, u, from, to, amount);
    case CreatePocket => assert SameMoney(t, u) || PocketDrawn(t, u);
    case _ => assert SameMoney(t, u);
  }

  lemma CommandMoney(s: Sys, a: Address, cs: seq<C.Command>, rs: seq<R.Result>, v: bool)
    requires Serials(s.db) && |rs| < |cs|
    ensures var u := CommandStep(s, a, cs, rs, v);
            MoneyStep(s.db, u.db) && u.bill == s.bill && u.collected == s.collected && u.lastFee == s.lastFee
  {
    hide Act, Check, MoneyStep;
    ActMoney(s.db, a, cs[|rs|]);
    NoMoney(s.db);
  }

  lemma NoMoney(t: Tables)
    ensures MoneyStep(t, t)
  {
    assert SameMoney(t, t);
  }

  lemma HandshakeMoney(s: Sys)
    requires Serials(s.db) && (s.io.HsPocket? || s.io.HsAgent? || s.io.HsOwner?)
    ensures var u := IoNext(s);
            MoneyStep(s.db, u.db) && u.bill == s.bill && u.collected == s.collected && u.lastFee == s.lastFee
  {
    hide PocketTarget, Ascii, CommandStep;
    var u := IoNext(s);
    match s.io
    case HsPocket(_, _) => assert SameMoney(s.db, u.db) || PocketDrawn(s.db, u.db);
    case HsAgent(_, _, _) => assert SameMoney(s.db, u.db);
    case HsOwner(_, _) => assert SameMoney(s.db, u.db);
  }

  lemma IoMoney(s: Sys)
    requires Serials(s.db)
    ensures var u := IoNext(s);
            MoneyStep(s.db, u.db) && u.bill == s.bill && u.collected == s.collected && u.lastFee == s.lastFee
  {
    hide CommandStep, MoneyStep;
    NoMoney(s.db);
    match s.io
    case Running(a, cs, rs, v) =>
      if |rs| < |cs| { CommandMoney(s, a, cs, rs, v); }
    case HsPocket(_, _) => HandshakeMoney(s);
    case HsAgent(_, _, _) => HandshakeMoney(s);
    case HsOwner(_, _) => HandshakeMoney(s);
    case _ =>
  }

  lemma MovedWealth(s: Sys, u: Sys, from: nat, to: nat, amount: nat)
    requires MoneyMoved(s.db, u.db, from, to, amount) && u.collected == s.collected
    requires from < s.db.nextPocket && to < s.db.nextPocket
    ensures Total(u) == Total(s)
  {
    var f, g := Wealth(s), Wealth(u);
    var h: nat -> int := (p: nat) => f(p) - (if p == from then amount else 0);
    var taken: int := 0 - amount;
    SumPoint(f, h, from, taken, s.db.nextPocket);
    SumPoint(h, g, to, amount, s.db.nextPocket);
  }

  lemma SameMoneyKeeps(s: Sys, u: Sys, total: int)
    requires Funded(s, total) && SameMoney(s.db, u.db)
    requires u.bill == s.bill && u.collected == s.collected && u.lastFee == s.lastFee
    ensures Funded(u, total)
  {
    SumSame(Wealth(s), Wealth(u), s.db.nextPocket);
  }

  lemma PocketDrawnKeeps(s: Sys, u: Sys, total: int)
    requires Serials(s.db) && Funded(s, total) && PocketDrawn(s.db, u.db)
    requires u.bill == s.bill && u.collected == s.collected && u.lastFee == s.lastFee
    ensures Funded(u, total)
  {
    var n := s.db.nextPocket;
    SumSame(Wealth(s), Wealth(u), n);
    assert Wealth(u)(n) == 0;
  }

  lemma MoneyMovedKeeps(s: Sys, u: Sys, total: int, from: nat, to: nat, amount: nat)
    requires Serials(s.db) && Funded(s, total) && MoneyMoved(s.db, u.db, from, to, amount)
    requires u.bill == s.bill && u.collected == s.collected && u.lastFee == s.lastFee
    ensures Funded(u, total)
  {
    hide Total;
    MovedWealth(s, u, from, to, amount);
  }

  lemma MoneyStepKeeps(s: Sys, u: Sys, total: int)
    requires Serials(s.db) && Funded(s, total)
    requires MoneyStep(s.db, u.db) && u.bill == s.bill && u.collected == s.collected && u.lastFee == s.lastFee
    ensures Funded(u, total)
  {
    hide Funded, SameMoney, PocketDrawn, MoneyMoved;
    if SameMoney(s.db, u.db) {
      SameMoneyKeeps(s, u, total);
    } else if PocketDrawn(s.db, u.db) {
      PocketDrawnKeeps(s, u, total);
    } else {
      var from, to, amount :| MoneyMoved(s.db, u.db, from, to, amount);
      MoneyMovedKeeps(s, u, total, from, to, amount);
    }
  }

  lemma ApplyTotal(s: Sys)
    requires s.bill.Some? && !s.io.Stopped? && s.collected.Keys <= s.db.pockets.Keys
    ensures Total(Step(s, FeeApply)) == Total(s)
  {
    SumSame(Wealth(s), Wealth(Step(s, FeeApply)), s.db.nextPocket);
  }

  /** Applying a bill moves each fee from a balance to what was collected, whatever happened since
      the snapshot. */
  lemma ApplyKeeps(s: Sys, total: int)
    requires Funded(s, total) && s.bill.Some? && !s.io.Stopped?
    ensures Funded(Step(s, FeeApply), total)
  {
    hide Total;
    ApplyTotal(s);
  }

  /** The records are right: what a pocket's balance loses in a charge is what is added to its collected
      fees, and is then the last fee taken from it; nothing else changes either record. */
  lemma StepRecords(s: Sys, e: Event, p: nat)
    requires s.collected.Keys <= s.db.pockets.Keys && s.lastFee.Keys <= s.db.pockets.Keys
    ensures var u := Step(s, e);
            var charged := e.FeeApply? && s.bill.Some? && !s.io.Stopped?;
            && (charged ==> Get(u.collected, p) - Get(s.collected, p) == Balance(s.db, p) - Balance(u.db, p))
            && (charged && p in s.db.pockets && Chargeable(s.bill.value, p) ==>
                  Get(u.lastFee, p) == Balance(s.db, p) - Balance(u.db, p))
            && (!charged ==> u.collected == s.collected && u.lastFee == s.lastFee)
            && (charged && !(p in s.db.pockets && Chargeable(s.bill.value, p)) ==>
                  Get(u.lastFee, p) == Get(s.lastFee, p))
  {
    hide CommandStep, Accepted, Opened, InsertPocket, InsertAgent, UpdatePocketOwner, FetchFees;
    if e.IoStep? && !s.io.Stopped? && s.io.Running? && |s.io.results| < |s.io.cmds| {
      CommandRecords(s, s.io.addr, s.io.cmds, s.io.results, s.io.verified);
    }
  }

  lemma CommandRecords(s: Sys, a: Address, cs: seq<C.Command>, rs: seq<R.Result>, v: bool)
    requires |rs| < |cs|
    ensures var u := CommandStep(s, a, cs, rs, v); u.collected == s.collected && u.lastFee == s.lastFee
  {
    hide Act, Check, Fatal;
  }

  lemma SnapshotKeeps(s: Sys, perFile: nat, perByte: nat, total: int)
    requires ForeignKeys(s.db) && Serials(s.db) && Funded(s, total)
    ensures Funded(Step(s, FeeSnapshot(perFile, perByte)), total)
  {
    hide TotalFees;
    var u := Step(s, FeeSnapshot(perFile, perByte));
    forall p | p in s.db.pockets ensures s.db.pockets[p].amount <= total {
      WealthBounds(s, total, p);
    }
    SumSame(Wealth(s), Wealth(u), s.db.nextPocket);
  }

  /** Every step of either thread leaves balances plus collected fees unchanged in total, and every bound in place. */
  lemma StepFunded(s: Sys, e: Event, total: int)
    requires Inv(s) && Funded(s, total)
    ensures Funded(Step(s, e), total)
  {
    hide IoNext, Funded, ApplyFees, FetchFees, MoneyStep;
    var u := Step(s, e);
    SameStep(s, total);
    match e
    case IoStep =>
      if !s.io.Stopped? {
        IoMoney(s);
        MoneyStepKeeps(s, u, total);
      }
    case FeeSnapshot(perFile, perByte) => SnapshotKeeps(s, perFile, perByte, total);
    case FeeApply =>
      if s.bill.Some? && !s.io.Stopped? { ApplyKeeps(s, total); }
    case _ =>
  }

  lemma SameStep(s: Sys, total: int)
    requires Funded(s, total)
    ensures forall io: Io :: Funded(s.(io := io), total)
  {
    forall io: Io ensures Funded(s.(io := io), total) {
      SumSame(Wealth(s), Wealth(s.(io := io)), s.db.nextPocket);
    }
  }

  /** A start with money in it: nothing collected, no balance below zero, `total` in all. */
  ghost predicate Endowed(s: Sys, total: int) {
    Start(s) && Total(s) == total && NonNegative(s.db)
  }

  /** In every interleaving: what is in the pockets and what fees have taken add up to what there was. */
  lemma {:induction false} RunFunded(s: Sys, es: seq<Event>, total: int)
    requires Endowed(s, total)
    ensures Inv(Run(s, es)) && Funded(Run(s, es), total)
    decreases es
  {
    RunKeeps(s, es);
    if es == [] {
      TermAtMostSum(Wealth(s), 0, s.db.nextPocket);
    } else {
      hide Inv, Funded;
      var init := es[..|es| - 1];
      RunKeeps(s, init);
      RunFunded(s, init, total);
      StepFunded(Run(s, init), es[|es| - 1], total);
    }
  }

  /** Every balance, together with the fees taken from it, is between zero and the total; a balance
      below zero is no further down than the last fee, which is no more than the total. */
  lemma WealthBounds(s: Sys, total: int, p: nat)
    requires Serials(s.db) && Funded(s, total) && p in s.db.pockets
    ensures 0 <= s.db.pockets[p].amount + Get(s.collected, p) <= total
    ensures 0 <= s.db.pockets[p].amount + Get(s.lastFee, p)
    ensures -total <= s.db.pockets[p].amount <= total
  {
    TermAtMostSum(Wealth(s), p, s.db.nextPocket);
    assert Wealth(s)(p) == s.db.pockets[p].amount + Get(s.collected, p);
  }

  /** In no interleaving does a balance leave the bigint column, by credits or by fees. */
  lemma BalancesInColumn(s: Sys, es: seq<Event>, total: int, p: nat)
    requires Endowed(s, total) && total <= BIGINT_MAX && p in Run(s, es).db.pockets
    ensures BIGINT_MIN < Run(s, es).db.pockets[p].amount <= BIGINT_MAX
  {
    RunFunded(s, es, total);
    WealthBounds(Run(s, es), total, p);
  }

  /** In no interleaving does a credit leave the bigint column: a transfer succeeds exactly when the
      source is the agent's and can pay, and the destination exists. Out of range is only an amount
      or id that is so itself, or the difference computed on a pocket below zero. */
  lemma NoOverflow(s: Sys, es: seq<Event>, total: int, a: Address, from: nat, to: nat, amount: nat)
    requires Endowed(s, total) && total <= BIGINT_MAX
    ensures var t := Run(s, es).db;
            var out := PocketTransfer(t, a, from, to, amount).out;
            && (out.Ok? <==> Owned(t, a, from) && amount <= t.pockets[from].amount && to in t.pockets)
            && (out == Escapes(OutOfRange) <==> Unsendable(t, a, from, to, amount))
  {
    RunFunded(s, es, total);
    CreditFits(Run(s, es), total, a, from, to, amount);
  }

  /** A number in the request, or the difference its debit computes, that its column cannot hold. */
  predicate Unsendable(t: Tables, a: Address, from: nat, to: nat, amount: nat) {
    || !Storable(from) || amount > BIGINT_MAX || Underflows(t, a, from, amount)
    || (Owned(t, a, from) && amount <= t.pockets[from].amount && !Storable(to))
  }

  lemma CreditFits(s: Sys, total: int, a: Address, from: nat, to: nat, amount: nat)
    requires Serials(s.db) && Funded(s, total) && total <= BIGINT_MAX
    ensures var out := PocketTransfer(s.db, a, from, to, amount).out;
            && (out.Ok? <==> Owned(s.db, a, from) && amount <= s.db.pockets[from].amount && to in s.db.pockets)
            && (out == Escapes(OutOfRange) <==> Unsendable(s.db, a, from, to, amount))
  {
    if from in s.db.pockets { WealthBounds(s, total, from); }
    if Debitable(s.db, a, from, amount) && to in s.db.pockets {
      var u := s.(db := s.db.(pockets := Moved(s.db.pockets, from, to, amount)));
      assert MoneyMoved(s.db, u.db, from, to, amount);
      MoneyMovedKeeps(s, u, total, from, to, amount);
      WealthBounds(u, total, to);
      assert u.db.pockets[to].amount == Credited(s.db.pockets, from, to, amount);
    }
  }
}
