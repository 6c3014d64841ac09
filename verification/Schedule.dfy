/** When a balance goes below zero, said of the schedule of the two threads. */
module Schedule {
  import opened Bytes
  import opened Ledger
  import opened Service
  import opened Machine
  import opened Safety
  import C = Commands
  import R = Results

  /** What a command takes from pocket `p` on the whole; negative for what it brings. */
  function Taken(t: Tables, a: Address, c: C.Command, p: nat): int {
    if c.PocketTransfer? && PocketTransfer(t, a, c.fromPocketID, c.toPocketID, c.amount).out.Ok? then
      (if p == c.fromPocketID then c.amount else 0) - (if p == c.toPocketID then c.amount else 0)
    else 0
  }

  function Leaving(s: Sys, e: Event, p: nat): int {
    if e.IoStep? && s.io.Running? && |s.io.results| < |s.io.cmds| then
      Taken(s.db, s.io.addr, s.io.cmds[|s.io.results|], p)
    else 0
  }

  predicate Snapshots(s: Sys, e: Event) {
    e.FeeSnapshot? && s.bill.None? && !s.io.Stopped?
  }

  /** The net outflow from pocket `p` by transfers since the last snapshot. */
  ghost function Outflow(s: Sys, es: seq<Event>, p: nat): int {
    if es == [] then 0 else
      var init, e := es[..|es| - 1], es[|es| - 1];
      if Snapshots(Run(s, init), e) then 0 else Outflow(s, init, p) + Leaving(Run(s, init), e, p)
  }

  /** The balance of pocket `p` at the last snapshot, minus the fee billed then. */
  ghost function Margin(s: Sys, es: seq<Event>, p: nat): int {
    if es == [] then 0 else
      var init, e := es[..|es| - 1], es[|es| - 1];
      var u := Run(s, init);
      if Snapshots(u, e) then Balance(u.db, p) - TotalFees(u.db, p, e.perFile, e.perByte) else Margin(s, init, p)
  }

  // ---------- balances follow the schedule ----------

  lemma ActTakes(t: Tables, a: Address, c: C.Command, p: nat)
    requires Serials(t) && p in t.pockets
    ensures var u := Act(t, a, c).tables;
            p in u.pockets && u.pockets[p].amount == t.pockets[p].amount - Taken(t, a, c, p)
  {
    hide PocketTarget, FileTarget, TransferFailed, Ascii;
  }

  lemma CommandTakes(s: Sys, a: Address, cs: seq<C.Command>, rs: seq<R.Result>, v: bool, p: nat)
    requires Serials(s.db) && p in s.db.pockets && |rs| < |cs|
    ensures var u := CommandStep(s, a, cs, rs, v);
            p in u.db.pockets && u.db.pockets[p].amount == s.db.pockets[p].amount - Taken(s.db, a, cs[|rs|], p)
  {
    hide Act, Check, Fatal, PocketTransfer;
    ActTakes(s.db, a, cs[|rs|], p);
  }

  lemma HandshakeTakes(s: Sys, p: nat)
    requires Serials(s.db) && p in s.db.pockets && !s.io.Running?
    ensures var u := IoNext(s); p in u.db.pockets && u.db.pockets[p].amount == s.db.pockets[p].amount
  {
    hide PocketTarget, Ascii, CommandStep, Opened, Accepted;
  }

  /** Between snapshot and charge a balance changes by transfers alone. */
  lemma StepTakes(s: Sys, e: Event, p: nat)
    requires Serials(s.db) && p in s.db.pockets
    requires e.FeeApply? ==> s.bill.None? || s.io.Stopped?
    ensures var u := Step(s, e);
            p in u.db.pockets && u.db.pockets[p].amount == s.db.pockets[p].amount - Leaving(s, e, p)
  {
    hide CommandStep, Taken, FetchFees, Opened, Accepted, ApplyFees;
    if e.IoStep? {
      if s.io.Running? {
        if |s.io.results| < |s.io.cmds| {
          CommandTakes(s, s.io.addr, s.io.cmds, s.io.results, s.io.verified, p);
        }
      } else {
        HandshakeTakes(s, p);
      }
    }
  }

  /** For each pocket about to be charged, what it holds beyond its fee is the margin less the outflow. */
  ghost predicate Tracks(s: Sys, es: seq<Event>) {
    var u := Run(s, es);
    u.bill.Some? ==>
      forall p :: Chargeable(u.bill.value, p) ==>
        && p in u.db.pockets
        && u.db.pockets[p].amount - u.bill.value[p].fee == Margin(s, es, p) - Outflow(s, es, p)
  }

  lemma SnapshotTracks(s: Sys, es: seq<Event>)
    requires es != [] && Snapshots(Run(s, es[..|es| - 1]), es[|es| - 1]) && ForeignKeys(Run(s, es[..|es| - 1]).db)
    ensures Tracks(s, es)
  {
    hide TotalFees;
  }

  lemma BillOnlyFromSnapshot(s: Sys, e: Event)
    ensures var u := Step(s, e);
            u.bill.Some? && !Snapshots(s, e) ==> u.bill == s.bill && (e.FeeApply? ==> s.io.Stopped?)
  {
    hide FetchFees, ApplyFees;
    BillKept(s);
  }

  lemma {:induction false} AlwaysTracks(s: Sys, es: seq<Event>)
    requires Start(s)
    ensures Tracks(s, es)
    decreases es
  {
    if es != [] {
      var init, e := es[..|es| - 1], es[|es| - 1];
      var u := Run(s, init);
      AlwaysTracks(s, init);
      RunKeeps(s, init);
      KeysAndSerials(u);
      if Snapshots(u, e) {
        SnapshotTracks(s, es);
      } else {
        hide Step, Inv, Leaving, Snapshots;
        BillOnlyFromSnapshot(u, e);
        if Step(u, e).bill.Some? {
          forall p | Chargeable(u.bill.value, p)
            ensures p in Step(u, e).db.pockets
            ensures Step(u, e).db.pockets[p].amount - u.bill.value[p].fee == Margin(s, es, p) - Outflow(s, es, p)
          {
            StepTakes(u, e, p);
          }
        }
      }
    }
  }

  lemma KeysAndSerials(s: Sys)
    requires Inv(s)
    ensures ForeignKeys(s.db) && Serials(s.db)
  {
  }

  // ---------- the exact condition ----------

  /** Each charge finds that no pocket on its bill has lost more, on the whole, than its balance at
      the snapshot exceeded its fee. */
  ghost predicate WithinMargins(s: Sys, es: seq<Event>) {
    es == [] ||
    (var init, e := es[..|es| - 1], es[|es| - 1];
     var u := Run(s, init);
     && WithinMargins(s, init)
     && (e.FeeApply? && u.bill.Some? && !u.io.Stopped? ==>
           forall p :: Chargeable(u.bill.value, p) ==> Outflow(s, init, p) <= Margin(s, init, p)))
  }

  /** For every run: no balance is ever negative exactly when, between each snapshot and its charge,
      the net outflow from every charged pocket stays within its balance there minus the fee. */
  lemma {:induction false} NeverNegativeIffWithinMargins(s: Sys, es: seq<Event>)
    requires Start(s) && NonNegative(s.db)
    ensures NeverNegative(s, es) <==> WithinMargins(s, es)
    decreases es
  {
    NeverNegativeIff(s, es);
    if es != [] {
      hide NeverNegative, Start, NonNegative, Run, Margin, Outflow;
      var init := es[..|es| - 1];
      NeverNegativeIff(s, init);
      NeverNegativeIffWithinMargins(s, init);
      AlwaysTracks(s, init);
    }
  }
}
