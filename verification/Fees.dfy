/** One upkeep pass as a whole (util/database.cpp `chargeFileUpkeepFees`). */
module Fees {
  import opened Bytes
  import opened Sums
  import opened Ledger

  /** Snapshot and charge with nothing in between. */
  function AtomicPass(t: Tables, perFile: nat, perByte: nat): Tables {
    ApplyFees(t, FetchFees(t, perFile, perByte))
  }

  /** What keeping one file costs. */
  function FileCost(f: File, perFile: nat, perByte: nat): nat {
    perFile + |FileData(f)| * perByte
  }

  /** The cost of file `i` if pocket `p` pays for it. */
  ghost function Share(t: Tables, p: nat, perFile: nat, perByte: nat): nat -> int {
    (i: nat) => if i in t.files && t.files[i].pocket == p then FileCost(t.files[i], perFile, perByte) else 0
  }

  lemma Distribute(a: nat, b: nat, c: nat, x: nat, y: nat)
    ensures (a + 1) * x + (b + c) * y == a * x + b * y + (x + c * y)
  {
  }

  lemma {:induction false} GroupIsSum(t: Tables, p: nat, perFile: nat, perByte: nat, n: nat)
    ensures Count(t.files, p, n) * perFile + Octets(t.files, p, n) * perByte == Sum(Share(t, p, perFile, perByte), n)
  {
    if n > 0 {
      GroupIsSum(t, p, perFile, perByte, n - 1);
      if n - 1 in t.files && t.files[n - 1].pocket == p {
        Distribute(Count(t.files, p, n - 1), Octets(t.files, p, n - 1), |FileData(t.files[n - 1])|, perFile, perByte);
      }
    }
  }

  /** A row of the grouped query is the sum of the costs of the pocket's files. */
  lemma TotalIsSum(t: Tables, p: nat, perFile: nat, perByte: nat)
    ensures TotalFees(t, p, perFile, perByte) == Sum(Share(t, p, perFile, perByte), t.nextFile)
  {
    GroupIsSum(t, p, perFile, perByte, t.nextFile);
  }

  /** What pocket `p` owes for its files. */
  ghost function Cost(t: Tables, p: nat, perFile: nat, perByte: nat): int {
    Sum(Share(t, p, perFile, perByte), t.nextFile)
  }

  ghost predicate Pays(t: Tables, p: nat) {
    exists f :: f in t.files && t.files[f].pocket == p
  }

  /** What a pass makes of pocket `p`: without files it is left alone; if it can pay for its files
      it pays exactly their cost, once; if it cannot it keeps its balance. */
  ghost predicate PocketCharged(t: Tables, u: Tables, p: nat, cost: int)
    requires p in t.pockets && p in u.pockets
  {
    u.pockets[p] ==
    t.pockets[p].(amount := t.pockets[p].amount - (if Pays(t, p) && cost <= t.pockets[p].amount then cost else 0))
  }

  lemma PocketOutcome(t: Tables, perFile: nat, perByte: nat, p: nat)
    requires p in t.pockets
    ensures var u := AtomicPass(t, perFile, perByte);
            && p in u.pockets && PocketCharged(t, u, p, Cost(t, p, perFile, perByte))
            && (t.pockets[p].amount >= 0 ==> u.pockets[p].amount >= 0)
  {
    TotalIsSum(t, p, perFile, perByte);
    assert Pays(t, p) <==> p in Payers(t);
  }

  lemma FileOutcome(t: Tables, perFile: nat, perByte: nat, f: nat)
    requires f in t.files && t.files[f].pocket in t.pockets
    ensures var u, p := AtomicPass(t, perFile, perByte), t.files[f].pocket;
            f in u.files <==> Cost(t, p, perFile, perByte) <= t.pockets[p].amount
  {
    TotalIsSum(t, t.files[f].pocket, perFile, perByte);
    assert t.files[f].pocket in Payers(t);
  }

  /** One atomic pass splits the pockets: each that has files either pays exactly their cost, once,
      and keeps every one of them, or keeps its balance and loses them all. Nothing else changes,
      and no balance that was not negative becomes so. */
  lemma AtomicPassSplits(t: Tables, perFile: nat, perByte: nat)
    requires Consistent(t)
    ensures var u := AtomicPass(t, perFile, perByte);
            && u == t.(pockets := u.pockets, files := u.files) && u.pockets.Keys == t.pockets.Keys
            && (forall p :: p in t.pockets ==> PocketCharged(t, u, p, Cost(t, p, perFile, perByte)))
            && (forall p :: p in t.pockets && t.pockets[p].amount >= 0 ==> u.pockets[p].amount >= 0)
            && (forall f :: f in t.files ==>
                  var p := t.files[f].pocket;
                  f in u.files <==> Cost(t, p, perFile, perByte) <= t.pockets[p].amount)
            && (forall f :: f in u.files ==> f in t.files && u.files[f] == t.files[f])
  {
    hide FetchFees, Cost, PocketCharged;
    var u := AtomicPass(t, perFile, perByte);
    forall p | p in t.pockets
      ensures PocketCharged(t, u, p, Cost(t, p, perFile, perByte))
      ensures t.pockets[p].amount >= 0 ==> u.pockets[p].amount >= 0
    {
      PocketOutcome(t, perFile, perByte, p);
    }
    forall f | f in t.files
      ensures f in u.files <==> Cost(t, t.files[f].pocket, perFile, perByte) <= t.pockets[t.files[f].pocket].amount
    {
      FileOutcome(t, perFile, perByte, f);
    }
  }

  // ---------- what was debited is what was kept ----------

  ghost function Debit(t: Tables, u: Tables): nat -> int {
    (p: nat) => Balance(t, p) - Balance(u, p)
  }

  ghost function Kept(u: Tables, perFile: nat, perByte: nat): nat -> int {
    (i: nat) => if i in u.files then FileCost(u.files[i], perFile, perByte) else 0
  }

  /** The costs of the surviving files of pocket `p`. */
  ghost function KeptBy(u: Tables, perFile: nat, perByte: nat, n: nat): nat -> int {
    (p: nat) => Sum(Share(u, p, perFile, perByte), n)
  }

  /** Adding up by pocket and then over pockets is adding up over files. */
  lemma {:induction false} GroupBy(u: Tables, perFile: nat, perByte: nat, n: nat, pockets: nat)
    requires forall f :: f in u.files ==> u.files[f].pocket < pockets
    ensures Sum(KeptBy(u, perFile, perByte, n), pockets) == Sum(Kept(u, perFile, perByte), n)
  {
    if n == 0 {
      SumZero(KeptBy(u, perFile, perByte, 0), pockets);
    } else {
      GroupBy(u, perFile, perByte, n - 1, pockets);
      var was, now := KeptBy(u, perFile, perByte, n - 1), KeptBy(u, perFile, perByte, n);
      if n - 1 in u.files {
        var f := u.files[n - 1];
        SumPoint(was, now, f.pocket, FileCost(f, perFile, perByte), pockets);
      } else {
        SumSame(was, now, pockets);
      }
    }
  }

  /** In one atomic pass the total debited from all pockets is the total cost of the files that survive it. */
  lemma DebitIsKeptCost(t: Tables, perFile: nat, perByte: nat)
    requires Consistent(t)
    ensures var u := AtomicPass(t, perFile, perByte);
            Sum(Debit(t, u), t.nextPocket) == Sum(Kept(u, perFile, perByte), t.nextFile)
  {
    var u := AtomicPass(t, perFile, perByte);
    var debit, kept := Debit(t, u), KeptBy(u, perFile, perByte, t.nextFile);
    forall p: nat | p < t.nextPocket ensures debit(p) == kept(p) {
      DebitOfPocket(t, perFile, perByte, p);
    }
    SumSame(debit, kept, t.nextPocket);
    GroupBy(u, perFile, perByte, t.nextFile, t.nextPocket);
  }

  lemma PassKeeps(t: Tables, perFile: nat, perByte: nat)
    ensures var u := AtomicPass(t, perFile, perByte);
            && u.nextFile == t.nextFile && u.pockets.Keys == t.pockets.Keys
            && forall f :: f in u.files ==> f in t.files && u.files[f] == t.files[f]
  {
    hide FetchFees;
  }

  lemma DebitOfPocket(t: Tables, perFile: nat, perByte: nat, p: nat)
    requires ForeignKeys(t)
    ensures var u := AtomicPass(t, perFile, perByte);
            Balance(t, p) - Balance(u, p) == Cost(u, p, perFile, perByte)
  {
    hide AtomicPass, Pays;
    PassKeeps(t, perFile, perByte);
    var u := AtomicPass(t, perFile, perByte);
    var was, now := Share(t, p, perFile, perByte), Share(u, p, perFile, perByte);
    forall f | f in t.files && t.files[f].pocket == p
      ensures f in u.files <==> Cost(t, p, perFile, perByte) <= t.pockets[p].amount
    {
      FileOutcome(t, perFile, perByte, f);
    }
    if p in t.pockets { PocketOutcome(t, perFile, perByte, p); }
    if p in t.pockets && Cost(t, p, perFile, perByte) <= t.pockets[p].amount {
      SumSame(was, now, t.nextFile);
      if !Pays(t, p) { NothingOwed(t, p, perFile, perByte); }
    } else {
      SumZero(now, t.nextFile);
    }
  }

  lemma NothingOwed(t: Tables, p: nat, perFile: nat, perByte: nat)
    requires !Pays(t, p)
    ensures Cost(t, p, perFile, perByte) == 0
  {
    SumZero(Share(t, p, perFile, perByte), t.nextFile);
  }
}
