/** With no fee transaction in between, the io thread's transactions add up to the batch loop. */
module Serial {
  import opened Bytes
  import opened Ledger
  import opened Service
  import opened Machine
  import opened Fees
  import Server
  import C = Commands
  import R = Results

  /** `n` transactions of the io thread. */
  function Alone(n: nat): seq<Event> {
    seq(n, _ => IoStep)
  }

  lemma {:induction false} RunJoin(s: Sys, es: seq<Event>, fs: seq<Event>)
    ensures Run(s, es + fs) == Run(Run(s, es), fs)
    decreases fs
  {
    if fs == [] {
      assert es + fs == es;
    } else {
      RunJoin(s, es, fs[..|fs| - 1]);
      assert (es + fs)[..|es + fs| - 1] == es + fs[..|fs| - 1];
    }
  }

  lemma AloneAfter(s: Sys, m: nat, n: nat)
    ensures Run(s, Alone(m + n)) == Run(Run(s, Alone(m)), Alone(n))
  {
    assert Alone(m + n) == Alone(m) + Alone(n);
    RunJoin(s, Alone(m), Alone(n));
  }

  lemma OneAlone(s: Sys)
    ensures Run(s, Alone(1)) == IoNext(s)
  {
    assert Alone(1)[..0] == [];
    assert Run(s, []) == s;
  }

  /** What one handler call makes of the server. */
  function Served(s: Sys, a: Address, cs: seq<C.Command>, rs: seq<R.Result>): Sys
    requires |rs| < |cs|
  {
    var x := Handle(s.db, a, cs[|rs|]);
    match x.result
    case None => s.(db := x.tables, io := Stopped(x.why))
    case Some(r) => Finish(s.(db := x.tables), a, cs, r, rs)
  }

  /** A command is one transaction, or a passed check and a second one. */
  lemma CommandAlone(s: Sys, a: Address, cs: seq<C.Command>, rs: seq<R.Result>)
    requires s.io == Running(a, cs, rs, false) && |rs| < |cs|
    ensures IoNext(s) == Served(s, a, cs, rs) || IoNext(IoNext(s)) == Served(s, a, cs, rs)
  {
    hide Act, Check, Fatal, ErrorResult;
    assert s.(db := s.db) == s;
  }

  /** Where a batch loop leaves the server. */
  function Done(s: Sys, a: Address, cs: seq<C.Command>, b: BatchRun): Sys {
    s.(db := b.tables, io := match b.escaped case None => Finished(a, cs, b.results) case Some(w) => Stopped(w))
  }

  /** One round of the batch loop. */
  lemma ServedRound(s: Sys, a: Address, cs: seq<C.Command>, rs: seq<R.Result>)
    requires s.io == Running(a, cs, rs, false) && |rs| < |cs|
    ensures var u, end := Served(s, a, cs, rs), Done(s, a, cs, RunLoop(Handler(a), s.db, cs, rs));
            if u.io.Running? then
              && u.io == Running(a, cs, u.io.results, false) && |u.io.results| == |rs| + 1
              && end == Done(u, a, cs, RunLoop(Handler(a), u.db, cs, u.io.results))
            else u == end
  {
    hide Handle, Fatal;
    var x := Handler(a)(s.db, cs[|rs|]);
    assert x == Handle(s.db, a, cs[|rs|]);
  }

  lemma {:induction false} LoopAlone(s: Sys, a: Address, cs: seq<C.Command>, rs: seq<R.Result>) returns (n: nat)
    requires s.io == Running(a, cs, rs, false) && |rs| <= |cs|
    ensures Run(s, Alone(n)) == Done(s, a, cs, RunLoop(Handler(a), s.db, cs, rs))
    decreases |cs| - |rs|
  {
    OneAlone(s);
    if |rs| == |cs| {
      n := 1;
    } else {
      hide IoNext, Served, RunLoop, Done, Run;
      OneAlone(IoNext(s));
      AloneAfter(s, 1, 1);
      CommandAlone(s, a, cs, rs);
      ServedRound(s, a, cs, rs);
      n := if IoNext(s) == Served(s, a, cs, rs) then 1 else 2;
      var u := Run(s, Alone(n));
      if u.io.Running? {
        var k := LoopAlone(u, a, cs, u.io.results);
        AloneAfter(s, n, k);
        n := n + k;
      }
    }
  }

  /** Where a whole request leaves the server. */
  function Answered(s: Sys, a: Address, data: seq<byte>): Sys {
    var b := Server.Serve(s.db, a, data);
    match b.escaped
    case Some(w) => s.(db := b.tables, io := Stopped(w))
    case None => s.(db := b.tables, io := Finished(a, C.DecodeBatch(data).value, b.results))
  }

  /** A request that no fee transaction disturbs ends, whatever agent it names and whatever bytes it
      carries, with the tables and the results of the serial loop and nothing else changed. */
  lemma BatchAlone(s: Sys, a: Address, data: seq<byte>)
    requires s.io == Auth(a, data)
    ensures exists n :: Run(s, Alone(n)) == Answered(s, a, data)
  {
    hide RunLoop, Run, C.DecodeBatch;
    OneAlone(s);
    assert s.(db := s.db) == s;
    if a in s.db.agents && C.DecodeBatch(data).Got? {
      var k := LoopAlone(IoNext(s), a, C.DecodeBatch(data).value, []);
      AloneAfter(s, 1, k);
    }
  }

  /** So does a handshake: check, pocket, agent, owner. */
  lemma HandshakeAlone(s: Sys, a: Address, key: seq<byte>)
    requires s.io == HsCheck(a, key)
    ensures var x := Server.Greet(s.db, a, key);
            Run(s, Alone(4)) ==
            s.(db := x.tables,
               io := match x.out
                     case Ok(h) => HsDone(a, h.isNewAgent, h.defaultPocketID)
                     case Throw(_) => Stopped(Uncaught)
                     case Escapes(w) => Stopped(w))
  {
    hide InsertPocket, InsertAgent, UpdatePocketOwner, CommandStep, Accepted, Opened, Run;
    var u := IoNext(s);
    var v := IoNext(u);
    var w := IoNext(v);
    OneAlone(s);
    OneAlone(u);
    OneAlone(v);
    OneAlone(w);
    AloneAfter(s, 1, 1);
    AloneAfter(s, 2, 1);
    AloneAfter(s, 3, 1);
  }

  /** And a pass of the fee thread that nothing disturbs. */
  lemma PassAlone(s: Sys, perFile: nat, perByte: nat)
    requires s.bill.None? && !s.io.Stopped?
    ensures var u := Step(Step(s, FeeSnapshot(perFile, perByte)), FeeApply);
            u.db == AtomicPass(s.db, perFile, perByte) && u.io == s.io && u.bill.None?
  {
    hide FetchFees, ApplyFees;
  }

  // ---------- commands are atomic ----------

  /** The server as if every command were one transaction. */
  function AtomicStep(s: Sys, e: Event): Sys {
    if e.IoStep? && s.io.Running? && |s.io.results| < |s.io.cmds| then Served(s, s.io.addr, s.io.cmds, s.io.results)
    else Step(s, e)
  }

  function AtomicRun(s: Sys, es: seq<Event>): Sys {
    if es == [] then s else AtomicStep(AtomicRun(s, es[..|es| - 1]), es[|es| - 1])
  }

  /** A state without the memory of a passed check. */
  function Whole(s: Sys): Sys {
    if s.io.Running? then s.(io := s.io.(verified := false)) else s
  }

  /** Whatever the fee thread did since a command's check, making the check again right before the
      write would have given the same answer and the same tables. */
  lemma CheckAgain(t: Tables, a: Address, c: C.Command)
    requires Serials(t) && TwoPhase(c) && StillOwned(t, a, c)
    ensures RunCommand(t, a, c) == Act(t, a, c)
  {
    hide PocketTarget, FileTarget, Ascii;
  }

  lemma CommandAtomic(s: Sys, a: Address, cs: seq<C.Command>, rs: seq<R.Result>, v: bool)
    requires s.io == Running(a, cs, rs, v) && |rs| < |cs| && Inv(s)
    ensures IoNext(s) == s.(io := Running(a, cs, rs, true)) || IoNext(s) == Served(Whole(s), a, cs, rs)
  {
    hide Act, Check, Fatal, ErrorResult, Consistent, OwnersSet, StillOwned;
    AgentsNamed(s.db);
    assert s.(db := s.db) == s;
    if v {
      CheckAgain(s.db, a, cs[|rs|]);
    }
  }

  /** Each step of the server is a step of the atomic server, or none. */
  lemma StepRefines(s: Sys, e: Event)
    requires Inv(s)
    ensures Whole(Step(s, e)) == AtomicStep(Whole(s), e) || Whole(Step(s, e)) == Whole(s)
  {
    hide Inv, CommandStep, Served, ApplyFees, FetchFees;
    if s.io.Running? && |s.io.results| < |s.io.cmds| {
      var a, cs, rs := s.io.addr, s.io.cmds, s.io.results;
      CommandAtomic(s, a, cs, rs, s.io.verified);
      ServedIsWhole(Whole(s), a, cs, rs);
    }
  }

  lemma ServedIsWhole(s: Sys, a: Address, cs: seq<C.Command>, rs: seq<R.Result>)
    requires |rs| < |cs|
    ensures Whole(Served(s, a, cs, rs)) == Served(s, a, cs, rs)
  {
    hide Handle, Fatal;
  }

  /** The events that did more than pass a check. */
  ghost function Effective(s: Sys, es: seq<Event>): seq<Event> {
    if es == [] then [] else
      var init, e := es[..|es| - 1], es[|es| - 1];
      Effective(s, init) + if Whole(Run(s, es)) == Whole(Run(s, init)) then [] else [e]
  }

  /** In every interleaving, commands are atomic: leaving out the events that only passed a check,
      the atomic server goes through the same tables and the same results. */
  lemma {:induction false} RunRefines(s: Sys, es: seq<Event>)
    requires Start(s)
    ensures AtomicRun(s, Effective(s, es)) == Whole(Run(s, es))
    decreases es
  {
    hide Step, AtomicStep;
    if es != [] {
      var init, e := es[..|es| - 1], es[|es| - 1];
      RunRefines(s, init);
      RunKeeps(s, init);
      StepRefines(Run(s, init), e);
      var done := Effective(s, init);
      assert done + [] == done && (done + [e])[..|done + [e]| - 1] == done;
    }
  }
}
