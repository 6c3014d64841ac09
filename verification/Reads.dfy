/** What a file holds over time: in every run it reads as last written until it is written again or
    deleted for fees. */
module Reads {
  import opened Bytes
  import opened Ledger
  import opened Service
  import opened Machine
  import opened Serial
  import opened Effects
  import opened Access
  import C = Commands
  import R = Results

  /** The step may change file `f`: a command that updates it, or a bill that evicts its pocket. */
  predicate Touches(s: Sys, e: Event, f: nat) {
    || (e.IoStep? && s.io.Running? && |s.io.results| < |s.io.cmds|
        && var c := s.io.cmds[|s.io.results|]; c.UpdateFileByID? && c.updatedID == f)
    || (e.FeeApply? && s.bill.Some? && f in s.db.files && Evicted(s.bill.value, s.db.files[f].pocket))
  }

  ghost predicate Undisturbed(s: Sys, es: seq<Event>, f: nat) {
    es == [] || (Undisturbed(s, es[..|es| - 1], f) && !Touches(Run(s, es[..|es| - 1]), es[|es| - 1], f))
  }

  lemma StepLeaves(s: Sys, e: Event, f: nat)
    requires Inv(s) && f in s.db.files && !Touches(s, e, f)
    ensures var u := Step(s, e); f in u.db.files && u.db.files[f] == s.db.files[f]
  {
    hide Inv, Step;
    StepAccess(s, e);
  }

  lemma {:induction false} RunLeaves(s: Sys, es: seq<Event>, f: nat)
    requires Inv(s) && f in s.db.files && Undisturbed(s, es, f)
    ensures var u := Run(s, es); f in u.db.files && u.db.files[f] == s.db.files[f]
    decreases es
  {
    hide Inv, Step, Touches;
    if es != [] {
      var init := es[..|es| - 1];
      RunLeaves(s, init, f);
      RunKeepsFrom(s, init);
      StepLeaves(Run(s, init), es[|es| - 1], f);
    }
  }

  /** The io thread's next transaction answers command `c` of agent `a` with `r`. */
  ghost predicate Answers(s: Sys, a: Address, c: C.Command, r: R.Result) {
    && s.io.Running? && s.io.addr == a && |s.io.results| < |s.io.cmds| && s.io.cmds[|s.io.results|] == c
    && var u := IoNext(s); (u.io.Running? || u.io.Finished?) && u.io.results == s.io.results + [r]
  }

  /** It then leaves the tables as the whole command does, check included. */
  lemma AnswerIsHandled(s: Sys, a: Address, c: C.Command, r: R.Result)
    requires Inv(s) && Answers(s, a, c, r)
    ensures var x := Handle(s.db, a, c); x.result == Some(r) && IoNext(s).db == x.tables
  {
    hide Inv, IoNext, Handle;
    var cs, rs := s.io.cmds, s.io.results;
    CommandAtomic(s, a, cs, rs, s.io.verified);
    var u := IoNext(s);
    assert |u.io.results| == |rs| + 1;
    assert rs + [r] == u.io.results;
    if Handle(s.db, a, c).result.Some? {
      assert u.io.results == rs + [Handle(s.db, a, c).result.value];
      assert (rs + [r])[|rs|] == r;
    }
  }

  lemma Reached(s: Sys, before: seq<Event>, after: seq<Event>)
    requires Start(s)
    ensures var u := Run(s, before);
            Inv(u) && Inv(Step(u, IoStep)) && Run(s, before + [IoStep] + after) == Run(Step(u, IoStep), after)
  {
    hide Inv, Step, Start;
    RunKeeps(s, before);
    StepKeeps(Run(s, before), IoStep);
    RunJoin(s, before + [IoStep], after);
    assert (before + [IoStep])[..|before|] == before;
  }

  /** In every run: once an update of a file has been answered as done, every agent's read of it
      answers those bytes, until the next update of that file or a bill that evicts its pocket. */
  lemma UpdateStaysRead(s: Sys, before: seq<Event>, after: seq<Event>, a: Address, f: nat, data: seq<byte>, b: Address)
    requires Start(s) && Answers(Run(s, before), a, C.UpdateFileByID(f, data), R.FileUpdated(0))
    requires Undisturbed(Step(Run(s, before), IoStep), after, f)
    ensures Handle(Run(s, before + [IoStep] + after).db, b, C.ReadFileByID(f)).result == Some(R.FileRead(0, data))
  {
    hide Start, Run, Inv, IoNext, Answers, Handle, Undisturbed;
    Reached(s, before, after);
    var u := Run(s, before);
    AnswersInStep(u, a, C.UpdateFileByID(f, data), R.FileUpdated(0));
    AnswerIsHandled(u, a, C.UpdateFileByID(f, data), R.FileUpdated(0));
    UpdateFileAnswers(u.db, a, f, data, b, f);
    var v := Step(u, IoStep);
    StaysRead(v, after, b, f, data);
  }

  lemma AnswersInStep(s: Sys, a: Address, c: C.Command, r: R.Result)
    requires Answers(s, a, c, r)
    ensures Step(s, IoStep) == IoNext(s)
  {
    hide IoNext;
  }

  lemma StaysRead(s: Sys, es: seq<Event>, b: Address, f: nat, data: seq<byte>)
    requires Inv(s) && Handle(s.db, b, C.ReadFileByID(f)).result == Some(R.FileRead(0, data)) && Undisturbed(s, es, f)
    ensures Handle(Run(s, es).db, b, C.ReadFileByID(f)).result == Some(R.FileRead(0, data))
  {
    hide Inv, Run, Handle, Undisturbed;
    ReadFileAnswers(s.db, b, f);
    RunLeaves(s, es, f);
    ReadFileAnswers(Run(s, es).db, b, f);
  }

  /** In every run: once a file has been created, its id is that of a file of the agent with that name
      and that pocket, and reads as empty, until an update or an eviction. */
  lemma CreatedStaysThere(s: Sys, before: seq<Event>, after: seq<Event>, a: Address, name: seq<byte>, p: nat, id: nat,
                          b: Address)
    requires Start(s) && Answers(Run(s, before), a, C.CreateFile(name, p), R.FileCreated(0, id))
    requires Undisturbed(Step(Run(s, before), IoStep), after, id)
    ensures id !in Run(s, before).db.files
    ensures var t := Run(s, before + [IoStep] + after).db;
            && id in t.files && t.files[id].owner == a && t.files[id].name == name && t.files[id].pocket == p
            && Handle(t, b, C.ReadFileByID(id)).result == Some(R.FileRead(0, []))
  {
    hide Start, Run, Inv, IoNext, Answers, Handle, Undisturbed;
    Reached(s, before, after);
    var u := Run(s, before);
    AnswersInStep(u, a, C.CreateFile(name, p), R.FileCreated(0, id));
    AnswerIsHandled(u, a, C.CreateFile(name, p), R.FileCreated(0, id));
    AgentIsKnown(u, a, C.CreateFile(name, p), R.FileCreated(0, id));
    var v := Step(u, IoStep);
    CreatedIs(u.db, a, name, p, id);
    RunLeaves(v, after, id);
    ReadFileAnswers(Run(v, after).db, b, id);
  }

  lemma AgentIsKnown(s: Sys, a: Address, c: C.Command, r: R.Result)
    requires Inv(s) && Answers(s, a, c, r)
    ensures a in s.db.agents && a != [] && Serials(s.db)
  {
    hide IoNext;
  }

  lemma CreatedIs(t: Tables, a: Address, name: seq<byte>, p: nat, id: nat)
    requires Serials(t) && a in t.agents && a != []
    requires Handle(t, a, C.CreateFile(name, p)).result == Some(R.FileCreated(0, id))
    ensures FileIsNew(t, Handle(t, a, C.CreateFile(name, p)).tables, a, name, p, id)
    ensures Storable(id) && id !in t.files && id in Handle(t, a, C.CreateFile(name, p)).tables.files
    ensures var f := Handle(t, a, C.CreateFile(name, p)).tables.files[id];
            f.owner == a && f.name == name && f.pocket == p && f.data == None
  {
    hide Ascii, PocketTarget, VerifyPocketOwner;
    InsertFileReasons(t, a, name, p);
  }
}
