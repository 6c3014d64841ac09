/** Every request comes to an end. */
module Progress {
  import opened Bytes
  import opened Ledger
  import opened Service
  import opened Machine
  import C = Commands
  import F = Framing

  predicate Ended(io: Io) {
    Free(io) || io.Stopped?
  }

  /** At most how many more transactions a batch, and a connection, take from here. */
  function BatchLeft(data: seq<byte>): nat {
    match C.DecodeBatch(data)
    case Failed(_) => 1
    case Got(cs, _) => 2 * |cs| + 2
  }

  function Left(io: Io): nat {
    match io
    case Reading(stream, _) =>
      (match F.DecodePacket(stream)
       case Got(Handshake(_), _) => 5
       case Got(CommandBatch(_, data, _), _) => BatchLeft(data) + 1
       case _ => 1)
    case HsCheck(_, _) => 4
    case HsPocket(_, _) => 3
    case HsAgent(_, _, _) => 2
    case HsOwner(_, _) => 1
    case Auth(_, data) => BatchLeft(data)
    case Running(_, cs, rs, v) => if |rs| <= |cs| then 2 * (|cs| - |rs|) + if v then 0 else 1 else 0
    case _ => 0
  }

  /** A batch of n commands is over within 2n + 2 transactions, so within 512; a connection within 513. */
  lemma LeftBounded(io: Io)
    ensures io.Reading? ==> Left(io) <= 513
    ensures io.Auth? ==> Left(io) <= 512
  {
    hide C.DecodeBatch, F.DecodePacket;
    if io.Auth? {
      BatchLeftBounded(io.data);
    } else if io.Reading? {
      match F.DecodePacket(io.stream)
      case Got(CommandBatch(_, data, _), _) => BatchLeftBounded(data);
      case _ =>
    }
  }

  lemma BatchLeftBounded(data: seq<byte>)
    ensures BatchLeft(data) <= 512
  {
    hide C.DecodeBatch;
    match C.DecodeBatch(data)
    case Failed(_) =>
    case Got(cs, rest) => C.DecodeBatchIff(data, cs, rest);
  }

  lemma CommandProgress(s: Sys)
    requires Inv(s) && s.io.Running? && |s.io.results| < |s.io.cmds|
    ensures var u := CommandStep(s, s.io.addr, s.io.cmds, s.io.results, s.io.verified);
            Left(u.io) < Left(s.io)
  {
    hide Act, Check, Fatal, Consistent, OwnersSet;
  }

  /** A transaction of the io thread brings the request closer to its end; nothing else touches it. */
  lemma StepProgress(s: Sys, e: Event)
    requires Inv(s) && !Ended(s.io)
    ensures e.IoStep? ==> Left(Step(s, e).io) < Left(s.io)
    ensures !e.IoStep? ==> Step(s, e).io == s.io
  {
    hide CommandStep, C.DecodeBatch, F.DecodePacket, InsertPocket, InsertAgent, UpdatePocketOwner, ApplyFees, FetchFees,
      Consistent, OwnersSet;
    if e.IoStep? && s.io.Running? && |s.io.results| < |s.io.cmds| {
      CommandProgress(s);
    }
  }

  function IoSteps(es: seq<Event>): nat {
    if es == [] then 0 else IoSteps(es[..|es| - 1]) + if es[|es| - 1].IoStep? then 1 else 0
  }

  ghost predicate EndsWithin(s: Sys, es: seq<Event>) {
    Ended(Run(s, es).io) || (es != [] && EndsWithin(s, es[..|es| - 1]))
  }

  lemma {:induction false} Approaches(s: Sys, es: seq<Event>)
    requires Inv(s)
    ensures EndsWithin(s, es) || Left(Run(s, es).io) + IoSteps(es) <= Left(s.io)
    decreases es
  {
    if es != [] {
      hide Inv, Step, Left, Ended;
      var init := es[..|es| - 1];
      Approaches(s, init);
      RunKeepsFrom(s, init);
      if !EndsWithin(s, init) {
        StepProgress(Run(s, init), es[|es| - 1]);
      }
    }
  }

  /** From any point of a request on, whatever else happens in between, `Left` transactions of the io
      thread are enough to end it: with a response, or with the server stopped. */
  lemma RequestEnds(s: Sys, es: seq<Event>)
    requires Inv(s) && IoSteps(es) >= Left(s.io)
    ensures EndsWithin(s, es)
  {
    Approaches(s, es);
    if !EndsWithin(s, es) {
      RunKeepsFrom(s, es);
      StepProgress(Run(s, es), IoStep);
    }
  }
}
