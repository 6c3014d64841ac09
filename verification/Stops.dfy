/** What stops the server, over all runs. */
module Stops {
  import opened Bytes
  import opened Ledger
  import opened Service
  import opened Machine
  import opened Money
  import C = Commands
  import R = Results
  import F = Framing

  /** What stops the server at the io thread's next transaction, read off the state before it. */
  ghost function StopCause(s: Sys): Option<Escape> {
    match s.io
    case HsPocket(_, _) => if s.db.nextPocket > MAX_SERIAL then Some(SerialExhausted) else None
    case Reading(stream, _) =>
      (match F.DecodePacket(stream)
       case Failed(BadPacket) => Some(AssertionFailed)
       case Failed(_) => Some(Uncaught)
       case Got(NoPacket, _) => Some(NullPacket)
       case _ => None)
    case Auth(a, data) =>
      if a !in s.db.agents then Some(UnknownAgent) else if !C.BeginsWithBatch(data) then Some(Uncaught) else None
    case Running(a, cs, rs, v) =>
      if |rs| >= |cs| then None else
        (match cs[|rs|]
         case CreatePocket => if s.db.nextPocket > MAX_SERIAL then Some(SerialExhausted) else None
         case RequestPocketDepositAddress(p) => if !Storable(p) then Some(OutOfRange) else None
         case PocketTransfer(from, to, amount) =>
           if Unsendable(s.db, a, from, to, amount) then Some(OutOfRange)
           else if Owned(s.db, a, from) && s.db.pockets[from].amount < 0 then Some(NegativeBalance)
           else None
         case CreateFile(_, p) =>
           if !Storable(p) then Some(OutOfRange)
           else if v && s.db.nextFile > MAX_SERIAL then Some(SerialExhausted)
           else None
         case UpdateFileByID(f, _) => if !Storable(f) then Some(OutOfRange) else None
         case ReadFileByID(f) => if !Storable(f) then Some(OutOfRange) else None)
    case _ => None
  }

  lemma CommandStops(s: Sys, total: int, w: Escape)
    requires Inv(s) && Funded(s, total) && total <= BIGINT_MAX
    requires s.io.Running? && |s.io.results| < |s.io.cmds|
    ensures var u := CommandStep(s, s.io.addr, s.io.cmds, s.io.results, s.io.verified);
            u.io == Stopped(w) <==> StopCause(s) == Some(w)
  {
    hide Funded, Act, Check, Fatal, Consistent, OwnersSet;
    var a, c := s.io.addr, s.io.cmds[|s.io.results|];
    Settled(s.db, s.io);
    AgentsNamed(s.db);
    assert c.Valid() && AllOwned(s.db);
    if TwoPhase(c) && !s.io.verified {
      CheckGrants(s.db, a, c);
    } else if c.PocketTransfer? {
      TransferEscapes(s, total, a, c.fromPocketID, c.toPocketID, c.amount);
    } else {
      NoCheckNeeded(s.db, a, c);
      ActEscapes(s.db, a, c);
    }
  }

  lemma TransferEscapes(s: Sys, total: int, a: Address, from: nat, to: nat, amount: nat)
    requires Serials(s.db) && Funded(s, total) && total <= BIGINT_MAX && AllOwned(s.db)
    ensures var c := C.PocketTransfer(from, to, amount);
            var out := Act(s.db, a, c).out;
            && (out == Escapes(OutOfRange) <==> Unsendable(s.db, a, from, to, amount))
            && (out == Escapes(NegativeBalance)
                <==> !Unsendable(s.db, a, from, to, amount) && Owned(s.db, a, from) && s.db.pockets[from].amount < 0)
            && (out.Escapes? ==> out.why == OutOfRange || out.why == NegativeBalance)
  {
    hide Funded, PocketTarget, TransferFailed;
    CreditFits(s, total, a, from, to, amount);
  }

  /** What escapes from the work of the other commands, after their checks. */
  lemma ActEscapes(t: Tables, a: Address, c: C.Command)
    requires Consistent(t) && a in t.agents && !c.PocketTransfer? && StillOwned(t, a, c)
    ensures var out := Act(t, a, c).out;
            match c
            case CreatePocket =>
              (out.Escapes? <==> t.nextPocket > MAX_SERIAL) && (out.Escapes? ==> out.why == SerialExhausted)
            case CreateFile(_, p) =>
              && (out.Escapes? <==> t.nextFile > MAX_SERIAL) && (out.Escapes? ==> out.why == SerialExhausted)
              && Storable(p)
            case ReadFileByID(f) => (out.Escapes? <==> !Storable(f)) && (out.Escapes? ==> out.why == OutOfRange)
            case RequestPocketDepositAddress(p) => !out.Escapes? && Storable(p)
            case UpdateFileByID(f, _) => !out.Escapes? && Storable(f)
            case _ => true
  {
    hide PocketTarget, FileTarget, Ascii, OwnersAgree, UniqueNames, DataBounded;
  }

  /** In every run with no more than a bigint of money, whatever clients send, the io thread's next
      step stops the server exactly for these causes: bytes that are no packet, or no batch, a request
      of an unknown agent, a number its column cannot hold, a transfer from an own pocket that a pass
      has driven below zero, a spent sequence. No foreign key fails, no owner reads as NULL, no
      handshake meets an existing agent and no credit overflows. */
  lemma StopsIff(s: Sys, es: seq<Event>, total: int, w: Escape)
    requires Endowed(s, total) && total <= BIGINT_MAX
    ensures var u := Run(s, es); !u.io.Stopped? ==> (Step(u, IoStep).io == Stopped(w) <==> StopCause(u) == Some(w))
  {
    hide Funded, Consistent, OwnersSet, CommandStep, F.DecodePacket, C.DecodeBatch;
    RunFunded(s, es, total);
    var u := Run(s, es);
    if u.io.HsCheck? || u.io.HsPocket? || u.io.HsAgent? || u.io.HsOwner? {
      HandshakeEscapes(u);
      PocketStop(u);
    } else if u.io.Running? && |u.io.results| < |u.io.cmds| {
      CommandStops(u, total, w);
    } else if u.io.Auth? {
      C.DecodesIff(u.io.data);
    }
  }

  lemma PocketStop(s: Sys)
    ensures s.io.HsPocket? && s.db.nextPocket > MAX_SERIAL ==> IoNext(s).io == Stopped(SerialExhausted)
  {
  }
}
