/** Results, errors and result batches (netvend/commands.cpp, second half). The bytes of a result do
    not say which command it answers: the reader takes that from the batch it sent. */
module Results {
  import opened Bytes
  import opened Pack
  import opened Wire
  import C = Commands

  datatype CommandError =
    | ServerLogic(text: seq<byte>)
    | InvalidTarget(target: seq<byte>)
    | TargetNotOwned(notOwned: seq<byte>)
    | CreditInsufficient(required: nat, available: nat)
    | CreditOverflow(pocketCredit: nat, addedCredit: nat)
  {
    function ErrorType(): nat {
      match this
      case ServerLogic(_) => 1
      case InvalidTarget(_) => 2
      case TargetNotOwned(_) => 3
      case CreditInsufficient(_, _) => 4
      case CreditOverflow(_, _) => 5
    }

    /** What the writer's types demand: amounts are 64-bit. */
    predicate Writable() {
      match this
      case CreditInsufficient(m, n) => m < 0x1_0000_0000_0000_0000 && n < 0x1_0000_0000_0000_0000
      case CreditOverflow(m, n) => m < 0x1_0000_0000_0000_0000 && n < 0x1_0000_0000_0000_0000
      case _ => true
    }

    /** A text is sent with its size in one byte. */
    function Sent(): CommandError {
      match this
      case ServerLogic(s) => ServerLogic(Cut(s, 0x100))
      case InvalidTarget(s) => InvalidTarget(Cut(s, 0x100))
      case TargetNotOwned(s) => TargetNotOwned(Cut(s, 0x100))
      case _ => this
    }

    /** Nothing is lost in sending. */
    predicate Valid() {
      && Writable()
      && match this
         case ServerLogic(s) => |s| < 0x100
         case InvalidTarget(s) => |s| < 0x100
         case TargetNotOwned(s) => |s| < 0x100
         case _ => true
    }
  }

  datatype Result =
    | PocketCreated(cost: nat, pocketID: nat)
    | DepositAddress(cost: nat, address: seq<byte>)
    | Transferred(cost: nat)
    | FileCreated(cost: nat, fileID: nat)
    | FileUpdated(cost: nat)
    | FileRead(cost: nat, data: seq<byte>)
    | Error(cost: nat, fatal: bool, error: CommandError)
  {
    function ErrorType(): nat {
      if Error? then error.ErrorType() else 0
    }

    /** What the writer's types and assertions demand of this result. */
    predicate Writable() {
      && cost < 0x1_0000_0000_0000_0000
      && match this
         case PocketCreated(_, p) => p < 0x1_0000_0000
         case FileCreated(_, f) => f < 0x1_0000_0000
         case Error(_, _, e) => e.Writable()
         case _ => true
    }

    /** What the reader is sent: an address field, a 16-bit data size, an error's text size in a byte. */
    function Sent(): Result {
      match this
      case DepositAddress(c, a) => DepositAddress(c, UpToNul(PadAddress(a)))
      case FileRead(c, data) => FileRead(c, Cut(data, 0x1_0000))
      case Error(c, fatal, e) => Error(c, fatal, e.Sent())
      case _ => this
    }

    /** Nothing is lost in sending. */
    predicate Valid() {
      && Writable()
      && match this
         case DepositAddress(_, a) => |a| <= MAX_ADDRESS_SIZE && 0 !in a
         case FileRead(_, data) => |data| < 0x1_0000
         case Error(_, _, e) => e.Valid()
         case _ => true
    }

    /** Whether this is a result of a command of that type; an error is one of any. */
    predicate Answers(typeChar: nat) {
      match this
      case PocketCreated(_, _) => typeChar == 0
      case DepositAddress(_, _) => typeChar == 1
      case Transferred(_) => typeChar == 2
      case FileCreated(_, _) => typeChar == 3
      case FileUpdated(_) => typeChar == 4
      case FileRead(_, _) => typeChar == 5
      case Error(_, _, _) => true
    }
  }

  // ---------- one result ----------

  function EncodeError(e: CommandError): seq<byte>
    requires e.Writable()
  {
    Formats();
    match e
    case ServerLogic(s) => PutCounted("C", Cut(s, 0x100))
    case InvalidTarget(s) => PutCounted("C", Cut(s, 0x100))
    case TargetNotOwned(s) => PutCounted("C", Cut(s, 0x100))
    case CreditInsufficient(m, n) => Put("QQ", [m, n])
    case CreditOverflow(m, n) => Put("QQ", [m, n])
  }

  function WithText(errorType: nat, s: seq<byte>): CommandError {
    if errorType == 1 then ServerLogic(s) else if errorType == 2 then InvalidTarget(s) else TargetNotOwned(s)
  }

  function WithAmounts(errorType: nat, m: nat, n: nat): CommandError {
    if errorType == 4 then CreditInsufficient(m, n) else CreditOverflow(m, n)
  }

  function DecodeError(errorType: nat, b: seq<byte>): Decoded<CommandError> {
    Formats();
    if 1 <= errorType <= 3 then
      match TakeCounted("C", b)
      case Failed(e) => Failed(e)
      case Got(s, rest) =>
        Got(WithText(errorType, s), rest)
    else if 4 <= errorType <= 5 then
      match Take("QQ", b)
      case Failed(e) => Failed(e)
      case Got(ns, rest) =>
        Got(WithAmounts(errorType, ns[0], ns[1]), rest)
    else Failed(UnknownError(errorType))
  }

  function EncodeBody(r: Result): seq<byte>
    requires r.Writable()
  {
    Formats();
    match r
    case PocketCreated(_, p) => Put("L", [p])
    case DepositAddress(_, a) => PadAddress(a)
    case Transferred(_) => []
    case FileCreated(_, f) => Put("L", [f])
    case FileUpdated(_) => []
    case FileRead(_, data) => PutCounted("H", Cut(data, 0x1_0000))
    case Error(_, fatal, e) => PutFlag(fatal) + EncodeError(e)
  }

  function DecodeBody(typeChar: nat, errorType: nat, cost: nat, b: seq<byte>): Decoded<Result> {
    Formats();
    if errorType != 0 then
      match TakeFlag(b)
      case Failed(e) => Failed(e)
      case Got(fatal, more) =>
        match DecodeError(errorType, more)
        case Failed(e) => Failed(e)
        case Got(e, rest) => Got(Error(cost, fatal, e), rest)
    else if typeChar == 0 then
      match Take("L", b)
      case Failed(e) => Failed(e)
      case Got(ns, rest) => Got(PocketCreated(cost, ns[0]), rest)
    else if typeChar == 1 then
      match TakeBlock(MAX_ADDRESS_SIZE, b)
      case Failed(e) => Failed(e)
      case Got(a, rest) => Got(DepositAddress(cost, UpToNul(a)), rest)
    else if typeChar == 2 then Got(Transferred(cost), b)
    else if typeChar == 3 then
      match Take("L", b)
      case Failed(e) => Failed(e)
      case Got(ns, rest) => Got(FileCreated(cost, ns[0]), rest)
    else if typeChar == 4 then Got(FileUpdated(cost), b)
    else if typeChar == 5 then
      match TakeCounted("H", b)
      case Failed(e) => Failed(e)
      case Got(data, rest) => Got(FileRead(cost, data), rest)
    else Failed(UnknownCommand(typeChar))
  }

  function Encode(r: Result): seq<byte>
    requires r.Writable()
  {
    Formats();
    Put("CQ", [r.ErrorType(), r.cost]) + EncodeBody(r)
  }

  function Decode(typeChar: nat, buf: seq<byte>): Decoded<Result> {
    Formats();
    match Take("CQ", buf)
    case Failed(e) => Failed(e)
    case Got(ns, b) => DecodeBody(typeChar, ns[0], ns[1], b)
  }

  lemma ErrorRoundTrip(e: CommandError, rest: seq<byte>)
    requires e.Writable()
    ensures DecodeError(e.ErrorType(), EncodeError(e) + rest) == Got(e.Sent(), rest)
    ensures e.Sent() == e <==> e.Valid()
  {
    hide Take, Put, TakeCounted, PutCounted;
    Formats();
    match e
    case ServerLogic(s) => TakeCountedIff("C", EncodeError(e) + rest, Cut(s, 0x100), rest);
    case InvalidTarget(s) => TakeCountedIff("C", EncodeError(e) + rest, Cut(s, 0x100), rest);
    case TargetNotOwned(s) => TakeCountedIff("C", EncodeError(e) + rest, Cut(s, 0x100), rest);
    case CreditInsufficient(m, n) => TakeIff("QQ", EncodeError(e) + rest, [m, n], rest);
    case CreditOverflow(m, n) => TakeIff("QQ", EncodeError(e) + rest, [m, n], rest);
  }

  lemma BodyRoundTrip(typeChar: nat, r: Result, rest: seq<byte>)
    requires r.Writable() && r.Answers(typeChar)
    ensures DecodeBody(typeChar, r.ErrorType(), r.cost, EncodeBody(r) + rest) == Got(r.Sent(), rest)
    ensures r.Sent() == r <==> r.Valid()
  {
    hide Take, Put, TakeCounted, PutCounted, EncodeError, DecodeError;
    Formats();
    var b := EncodeBody(r) + rest;
    match r
    case PocketCreated(_, p) => TakeIff("L", b, [p], rest);
    case DepositAddress(_, a) =>
      PadAddressIff(a);
      TakeBlockIff(MAX_ADDRESS_SIZE, b, PadAddress(a), rest);
    case FileCreated(_, f) => TakeIff("L", b, [f], rest);
    case FileRead(_, data) => TakeCountedIff("H", b, Cut(data, 0x1_0000), rest);
    case Error(_, fatal, e) =>
      ErrorRoundTrip(e, rest);
      Regroup(PutFlag(fatal), EncodeError(e), rest);
    case Transferred(_) => assert b == rest;
    case FileUpdated(_) => assert b == rest;
  }

  /** Read with the type of the command it answers, what was sent of a result comes back from any
      longer buffer: the result itself exactly when its texts, data and address fit their fields. */
  lemma RoundTrip(typeChar: nat, r: Result, rest: seq<byte>)
    requires r.Writable() && r.Answers(typeChar)
    ensures Decode(typeChar, Encode(r) + rest) == Got(r.Sent(), rest)
    ensures r.Sent() == r <==> r.Valid()
  {
    hide Take, Put, EncodeBody, DecodeBody;
    Formats();
    var head := Put("CQ", [r.ErrorType(), r.cost]);
    Regroup(head, EncodeBody(r), rest);
    TakeIff("CQ", Encode(r) + rest, [r.ErrorType(), r.cost], EncodeBody(r) + rest);
    BodyRoundTrip(typeChar, r, rest);
  }

  // ---------- what is read does not depend on what follows ----------

  lemma TakeMore(fmt: string, b: seq<byte>, x: seq<byte>)
    requires Unsigneds(fmt) && Take(fmt, b).Got?
    ensures Take(fmt, b + x) == Got(Take(fmt, b).value, Take(fmt, b).rest + x)
  {
    var t := Take(fmt, b);
    TakeIff(fmt, b, t.value, t.rest);
    Regroup(Put(fmt, t.value), t.rest, x);
    TakeIff(fmt, b + x, t.value, t.rest + x);
  }

  lemma TakeBlockMore(n: nat, b: seq<byte>, x: seq<byte>)
    requires TakeBlock(n, b).Got?
    ensures TakeBlock(n, b + x) == Got(TakeBlock(n, b).value, TakeBlock(n, b).rest + x)
  {
    assert (b + x)[..n] == b[..n] && (b + x)[n..] == b[n..] + x;
  }

  lemma TakeCountedMore(fmt: string, b: seq<byte>, x: seq<byte>)
    requires Unsigneds(fmt) && |fmt| == 1 && TakeCounted(fmt, b).Got?
    ensures TakeCounted(fmt, b + x) == Got(TakeCounted(fmt, b).value, TakeCounted(fmt, b).rest + x)
  {
    TakeMore(fmt, b, x);
    TakeBlockMore(Take(fmt, b).value[0], Take(fmt, b).rest, x);
  }

  lemma ErrorMore(errorType: nat, b: seq<byte>, x: seq<byte>)
    requires DecodeError(errorType, b).Got?
    ensures DecodeError(errorType, b + x) == Got(DecodeError(errorType, b).value, DecodeError(errorType, b).rest + x)
  {
    hide Take, TakeCounted;
    Formats();
    if errorType <= 3 { TakeCountedMore("C", b, x); } else { TakeMore("QQ", b, x); }
  }

  lemma BodyMore(t: nat, errorType: nat, cost: nat, b: seq<byte>, x: seq<byte>)
    requires DecodeBody(t, errorType, cost, b).Got?
    ensures var d := DecodeBody(t, errorType, cost, b);
            DecodeBody(t, errorType, cost, b + x) == Got(d.value, d.rest + x)
  {
    hide Take, TakeCounted, DecodeError, TakeBlock;
    Formats();
    if errorType != 0 {
      assert (b + x)[1..] == b[1..] + x;
      ErrorMore(errorType, b[1..], x);
    } else if t == 0 || t == 3 {
      TakeMore("L", b, x);
    } else if t == 1 {
      TakeBlockMore(MAX_ADDRESS_SIZE, b, x);
    } else if t == 5 {
      TakeCountedMore("H", b, x);
    }
  }

  lemma DecodeMore(t: nat, b: seq<byte>, x: seq<byte>)
    requires Decode(t, b).Got?
    ensures Decode(t, b + x) == Got(Decode(t, b).value, Decode(t, b).rest + x)
  {
    hide Take, DecodeBody;
    Formats();
    TakeMore("CQ", b, x);
    var h := Take("CQ", b);
    BodyMore(t, h.value[0], h.value[1], h.rest, x);
  }

  // ---------- result batches ----------

  const MAX_RESULTS := 255

  predicate ValidAll(rs: seq<Result>) {
    forall i :: 0 <= i < |rs| ==> rs[i].Valid()
  }

  predicate WritableAll(rs: seq<Result>) {
    forall i :: 0 <= i < |rs| ==> rs[i].Writable()
  }

  function SentAll(rs: seq<Result>): (sent: seq<Result>)
    ensures |sent| == |rs| && forall i :: 0 <= i < |rs| ==> sent[i] == rs[i].Sent()
  {
    seq(|rs|, i requires 0 <= i < |rs| => rs[i].Sent())
  }

  /** Result i answers command i; there may be fewer results than commands. */
  predicate AnswerAll(cs: seq<C.Command>, rs: seq<Result>) {
    |rs| <= |cs| && forall i :: 0 <= i < |rs| ==> rs[i].Answers(cs[i].TypeChar())
  }

  function EncodeAll(rs: seq<Result>): seq<byte>
    requires WritableAll(rs)
  {
    if rs == [] then [] else Encode(rs[0]) + EncodeAll(rs[1..])
  }

  function EncodeBatch(rs: seq<Result>): seq<byte>
    requires WritableAll(rs) && |rs| <= MAX_RESULTS
  {
    Formats();
    Put("C", [|rs|]) + EncodeAll(rs)
  }

  /** `n` results of the first `n` commands. */
  function DecodeMany(cs: seq<C.Command>, n: nat, buf: seq<byte>): Decoded<seq<Result>> {
    if n == 0 then Got([], buf)
    else if cs == [] then Failed(NoCommand)
    else
      match Decode(cs[0].TypeChar(), buf)
      case Failed(e) => Failed(e)
      case Got(r, more) =>
        match DecodeMany(cs[1..], n - 1, more)
        case Failed(e) => Failed(e)
        case Got(rs, rest) => Got([r] + rs, rest)
  }

  function DecodeBatch(cs: seq<C.Command>, buf: seq<byte>): Decoded<seq<Result>> {
    Formats();
    match Take("C", buf)
    case Failed(e) => Failed(e)
    case Got(ns, more) => DecodeMany(cs, ns[0], more)
  }

  lemma ManyRead(cs: seq<C.Command>, n: nat, buf: seq<byte>, r: Result, more: seq<byte>,
                 rs: seq<Result>, rest: seq<byte>)
    requires n > 0 && cs != [] && Decode(cs[0].TypeChar(), buf) == Got(r, more)
    requires DecodeMany(cs[1..], n - 1, more) == Got(rs, rest)
    ensures DecodeMany(cs, n, buf) == Got([r] + rs, rest)
  {
    hide Decode;
  }

  lemma FirstResult(cs: seq<C.Command>, rs: seq<Result>)
    requires WritableAll(rs) && AnswerAll(cs, rs) && rs != []
    ensures rs[0].Writable() && rs[0].Answers(cs[0].TypeChar()) && WritableAll(rs[1..]) && AnswerAll(cs[1..], rs[1..])
    ensures EncodeAll(rs) == Encode(rs[0]) + EncodeAll(rs[1..])
    ensures [rs[0].Sent()] + SentAll(rs[1..]) == SentAll(rs)
  {
    hide Encode, Result.Sent, Result.Writable, Result.Answers;
  }

  lemma {:induction false} ManyRoundTrip(cs: seq<C.Command>, rs: seq<Result>, rest: seq<byte>)
    requires WritableAll(rs) && AnswerAll(cs, rs)
    ensures DecodeMany(cs, |rs|, EncodeAll(rs) + rest) == Got(SentAll(rs), rest)
    decreases rs
  {
    if rs == [] {
      assert EncodeAll(rs) + rest == rest;
    } else {
      FirstResult(cs, rs);
      hide Decode, Encode, DecodeMany, EncodeAll, SentAll, WritableAll, AnswerAll;
      var r, tail := rs[0], rs[1..];
      Regroup(Encode(r), EncodeAll(tail), rest);
      RoundTrip(cs[0].TypeChar(), r, EncodeAll(tail) + rest);
      ManyRoundTrip(cs[1..], tail, rest);
      ManyRead(cs, |rs|, EncodeAll(rs) + rest, r.Sent(), EncodeAll(tail) + rest, SentAll(tail), rest);
    }
  }

  lemma SentIff(r: Result)
    ensures r.Writable() ==> (r.Sent() == r <==> r.Valid())
  {
    if r.DepositAddress? { PadAddressIff(r.address); }
  }

  lemma SentAllIff(rs: seq<Result>)
    requires WritableAll(rs)
    ensures SentAll(rs) == rs <==> ValidAll(rs)
  {
    forall i | 0 <= i < |rs| ensures rs[i].Sent() == rs[i] <==> rs[i].Valid() {
      SentIff(rs[i]);
    }
    if ValidAll(rs) { assert forall i :: 0 <= i < |rs| ==> SentAll(rs)[i] == rs[i]; }
  }

  /** The positional discipline is enough: of results that answer the commands of the batch in order,
      however few, the reader with that batch at hand gets what was sent: the results themselves
      exactly when each fits its fields. */
  lemma BatchRoundTrip(cs: seq<C.Command>, rs: seq<Result>, rest: seq<byte>)
    requires WritableAll(rs) && AnswerAll(cs, rs) && |rs| <= MAX_RESULTS
    ensures DecodeBatch(cs, EncodeBatch(rs) + rest) == Got(SentAll(rs), rest)
    ensures SentAll(rs) == rs <==> ValidAll(rs)
  {
    hide Take, Put;
    Formats();
    var more := EncodeAll(rs) + rest;
    TakeIff("C", EncodeBatch(rs) + rest, [|rs|], more);
    Regroup(Put("C", [|rs|]), EncodeAll(rs), rest);
    SentAllIff(rs);
    ManyRoundTrip(cs, rs, rest);
  }

  lemma {:induction false} ManyMore(cs: seq<C.Command>, n: nat, b: seq<byte>, x: seq<byte>)
    requires DecodeMany(cs, n, b).Got?
    ensures var d := DecodeMany(cs, n, b); DecodeMany(cs, n, b + x) == Got(d.value, d.rest + x)
    decreases n
  {
    hide Decode;
    if n > 0 {
      DecodeMore(cs[0].TypeChar(), b, x);
      ManyMore(cs[1..], n - 1, Decode(cs[0].TypeChar(), b).rest, x);
    }
  }

  /** No proper prefix of a batch's encoding decodes. */
  lemma BatchCutShort(cs: seq<C.Command>, rs: seq<Result>, b: seq<byte>)
    requires WritableAll(rs) && AnswerAll(cs, rs) && |rs| <= MAX_RESULTS
    requires b < EncodeBatch(rs)
    ensures DecodeBatch(cs, b).Failed?
  {
    hide Take, EncodeBatch, DecodeMany;
    Formats();
    var all := EncodeBatch(rs);
    var x := all[|b|..];
    assert all == b + x;
    BatchRoundTrip(cs, rs, []);
    assert all + [] == all;
    if DecodeBatch(cs, b).Got? {
      TakeMore("C", b, x);
      ManyMore(cs, Take("C", b).value[0], Take("C", b).rest, x);
    }
  }

  // ---------- the methods of the source ----------

  method WriteResult(r: Result, vch: Buffer)
    requires r.Writable()
    modifies vch
    ensures vch.bytes == old(vch.bytes) + Encode(r)
  {
    hide Put, InFields;
    Formats();
    ghost var was := vch.bytes;
    Append(vch, "CQ", [r.ErrorType(), r.cost]);
    Regroup(was, Put("CQ", [r.ErrorType(), r.cost]), EncodeBody(r));
    match r {
      case PocketCreated(_, p) => Append(vch, "L", [p]);
      case DepositAddress(_, a) => AppendPadded(vch, a);
      case Transferred(_) => assert vch.bytes + [] == vch.bytes;
      case FileCreated(_, f) => Append(vch, "L", [f]);
      case FileUpdated(_) => assert vch.bytes + [] == vch.bytes;
      case FileRead(_, data) => AppendCounted(vch, "H", data, 0x1_0000);
      case Error(_, fatal, e) => WriteErrorToVch(fatal, e, vch);
    }
  }

  /** The size, stored in a field for numbers below `m`, and that much of the block. */
  method AppendCounted(vch: Buffer, fmt: string, b: seq<byte>, m: nat)
    requires m > 0 && Unsigneds(fmt) && InFields(fmt, [|b| % m])
    modifies vch
    ensures vch.bytes == old(vch.bytes) + PutCounted(fmt, Cut(b, m))
  {
    hide Put, InFields;
    ghost var was := vch.bytes;
    var size := |b| % m;
    Append(vch, fmt, [size]);
    AppendBlock(vch, b[..size]);
    Regroup(was, Put(fmt, [size]), b[..size]);
  }

  method WriteErrorToVch(fatal: bool, e: CommandError, vch: Buffer)
    requires e.Writable()
    modifies vch
    ensures vch.bytes == old(vch.bytes) + (PutFlag(fatal) + EncodeError(e))
  {
    hide Put, InFields;
    Formats();
    ghost var was := vch.bytes;
    AppendFlag(vch, fatal);
    Regroup(was, PutFlag(fatal), EncodeError(e));
    match e {
      case ServerLogic(s) => AppendCounted(vch, "C", s, 0x100);
      case InvalidTarget(s) => AppendCounted(vch, "C", s, 0x100);
      case TargetNotOwned(s) => AppendCounted(vch, "C", s, 0x100);
      case CreditInsufficient(m, n) => Append(vch, "QQ", [m, n]);
      case CreditOverflow(m, n) => Append(vch, "QQ", [m, n]);
    }
  }

  method ConsumeCounted(ptr: Pointer, fmt: string) returns (b: Option<seq<byte>>)
    requires ptr.Valid() && Unsigneds(fmt) && |fmt| == 1
    modifies ptr
    ensures ptr.Valid()
    ensures TakeCounted(fmt, old(ptr.Left())).Failed? ==> TakeCounted(fmt, old(ptr.Left())).why == Truncated
    ensures Follows(TakeCounted(fmt, old(ptr.Left())), b, Truncated, ptr.Left())
  {
    hide Take;
    var ns := ptr.Read(fmt);
    if ns.None? { return None; }
    b := ptr.ReadBlock(ns.value[0]);
  }

  method ConsumeError(ptr: Pointer, errorType: nat) returns (e: Option<CommandError>, why: Failure)
    requires ptr.Valid()
    modifies ptr
    ensures ptr.Valid()
    ensures Follows(DecodeError(errorType, old(ptr.Left())), e, why, ptr.Left())
  {
    hide Take, TakeCounted;
    Formats();
    e, why := None, Truncated;
    if 1 <= errorType <= 3 {
      var s := ConsumeCounted(ptr, "C");
      if s.Some? {
        e := Some(WithText(errorType, s.value));
      }
    } else if 4 <= errorType <= 5 {
      var ns := ptr.Read("QQ");
      if ns.Some? {
        e := Some(WithAmounts(errorType, ns.value[0], ns.value[1]));
      }
    } else {
      why := UnknownError(errorType);
    }
  }

  method ConsumeBody(ptr: Pointer, typeChar: nat, errorType: nat, cost: nat) returns (r: Option<Result>, why: Failure)
    requires ptr.Valid()
    modifies ptr
    ensures ptr.Valid()
    ensures Follows(DecodeBody(typeChar, errorType, cost, old(ptr.Left())), r, why, ptr.Left())
  {
    hide Take, TakeCounted, DecodeError;
    Formats();
    r, why := None, Truncated;
    if errorType != 0 {
      var fatal := ptr.ReadFlag();
      if fatal.None? { return; }
      var e;
      e, why := ConsumeError(ptr, errorType);
      if e.Some? { r := Some(Error(cost, fatal.value, e.value)); }
    } else if typeChar == 0 {
      var ns := ptr.Read("L");
      if ns.Some? { r := Some(PocketCreated(cost, ns.value[0])); }
    } else if typeChar == 1 {
      var a := ptr.ReadBlock(MAX_ADDRESS_SIZE);
      if a.Some? { r := Some(DepositAddress(cost, UpToNul(a.value))); }
    } else if typeChar == 2 {
      r := Some(Transferred(cost));
    } else if typeChar == 3 {
      var ns := ptr.Read("L");
      if ns.Some? { r := Some(FileCreated(cost, ns.value[0])); }
    } else if typeChar == 4 {
      r := Some(FileUpdated(cost));
    } else if typeChar == 5 {
      var data := ConsumeCounted(ptr, "H");
      if data.Some? { r := Some(FileRead(cost, data.value)); }
    } else {
      why := UnknownCommand(typeChar);
    }
  }

  method ConsumeResult(ptr: Pointer, typeChar: nat) returns (r: Option<Result>, why: Failure)
    requires ptr.Valid()
    modifies ptr
    ensures ptr.Valid()
    ensures Follows(Decode(typeChar, old(ptr.Left())), r, why, ptr.Left())
  {
    hide Take, DecodeBody;
    Formats();
    var h := ptr.Read("CQ");
    if h.None? { return None, Truncated; }
    r, why := ConsumeBody(ptr, typeChar, h.value[0], h.value[1]);
  }

  /** `results::Batch`: the results so far of a batch of commands. */
  class ResultBatch {
    const commands: seq<C.Command>
    var results: seq<Result>

    constructor (commands: seq<C.Command>)
      ensures this.commands == commands && results == []
    {
      this.commands := commands;
      results := [];
    }

    method AddResult(r: Result)
      modifies this
      ensures results == old(results) + [r]
    {
      results := results + [r];
    }

    method WriteToVch(vch: Buffer)
      requires WritableAll(results) && |results| <= MAX_RESULTS
      modifies vch
      ensures vch.bytes == old(vch.bytes) + EncodeBatch(results)
    {
      hide Put, InFields, Encode;
      Formats();
      ghost var was := vch.bytes;
      Append(vch, "C", [|results|]);
      ghost var head := Put("C", [|results|]);
      for i := 0 to |results|
        invariant vch.bytes + EncodeAll(results[i..]) == was + (head + EncodeAll(results))
      {
        assert results[i..][1..] == results[i + 1..];
        Regroup(vch.bytes, Encode(results[i]), EncodeAll(results[i + 1..]));
        WriteResult(results[i], vch);
      }
      assert vch.bytes + [] == vch.bytes;
    }

    /** The client's side: result i is read with the type of command i. */
    method ConsumeFromBuf(ptr: Pointer) returns (ok: bool, why: Failure)
      requires ptr.Valid() && results == []
      modifies this, ptr
      ensures ptr.Valid()
      ensures match DecodeBatch(commands, old(ptr.Left()))
              case Failed(e) => !ok && why == e
              case Got(rs, rest) => ok && results == rs && ptr.Left() == rest
    {
      hide Take, Decode, DecodeMany, Prepended;
      Formats();
      var numCmds := ptr.Read("C");
      if numCmds.None? { return false, Truncated; }
      var n := numCmds.value[0];
      ghost var from := ptr.Left();
      why := Truncated;
      PrependedNothing(DecodeMany(commands, n, from));
      assert commands[0..] == commands;
      for i := 0 to n
        invariant ptr.Valid() && |results| == i <= |commands|
        invariant DecodeMany(commands, n, from) == Prepended(results, DecodeMany(commands[i..], n - i, ptr.Left()))
      {
        ManyStep(commands, results, i, n - i, ptr.Left());
        if i == |commands| { return false, NoCommand; }
        var r;
        r, why := ConsumeResult(ptr, commands[i].TypeChar());
        if r.None? { return false, why; }
        AddResult(r.value);
      }
      ManyDone(commands[n..], results, ptr.Left());
      ok := true;
    }
  }

  /** One round of the reading loop. */
  lemma ManyStep(cs: seq<C.Command>, a: seq<Result>, i: nat, k: nat, b: seq<byte>)
    requires i <= |cs| && k > 0
    ensures Prepended(a, DecodeMany(cs[i..], k, b))
            == if i == |cs| then Failed(NoCommand)
               else match Decode(cs[i].TypeChar(), b)
                    case Failed(e) => Failed(e)
                    case Got(r, more) => Prepended(a + [r], DecodeMany(cs[i + 1..], k - 1, more))
  {
    hide Decode;
    if i < |cs| {
      assert cs[i..][1..] == cs[i + 1..];
      match Decode(cs[i].TypeChar(), b)
      case Failed(_) =>
      case Got(r, more) => PrependedTwice(a, r, DecodeMany(cs[i + 1..], k - 1, more));
    }
  }

  lemma ManyDone(cs: seq<C.Command>, a: seq<Result>, b: seq<byte>)
    ensures Prepended(a, DecodeMany(cs, 0, b)) == Got(a, b)
  {
    assert a + [] == a;
  }
}
