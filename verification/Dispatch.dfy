/**
 From a request on the wire to the registry and back to a reply. A client's request has the same
 effect and the same reply over the wire as if it were put to the registry directly.
 */
module Dispatch {
  import opened Core
  import opened Wire
  import opened WireLaws
  import Framing
  import P = Pass
  import R = RegistrySpec
  import Registry
  import WireCodec
  import WireLayout

  const ERR_INTERLOCK_NOT_FOUND: Byte := 0x02
  const ERR_ALLOCATION_FAILED: Byte := 0x03
  const ERR_INVALID_REQUEST: Byte := 0x04

  /** Names are compared byte by byte, so the registry may see one character for each byte. */
  function Text(bytes: seq<Byte>): string {
    seq(|bytes|, i requires 0 <= i < |bytes| => bytes[i] as char)
  }

  lemma TextInjective(a: seq<Byte>, b: seq<Byte>)
    requires Text(a) == Text(b)
    ensures a == b
  {
    assert |a| == |Text(a)| == |Text(b)| == |b|;
    forall i | 0 <= i < |a| ensures a[i] == b[i] {
      assert Text(a)[i] == Text(b)[i];
    }
  }

  function TierOf(byte: Byte): Option<Tier> {
    if byte == 0 then Some(Interlock)
    else if byte == 1 then Some(WaitCounter)
    else if byte == 2 then Some(WaitTimer)
    else if byte == 3 then Some(WaitCron)
    else if byte == 4 then Some(WaitBarrier)
    else None
  }

  function ToCondition(c: Condition): (string, nat, U64) {
    (Text(c.name), c.word, c.threshold)
  }

  function ToConditions(conds: seq<Condition>): seq<(string, nat, U64)> {
    seq(|conds|, i requires 0 <= i < |conds| => ToCondition(conds[i]))
  }

  /** The create request that a message with a known tier byte stands for. */
  function ToCreate(req: Request): R.Request
    requires req.CreateInterlock? && TierOf(req.tier).Some?
  {
    R.Request(
      Text(req.name), TierOf(req.tier).value,
      if req.watchedName.Some? then Some(Text(req.watchedName.value)) else None,
      if req.watchedWord.Some? then Some(req.watchedWord.value) else None,
      req.intervalNs,
      if req.conditions.Some? then Some(ToConditions(req.conditions.value)) else None)
  }

  datatype Reply = Made(id: nat) | Found(id: nat) | Refused(code: Byte)

  function Code(e: R.Error): Byte {
    match e
    case InterlockNotFound(_) => ERR_INTERLOCK_NOT_FOUND
    case AllocationFailed => ERR_ALLOCATION_FAILED
    case InvalidRequest => ERR_INVALID_REQUEST
  }

  /** A reply that carries a descriptor is refused if the descriptor cannot be duplicated. */
  function WithFd(reply: Reply, duplicates: bool): Reply {
    if duplicates then reply else Refused(ERR_ALLOCATION_FAILED)
  }

  /** A request put to the registry: its new state, and the reply. */
  function Answer(reg: R.Reg, req: Request, now: U64, allocates: bool, duplicates: bool): (R.Reg, Reply)
    requires R.Ready(reg)
  {
    match req
    case AttachInterlock(name) =>
      (reg, match R.Attach(reg, Text(name))
            case Ok(id) => WithFd(Found(id), duplicates)
            case Err(e) => Refused(Code(e)))
    case CreateInterlock(_, tier, _, _, _, _) =>
      if TierOf(tier).None? then (reg, Refused(ERR_INVALID_REQUEST))
      else
        var (reg', made) := R.Create(reg, ToCreate(req), now, allocates);
        (reg', match made
               case Ok(id) => WithFd(Made(id), duplicates)
               case Err(e) => Refused(Code(e)))
  }

  /** What arrived, put to the registry: a message that does not decode is refused as invalid. */
  function AnswerArrival(
    reg: R.Reg, arrived: Result<Request>, now: U64, allocates: bool, duplicates: bool): (R.Reg, Reply)
    requires R.Ready(reg)
  {
    match arrived
    case Ok(req) => Answer(reg, req, now, allocates, duplicates)
    case Err(_) => (reg, Refused(ERR_INVALID_REQUEST))
  }

  // -- The wire loses nothing the registry looks at --

  /** create looks only at the fields of the request's own tier. */
  lemma ForeignFieldsIgnored(known: set<string>, req: Request)
    requires req.CreateInterlock? && TierOf(req.tier).Some?
    ensures R.Plan(known, ToCreate(Normalise(req))) == R.Plan(known, ToCreate(req))
  {
  }

  /** A request that is sent without its tier's fields would be refused as invalid anyway. */
  lemma IncompleteIsInvalid(known: set<string>, req: Request)
    requires EncodeRequest(req).Ok? && !HasRequired(req)
    ensures req.CreateInterlock? && TierOf(req.tier).Some?
    ensures R.Plan(known, ToCreate(req)) == R.Err(R.InvalidRequest)
  {
    assert EncodeFields(req).Ok?;
  }

  /**
   For every request that can be sent, whatever its tier byte and whatever fields it carries or
   lacks: the registry's new state and the reply are the same whether the request arrives over the
   wire or is put to the registry as it is.
   */
  lemma WireIsTransparent(reg: R.Reg, req: Request, now: U64, allocates: bool, duplicates: bool)
    requires R.Ready(reg) && EncodeRequest(req).Ok?
    ensures AnswerArrival(reg, Framing.Arrival(req), now, allocates, duplicates)
            == Answer(reg, req, now, allocates, duplicates)
  {
    hide EncodeRequest, DecodeRequest, R.Plan, ToCreate, IsUtf8;
    Framing.ArrivalIff(req);
    if !HasRequired(req) {
      IncompleteIsInvalid(reg.entries.Keys, req);
    } else if req.CreateInterlock? && TierOf(req.tier).Some? {
      ForeignFieldsIgnored(reg.entries.Keys, req);
      SameName(req);
    }
  }

  lemma SameName(req: Request)
    requires req.CreateInterlock? && TierOf(req.tier).Some?
    ensures ToCreate(Normalise(req)).name == ToCreate(req).name
  {
  }

  predicate Creates(reg: R.Reg, req: Request, allocates: bool) {
    && req.CreateInterlock? && TierOf(req.tier).Some? && allocates
    && R.Acceptable(reg.entries.Keys, ToCreate(req))
  }

  /**
   Over the wire an interlock is created exactly on acceptable requests with memory, whatever happens
   to the reply; attach then gives it under its name and every other name as before, and the client
   is told if its descriptor could be duplicated. Anything else leaves the registry as it was.
   */
  lemma CreatedIff(reg: R.Reg, req: Request, now: U64, allocates: bool, duplicates: bool)
    requires R.Valid(reg) && EncodeRequest(req).Ok?
    ensures var (reg', reply) := AnswerArrival(reg, Framing.Arrival(req), now, allocates, duplicates);
            && R.Valid(reg')
            && (Creates(reg, req, allocates) <==> reg' != reg)
            && (reply.Made? <==> Creates(reg, req, allocates) && duplicates)
            && (Creates(reg, req, allocates) ==>
                  && R.Attach(reg', Text(req.name)) == R.Ok(reg.nextId)
                  && (reply.Made? ==> reply.id == reg.nextId)
                  && forall other: Utf8 | other != req.name ::
                       R.Attach(reg', Text(other)) == R.Attach(reg, Text(other)))
  {
    hide R.Valid, R.Acceptable, EncodeRequest, DecodeRequest, IsUtf8;
    ValidIsReady(reg);
    WireIsTransparent(reg, req, now, allocates, duplicates);
    if req.CreateInterlock? && TierOf(req.tier).Some? {
      R.CreateKeeps(reg, ToCreate(req), now, allocates);
      if R.Create(reg, ToCreate(req), now, allocates).1.Ok? {
        CreatedIsNew(reg, req, now, allocates);
        forall other: Utf8 | other != req.name
          ensures R.Attach(R.Create(reg, ToCreate(req), now, allocates).0, Text(other)) == R.Attach(reg, Text(other))
        {
          OtherNamesKept(reg, req, other, now, allocates);
        }
      }
    }
  }

  lemma ValidIsReady(reg: R.Reg)
    requires R.Valid(reg)
    ensures R.Ready(reg)
  {
  }

  lemma CreatedIsNew(reg: R.Reg, req: Request, now: U64, allocates: bool)
    requires R.Ready(reg) && req.CreateInterlock? && TierOf(req.tier).Some?
    requires R.Create(reg, ToCreate(req), now, allocates).1.Ok?
    ensures R.Create(reg, ToCreate(req), now, allocates).0.nextId == reg.nextId + 1
  {
    hide R.Plan, ToCreate;
  }

  lemma OtherNamesKept(reg: R.Reg, req: Request, other: Utf8, now: U64, allocates: bool)
    requires R.Ready(reg) && req.CreateInterlock? && TierOf(req.tier).Some? && other != req.name
    ensures R.Attach(R.Create(reg, ToCreate(req), now, allocates).0, Text(other)) == R.Attach(reg, Text(other))
  {
    hide R.Plan, IsUtf8;
    if Text(other) == Text(req.name) {
      TextInjective(other, req.name);
    }
  }

  // -- What a message leaves behind --

  /** A condition byte by byte: its name, the word it names, its threshold. */
  predicate SameCondition(c: Condition, kept: P.Condition) {
    && kept.name == Text(c.name) && kept.threshold == c.threshold && c.word <= 1
    && (c.word == 0 <==> kept.word == P.OpenCount) && (c.word == 1 <==> kept.word == P.ClosedCount)
  }

  /** An entry has the tier its byte names, and its fields are those of the message. */
  predicate AsAsked(req: Request, meta: P.Meta)
    requires req.CreateInterlock?
  {
    && req.tier <= 4
    && (req.tier == 0 <==> meta.tier == Interlock)
    && (req.tier == 1 <==> meta.tier == WaitCounter)
    && (req.tier == 2 <==> meta.tier == WaitTimer)
    && (req.tier == 3 <==> meta.tier == WaitCron)
    && (req.tier == 4 <==> meta.tier == WaitBarrier)
    && (req.tier == 1 ==>
          && req.watchedName.Some? && req.watchedWord.Some? && req.watchedWord.value <= 1
          && meta.watchedName == Some(Text(req.watchedName.value))
          && (req.watchedWord == Some(0) <==> meta.watchedWord == Some(P.OpenCount))
          && (req.watchedWord == Some(1) <==> meta.watchedWord == Some(P.ClosedCount)))
    && (req.tier == 2 || req.tier == 3 ==>
          meta.watchedName == Some("clock") && meta.watchedWord == Some(P.OpenCount))
    && (req.tier == 3 ==>
          && req.intervalNs.Some? && req.intervalNs.value >= 1_000_000
          && meta.intervalMs == Some(req.intervalNs.value / 1_000_000))
    && (req.tier == 4 ==>
          && req.conditions.Some? && meta.conditions.Some?
          && |meta.conditions.value| == |req.conditions.value|
          && forall i | 0 <= i < |meta.conditions.value| ::
               SameCondition(req.conditions.value[i], meta.conditions.value[i]))
    && (req.tier != 3 ==> meta.intervalMs == None) && (req.tier != 4 ==> meta.conditions == None)
  }

  /** The message has given the next id to a new entry under its name; every other entry is as it was. */
  ghost predicate Entered(before: R.Reg, after: R.Reg, req: Request) {
    && req.CreateInterlock?
    && after.nextId == before.nextId + 1
    && Text(req.name) in after.entries
    && after.entries == before.entries[Text(req.name) := after.entries[Text(req.name)]]
    && after.entries[Text(req.name)].id == before.nextId
    && AsAsked(req, after.entries[Text(req.name)].meta)
  }

  /** Every watched name is there. */
  predicate AllWatchedThere(reg: R.Reg, req: Request)
    requires req.CreateInterlock?
  {
    && (req.tier == 1 && req.watchedName.Some? ==> Text(req.watchedName.value) in reg.entries)
    && (req.tier == 4 && req.conditions.Some? ==>
          forall i | 0 <= i < |req.conditions.value| :: Text(req.conditions.value[i].name) in reg.entries)
  }

  /** The reply in the codes of the wire: 0x02 not found, 0x03 no memory or descriptor, 0x04 invalid. */
  ghost predicate Replied(
    before: R.Reg, after: R.Reg, req: Request, reply: Reply, allocates: bool, duplicates: bool) {
    match req
    case AttachInterlock(name) =>
      reply
      == if Text(name) !in before.entries then Refused(0x02)
         else if duplicates then Found(before.entries[Text(name)].id) else Refused(0x03)
    case CreateInterlock(_, _, _, _, _, _) =>
      if after != before then
        allocates && reply == if duplicates then Made(before.nextId) else Refused(0x03)
      else
        && (reply == Refused(0x02) || reply == Refused(0x03) || reply == Refused(0x04))
        && (reply == Refused(0x02) ==> !AllWatchedThere(before, req))
        && (reply == Refused(0x03) ==> !allocates)
        && (req.tier > 4 ==> reply == Refused(0x04))
  }

  lemma ResolvedAsAsked(known: set<string>, req: Request, meta: P.Meta)
    requires req.CreateInterlock? && TierOf(req.tier).Some?
    requires R.Resolved(ToCreate(req), meta)
    requires R.Acceptable(known, ToCreate(req))
    ensures AsAsked(req, meta)
  {
    hide IsUtf8, Text;
    var r := ToCreate(req);
    if req.tier == 4 {
      forall i | 0 <= i < |meta.conditions.value|
        ensures SameCondition(req.conditions.value[i], meta.conditions.value[i])
      {
        assert r.conditions.value[i] == ToCondition(req.conditions.value[i]);
        assert r.conditions.value[i].1 <= 1;
      }
    }
  }

  /**
   A message put to the registry, whatever its tier byte and fields: it leaves the registry as it was, or
   has entered exactly the interlock it describes, tier by tier byte and field by field. The reply's code
   says which, and why not.
   */
  lemma AnswerMeans(reg: R.Reg, req: Request, now: U64, allocates: bool, duplicates: bool)
    requires R.Valid(reg)
    ensures var (reg', reply) := Answer(reg, req, now, allocates, duplicates);
            && (reg' == reg || Entered(reg, reg', req))
            && Replied(reg, reg', req, reply, allocates, duplicates)
  {
    ValidIsReady(reg);
    hide R.Valid, IsUtf8, R.Born, R.Plan, R.ParseConditions;
    if req.CreateInterlock? && TierOf(req.tier).Some? {
      var r := ToCreate(req);
      R.PlanIff(reg.entries.Keys, r);
      var plan := R.Plan(reg.entries.Keys, r);
      if plan.Ok? {
        ResolvedAsAsked(reg.entries.Keys, req, plan.value);
      } else if plan.error.InterlockNotFound? {
        MissingIsWatched(reg, req, plan.error.name);
      }
    }
  }

  lemma MissingIsWatched(reg: R.Reg, req: Request, name: string)
    requires req.CreateInterlock? && TierOf(req.tier).Some? && R.Missing(reg.entries.Keys, ToCreate(req), name)
    ensures !AllWatchedThere(reg, req)
  {
    hide IsUtf8, Text;
    if req.tier == 4 {
      var conds := ToCreate(req).conditions.value;
      var i :| 0 <= i < |conds| && conds[i].0 == name;
      assert conds[i] == ToCondition(req.conditions.value[i]);
    }
  }

  // -- The daemon's handler --

  /** The message of an error reply is text the model leaves open. */
  function ResponseOf(reply: Reply, text: Utf8): Response {
    match reply
    case Made(id) => Created(Wrap(id))
    case Found(id) => Attached(Wrap(id))
    case Refused(code) => Error(code, text)
  }

  /** The reply's frame was sent, or a strict prefix of it and there is a fault, or it could not be encoded. */
  ghost predicate ReplySent(
    before: seq<Byte>, after: seq<Byte>, reply: Reply, text: Utf8, fault: Option<Framing.TransportFault>) {
    match EncodeResponse(ResponseOf(reply, text))
    case Ok(frame) => Framing.SentAllowed(before, after, frame, fault)
    case Err(f) => after == before && fault == Some(Framing.Protocol(f))
  }

  /**
   The reply in bytes: version 1; tag 0x81 or 0x82 and the id for a new or a found interlock; tag 0x88 and
   the code for a refusal.
   */
  lemma ReplyBytes(reply: Reply, text: Utf8)
    requires EncodeResponse(ResponseOf(reply, text)).Ok?
    ensures var frame := EncodeResponse(ResponseOf(reply, text)).value;
            match reply
            case Made(id) => frame == [10, 0, 0, 0, 1, 0x81] + WireLayout.Eight(id % 0x1_0000_0000_0000_0000)
            case Found(id) => frame == [10, 0, 0, 0, 1, 0x82] + WireLayout.Eight(id % 0x1_0000_0000_0000_0000)
            case Refused(code) => |frame| >= 7 && frame[4] == 1 && frame[5] == 0x88 && frame[6] == code
  {
    WireLayout.ResponseLayout(ResponseOf(reply, text));
    hide WireLayout.Eight, IsUtf8, LE;
  }

  method SendReply(out: Framing.Outgoing, reply: Reply, text: Utf8) returns (fault: Option<Framing.TransportFault>)
    modifies out
    ensures ReplySent(old(out.sent), out.sent, reply, text, fault)
  {
    hide IsUtf8, LE;
    var frame := WireCodec.WriteResponse(ResponseOf(reply, text));
    if frame.Err? {
      return Some(Framing.Protocol(frame.fault));
    }
    if reply.Refused? {
      fault := Framing.WriteAllRetrying(out, frame.value);
    } else {
      fault := Framing.SendmsgWithFds(out, frame.value);
    }
  }

  /** The registry's part; told: whether a fault in sending the reply is passed on. */
  method Consult(registry: Registry.Registry, req: Request, now: U64, allocates: bool, duplicates: bool)
    returns (reply: Reply, told: bool)
    requires registry.Valid()
    modifies registry, registry.issued.Values
    ensures registry.Valid()
    ensures (registry.Model(), reply) == Answer(old(registry.Model()), req, now, allocates, duplicates)
    ensures told <==> duplicates || Answer(old(registry.Model()), req, now, allocates, true).1.Refused?
    ensures !told ==> reply == Refused(ERR_ALLOCATION_FAILED)
  {
    match req {
      case AttachInterlock(name) =>
        var found := registry.Attach(Text(name));
        match found {
          case Ok(pair) => reply, told := WithFd(Found(pair.0), duplicates), duplicates;
          case Err(e) => reply, told := Refused(Code(e)), true;
        }
      case CreateInterlock(_, tier, _, _, _, _) =>
        if TierOf(tier).None? {
          return Refused(ERR_INVALID_REQUEST), true;
        }
        var made := registry.Create(ToCreate(req), now, allocates);
        match made {
          case Ok(pair) => reply, told := WithFd(Made(pair.0), duplicates), duplicates;
          case Err(e) => reply, told := Refused(Code(e)), true;
        }
    }
  }

  /** The reply to a request that was read goes out; only a reply without its descriptor is sent on a best effort. */
  method Serve(
    out: Framing.Outgoing, registry: Registry.Registry, req: Request,
    now: U64, allocates: bool, duplicates: bool, text: Utf8)
    returns (reply: Reply, unsent: Option<Framing.TransportFault>, error: Option<Framing.TransportFault>)
    requires registry.Valid()
    modifies out, registry, registry.issued.Values
    ensures registry.Valid()
    ensures (registry.Model(), reply) == Answer(old(registry.Model()), req, now, allocates, duplicates)
    ensures ReplySent(old(out.sent), out.sent, reply, text, unsent)
    ensures error == unsent || (error.None? && !duplicates && reply == Refused(ERR_ALLOCATION_FAILED))
  {
    hide ReplySent, Answer, IsUtf8, R.Valid, EncodeResponse;
    var told;
    reply, told := Consult(registry, req, now, allocates, duplicates);
    unsent := SendReply(out, reply, text);
    error := if told then unsent else None;
  }

  /**
   One request of one client, if a whole one can be read: the stream loses exactly its frame,
   registry and reply are what the request calls for, and the reply goes out. unsent is the fault
   in sending it; error is what the handler passes on.
   */
  method HandleClientRequest(
    s: Framing.Incoming, out: Framing.Outgoing, registry: Registry.Registry,
    now: U64, allocates: bool, duplicates: bool, text: Utf8)
    returns (r: Framing.Outcome<Request>, reply: Option<Reply>,
             unsent: Option<Framing.TransportFault>, error: Option<Framing.TransportFault>)
    requires registry.Valid()
    modifies s, out, registry, registry.issued.Values
    ensures registry.Valid() && Framing.ReceiveAllowed(old(s.unread), s.unread, r)
    ensures r.Success? ==>
              && reply.Some?
              && (registry.Model(), reply.value) == Answer(old(registry.Model()), r.value, now, allocates, duplicates)
              && (error == unsent || (error.None? && !duplicates && reply == Some(Refused(ERR_ALLOCATION_FAILED))))
    ensures r.Success? ==>
              && (registry.Model() == old(registry.Model())
                  || Entered(old(registry.Model()), registry.Model(), r.value))
              && Replied(old(registry.Model()), registry.Model(), r.value, reply.value, allocates, duplicates)
    ensures r.Failure? ==> registry.Model() == old(registry.Model())
    ensures r.Failure? && r.error.Protocol? ==> reply == Some(Refused(ERR_INVALID_REQUEST)) && error.None?
    ensures r.Failure? && !r.error.Protocol? ==>
              && reply.None? && out.sent == old(out.sent)
              && error == if r.error.WouldBlock? then None else Some(r.error)
    ensures reply.Some? ==> ReplySent(old(out.sent), out.sent, reply.value, text, unsent)
  {
    hide ReplySent, Answer, IsUtf8, FromLE, R.Valid, Entered, Replied;
    hide Framing.ReceiveAllowed, Framing.HasFrame, Framing.FrameLen, Framing.Moves;
    reply, unsent, error := None, None, None;
    r := Framing.RecvRequest(s);
    if r.Success? {
      AnswerMeans(registry.Model(), r.value, now, allocates, duplicates);
      var answer;
      answer, unsent, error := Serve(out, registry, r.value, now, allocates, duplicates, text);
      reply := Some(answer);
    } else if r.error.Protocol? {
      reply := Some(Refused(ERR_INVALID_REQUEST));
      unsent := SendReply(out, Refused(ERR_INVALID_REQUEST), text);
    } else if !r.error.WouldBlock? {
      error := Some(r.error);
    }
  }
}
