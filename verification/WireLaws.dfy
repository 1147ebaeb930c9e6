/**
 What the codec promises: requests and responses survive the trip, an accepted message is not
 changed by bytes after it, re-encoding an accepted message gives back its own bytes, and a
 cut-off message is always reported as cut off.
 */
module WireLaws {
  import opened Core
  import opened Wire

  /** The fields its tier needs are there; other tiers need none. */
  predicate HasRequired(req: Request) {
    req.CreateInterlock? ==>
      && (req.tier == 1 ==> req.watchedName.Some? && req.watchedWord.Some?)
      && (req.tier == 3 ==> req.intervalNs.Some?)
      && (req.tier == 4 ==> req.conditions.Some?)
  }

  /** The request with every field foreign to its tier dropped. */
  function Normalise(req: Request): Request {
    match req
    case AttachInterlock(_) => req
    case CreateInterlock(name, tier, wn, ww, interval, conds) =>
      CreateInterlock(
        name, tier,
        if tier == 1 then wn else None, if tier == 1 then ww else None,
        if tier == 3 then interval else None, if tier == 4 then conds else None)
  }

  predicate CutOff<T>(r: Result<T>) {
    r.Err? && r.fault.Truncated?
  }

  // -- Strings --

  lemma {:induction false} StringRead(d: seq<Byte>, s: Utf8)
    requires |s| <= 65535 && LE(|s|, 2) + s <= d
    ensures DecodeString(d) == Ok(s)
  {
    assert d[0..2] == (LE(|s|, 2) + s)[0..2] == LE(|s|, 2);
    assert d[2..2 + |s|] == (LE(|s|, 2) + s)[2..] == s;
    Widths();
    LERoundTrip(|s|, 2);
  }

  lemma {:induction false} StringReencoded(d: seq<Byte>)
    requires DecodeString(d).Ok?
    ensures var s := DecodeString(d).value;
            2 + |s| <= |d| && EncodeString(s) == Ok(d[..2 + |s|])
  {
    var s := DecodeString(d).value;
    LEOfFromLE(d[0..2]);
    FromLEBound(d[0..2]);
    Widths();
    assert d[..2 + |s|] == d[0..2] + d[2..2 + |s|];
  }

  lemma {:induction false} StringStable(d: seq<Byte>, after: seq<Byte>)
    requires !CutOff(DecodeString(d))
    ensures DecodeString(d + after) == DecodeString(d)
  {
    assert (d + after)[0..2] == d[0..2];
    var len := U16At(d, 0);
    assert (d + after)[2..2 + len] == d[2..2 + len];
  }

  // -- Conditions --

  /** The bytes b stand in d from pos on. */
  predicate Holds(d: seq<Byte>, pos: nat, b: seq<Byte>) {
    pos + |b| <= |d| && d[pos..pos + |b|] == b
  }

  lemma {:induction false} HoldsParts(d: seq<Byte>, pos: nat, a: seq<Byte>, b: seq<Byte>)
    requires Holds(d, pos, a + b)
    ensures Holds(d, pos, a) && Holds(d, pos + |a|, b)
  {
    assert d[pos..pos + |a|] == (a + b)[..|a|] == a;
    assert d[pos + |a|..pos + |a| + |b|] == (a + b)[|a|..] == b;
  }

  lemma {:induction false} ConditionRead(d: seq<Byte>, pos: nat, c: Condition)
    requires EncodeCondition(c).Ok? && Holds(d, pos, EncodeCondition(c).value)
    ensures DecodeCondition(d, pos) == Ok((c, pos + |EncodeCondition(c).value|))
  {
    var name, at := LE(|c.name|, 2) + c.name, pos + 2 + |c.name|;
    assert EncodeCondition(c).value == name + ([c.word] + LE(c.threshold, 8));
    HoldsParts(d, pos, name, [c.word] + LE(c.threshold, 8));
    HoldsParts(d, at, [c.word], LE(c.threshold, 8));
    assert d[pos..][..|name|] == name;
    StringRead(d[pos..], c.name);
    assert d[at] == d[at..at + 1][0];
    Widths();
    LERoundTrip(c.threshold, 8);
  }

  lemma {:induction false} ConditionReencoded(d: seq<Byte>, pos: nat)
    requires pos <= |d| && DecodeCondition(d, pos).Ok?
    ensures var (c, next) := DecodeCondition(d, pos).value;
            EncodeCondition(c) == Ok(d[pos..next])
  {
    var (c, next) := DecodeCondition(d, pos).value;
    StringReencoded(d[pos..]);
    var at := pos + 2 + |c.name|;
    LEOfFromLE(d[at + 1..at + 9]);
    assert d[pos..next] == d[pos..][..2 + |c.name|] + [d[at]] + d[at + 1..at + 9];
  }

  lemma {:induction false} ConditionStable(d: seq<Byte>, pos: nat, after: seq<Byte>)
    requires pos <= |d| && !CutOff(DecodeCondition(d, pos))
    ensures DecodeCondition(d + after, pos) == DecodeCondition(d, pos)
  {
    assert (d + after)[pos..] == d[pos..] + after;
    StringStable(d[pos..], after);
    if DecodeString(d[pos..]).Ok? {
      var at := pos + 2 + |DecodeString(d[pos..]).value|;
      assert (d + after)[at + 1..at + 9] == d[at + 1..at + 9];
    }
  }

  /** The encoder appends conditions at the back; the decoder takes them from the front. */
  lemma {:induction false} ConditionsFromFront(c: Condition, cs: seq<Condition>)
    ensures EncodeConditions([c] + cs) == Then(EncodeCondition(c), EncodeConditions(cs))
    decreases |cs|
  {
    var all := [c] + cs;
    if cs == [] {
      assert all[..0] == [] && all[0] == c;
      if EncodeCondition(c).Ok? {
        assert [] + EncodeCondition(c).value == EncodeCondition(c).value + [];
      }
    } else {
      var front, last := cs[..|cs| - 1], cs[|cs| - 1];
      assert all[..|all| - 1] == [c] + front && all[|all| - 1] == last;
      ConditionsFromFront(c, front);
      ThenAssociates(EncodeCondition(c), EncodeConditions(front), EncodeCondition(last));
    }
  }

  lemma {:induction false} ThenAssociates(a: Result<seq<Byte>>, b: Result<seq<Byte>>, c: Result<seq<Byte>>)
    ensures Then(Then(a, b), c) == Then(a, Then(b, c))
  {
    if a.Ok? && b.Ok? && c.Ok? {
      assert a.value + b.value + c.value == a.value + (b.value + c.value);
    }
  }

  /** A list of conditions is read as its first and then the others. */
  lemma {:induction false} ConditionsSplit(d: seq<Byte>, pos: nat, count: nat)
    returns (c: Condition, next: nat, cs: seq<Condition>, end: nat)
    requires pos <= |d| && count > 0 && DecodeConditions(d, pos, count).Ok?
    ensures pos < next <= end <= |d|
    ensures DecodeCondition(d, pos) == Ok((c, next))
    ensures DecodeConditions(d, next, count - 1) == Ok((cs, end))
    ensures DecodeConditions(d, pos, count) == Ok(([c] + cs, end))
  {
    c, next := DecodeCondition(d, pos).value.0, DecodeCondition(d, pos).value.1;
    var rest := DecodeConditions(d, next, count - 1);
    cs, end := rest.value.0, rest.value.1;
  }

  lemma {:induction false} ConditionsRead(d: seq<Byte>, pos: nat, cs: seq<Condition>)
    requires EncodeConditions(cs).Ok? && Holds(d, pos, EncodeConditions(cs).value)
    ensures DecodeConditions(d, pos, |cs|) == Ok((cs, pos + |EncodeConditions(cs).value|))
    decreases |cs|
  {
    hide LE, FromLE, IsUtf8, DecodeCondition, EncodeCondition;
    if cs != [] {
      var c, rest := cs[0], cs[1..];
      assert cs == [c] + rest;
      ConditionsFromFront(c, rest);
      var first := |EncodeCondition(c).value|;
      HoldsParts(d, pos, EncodeCondition(c).value, EncodeConditions(rest).value);
      ConditionRead(d, pos, c);
      ConditionsRead(d, pos + first, rest);
      assert DecodeConditions(d, pos, |cs|) == Ok(([c] + rest, pos + first + |EncodeConditions(rest).value|));
    }
  }

  lemma {:induction false} ConditionsReencoded(d: seq<Byte>, pos: nat, count: nat)
    requires pos <= |d| && DecodeConditions(d, pos, count).Ok?
    ensures var (cs, end) := DecodeConditions(d, pos, count).value;
            EncodeConditions(cs) == Ok(d[pos..end])
    decreases count
  {
    hide LE, FromLE, IsUtf8, DecodeCondition, EncodeCondition;
    if count == 0 {
      assert d[pos..pos] == [];
    } else {
      var c, next, cs, end := ConditionsSplit(d, pos, count);
      ConditionReencoded(d, pos);
      ConditionsReencoded(d, next, count - 1);
      ConditionsFromFront(c, cs);
      assert EncodeConditions([c] + cs) == Ok(d[pos..next] + d[next..end]);
      assert d[pos..end] == d[pos..next] + d[next..end];
    }
  }

  lemma {:induction false} ConditionsStable(d: seq<Byte>, pos: nat, count: nat, after: seq<Byte>)
    requires pos <= |d| && !CutOff(DecodeConditions(d, pos, count))
    ensures DecodeConditions(d + after, pos, count) == DecodeConditions(d, pos, count)
    decreases count
  {
    if count > 0 {
      ConditionStable(d, pos, after);
      if DecodeCondition(d, pos).Ok? {
        ConditionsStable(d, DecodeCondition(d, pos).value.1, count - 1, after);
      }
    }
  }

  /** A condition takes at least eleven bytes, so a list that fits a frame has few of them. */
  lemma {:induction false} ConditionsAreLong(cs: seq<Condition>)
    requires EncodeConditions(cs).Ok?
    ensures 11 * |cs| <= |EncodeConditions(cs).value|
  {
    if cs != [] {
      ConditionsAreLong(cs[..|cs| - 1]);
    }
  }

  // -- Creation requests --

  /** The bytes after version and tag. */
  function Body(req: Request): seq<Byte>
    requires req.CreateInterlock? && EncodePayload(req).Ok?
  {
    LE(|req.name|, 2) + req.name + [req.tier] + EncodeFields(req).value
  }

  lemma {:induction false} CreateRead(req: Request)
    requires req.CreateInterlock? && EncodePayload(req).Ok? && |Body(req)| <= MAX_MESSAGE_SIZE
    ensures HasRequired(req) ==> DecodeCreate(Body(req)) == Ok(Normalise(req))
    ensures !HasRequired(req) ==> CutOff(DecodeCreate(Body(req)))
  {
    var rest, fields, at := Body(req), EncodeFields(req).value, 3 + |req.name|;
    StringRead(rest, req.name);
    assert rest[at - 1] == req.tier && rest[at..] == fields;
    if req.tier == 1 {
      CounterRead(req);
    } else if req.tier == 3 && req.intervalNs.Some? {
      assert rest[at..at + 8] == fields;
      Widths();
      LERoundTrip(req.intervalNs.value, 8);
    } else if req.tier == 4 && req.conditions.Some? {
      BarrierRead(req);
    }
  }

  lemma {:induction false} CounterRead(req: Request)
    requires req.CreateInterlock? && EncodePayload(req).Ok? && req.tier == 1
    ensures var (fields, name) := (EncodeFields(req).value, req.watchedName);
            && req.watchedWord.Some?
            && (name.None? ==> CutOff(DecodeString(fields)))
            && (name.Some? ==>
                  && DecodeString(fields) == Ok(name.value)
                  && |fields| == 3 + |name.value|
                  && fields[2 + |name.value|] == req.watchedWord.value)
  {
    if req.watchedName.Some? {
      StringRead(EncodeFields(req).value, req.watchedName.value);
    }
  }

  lemma {:induction false} BodyEndsInFields(req: Request)
    requires req.CreateInterlock? && EncodePayload(req).Ok?
    ensures var fields := EncodeFields(req).value;
            |Body(req)| == 3 + |req.name| + |fields| && Holds(Body(req), 3 + |req.name|, fields)
  {
  }

  lemma {:induction false} BarrierRead(req: Request)
    requires req.CreateInterlock? && EncodePayload(req).Ok? && |Body(req)| <= MAX_MESSAGE_SIZE
    requires req.tier == 4 && req.conditions.Some?
    ensures var (rest, at, conds) := (Body(req), 3 + |req.name|, req.conditions.value);
            && |rest| >= at + 2
            && U16At(rest, at) == |conds|
            && DecodeConditions(rest, at + 2, |conds|) == Ok((conds, |rest|))
  {
    hide LE, FromLE, IsUtf8, DecodeConditions, EncodeConditions;
    BodyEndsInFields(req);
    ConditionsAreLong(req.conditions.value);
    CountedRead(Body(req), 3 + |req.name|, req.conditions.value);
  }

  lemma {:induction false} CountedRead(d: seq<Byte>, at: nat, conds: seq<Condition>)
    requires |conds| < 65536 && EncodeConditions(conds).Ok?
    requires Holds(d, at, LE(|conds|, 2) + EncodeConditions(conds).value)
    ensures U16At(d, at) == |conds|
    ensures DecodeConditions(d, at + 2, |conds|) == Ok((conds, at + 2 + |EncodeConditions(conds).value|))
  {
    HoldsParts(d, at, LE(|conds|, 2), EncodeConditions(conds).value);
    Widths();
    LERoundTrip(|conds|, 2);
    ConditionsRead(d, at + 2, conds);
  }

  lemma {:induction false} CreateStable(d: seq<Byte>, after: seq<Byte>)
    requires !CutOff(DecodeCreate(d))
    ensures DecodeCreate(d + after) == DecodeCreate(d)
  {
    StringStable(d, after);
    if DecodeString(d).Ok? {
      var at := 3 + |DecodeString(d).value|;
      var tier := d[at - 1];
      if tier == 1 {
        assert (d + after)[at..] == d[at..] + after;
        StringStable(d[at..], after);
      } else if tier == 3 {
        assert (d + after)[at..at + 8] == d[at..at + 8];
      } else if tier == 4 {
        assert (d + after)[at..at + 2] == d[at..at + 2];
        ConditionsStable(d, at + 2, U16At(d, at), after);
      }
    }
  }

  /** What follows the tier byte re-encodes, and it stands right after that byte. */
  lemma {:induction false} FieldsReencoded(d: seq<Byte>)
    requires DecodeCreate(d).Ok?
    ensures var req := DecodeCreate(d).value;
            && req.CreateInterlock?
            && HasRequired(req)
            && EncodeFields(req).Ok?
            && 3 + |req.name| <= |d|
            && Holds(d, 3 + |req.name|, EncodeFields(req).value)
  {
    hide LE, FromLE, IsUtf8, DecodeConditions, EncodeConditions;
    var req := DecodeCreate(d).value;
    var at := 3 + |req.name|;
    if req.tier == 1 {
      StringReencoded(d[at..]);
      var end := at + 2 + |req.watchedName.value|;
      assert d[at..end + 1] == d[at..][..2 + |req.watchedName.value|] + [d[end]];
    } else if req.tier == 3 {
      LEOfFromLE(d[at..at + 8]);
    } else if req.tier == 4 {
      CountedReencoded(d, at);
    }
  }

  lemma {:induction false} CountedReencoded(d: seq<Byte>, at: nat)
    requires at + 2 <= |d| && DecodeConditions(d, at + 2, U16At(d, at)).Ok?
    ensures var cs := DecodeConditions(d, at + 2, U16At(d, at)).value.0;
            EncodeConditions(cs).Ok? && Holds(d, at, LE(|cs| % 65536, 2) + EncodeConditions(cs).value)
  {
    hide LE, FromLE, IsUtf8, DecodeConditions, EncodeConditions;
    var end := DecodeConditions(d, at + 2, U16At(d, at)).value.1;
    ConditionsReencoded(d, at + 2, U16At(d, at));
    CountReencoded(d[at..at + 2]);
    assert d[at..end] == d[at..at + 2] + d[at + 2..end];
  }

  lemma {:induction false} CountReencoded(b: seq<Byte>)
    requires |b| == 2
    ensures LE(FromLE(b) % 65536, 2) == b
  {
    FromLEBound(b);
    Widths();
    LEOfFromLE(b);
  }

  lemma {:induction false} CreateReencoded(d: seq<Byte>)
    requires DecodeCreate(d).Ok?
    ensures var req := DecodeCreate(d).value;
            req.CreateInterlock? && HasRequired(req) && EncodePayload(req).Ok? && Body(req) <= d
  {
    hide LE, FromLE, IsUtf8, DecodeConditions, EncodeConditions;
    var req := DecodeCreate(d).value;
    FieldsReencoded(d);
    StringReencoded(d);
    Glued(d, 2 + |req.name|, EncodeFields(req).value);
  }

  lemma {:induction false} Glued(d: seq<Byte>, at: nat, fields: seq<Byte>)
    requires at < |d| && Holds(d, at + 1, fields)
    ensures d[..at] + [d[at]] + fields <= d
  {
    assert d == d[..at] + [d[at]] + d[at + 1..at + 1 + |fields|] + d[at + 1 + |fields|..];
  }

  // -- Requests --

  lemma {:induction false} FrameParts(payload: seq<Byte>)
    requires |payload| <= MAX_MESSAGE_SIZE
    ensures var frame := Frame(payload).value;
            FromLE(frame[..4]) == |payload| && frame[4..] == payload
  {
    Widths();
    LERoundTrip(|payload|, 4);
    assert Frame(payload).value[..4] == LE(|payload|, 4);
  }

  /** The prefix counts the payload, and the payload means the request, exactly when it is complete. */
  lemma {:induction false} RequestRoundTrip(req: Request)
    requires EncodeRequest(req).Ok?
    ensures var frame := EncodeRequest(req).value;
            && |frame| >= 4
            && FromLE(frame[..4]) == |frame| - 4 <= MAX_MESSAGE_SIZE
            && (HasRequired(req) <==> DecodeRequest(frame[4..]) == Ok(Normalise(req)))
            && (!HasRequired(req) <==> CutOff(DecodeRequest(frame[4..])))
  {
    hide DecodeConditions, EncodeConditions, IsUtf8;
    var payload := EncodePayload(req).value;
    FrameParts(payload);
    if req.CreateInterlock? {
      assert payload[2..] == Body(req);
      CreateRead(req);
    } else {
      StringRead(payload[2..], req.name);
    }
  }

  /** The sixteen-bit count of a barrier's conditions never loses anything in a frame that is sent. */
  lemma {:induction false} CountIsExact(req: Request)
    requires EncodeRequest(req).Ok? && req.CreateInterlock? && req.tier == 4 && req.conditions.Some?
    ensures |req.conditions.value| % 65536 == |req.conditions.value| <= 371
  {
    hide LE, FromLE, IsUtf8, EncodeConditions;
    PayloadIsBody(req);
    BodyEndsInFields(req);
    ConditionsAreLong(req.conditions.value);
  }

  /** Whatever was decided without running out of bytes is not changed by more bytes. */
  lemma {:induction false} DecodeIsStable(d: seq<Byte>, after: seq<Byte>)
    requires !CutOff(DecodeRequest(d))
    ensures DecodeRequest(d + after) == DecodeRequest(d)
  {
    assert (d + after)[2..] == d[2..] + after;
    if d[0] == PROTOCOL_VERSION {
      if d[1] == TAG_CREATE_INTERLOCK {
        CreateStable(d[2..], after);
      } else if d[1] == TAG_ATTACH_INTERLOCK {
        StringStable(d[2..], after);
      }
    }
  }

  lemma {:induction false} CreateIsNormal(d: seq<Byte>)
    requires DecodeCreate(d).Ok?
    ensures Normalise(DecodeCreate(d).value) == DecodeCreate(d).value
  {
  }

  lemma {:induction false} AttachReencoded(d: seq<Byte>)
    requires |d| >= 2 && d[0] == PROTOCOL_VERSION && d[1] == TAG_ATTACH_INTERLOCK && DecodeString(d[2..]).Ok?
    ensures var req := AttachInterlock(DecodeString(d[2..]).value);
            EncodePayload(req).Ok? && EncodePayload(req).value <= d
  {
    StringReencoded(d[2..]);
    var n := 2 + |DecodeString(d[2..]).value|;
    assert d[..2 + n] == [d[0], d[1]] + d[2..][..n];
  }

  lemma {:induction false} PayloadIsBody(req: Request)
    requires req.CreateInterlock? && EncodePayload(req).Ok?
    ensures EncodePayload(req).value == [PROTOCOL_VERSION, TAG_CREATE_INTERLOCK] + Body(req)
  {
    var name, fields := LE(|req.name|, 2) + req.name, EncodeFields(req).value;
    assert [PROTOCOL_VERSION, TAG_CREATE_INTERLOCK] + name + [req.tier] + fields
        == [PROTOCOL_VERSION, TAG_CREATE_INTERLOCK] + (name + [req.tier] + fields);
  }

  lemma {:induction false} CreatePayload(d: seq<Byte>)
    requires |d| >= 2 && d[0] == PROTOCOL_VERSION && d[1] == TAG_CREATE_INTERLOCK && DecodeCreate(d[2..]).Ok?
    ensures var req := DecodeCreate(d[2..]).value;
            HasRequired(req) && EncodePayload(req).Ok? && EncodePayload(req).value <= d
  {
    CreateReencoded(d[2..]);
    PayloadIsBody(DecodeCreate(d[2..]).value);
    assert d == [d[0], d[1]] + d[2..];
  }

  /** An accepted message re-encodes to the very bytes it was read from. */
  lemma {:induction false} Reencoded(d: seq<Byte>)
    requires DecodeRequest(d).Ok?
    ensures var req := DecodeRequest(d).value;
            && HasRequired(req)
            && Normalise(req) == req
            && EncodePayload(req).Ok?
            && EncodePayload(req).value <= d
            && (|d| <= MAX_MESSAGE_SIZE ==> EncodeRequest(req).Ok?)
  {
    if d[1] == TAG_CREATE_INTERLOCK {
      CreatePayload(d);
      CreateIsNormal(d[2..]);
    } else {
      AttachReencoded(d);
    }
  }

  /** Fields foreign to the tier leave no trace in the bytes. */
  lemma {:induction false} NormaliseSameBytes(req: Request)
    ensures EncodePayload(Normalise(req)) == EncodePayload(req)
  {
    if req.CreateInterlock? {
      assert EncodeFields(Normalise(req)) == EncodeFields(req);
    }
  }

  /** Any strict prefix of a request's payload is reported as cut off, whatever the request. */
  lemma {:induction false} StrictPrefixIsCutOff(req: Request, n: nat)
    requires EncodeRequest(req).Ok? && n < |EncodePayload(req).value|
    ensures CutOff(DecodeRequest(EncodePayload(req).value[..n]))
  {
    hide LE, FromLE, IsUtf8, DecodeCreate, EncodeFields;
    var payload := EncodePayload(req).value;
    var d := payload[..n];
    if !CutOff(DecodeRequest(d)) {
      DecodeIsStable(d, payload[n..]);
      assert d + payload[n..] == payload;
      RequestRoundTrip(req);
      FrameParts(payload);
      assert DecodeRequest(d) == Ok(Normalise(req));
      Reencoded(d);
      NormaliseSameBytes(req);
      assert false;
    }
  }

  lemma {:induction false} EncodedIsAccepted(d: seq<Byte>, req: Request)
    requires EncodeRequest(req).Ok? && HasRequired(req) && EncodePayload(req).value <= d
    ensures DecodeRequest(d) == Ok(Normalise(req))
  {
    hide LE, FromLE, IsUtf8, DecodeCreate, EncodeFields, Normalise, HasRequired;
    var payload := EncodePayload(req).value;
    RequestRoundTrip(req);
    FrameParts(payload);
    DecodeIsStable(payload, d[|payload|..]);
    assert payload + d[|payload|..] == d;
  }

  /**
   What the decoder accepts: a message of at most 4096 bytes means req exactly when req is
   complete, carries nothing foreign to its tier, and its own encoding starts the message.
   */
  lemma {:induction false} AcceptedIff(d: seq<Byte>, req: Request)
    requires |d| <= MAX_MESSAGE_SIZE
    ensures DecodeRequest(d) == Ok(req) <==>
            EncodeRequest(req).Ok? && HasRequired(req) && Normalise(req) == req && EncodePayload(req).value <= d
  {
    hide LE, FromLE, IsUtf8, DecodeRequest, EncodeFields, Normalise, HasRequired;
    if DecodeRequest(d) == Ok(req) {
      Reencoded(d);
    } else if EncodeRequest(req).Ok? && HasRequired(req) && EncodePayload(req).value <= d {
      EncodedIsAccepted(d, req);
    }
  }

  // -- Responses --

  lemma {:induction false} ResponseRoundTrip(resp: Response)
    requires EncodeResponse(resp).Ok?
    ensures var frame := EncodeResponse(resp).value;
            && |frame| >= 4
            && FromLE(frame[..4]) == |frame| - 4 <= MAX_MESSAGE_SIZE
            && DecodeResponse(frame[4..]) == Ok(resp)
  {
    Widths();
    match resp
    case Created(id) =>
      FrameParts([PROTOCOL_VERSION, TAG_CREATED] + LE(id, 8));
      assert ([PROTOCOL_VERSION, TAG_CREATED] + LE(id, 8))[2..][0..8] == LE(id, 8);
      LERoundTrip(id, 8);
    case Attached(id) =>
      FrameParts([PROTOCOL_VERSION, TAG_ATTACHED] + LE(id, 8));
      assert ([PROTOCOL_VERSION, TAG_ATTACHED] + LE(id, 8))[2..][0..8] == LE(id, 8);
      LERoundTrip(id, 8);
    case Error(code, message) =>
      var m := LE(|message|, 2) + message;
      var payload := [PROTOCOL_VERSION, TAG_ERROR, code] + m;
      FrameParts(payload);
      assert payload[2..][1..] == m;
      StringRead(m, message);
  }
}
