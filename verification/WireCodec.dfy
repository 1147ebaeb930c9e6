/**
 The codec as it is written: an encoder that pushes onto a growing buffer and a decoder that
 advances a position, each proved equal to its specification in module Wire.
 */
module WireCodec {
  import opened Core
  import opened Wire

  method WriteString(buffer: seq<Byte>, s: Utf8) returns (r: Result<seq<Byte>>)
    ensures r == Then(Ok(buffer), EncodeString(s))
  {
    if |s| > 65535 {
      return Err(FrameTooLarge(|s|, 65535));
    }
    var out := buffer + LE(|s|, 2);
    out := out + s;
    assert out == buffer + (LE(|s|, 2) + s);
    return Ok(out);
  }

  method WriteCondition(buffer: seq<Byte>, c: Condition) returns (r: Result<seq<Byte>>)
    ensures r == Then(Ok(buffer), EncodeCondition(c))
  {
    var out :- WriteString(buffer, c.name);
    out := out + [c.word];
    out := out + LE(c.threshold, 8);
    assert out == buffer + EncodeCondition(c).value;
    return Ok(out);
  }

  /** A fault among the first conditions is the fault of the list. */
  lemma {:induction false} EarlierFaultWins(conds: seq<Condition>, n: nat)
    requires n <= |conds| && EncodeConditions(conds[..n]).Err?
    ensures EncodeConditions(conds) == EncodeConditions(conds[..n])
    decreases |conds|
  {
    if n == |conds| {
      assert conds[..n] == conds;
    } else {
      var front := conds[..|conds| - 1];
      assert front[..n] == conds[..n];
      EarlierFaultWins(front, n);
    }
  }

  method WriteConditions(buffer: seq<Byte>, conds: seq<Condition>) returns (r: Result<seq<Byte>>)
    ensures r == Then(Ok(buffer), EncodeConditions(conds))
  {
    hide EncodeCondition, IsUtf8;
    var out, i := buffer, 0;
    assert buffer + [] == buffer && conds[..0] == [];
    while i < |conds|
      invariant i <= |conds|
      invariant Ok(out) == Then(Ok(buffer), EncodeConditions(conds[..i]))
    {
      var written := WriteCondition(out, conds[i]);
      ghost var front := conds[..i + 1];
      assert front[..i] == conds[..i] && front[i] == conds[i];
      assert EncodeConditions(front) == Then(EncodeConditions(conds[..i]), EncodeCondition(conds[i]));
      if written.Err? {
        EarlierFaultWins(conds, i + 1);
        return written;
      }
      assert written.value == buffer + (EncodeConditions(conds[..i]).value + EncodeCondition(conds[i]).value);
      out, i := written.value, i + 1;
    }
    assert conds[..i] == conds;
    return Ok(out);
  }

  method WriteFields(buffer: seq<Byte>, req: Request) returns (r: Result<seq<Byte>>)
    requires req.CreateInterlock?
    ensures r == Then(Ok(buffer), EncodeFields(req))
  {
    hide IsUtf8, LE, EncodeConditions;
    var out := buffer;
    if req.tier == 1 {
      if req.watchedWord.None? {
        return Err(Truncated(1, 0));
      }
      if req.watchedName.Some? {
        out :- WriteString(out, req.watchedName.value);
      }
      out := out + [req.watchedWord.value];
    } else if req.tier == 3 {
      if req.intervalNs.Some? {
        out := out + LE(req.intervalNs.value, 8);
      }
    } else if req.tier == 4 && req.conditions.Some? {
      var conds := req.conditions.value;
      out := out + LE(|conds| % 65536, 2);
      out :- WriteConditions(out, conds);
    }
    assert EncodeFields(req).Ok? && out == buffer + EncodeFields(req).value;
    return Ok(out);
  }

  method WriteRequest(req: Request) returns (r: Result<seq<Byte>>)
    ensures r == EncodeRequest(req)
  {
    hide IsUtf8, LE, EncodeFields;
    var payload: seq<Byte> := [PROTOCOL_VERSION];
    if req.CreateInterlock? {
      payload := payload + [TAG_CREATE_INTERLOCK];
      payload :- WriteString(payload, req.name);
      assert payload == [PROTOCOL_VERSION, TAG_CREATE_INTERLOCK] + EncodeString(req.name).value;
      payload := payload + [req.tier];
      payload :- WriteFields(payload, req);
    } else {
      payload := payload + [TAG_ATTACH_INTERLOCK];
      payload :- WriteString(payload, req.name);
      assert payload == [PROTOCOL_VERSION, TAG_ATTACH_INTERLOCK] + EncodeString(req.name).value;
    }
    assert EncodePayload(req) == Ok(payload);
    if |payload| > MAX_MESSAGE_SIZE {
      return Err(FrameTooLarge(|payload|, MAX_MESSAGE_SIZE));
    }
    var frame := LE(|payload|, 4);
    frame := frame + payload;
    return Ok(frame);
  }

  method WriteResponse(resp: Response) returns (r: Result<seq<Byte>>)
    ensures r == EncodeResponse(resp)
  {
    hide IsUtf8, LE;
    var payload: seq<Byte> := [PROTOCOL_VERSION];
    if resp.Error? {
      payload := payload + [TAG_ERROR];
      payload := payload + [resp.code];
      payload :- WriteString(payload, resp.message);
      assert payload == [PROTOCOL_VERSION, TAG_ERROR, resp.code] + EncodeString(resp.message).value;
    } else {
      payload := payload + [if resp.Created? then TAG_CREATED else TAG_ATTACHED];
      payload := payload + LE(resp.id, 8);
      assert payload == [PROTOCOL_VERSION, if resp.Created? then TAG_CREATED else TAG_ATTACHED] + LE(resp.id, 8);
    }
    if |payload| > MAX_MESSAGE_SIZE {
      return Err(FrameTooLarge(|payload|, MAX_MESSAGE_SIZE));
    }
    var frame := LE(|payload|, 4);
    frame := frame + payload;
    return Ok(frame);
  }

  /** The conditions read so far, in front of what the rest gives. */
  ghost function After(read: seq<Condition>, rest: Result<(seq<Condition>, nat)>): Result<(seq<Condition>, nat)> {
    var (cs, end) :- rest;
    Ok((read + cs, end))
  }

  method ReadConditions(rest: seq<Byte>, start: nat, count: nat) returns (r: Result<(seq<Condition>, nat)>)
    requires start <= |rest|
    ensures r == DecodeConditions(rest, start, count)
  {
    hide IsUtf8, LE, FromLE;
    var pos: nat, i: nat, conds: seq<Condition> := start, 0, [];
    assert forall cs: seq<Condition> :: [] + cs == cs;
    while i < count
      invariant i <= count && pos <= |rest|
      invariant DecodeConditions(rest, start, count) == After(conds, DecodeConditions(rest, pos, count - i))
    {
      ghost var before := DecodeConditions(rest, pos, count - i);
      ghost var from := pos;
      var name :- DecodeString(rest[pos..]);
      pos := pos + 2 + |name|;
      if pos >= |rest| {
        return Err(Truncated(pos + 1, |rest|));
      }
      var word := rest[pos];
      pos := pos + 1;
      if |rest| < pos + 8 {
        return Err(Truncated(pos + 8, |rest|));
      }
      var threshold := U64At(rest, pos);
      pos := pos + 8;
      ghost var c := Condition(name, word, threshold);
      assert DecodeCondition(rest, from) == Ok((c, pos));
      assert before == After([c], DecodeConditions(rest, pos, count - i - 1));
      assert forall cs: seq<Condition> :: conds + ([c] + cs) == conds + [c] + cs;
      conds := conds + [Condition(name, word, threshold)];
      i := i + 1;
    }
    assert conds + [] == conds;
    return Ok((conds, pos));
  }

  method ReadCreate(rest: seq<Byte>) returns (r: Result<Request>)
    ensures r == DecodeCreate(rest)
  {
    hide IsUtf8, LE, FromLE, DecodeConditions;
    var name :- DecodeString(rest);
    var pos := 2 + |name|;
    if pos >= |rest| {
      return Err(Truncated(|rest| + 2 + 1, |rest| + 2));
    }
    var tier := rest[pos];
    pos := pos + 1;
    var watchedName: Option<Utf8>, watchedWord: Option<Byte> := None, None;
    var intervalNs: Option<U64>, conditions: Option<seq<Condition>> := None, None;
    if tier == 1 {
      var wn :- DecodeString(rest[pos..]);
      pos := pos + 2 + |wn|;
      if pos >= |rest| {
        return Err(Truncated(|rest| + 2 + 1, |rest| + 2));
      }
      watchedName, watchedWord := Some(wn), Some(rest[pos]);
    } else if tier == 3 {
      if |rest| < pos + 8 {
        return Err(Truncated(pos + 8 + 2, |rest|));
      }
      intervalNs := Some(U64At(rest, pos));
    } else if tier == 4 {
      if |rest| < pos + 2 {
        return Err(Truncated(pos + 2, |rest|));
      }
      var count := U16At(rest, pos);
      pos := pos + 2;
      var conds :- ReadConditions(rest, pos, count);
      conditions := Some(conds.0);
    }
    return Ok(CreateInterlock(name, tier, watchedName, watchedWord, intervalNs, conditions));
  }

  method ReadRequest(data: seq<Byte>) returns (r: Result<Request>)
    ensures r == DecodeRequest(data)
  {
    hide IsUtf8, FromLE, DecodeCreate;
    if |data| < 2 {
      return Err(Truncated(2, |data|));
    }
    if data[0] != PROTOCOL_VERSION {
      return Err(UnsupportedVersion(data[0]));
    }
    if data[1] == TAG_CREATE_INTERLOCK {
      r := ReadCreate(data[2..]);
    } else if data[1] == TAG_ATTACH_INTERLOCK {
      var name :- DecodeString(data[2..]);
      r := Ok(AttachInterlock(name));
    } else {
      r := Err(UnknownTag(data[1]));
    }
  }
}
