/**
 The wire codec: what a request or response looks like as bytes, and what bytes mean. The
 functions are the specification; module WireCodec has the loops that compute them.
 */
module Wire {
  import opened Core

  type Byte = x: int | 0 <= x < 256

  const MAX_MESSAGE_SIZE: int := 4096
  const PROTOCOL_VERSION: Byte := 1
  const TAG_CREATE_INTERLOCK: Byte := 0x01
  const TAG_ATTACH_INTERLOCK: Byte := 0x02
  const TAG_CREATED: Byte := 0x81
  const TAG_ATTACHED: Byte := 0x82
  const TAG_ERROR: Byte := 0x88

  // -- Strings: UTF-8 by section 4 of RFC 3629 --

  predicate Tail(s: seq<Byte>, i: nat) {
    i < |s| && 0x80 <= s[i] <= 0xBF
  }

  /** The length of the character that starts at i; 0 if none does. */
  function CharLen(s: seq<Byte>, i: nat): (n: nat)
    requires i < |s|
    ensures i + n <= |s|
  {
    var b := s[i];
    if b <= 0x7F then 1
    else if 0xC2 <= b <= 0xDF then if Tail(s, i + 1) then 2 else 0
    else if 0xE0 <= b <= 0xEF then
      if Tail(s, i + 1) && Tail(s, i + 2) && (b == 0xE0 ==> s[i + 1] >= 0xA0) && (b == 0xED ==> s[i + 1] <= 0x9F)
      then 3 else 0
    else if 0xF0 <= b <= 0xF4 then
      if Tail(s, i + 1) && Tail(s, i + 2) && Tail(s, i + 3) && (b == 0xF0 ==> s[i + 1] >= 0x90)
         && (b == 0xF4 ==> s[i + 1] <= 0x8F)
      then 4 else 0
    else 0
  }

  predicate CharsFrom(s: seq<Byte>, i: nat)
    requires i <= |s|
    decreases |s| - i
  {
    i == |s| || (CharLen(s, i) > 0 && CharsFrom(s, i + CharLen(s, i)))
  }

  predicate IsUtf8(s: seq<Byte>) {
    CharsFrom(s, 0)
  }

  type Utf8 = s: seq<Byte> | IsUtf8(s) witness []

  // -- Messages --

  datatype Fault =
    | Truncated(needed: int, have: int)
    | FrameTooLarge(len: int, max: int)
    | UnsupportedVersion(version: Byte)
    | UnknownTag(tag: Byte)
    | InvalidUtf8

  datatype Result<+T> = Ok(value: T) | Err(fault: Fault) {
    predicate IsFailure() { Err? }
    function PropagateFailure<U>(): Result<U>
      requires Err?
    {
      Err(fault)
    }
    function Extract(): T
      requires Ok?
    {
      value
    }
  }

  datatype Condition = Condition(name: Utf8, word: Byte, threshold: U64)

  datatype Request =
    | CreateInterlock(
        name: Utf8, tier: Byte, watchedName: Option<Utf8>, watchedWord: Option<Byte>,
        intervalNs: Option<U64>, conditions: Option<seq<Condition>>)
    | AttachInterlock(name: Utf8)

  datatype Response =
    | Created(id: U64)
    | Attached(id: U64)
    | Error(code: Byte, message: Utf8)

  // -- Little-endian integers --

  function LE(n: nat, width: nat): (b: seq<Byte>)
    ensures |b| == width
  {
    if width == 0 then [] else [n % 256] + LE(n / 256, width - 1)
  }

  function FromLE(b: seq<Byte>): nat {
    if b == [] then 0 else b[0] + 256 * FromLE(b[1..])
  }

  function Pow256(width: nat): nat {
    if width == 0 then 1 else 256 * Pow256(width - 1)
  }

  lemma {:induction false} LERoundTrip(n: nat, width: nat)
    requires n < Pow256(width)
    ensures FromLE(LE(n, width)) == n
  {
    if width > 0 {
      LERoundTrip(n / 256, width - 1);
    }
  }

  lemma {:induction false} FromLEBound(b: seq<Byte>)
    ensures FromLE(b) < Pow256(|b|)
  {
    if b != [] {
      FromLEBound(b[1..]);
    }
  }

  lemma {:induction false} LEOfFromLE(b: seq<Byte>)
    ensures LE(FromLE(b), |b|) == b
  {
    if b != [] {
      var tail := FromLE(b[1..]);
      LEOfFromLE(b[1..]);
      assert (b[0] + 256 * tail) / 256 == tail && (b[0] + 256 * tail) % 256 == b[0];
      assert LE(FromLE(b), |b|) == [b[0]] + LE(tail, |b| - 1);
    }
  }

  lemma Widths()
    ensures Pow256(2) == 65536 && Pow256(4) == TWO32 && Pow256(8) == TWO64
  {
    assert Pow256(3) == 16777216 && Pow256(5) == 256 * TWO32;
    assert Pow256(6) == 65536 * TWO32 && Pow256(7) == 16777216 * TWO32;
  }

  function U16At(b: seq<Byte>, pos: nat): nat
    requires pos + 2 <= |b|
  {
    FromLE(b[pos..pos + 2])
  }

  function U64At(b: seq<Byte>, pos: nat): U64
    requires pos + 8 <= |b|
  {
    FromLEBound(b[pos..pos + 8]);
    Widths();
    FromLE(b[pos..pos + 8])
  }

  // -- Encoding --

  function EncodeString(s: Utf8): Result<seq<Byte>> {
    if |s| > 65535 then Err(FrameTooLarge(|s|, 65535)) else Ok(LE(|s|, 2) + s)
  }

  function EncodeCondition(c: Condition): Result<seq<Byte>> {
    var name :- EncodeString(c.name);
    Ok(name + [c.word] + LE(c.threshold, 8))
  }

  /** One encoding after another; the first fault decides. */
  function Then(a: Result<seq<Byte>>, b: Result<seq<Byte>>): Result<seq<Byte>> {
    var x :- a;
    var y :- b;
    Ok(x + y)
  }

  /** Conditions in order. */
  function EncodeConditions(conds: seq<Condition>): Result<seq<Byte>> {
    if conds == [] then Ok([])
    else Then(EncodeConditions(conds[..|conds| - 1]), EncodeCondition(conds[|conds| - 1]))
  }

  /** What follows the tier byte. A missing optional field encodes to nothing. */
  function EncodeFields(req: Request): Result<seq<Byte>>
    requires req.CreateInterlock?
  {
    if req.tier == 1 then
      if req.watchedWord.None? then Err(Truncated(1, 0))
      else if req.watchedName.None? then Ok([req.watchedWord.value])
      else
        var name :- EncodeString(req.watchedName.value);
        Ok(name + [req.watchedWord.value])
    else if req.tier == 3 then
      Ok(if req.intervalNs.Some? then LE(req.intervalNs.value, 8) else [])
    else if req.tier == 4 then
      if req.conditions.None? then Ok([])
      else
        var conds :- EncodeConditions(req.conditions.value);
        // The count is truncated to sixteen bits.
        Ok(LE(|req.conditions.value| % 65536, 2) + conds)
    else Ok([])
  }

  function EncodePayload(req: Request): Result<seq<Byte>> {
    var name :- EncodeString(req.name);
    match req
    case AttachInterlock(_) => Ok([PROTOCOL_VERSION, TAG_ATTACH_INTERLOCK] + name)
    case CreateInterlock(_, tier, _, _, _, _) =>
      var fields :- EncodeFields(req);
      Ok([PROTOCOL_VERSION, TAG_CREATE_INTERLOCK] + name + [tier] + fields)
  }

  function Frame(payload: seq<Byte>): Result<seq<Byte>> {
    if |payload| > MAX_MESSAGE_SIZE then Err(FrameTooLarge(|payload|, MAX_MESSAGE_SIZE))
    else Ok(LE(|payload|, 4) + payload)
  }

  function EncodeRequest(req: Request): Result<seq<Byte>> {
    var payload :- EncodePayload(req);
    Frame(payload)
  }

  function EncodeResponse(resp: Response): Result<seq<Byte>> {
    match resp
    case Created(id) => Frame([PROTOCOL_VERSION, TAG_CREATED] + LE(id, 8))
    case Attached(id) => Frame([PROTOCOL_VERSION, TAG_ATTACHED] + LE(id, 8))
    case Error(code, message) =>
      var m :- EncodeString(message);
      Frame([PROTOCOL_VERSION, TAG_ERROR, code] + m)
  }

  // -- Decoding --

  function DecodeString(data: seq<Byte>): Result<Utf8> {
    if |data| < 2 then Err(Truncated(2, |data|))
    else
      var len := U16At(data, 0);
      if |data| < 2 + len then Err(Truncated(2 + len, |data|))
      else if IsUtf8(data[2..2 + len]) then Ok(data[2..2 + len])
      else Err(InvalidUtf8)
  }

  /** One condition at pos, and the position after it. */
  function DecodeCondition(rest: seq<Byte>, pos: nat): (r: Result<(Condition, nat)>)
    requires pos <= |rest|
    ensures r.Ok? ==> pos < r.value.1 <= |rest|
  {
    var name :- DecodeString(rest[pos..]);
    var at := pos + 2 + |name|;
    if at >= |rest| then Err(Truncated(at + 1, |rest|))
    else if |rest| < at + 1 + 8 then Err(Truncated(at + 1 + 8, |rest|))
    else Ok((Condition(name, rest[at], U64At(rest, at + 1)), at + 9))
  }

  function DecodeConditions(rest: seq<Byte>, pos: nat, count: nat): (r: Result<(seq<Condition>, nat)>)
    requires pos <= |rest|
    ensures r.Ok? ==> pos <= r.value.1 <= |rest| && |r.value.0| == count
    decreases count
  {
    if count == 0 then Ok(([], pos))
    else
      var (c, next) :- DecodeCondition(rest, pos);
      var (cs, end) :- DecodeConditions(rest, next, count - 1);
      Ok(([c] + cs, end))
  }

  function DecodeCreate(rest: seq<Byte>): Result<Request> {
    var name :- DecodeString(rest);
    var pos := 2 + |name|;
    var have := |rest| + 2;
    if pos >= |rest| then Err(Truncated(have + 1, have))
    else
      var tier := rest[pos];
      var at := pos + 1;
      if tier == 1 then
        var wn :- DecodeString(rest[at..]);
        var end := at + 2 + |wn|;
        if end >= |rest| then Err(Truncated(have + 1, have))
        else Ok(CreateInterlock(name, tier, Some(wn), Some(rest[end]), None, None))
      else if tier == 3 then
        if |rest| < at + 8 then Err(Truncated(at + 8 + 2, |rest|))
        else Ok(CreateInterlock(name, tier, None, None, Some(U64At(rest, at)), None))
      else if tier == 4 then
        if |rest| < at + 2 then Err(Truncated(at + 2, |rest|))
        else
          var (conds, _) :- DecodeConditions(rest, at + 2, U16At(rest, at));
          Ok(CreateInterlock(name, tier, None, None, None, Some(conds)))
      else Ok(CreateInterlock(name, tier, None, None, None, None))
  }

  function DecodeRequest(data: seq<Byte>): Result<Request> {
    if |data| < 2 then Err(Truncated(2, |data|))
    else if data[0] != PROTOCOL_VERSION then Err(UnsupportedVersion(data[0]))
    else if data[1] == TAG_CREATE_INTERLOCK then DecodeCreate(data[2..])
    else if data[1] == TAG_ATTACH_INTERLOCK then
      var name :- DecodeString(data[2..]);
      Ok(AttachInterlock(name))
    else Err(UnknownTag(data[1]))
  }

  function DecodeResponse(data: seq<Byte>): Result<Response> {
    if |data| < 2 then Err(Truncated(2, |data|))
    else if data[0] != PROTOCOL_VERSION then Err(UnsupportedVersion(data[0]))
    else
      var rest := data[2..];
      if data[1] == TAG_CREATED || data[1] == TAG_ATTACHED then
        if |rest| < 8 then Err(Truncated(10, |data|))
        else Ok(if data[1] == TAG_CREATED then Created(U64At(rest, 0)) else Attached(U64At(rest, 0)))
      else if data[1] == TAG_ERROR then
        if rest == [] then Err(Truncated(3, |data|))
        else if |rest| == 1 then Ok(Error(rest[0], []))
        else
          var message :- DecodeString(rest[1..]);
          Ok(Error(rest[0], message))
      else Err(UnknownTag(data[1]))
  }
}
