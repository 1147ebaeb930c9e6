/**
 The messages byte by byte: version, tag, lengths and numbers at their places, in little-endian order.
 This is the format itself, written down apart from the encoder.
 */
module WireLayout {
  import opened Core
  import opened Wire
  import opened WireLaws

  // -- Numbers and strings --

  function Two(n: nat): seq<Byte>
    requires n < 65536
  {
    [n % 256, n / 256]
  }

  function Four(n: nat): seq<Byte>
    requires n < 0x1_0000_0000
  {
    Two(n % 65536) + Two(n / 65536)
  }

  function Eight(n: nat): seq<Byte>
    requires n < 0x1_0000_0000_0000_0000
  {
    Four(n % 0x1_0000_0000) + Four(n / 0x1_0000_0000)
  }

  /** A length and the bytes it counts. */
  function Counted(s: seq<Byte>): seq<Byte>
    requires |s| < 65536
  {
    Two(|s|) + s
  }

  /** The low bytes of a number n, then the high ones. */
  lemma {:induction false} LESplit(n: nat, high: nat, low: nat, a: nat, b: nat, p: nat)
    requires p == Pow256(a) && low < p && n == high * p + low
    ensures LE(n, a + b) == LE(low, a) + LE(high, b)
    decreases a
  {
    if a == 0 {
      assert low == 0 && high * p == high;
      assert LE(low, 0) + LE(high, b) == LE(high, b);
    } else {
      var q := Pow256(a - 1);
      assert p == 256 * q;
      Carry(n, high, low, q);
      hide LE, Pow256;
      LESplit(n / 256, high, low / 256, a - 1, b, q);
      LEHead(n, a + b);
      LEHead(low, a);
      assert a + b - 1 == a - 1 + b;
    }
  }

  lemma Carry(n: nat, high: nat, low: nat, q: nat)
    requires n == high * (256 * q) + low && low < 256 * q
    ensures n / 256 == high * q + low / 256 && n % 256 == low % 256 && low / 256 < q
  {
    var k := high * q;
    assert high * (256 * q) == 256 * k;
  }

  lemma LEHead(n: nat, width: nat)
    requires width > 0
    ensures LE(n, width) == [n % 256] + LE(n / 256, width - 1)
  {
  }

  lemma LittleEndian(n: nat)
    ensures n < 65536 ==> LE(n, 2) == Two(n)
    ensures n < 0x1_0000_0000 ==> LE(n, 4) == Four(n)
    ensures n < 0x1_0000_0000_0000_0000 ==> LE(n, 8) == Eight(n)
  {
    Widths();
    TwoBytes(n);
    if n < 0x1_0000_0000 {
      FourBytes(n);
    }
    if n < 0x1_0000_0000_0000_0000 {
      LESplit(n, n / 0x1_0000_0000, n % 0x1_0000_0000, 4, 4, 0x1_0000_0000);
      FourBytes(n % 0x1_0000_0000);
      FourBytes(n / 0x1_0000_0000);
    }
  }

  lemma FourBytes(n: nat)
    requires n < 0x1_0000_0000
    ensures LE(n, 4) == Four(n)
  {
    Widths();
    LESplit(n, n / 65536, n % 65536, 2, 2, 65536);
    TwoBytes(n % 65536);
    TwoBytes(n / 65536);
  }

  lemma TwoBytes(n: nat)
    ensures n < 65536 ==> LE(n, 2) == Two(n)
  {
    assert LE(n, 2) == [n % 256] + LE(n / 256, 1);
    assert LE(n / 256, 1) == [n / 256 % 256] + LE(n / 256 / 256, 0);
  }

  // -- Requests --

  predicate Sendable(c: Condition) {
    |c.name| < 65536
  }

  /** The conditions one after the other, first to last: name, word, threshold. */
  function Listed(conds: seq<Condition>): seq<Byte>
    requires forall i | 0 <= i < |conds| :: Sendable(conds[i])
  {
    if conds == [] then []
    else
      assert Sendable(conds[0]);
      Counted(conds[0].name) + [conds[0].word] + Eight(conds[0].threshold) + Listed(conds[1..])
  }

  lemma {:induction false} EncodedAsListed(conds: seq<Condition>)
    requires EncodeConditions(conds).Ok?
    ensures forall i | 0 <= i < |conds| :: Sendable(conds[i])
    ensures EncodeConditions(conds).value == Listed(conds)
    decreases |conds|
  {
    hide IsUtf8, LE, Eight, Two;
    if conds != [] {
      var (c, rest) := (conds[0], conds[1..]);
      assert conds == [c] + rest;
      ConditionsFromFront(c, rest);
      EncodedAsListed(rest);
      LittleEndian(c.threshold);
      LittleEndian(|c.name|);
    }
  }

  /** What a create message has behind its tier byte. */
  ghost predicate Fields(req: Request, rest: seq<Byte>)
    requires req.CreateInterlock? && HasRequired(req)
  {
    if req.tier == 1 then
      |req.watchedName.value| < 65536 && rest == Counted(req.watchedName.value) + [req.watchedWord.value]
    else if req.tier == 3 then rest == Eight(req.intervalNs.value)
    else if req.tier == 4 then
      var conds := req.conditions.value;
      |conds| < 65536 && (forall i | 0 <= i < |conds| :: Sendable(conds[i])) && rest == Two(|conds|) + Listed(conds)
    else rest == []
  }

  lemma FieldsLaidOut(req: Request)
    requires EncodeRequest(req).Ok? && req.CreateInterlock? && HasRequired(req)
    ensures EncodeFields(req).Ok? && Fields(req, EncodeFields(req).value)
  {
    hide IsUtf8, LE, Two, Eight, EncodeConditions, Listed;
    if req.tier == 1 {
      LittleEndian(|req.watchedName.value|);
    } else if req.tier == 3 {
      LittleEndian(req.intervalNs.value);
    } else if req.tier == 4 {
      CountIsExact(req);
      EncodedAsListed(req.conditions.value);
      LittleEndian(|req.conditions.value|);
    }
  }

  /**
   The frame of every complete request that can be sent: four bytes of payload length, version 1, tag 1 for
   create or 2 for attach, the counted name; then for a create the tier byte and, for a counter, the counted
   name and the word it watches, for a cron eight bytes of interval, for a barrier two bytes of count
   and the conditions, and nothing for the other tiers.
   */
  lemma RequestLayout(req: Request)
    requires EncodeRequest(req).Ok? && HasRequired(req)
    ensures var frame := EncodeRequest(req).value;
            var n := 8 + |req.name|;
            && n <= |frame| <= 4100 && |req.name| < 65536
            && frame[..4] == Four(|frame| - 4)
            && frame[4] == 1 && frame[5] == (if req.CreateInterlock? then 1 else 2)
            && frame[6..n] == Counted(req.name)
            && (req.AttachInterlock? ==> |frame| == n)
            && (req.CreateInterlock? ==> n < |frame| && frame[n] == req.tier && Fields(req, frame[n + 1..]))
  {
    hide IsUtf8, LE, Four, Two, EncodeFields, Fields;
    var payload := EncodePayload(req).value;
    var frame := EncodeRequest(req).value;
    LittleEndian(|payload|);
    LittleEndian(|req.name|);
    assert frame == Four(|payload|) + payload;
    assert |Four(|payload|)| == 4;
    var head: seq<Byte> := [1, if req.CreateInterlock? then 1 else 2];
    if req.CreateInterlock? {
      FieldsLaidOut(req);
      assert payload == head + Counted(req.name) + [req.tier] + EncodeFields(req).value;
    } else {
      assert payload == head + Counted(req.name);
    }
    var n := 4 + |req.name|;
    assert |Counted(req.name)| == 2 + |req.name|;
    assert payload[2..n] == Counted(req.name);
    assert frame[6..n + 4] == payload[2..n];
    if req.CreateInterlock? {
      assert payload[n] == req.tier && payload[n + 1..] == EncodeFields(req).value;
      assert frame[n + 5..] == payload[n + 1..];
    }
  }

  /** The longest payload is 4096 bytes: so an attach can be sent exactly for names of at most 4092 bytes. */
  lemma AttachIsSentIff(name: Utf8)
    ensures EncodeRequest(AttachInterlock(name)).Ok? <==> |name| <= 4092
  {
    hide IsUtf8, LE;
  }

  // -- Which fault --

  function Number(low: int, high: int): int {
    low + 256 * high
  }

  lemma TwoAt(b: seq<Byte>, pos: nat)
    requires pos + 2 <= |b|
    ensures U16At(b, pos) == Number(b[pos], b[pos + 1])
  {
    var pair := b[pos..pos + 2];
    assert pair == [b[pos], b[pos + 1]] && pair[1..] == [b[pos + 1]] && pair[1..][1..] == [];
    assert FromLE(pair[1..]) == Number(b[pos + 1], FromLE(pair[1..][1..]));
  }

  /**
   What is wrong with bytes that are no request: too short for version and tag, another version, another
   tag. An attach is cut off, not UTF-8, or accepted, by its own count; a create has no other faults than these.
   */
  lemma FaultOf(d: seq<Byte>)
    ensures |d| < 2 ==> DecodeRequest(d) == Err(Truncated(2, |d|))
    ensures |d| >= 2 && d[0] != 1 ==> DecodeRequest(d) == Err(UnsupportedVersion(d[0]))
    ensures |d| >= 2 && d[0] == 1 && d[1] != 1 && d[1] != 2 ==> DecodeRequest(d) == Err(UnknownTag(d[1]))
    ensures 2 <= |d| < 4 && d[0] == 1 && d[1] == 2 ==> DecodeRequest(d) == Err(Truncated(2, |d| - 2))
    ensures |d| >= 4 && d[0] == 1 && d[1] == 2 ==>
              var n := Number(d[2], d[3]);
              DecodeRequest(d)
              == if |d| < 4 + n then Err(Truncated(2 + n, |d| - 2))
                 else if IsUtf8(d[4..4 + n]) then Ok(AttachInterlock(d[4..4 + n])) else Err(InvalidUtf8)
    ensures |d| >= 2 && d[0] == 1 && d[1] == 1 && DecodeRequest(d).Err? ==>
              DecodeRequest(d).fault.Truncated? || DecodeRequest(d).fault.InvalidUtf8?
  {
    hide IsUtf8;
    if |d| >= 4 {
      TwoAt(d[2..], 0);
      var n := Number(d[2], d[3]);
      if |d| >= 4 + n {
        assert d[2..][2..2 + n] == d[4..4 + n];
      }
    }
    if |d| >= 2 && d[1] == 1 {
      CreateFault(d[2..]);
    }
  }

  lemma CreateFault(rest: seq<Byte>)
    ensures DecodeCreate(rest).Err? ==> DecodeCreate(rest).fault.Truncated? || DecodeCreate(rest).fault.InvalidUtf8?
  {
    hide IsUtf8;
    forall pos: nat, count: nat | pos <= |rest| && DecodeConditions(rest, pos, count).Err?
      ensures var f := DecodeConditions(rest, pos, count).fault; f.Truncated? || f.InvalidUtf8?
    {
      ConditionsFault(rest, pos, count);
    }
  }

  lemma {:induction false} ConditionsFault(rest: seq<Byte>, pos: nat, count: nat)
    requires pos <= |rest| && DecodeConditions(rest, pos, count).Err?
    ensures var f := DecodeConditions(rest, pos, count).fault; f.Truncated? || f.InvalidUtf8?
    decreases count
  {
    hide IsUtf8;
    var first := DecodeCondition(rest, pos);
    if first.Ok? {
      ConditionsFault(rest, first.value.1, count - 1);
    }
  }

  /** Why a request is not sent: a counter's missing word, a name over 65535 bytes, or a payload over 4096. */
  lemma UnsentBecause(req: Request)
    requires EncodeRequest(req).Err?
    ensures match EncodeRequest(req).fault
            case Truncated(needed, have) =>
              req.CreateInterlock? && req.tier == 1 && req.watchedWord.None? && needed == 1 && have == 0
            case FrameTooLarge(len, max) => len > max && (max == 65535 || max == 4096)
            case _ => false
  {
    hide IsUtf8, LE;
    if req.CreateInterlock? && req.tier == 4 && req.conditions.Some? {
      ConditionsUnsent(req.conditions.value);
    }
  }

  lemma {:induction false} ConditionsUnsent(conds: seq<Condition>)
    ensures EncodeConditions(conds).Err? ==>
              var f := EncodeConditions(conds).fault; f.FrameTooLarge? && f.len > f.max == 65535
  {
    hide IsUtf8, LE;
    if conds != [] {
      ConditionsUnsent(conds[..|conds| - 1]);
    }
  }

  // -- Responses --

  /** Version 1, tag 0x81 or 0x82 and eight bytes of id; or tag 0x88, the code and the counted text. */
  lemma ResponseLayout(resp: Response)
    requires EncodeResponse(resp).Ok?
    ensures var frame := EncodeResponse(resp).value;
            && (resp.Created? ==> frame == [10, 0, 0, 0, 1, 0x81] + Eight(resp.id))
            && (resp.Attached? ==> frame == [10, 0, 0, 0, 1, 0x82] + Eight(resp.id))
            && (resp.Error? ==>
                  && |resp.message| < 4092
                  && frame == Four(|resp.message| + 5) + [1, 0x88, resp.code] + Counted(resp.message))
  {
    hide IsUtf8, LE, Eight, Two;
    match resp
    case Error(code, message) =>
      LittleEndian(|message|);
      LittleEndian(|message| + 5);
      var payload := [PROTOCOL_VERSION, TAG_ERROR, code] + Counted(message);
      assert |payload| == |message| + 5;
      assert EncodeResponse(resp).value == Four(|message| + 5) + payload;
    case _ =>
      LittleEndian(resp.id);
      LittleEndian(10);
      TenBytes();
  }

  lemma TenBytes()
    ensures Four(10) == [10, 0, 0, 0]
  {
  }
}
