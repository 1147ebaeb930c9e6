/**
 Frames over a byte stream, whatever the kernel does: short reads and writes, interrupted
 calls, calls that would block. A script lists what each system call will do; a run that ends
 inside a retry loop because the script is used up is reported as Stalled.
 */
module Framing {
  import opened Core
  import opened Wire
  import opened WireLaws
  import opened WireCodec

  const EPIPE: int := 32
  const EAGAIN: int := 11

  /** What the kernel will do on one call. */
  datatype Event =
    | Ready(most: nat) // moves at least one byte and at most this many, if any can move
    | Interrupt
    | NotYet
    | HangUp // the peer closed; a reader learns it once nothing is left to read
    | Broken(errno: int)

  /** What one call returns. */
  datatype Sys = Count(n: nat) | Interrupted | Blocked | Errno(errno: int) | NoCall

  datatype IoOperation = ReadOp | WriteOp | SendMsgOp

  datatype TransportFault =
    | ConnectionClosed
    | WouldBlock
    | Protocol(fault: Fault)
    | Io(operation: IoOperation, errno: int)
    | Stalled

  datatype Outcome<+T> = Success(value: T) | Failure(error: TransportFault) {
    predicate IsFailure() { Failure? }
    function PropagateFailure<U>(): Outcome<U>
      requires Failure?
    {
      Failure(error)
    }
    function Extract(): T
      requires Success?
    {
      value
    }
  }

  /** How many calls of a script can move bytes. */
  ghost function Moves(script: seq<Event>): nat {
    if script == [] then 0 else (if script[0].Ready? then 1 else 0) + Moves(script[1..])
  }

  predicate Unbroken(script: seq<Event>) {
    forall e <- script :: !e.Broken?
  }

  function Min(a: nat, b: nat): nat { if a < b then a else b }

  function Max(a: int, b: int): int { if a < b then b else a }

  /** What a read of at most limit bytes returns when unread is still to come. */
  function ReadCall(script: seq<Event>, unread: seq<Byte>, limit: nat): (r: Sys)
    requires limit > 0
    ensures r.Count? ==> r.n <= limit && r.n <= |unread| && (r.n == 0 <==> unread == [])
  {
    if script == [] then NoCall
    else
      match script[0]
      case Ready(most) =>
        if unread == [] then Blocked else Count(Min(Min(if most == 0 then 1 else most, limit), |unread|))
      case Interrupt => Interrupted
      case NotYet => Blocked
      case HangUp => if unread == [] then Count(0) else Blocked
      case Broken(e) => Errno(e)
  }

  /** What a write of size bytes returns. A socket that takes nothing returns zero. */
  function WriteCall(script: seq<Event>, size: nat): (r: Sys)
    requires size > 0
    ensures r.Count? ==> r.n <= size
  {
    if script == [] then NoCall
    else
      match script[0]
      case Ready(most) => Count(Min(most, size))
      case Interrupt => Interrupted
      case NotYet => Blocked
      case HangUp => Errno(EPIPE)
      case Broken(e) => Errno(e)
  }

  method CopyInto(buf: array<Byte>, at: nat, bytes: seq<Byte>)
    requires at + |bytes| <= buf.Length
    modifies buf
    ensures buf[..at] == old(buf[..at]) && buf[at..at + |bytes|] == bytes
  {
    forall k | 0 <= k < |bytes| {
      buf[at + k] := bytes[k];
    }
  }

  /** The reading end: everything the peer sends, as far as it has not been read. */
  class Incoming {
    var unread: seq<Byte>
    var script: seq<Event>

    constructor (bytes: seq<Byte>, script: seq<Event>)
      ensures unread == bytes && this.script == script
    {
      unread, this.script := bytes, script;
    }

    method Read(buf: array<Byte>, filled: nat) returns (r: Sys)
      requires filled < buf.Length
      modifies this, buf
      ensures r == ReadCall(old(script), old(unread), buf.Length - filled)
      ensures script == if old(script) == [] then [] else old(script)[1..]
      ensures r.Count? ==> unread == old(unread)[r.n..] && buf[filled..filled + r.n] == old(unread)[..r.n]
      ensures !r.Count? ==> unread == old(unread)
      ensures buf[..filled] == old(buf[..filled])
    {
      r := ReadCall(script, unread, buf.Length - filled);
      if script != [] {
        script := script[1..];
      }
      if r.Count? {
        CopyInto(buf, filled, unread[..r.n]);
        unread := unread[r.n..];
      }
    }
  }

  /** The writing end: everything handed to the kernel so far. */
  class Outgoing {
    var sent: seq<Byte>
    var script: seq<Event>

    constructor (script: seq<Event>)
      ensures sent == [] && this.script == script
    {
      sent, this.script := [], script;
    }

    method Write(bytes: seq<Byte>) returns (r: Sys)
      requires bytes != []
      modifies this
      ensures r == WriteCall(old(script), |bytes|)
      ensures script == if old(script) == [] then [] else old(script)[1..]
      ensures sent == if r.Count? then old(sent) + bytes[..r.n] else old(sent)
    {
      r := WriteCall(script, |bytes|);
      if script != [] {
        script := script[1..];
      }
      if r.Count? {
        sent := sent + bytes[..r.n];
      }
    }
  }

  // -- Reading --

  /** What filling a buffer of total bytes may answer, when unread turns into after. */
  ghost predicate FillAllowed(
    unread: seq<Byte>, after: seq<Byte>, total: nat, frameStart: bool, error: Option<TransportFault>) {
    var taken := |unread| - |after|;
    && 0 <= taken <= total
    && after == unread[taken..]
    && match error
       case None => taken == total
       case Some(ConnectionClosed) => frameStart && unread == [] && total > 0
       case Some(WouldBlock) => frameStart && taken == 0 && total > 0
       case Some(Protocol(fault)) =>
         after == [] && taken < total && !(frameStart && taken == 0) && fault == Truncated(total, taken)
       case Some(Io(op, _)) => op == ReadOp && taken < total
       case Some(Stalled) => taken < total
  }

  /**
   A call that can move bytes moves one at least, so filling only stalls when the script has too
   few of them; and it only meets an errno that the script contains.
   */
  ghost predicate Supplied(
    unread: seq<Byte>, script: seq<Event>, after: seq<Byte>, left: seq<Event>, total: nat,
    error: Option<TransportFault>)
  {
    && (|unread| >= total ==> Moves(script) <= Moves(left) + |unread| - |after|)
    && (error == Some(Stalled) ==> left == [])
    && |left| <= |script|
    && (total > 0 && script != [] ==> |left| < |script|)
    && (Unbroken(script) ==> Unbroken(left) && !(error.Some? && error.value.Io?))
  }

  method ReadExactRetrying(s: Incoming, buf: array<Byte>, frameStart: bool) returns (error: Option<TransportFault>)
    modifies s, buf
    ensures FillAllowed(old(s.unread), s.unread, buf.Length, frameStart, error)
    ensures error.None? ==> buf[..] == old(s.unread)[..buf.Length]
    ensures Supplied(old(s.unread), old(s.script), s.unread, s.script, buf.Length, error)
  {
    ghost var start, plan := s.unread, s.script;
    var filled: nat := 0;
    while filled < buf.Length
      invariant filled <= buf.Length
      invariant filled <= |start| && s.unread == start[filled..] && buf[..filled] == start[..filled]
      invariant |start| >= buf.Length ==> Moves(plan) <= Moves(s.script) + filled
      invariant forall e <- s.script :: e in plan
      invariant |s.script| <= |plan| && (filled > 0 && plan != [] ==> |s.script| < |plan|)
      decreases |s.script|
    {
      var call := s.Read(buf, filled);
      if call.NoCall? {
        return Some(Stalled);
      } else if call.Count? && call.n == 0 {
        if filled == 0 && frameStart {
          return Some(ConnectionClosed);
        }
        return Some(Protocol(Truncated(buf.Length, filled)));
      } else if call.Count? {
        assert buf[..filled + call.n] == buf[..filled] + buf[filled..filled + call.n] == start[..filled + call.n];
        filled := filled + call.n;
      } else if call.Errno? {
        return Some(Io(ReadOp, call.errno));
      } else if call.Blocked? && filled == 0 && frameStart {
        return Some(WouldBlock);
      }
      // Interrupted, or blocked in the middle of a frame: try again.
    }
    assert buf[..] == buf[..filled];
    return None;
  }

  /** unread starts with a frame of an acceptable size that is there in full. */
  predicate HasFrame(unread: seq<Byte>) {
    |unread| >= 4 && FromLE(unread[..4]) <= MAX_MESSAGE_SIZE && |unread| >= 4 + FromLE(unread[..4])
  }

  predicate Oversized(unread: seq<Byte>) {
    |unread| >= 4 && FromLE(unread[..4]) > MAX_MESSAGE_SIZE
  }

  function FrameLen(unread: seq<Byte>): nat
    requires |unread| >= 4
  {
    4 + FromLE(unread[..4])
  }

  /** Some bytes were read, but not the whole first frame. */
  predicate InsideFrame(unread: seq<Byte>, after: seq<Byte>) {
    && |after| <= |unread|
    && after == unread[|unread| - |after|..]
    && (if |unread| >= 4 && !Oversized(unread) then |unread| - |after| < FrameLen(unread) else |unread| - |after| < 4)
  }

  /** What receiving a request may answer, when unread turns into after. */
  ghost predicate ReceiveAllowed(unread: seq<Byte>, after: seq<Byte>, r: Outcome<Request>) {
    match r
    case Success(req) =>
      HasFrame(unread) && after == unread[FrameLen(unread)..] && DecodeRequest(unread[4..FrameLen(unread)]) == Ok(req)
    case Failure(Protocol(fault)) =>
      if HasFrame(unread) then
        after == unread[FrameLen(unread)..] && DecodeRequest(unread[4..FrameLen(unread)]) == Err(fault)
      else if Oversized(unread) then
        after == unread[4..] && fault == FrameTooLarge(FrameLen(unread) - 4, MAX_MESSAGE_SIZE)
      else
        && unread != [] && after == []
        && fault == if |unread| < 4 then Truncated(4, |unread|) else Truncated(FrameLen(unread) - 4, |unread| - 4)
    case Failure(WouldBlock) => after == unread
    case Failure(ConnectionClosed) => after == unread == []
    case Failure(Io(op, _)) => op == ReadOp && InsideFrame(unread, after)
    case Failure(Stalled) => InsideFrame(unread, after)
  }

  method ReadFramePrefix(s: Incoming) returns (r: Outcome<nat>)
    modifies s
    ensures r.Success? ==> |old(s.unread)| >= 4 && s.unread == old(s.unread)[4..]
    ensures r.Success? ==> FromLE(old(s.unread)[..4]) == r.value <= MAX_MESSAGE_SIZE
    ensures r.Failure? ==> ReceiveAllowed(old(s.unread), s.unread, Failure(r.error))
    ensures r.Failure? ==> !(HasFrame(old(s.unread)) && r.error.Protocol?)
    ensures Supplied(old(s.unread), old(s.script), s.unread, s.script, 4, if r.Failure? then Some(r.error) else None)
  {
    hide FromLE;
    var prefix := new Byte[4];
    var error := ReadExactRetrying(s, prefix, true);
    if error.Some? {
      return Failure(error.value);
    }
    var len := FromLE(prefix[..]);
    if len > MAX_MESSAGE_SIZE {
      return Failure(Protocol(FrameTooLarge(len, MAX_MESSAGE_SIZE)));
    }
    return Success(len);
  }

  method ReadFramePayload(s: Incoming, len: nat) returns (r: Outcome<seq<Byte>>)
    modifies s
    ensures FillAllowed(old(s.unread), s.unread, len, false, if r.Failure? then Some(r.error) else None)
    ensures r.Success? ==> r.value == old(s.unread)[..len]
    ensures Supplied(old(s.unread), old(s.script), s.unread, s.script, len, if r.Failure? then Some(r.error) else None)
  {
    var payload := new Byte[len];
    var error := ReadExactRetrying(s, payload, false);
    if error.Some? {
      return Failure(error.value);
    }
    return Success(payload[..]);
  }

  /** One request off the stream: exactly one frame, or a fault that says how far it came. */
  method RecvRequest(s: Incoming) returns (r: Outcome<Request>)
    modifies s
    ensures ReceiveAllowed(old(s.unread), s.unread, r)
    ensures HasFrame(old(s.unread)) ==> Moves(old(s.script)) <= Moves(s.script) + |old(s.unread)| - |s.unread|
    ensures |s.script| <= |old(s.script)| && (old(s.script) != [] ==> |s.script| < |old(s.script)|)
    ensures r.Failure? && r.error.Stalled? ==> s.script == []
    ensures r.Failure? && r.error.ConnectionClosed? ==> old(s.unread) == []
    ensures r.Failure? && !r.error.Protocol? && HasFrame(old(s.unread)) ==> s.unread != []
    ensures Unbroken(old(s.script)) ==> Unbroken(s.script) && !(r.Failure? && r.error.Io?)
  {
    hide FromLE, DecodeRequest, Moves, Unbroken;
    ghost var from := s.unread;
    var len :- ReadFramePrefix(s);
    assert !Oversized(from) && FrameLen(from) == 4 + len;
    var payload :- ReadFramePayload(s, len);
    assert HasFrame(from) && payload == from[4..4 + len];
    var decoded := ReadRequest(payload);
    if decoded.Err? {
      return Failure(Protocol(decoded.fault));
    }
    return Success(decoded.value);
  }

  // -- Writing --

  /** All of bytes was sent, or a strict prefix and there is a fault: nothing twice or out of order. */
  ghost predicate SentAllowed(
    before: seq<Byte>, after: seq<Byte>, bytes: seq<Byte>, error: Option<TransportFault>) {
    && |before| <= |after| <= |before| + |bytes|
    && after == before + bytes[..|after| - |before|]
    && (error.None? <==> after == before + bytes)
    && (error.Some? ==> error.value.Stalled? || (error.value.Io? && error.value.operation != ReadOp))
  }

  /** Every call of the script moves something or is interrupted. */
  predicate Smooth(script: seq<Event>) {
    forall e <- script :: e.Interrupt? || (e.Ready? && e.most >= 1)
  }

  /** The event that makes a write fail with this errno. */
  predicate Refuses(e: Event, errno: int) {
    match e
    case Ready(most) => most == 0 && errno == 32
    case Interrupt => false
    case NotYet => errno == 11
    case HangUp => errno == 32
    case Broken(code) => errno == code
  }

  /** n bytes went out: at least one for each call that could move any, and a failure is the kernel's. */
  ghost predicate Delivers(script: seq<Event>, left: seq<Event>, n: nat, error: Option<TransportFault>) {
    && (Smooth(script) ==> Smooth(left) && Moves(script) <= Moves(left) + n)
    && (error.Some? && error.value.Io? ==> exists e :: e in script && Refuses(e, error.value.errno))
    && (error == Some(Stalled) ==> left == [])
  }

  lemma DeliversAll(script: seq<Event>, left: seq<Event>, before: seq<Byte>, after: seq<Byte>, bytes: seq<Byte>,
                    error: Option<TransportFault>)
    requires SentAllowed(before, after, bytes, error) && Delivers(script, left, |after| - |before|, error)
    requires Smooth(script) && Moves(script) >= |bytes|
    ensures error.None?
  {
    assert bytes[..|bytes|] == bytes;
    assert Moves([]) == 0;
  }

  method WriteAllRetrying(out: Outgoing, bytes: seq<Byte>) returns (error: Option<TransportFault>)
    modifies out
    ensures SentAllowed(old(out.sent), out.sent, bytes, error)
    ensures error.Some? && error.value.Io? ==> error.value.operation == WriteOp
    ensures Delivers(old(out.script), out.script, |out.sent| - |old(out.sent)|, error)
    ensures Smooth(old(out.script)) && Moves(old(out.script)) >= |bytes| ==> error.None?
  {
    ghost var start, plan := out.sent, out.script;
    var written: nat := 0;
    while written < |bytes|
      invariant written <= |bytes|
      invariant out.sent == start + bytes[..written]
      invariant Delivers(plan, out.script, written, None)
      invariant forall e <- out.script :: e in plan
      decreases |out.script|
    {
      ghost var script := out.script;
      var call := out.Write(bytes[written..]);
      if call.NoCall? {
        assert script == out.script == [] && Moves(script) == 0;
        return Some(Stalled);
      } else if call.Count? && call.n == 0 {
        assert Refuses(script[0], EPIPE) && script[0] in plan;
        return Some(Io(WriteOp, EPIPE));
      } else if call.Count? {
        assert bytes[..written + call.n] == bytes[..written] + bytes[written..][..call.n];
        written := written + call.n;
      } else if call.Errno? {
        assert Refuses(script[0], call.errno) && script[0] in plan;
        return Some(Io(WriteOp, call.errno));
      } else if call.Blocked? {
        assert Refuses(script[0], EAGAIN) && script[0] in plan;
        return Some(Io(WriteOp, EAGAIN));
      }
    }
    assert bytes[..written] == bytes;
    return None;
  }

  /** One sendmsg, which may send less than all of it; only an interrupted call is made again. */
  method SendmsgRetry(out: Outgoing, bytes: seq<Byte>) returns (r: Outcome<nat>)
    requires bytes != []
    modifies out
    ensures r.Success? ==> r.value <= |bytes| && out.sent == old(out.sent) + bytes[..r.value]
    ensures r.Failure? ==> out.sent == old(out.sent)
    ensures r.Failure? ==> r.error.Stalled? || (r.error.Io? && r.error.operation == SendMsgOp)
    ensures Delivers(old(out.script), out.script, if r.Success? then r.value else 0,
                     if r.Failure? then Some(r.error) else None)
    ensures forall e <- out.script :: e in old(out.script)
  {
    ghost var start, plan := out.sent, out.script;
    while true
      invariant out.sent == start
      invariant Delivers(plan, out.script, 0, None)
      invariant forall e <- out.script :: e in plan
      decreases |out.script|
    {
      ghost var script := out.script;
      var call := out.Write(bytes);
      if call.NoCall? {
        return Failure(Stalled);
      } else if call.Count? {
        return Success(call.n);
      } else if call.Errno? {
        assert Refuses(script[0], call.errno) && script[0] in plan;
        return Failure(Io(SendMsgOp, call.errno));
      } else if call.Blocked? {
        assert Refuses(script[0], EAGAIN) && script[0] in plan;
        return Failure(Io(SendMsgOp, EAGAIN));
      }
    }
  }

  /** The descriptor travels with the first bytes; the rest of the frame follows as plain writes. */
  method SendmsgWithFds(out: Outgoing, frame: seq<Byte>) returns (error: Option<TransportFault>)
    requires frame != []
    modifies out
    ensures SentAllowed(old(out.sent), out.sent, frame, error)
    ensures Delivers(old(out.script), out.script, |out.sent| - |old(out.sent)|, error)
    ensures Smooth(old(out.script)) && Moves(old(out.script)) >= |frame| ==> error.None?
  {
    hide WriteCall;
    ghost var start := out.sent;
    var sent := SendmsgRetry(out, frame);
    if sent.Failure? {
      return Some(sent.error);
    }
    assert frame == frame[..sent.value] + frame[sent.value..];
    error := None;
    if sent.value < |frame| {
      ghost var mid := out.sent;
      error := WriteAllRetrying(out, frame[sent.value..]);
      SentOn(start, mid, out.sent, frame, sent.value, error);
    }
  }

  lemma SentOn(
    start: seq<Byte>, mid: seq<Byte>, after: seq<Byte>, frame: seq<Byte>, k: nat, error: Option<TransportFault>)
    requires k <= |frame| && mid == start + frame[..k] && SentAllowed(mid, after, frame[k..], error)
    ensures SentAllowed(start, after, frame, error)
  {
    var n := |after| - |mid|;
    assert frame[..k + n] == frame[..k] + frame[k..][..n];
    assert frame == frame[..k] + frame[k..];
    assert after == start + frame[..k + n];
    assert after == start + frame ==> k + n == |frame|;
  }

  // -- Whole conversations --

  /** A request as it arrives: complete requests lose foreign fields, others are reported. */
  function Arrival(req: Request): Result<Request>
    requires EncodeRequest(req).Ok?
  {
    DecodeRequest(EncodePayload(req).value)
  }

  predicate Encodable(reqs: seq<Request>) {
    forall req <- reqs :: EncodeRequest(req).Ok?
  }

  /** The bytes of a conversation: one frame after the other. */
  function Stream(reqs: seq<Request>): (bytes: seq<Byte>)
    requires Encodable(reqs)
  {
    if reqs == [] then [] else EncodeRequest(reqs[0]).value + Stream(reqs[1..])
  }

  // A conversation's first frame is there in full, and behind it stands the rest.
  lemma {:induction false} FirstFrame(reqs: seq<Request>, tail: seq<Byte>)
    requires Encodable(reqs) && reqs != []
    ensures var bytes := Stream(reqs) + tail;
            && HasFrame(bytes)
            && FrameLen(bytes) == |EncodeRequest(reqs[0]).value|
            && bytes[4..FrameLen(bytes)] == EncodePayload(reqs[0]).value
            && bytes[FrameLen(bytes)..] == Stream(reqs[1..]) + tail
  {
    hide FromLE, LE, EncodePayload, IsUtf8;
    assert EncodeRequest(reqs[0]).Ok?;
    var payload := EncodePayload(reqs[0]).value;
    FrameParts(payload);
    var frame := Frame(payload).value;
    var bytes := Stream(reqs) + tail;
    assert bytes == frame + (Stream(reqs[1..]) + tail);
    assert bytes[..4] == frame[..4];
    assert bytes[4..|frame|] == frame[4..];
  }

  /** What is left of a frame that was cut off while it was sent. */
  predicate Unfinished(tail: seq<Byte>) {
    !HasFrame(tail) && !Oversized(tail)
  }

  lemma {:induction false} CutFrame(req: Request, n: nat)
    requires EncodeRequest(req).Ok? && n < |EncodeRequest(req).value|
    ensures Unfinished(EncodeRequest(req).value[..n])
  {
    hide FromLE, LE, EncodePayload, IsUtf8;
    var payload := EncodePayload(req).value;
    FrameParts(payload);
    var frame := EncodeRequest(req).value;
    if n >= 4 {
      assert frame[..n][..4] == frame[..4];
    }
  }

  lemma {:induction false} StreamGrows(reqs: seq<Request>, n: nat)
    requires Encodable(reqs) && n < |reqs|
    ensures Stream(reqs[..n + 1]) == Stream(reqs[..n]) + EncodeRequest(reqs[n]).value
    decreases n
  {
    hide EncodeRequest;
    if n == 0 {
      assert reqs[..1][1..] == [] == reqs[..0];
    } else {
      var rest := reqs[1..];
      StreamGrows(rest, n - 1);
      assert reqs[..n + 1][1..] == rest[..n] && reqs[..n][1..] == rest[..n - 1];
    }
  }

  lemma {:induction false} StreamPrefix(reqs: seq<Request>, n: nat)
    requires Encodable(reqs) && n <= |reqs|
    ensures |Stream(reqs[..n])| <= |Stream(reqs)|
    decreases |reqs| - n
  {
    if n == |reqs| {
      assert reqs[..n] == reqs;
    } else {
      StreamGrows(reqs, n);
      StreamPrefix(reqs, n + 1);
    }
  }

  /** Sends requests in order until one cannot be written; returns how many went out whole. */
  method SendRequests(out: Outgoing, reqs: seq<Request>) returns (whole: nat, ghost tail: seq<Byte>)
    requires Encodable(reqs)
    modifies out
    ensures whole <= |reqs|
    ensures out.sent == old(out.sent) + Stream(reqs[..whole]) + tail
    ensures Unfinished(tail) && (whole == |reqs| ==> tail == [])
    ensures Smooth(old(out.script)) && Moves(old(out.script)) >= |Stream(reqs)| ==> whole == |reqs|
  {
    hide EncodeRequest, FromLE, Moves;
    ghost var start, plan := out.sent, out.script;
    whole, tail := 0, [];
    assert reqs[..0] == [];
    while whole < |reqs|
      invariant whole <= |reqs|
      invariant out.sent == start + Stream(reqs[..whole])
      invariant Smooth(plan) ==> Smooth(out.script) && Moves(plan) <= Moves(out.script) + |Stream(reqs[..whole])|
    {
      StreamGrows(reqs, whole);
      StreamPrefix(reqs, whole + 1);
      var frame := WriteRequest(reqs[whole]);
      ghost var before := out.sent;
      var error := WriteAllRetrying(out, frame.value);
      if error.Some? {
        tail := frame.value[..|out.sent| - |before|];
        CutFrame(reqs[whole], |tail|);
        return;
      }
      whole := whole + 1;
    }
    assert out.sent == start + Stream(reqs[..whole]) + [];
  }

  /** How far a conversation has come: what has arrived, and what is still to be read. */
  ghost predicate Progress(reqs: seq<Request>, tail: seq<Byte>, got: seq<Result<Request>>, unread: seq<Byte>)
    requires Encodable(reqs)
  {
    && |got| <= |reqs| + (if tail == [] then 0 else 1)
    && (forall i :: 0 <= i < Min(|got|, |reqs|) ==> got[i] == Arrival(reqs[i]))
    && (if |got| <= |reqs| then unread == Stream(reqs[|got|..]) + tail else CutOff(got[|reqs|]) && unread == [])
  }

  function Noted(got: seq<Result<Request>>, r: Outcome<Request>): seq<Result<Request>> {
    match r
    case Success(req) => got + [Ok(req)]
    case Failure(Protocol(fault)) => got + [Err(fault)]
    case Failure(_) => got
  }

  lemma {:induction false} ProgressHasFrame(
    reqs: seq<Request>, tail: seq<Byte>, got: seq<Result<Request>>, unread: seq<Byte>)
    requires Encodable(reqs) && Unfinished(tail) && Progress(reqs, tail, got, unread)
    ensures |got| < |reqs| <==> HasFrame(unread)
    ensures |got| < |reqs| ==> unread != []
  {
    hide EncodeRequest, FromLE;
    if |got| < |reqs| {
      FirstFrame(reqs[|got|..], tail);
    } else if |got| == |reqs| {
      assert reqs[|got|..] == [] && unread == tail;
    }
  }

  lemma {:induction false} ProgressKept(
    reqs: seq<Request>, tail: seq<Byte>, got: seq<Result<Request>>, unread: seq<Byte>, after: seq<Byte>,
    r: Outcome<Request>)
    requires Encodable(reqs) && Unfinished(tail) && Progress(reqs, tail, got, unread)
    requires ReceiveAllowed(unread, after, r) && (r.Success? || r.error.Protocol? || r.error.WouldBlock?)
    ensures Progress(reqs, tail, Noted(got, r), after)
  {
    hide EncodeRequest, EncodePayload, DecodeRequest, FromLE;
    ProgressHasFrame(reqs, tail, got, unread);
    if |got| < |reqs| {
      var rest := reqs[|got|..];
      FirstFrame(rest, tail);
      assert rest[0] == reqs[|got|] && rest[1..] == reqs[|got| + 1..];
    } else if |got| == |reqs| {
      assert reqs[|got|..] == [] && unread == tail;
    }
  }

  /**
   The daemon's side: it asks for a request each round, keeps what arrives, waits when nothing
   is there, and gives up on a dead connection. Everything that was sent whole arrives, in order
   and once; a frame that was cut off never turns into a request.
   */
  method ServeRequests(s: Incoming, rounds: nat, ghost reqs: seq<Request>, ghost tail: seq<Byte>)
    returns (got: seq<Result<Request>>, closed: bool)
    requires Encodable(reqs) && Unfinished(tail)
    requires s.unread == Stream(reqs) + tail
    modifies s
    ensures forall i :: 0 <= i < Min(|got|, |reqs|) ==> got[i] == Arrival(reqs[i])
    ensures |got| <= |reqs| + (if tail == [] then 0 else 1)
    ensures |got| == |reqs| + 1 ==> CutOff(got[|reqs|])
    ensures closed ==> |got| >= |reqs|
    ensures Unbroken(old(s.script)) && Moves(old(s.script)) >= |old(s.unread)| && rounds >= |old(s.script)| ==>
              |got| >= |reqs|
  {
    hide EncodeRequest, EncodePayload, DecodeRequest, FromLE, Stream, ReceiveAllowed;
    ghost var bytes, plan := s.unread, s.script;
    var round := 0;
    got, closed := [], false;
    assert reqs[0..] == reqs;
    ProgressHasFrame(reqs, tail, got, s.unread);
    while round < rounds
      invariant round <= rounds
      invariant Progress(reqs, tail, got, s.unread) && (|got| < |reqs| <==> HasFrame(s.unread))
      invariant |got| < |reqs| ==> s.unread != []
      invariant |got| < |reqs| ==> Moves(plan) <= Moves(s.script) + |bytes| - |s.unread|
      invariant |s.script| <= Max(|plan| - round, 0)
      invariant Unbroken(plan) ==> Unbroken(s.script)
    {
      ghost var before, had := got, s.unread;
      var r := RecvRequest(s);
      if r.Success? {
        got := got + [Ok(r.value)];
      } else if r.error.Protocol? {
        got := got + [Err(r.error.fault)];
      } else if !r.error.WouldBlock? {
        closed := r.error.ConnectionClosed?;
        break;
      }
      ProgressKept(reqs, tail, before, had, s.unread, r);
      ProgressHasFrame(reqs, tail, got, s.unread);
      round := round + 1;
    }
  }

  /**
   Both ends together, for any behaviour of the kernel on either side: what was sent whole is
   what arrives, request by request, with the fields foreign to each tier dropped.
   */
  method Exchange(reqs: seq<Request>, sending: seq<Event>, receiving: seq<Event>, rounds: nat)
    returns (whole: nat, got: seq<Result<Request>>, closed: bool)
    requires Encodable(reqs)
    ensures whole <= |reqs| && |got| <= whole + 1
    ensures forall i :: 0 <= i < Min(|got|, whole) && HasRequired(reqs[i]) ==> got[i] == Ok(Normalise(reqs[i]))
    ensures forall i :: 0 <= i < Min(|got|, whole) && !HasRequired(reqs[i]) ==> CutOff(got[i])
    ensures |got| == whole + 1 ==> CutOff(got[whole])
    ensures closed ==> |got| >= whole
    ensures Smooth(sending) && Moves(sending) >= |Stream(reqs)| ==> whole == |reqs|
    ensures Smooth(sending) && Moves(sending) >= |Stream(reqs)| && Unbroken(receiving)
            && Moves(receiving) >= |Stream(reqs)| && rounds >= |receiving| ==>
              |got| >= |reqs|
  {
    hide EncodeRequest, EncodePayload, DecodeRequest, FromLE, Normalise, HasRequired, Stream, Moves;
    var out := new Outgoing(sending);
    ghost var tail;
    whole, tail := SendRequests(out, reqs);
    ghost var sent := reqs[..whole];
    var inn := new Incoming(out.sent, receiving);
    assert [] + Stream(sent) == Stream(sent);
    if whole == |reqs| {
      assert sent == reqs && inn.unread == Stream(reqs);
    }
    got, closed := ServeRequests(inn, rounds, sent, tail);
    forall i | 0 <= i < Min(|got|, whole)
      ensures HasRequired(reqs[i]) ==> got[i] == Ok(Normalise(reqs[i]))
      ensures !HasRequired(reqs[i]) ==> CutOff(got[i])
    {
      assert got[i] == Arrival(sent[i]) && sent[i] == reqs[i];
      ArrivalIff(reqs[i]);
    }
  }

  /** A request arrives as itself, without foreign fields, exactly when it is complete. */
  lemma {:induction false} ArrivalIff(req: Request)
    requires EncodeRequest(req).Ok?
    ensures HasRequired(req) <==> Arrival(req) == Ok(Normalise(req))
    ensures !HasRequired(req) <==> CutOff(Arrival(req))
  {
    hide EncodePayload, DecodeRequest, FromLE, LE, Normalise, HasRequired;
    RequestRoundTrip(req);
    FrameParts(EncodePayload(req).value);
  }
}
