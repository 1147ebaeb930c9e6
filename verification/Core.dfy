/**
 The vocabulary shared by the whole model: 64-bit words, the terminal marker, the
 signed value of an interlock, grid lines, and the daemon's first verdict on an entry.
 */
module Core {

  const TWO32: int := 0x1_0000_0000
  const TWO63: int := 0x8000_0000_0000_0000
  const TWO64: int := 0x1_0000_0000_0000_0000

  type U64 = x: int | 0 <= x < 0x1_0000_0000_0000_0000

  /** The terminal marker, u64::MAX. */
  const SENTINEL: U64 := 0xFFFF_FFFF_FFFF_FFFF

  const NANOS_PER_MS: int := 1_000_000
  const CREATION_TTL_NANOS: int := 100_000_000
  const DEFAULT_TIMEOUT_NANOS: U64 := 100_000_000

  /** Largest millisecond reading a u64 nanosecond clock can give. */
  const MAX_MS: int := 18446744073709

  /** A cron's interval in milliseconds, as a u64 of nanoseconds can give it. */
  type CronInterval = i: U64 | 0 < i <= 18446744073709 witness 1

  datatype Option<+T> = None | Some(value: T)

  datatype Tier = Interlock | WaitCounter | WaitTimer | WaitCron | WaitBarrier

  // -- Machine arithmetic --

  /** Release-mode u64 addition keeps the low 64 bits. */
  function Wrap(x: int): U64 {
    x % TWO64
  }

  function SaturatingMul(x: U64, y: U64): U64 {
    if x * y < TWO64 then x * y else SENTINEL
  }

  function SaturatingAdd(x: U64, y: U64): U64 {
    if x + y < TWO64 then x + y else SENTINEL
  }

  function MsToNanos(ms: U64): U64 {
    SaturatingMul(ms, NANOS_PER_MS)
  }

  /** The part of a word the kernel compares in futex_wait. */
  function Lo32(x: U64): int {
    x % TWO32
  }

  function AsI64(x: U64): int {
    if x < TWO63 then x else x - TWO64
  }

  /** `(open as i64).wrapping_sub(closed as i64)`. */
  function Value(open: U64, closed: U64): int {
    AsI64(Wrap(AsI64(open) - AsI64(closed)))
  }

  // -- Derived states --

  datatype WaitState = Normal | Overrun | Timeout

  function CheckWakeState(open: U64, closed: U64): WaitState {
    if closed == open then Normal
    else if closed > open then Overrun
    else Timeout
  }

  datatype InterlockState = Closed | Open | Overran | Expired

  function StateOf(open: U64, closed: U64, expiration: U64, now: U64): InterlockState {
    if open == SENTINEL || closed == SENTINEL || expiration == SENTINEL then Expired
    else if now >= expiration then Expired
    else if Value(open, closed) < 0 then Overran
    else if Value(open, closed) > 0 then Open
    else Closed
  }

  predicate Terminated(open: U64, closed: U64, expiration: U64) {
    open == SENTINEL || closed == SENTINEL || expiration == SENTINEL
  }

  predicate ExpirationAlive(expiration: U64, now: U64) {
    expiration > now
  }

  /** What a daemon pass does with an entry before looking at its tier. */
  datatype Verdict = Reap | Skip | Evaluate

  function Judge(open: U64, closed: U64, expiration: U64, now: U64): Verdict {
    if Terminated(open, closed, expiration) then Reap
    else if !ExpirationAlive(expiration, now) then Reap
    else if Value(open, closed) <= 0 then Skip
    else Evaluate
  }

  // -- Grid lines and initial words --

  /** The grid line the daemon arms a cron to, in u64 arithmetic. */
  function NextLine(clock: U64, interval: U64): U64
    requires interval > 0
  {
    Wrap((clock / interval + 1) * interval)
  }

  function InitialOpen(tier: Tier, clock: U64, interval: U64): U64
    requires tier == WaitCron ==> interval > 0
  {
    match tier
    case WaitTimer => clock
    case WaitCron => NextLine(clock, interval)
    case WaitBarrier => 1
    case _ => 0
  }

  function InitialClosed(tier: Tier, clock: U64): U64 {
    match tier
    case WaitTimer => clock
    case WaitCron => clock
    case _ => 0
  }

  // -- Lemmas --

  /**
   The signed value is positive exactly when open leads closed by less than 2^63 on the
   64-bit circle. So it agrees with the plain comparison unless the words are at least
   2^63 apart.
   */
  lemma ValuePositive(open: U64, closed: U64)
    ensures Value(open, closed) > 0 <==> closed < open < closed + TWO63 || open + TWO63 < closed
    ensures Value(open, closed) == 0 <==> open == closed
    ensures -TWO63 < open - closed < TWO63 ==> Value(open, closed) == open - closed
  {
    var d := AsI64(open) - AsI64(closed);
    assert d == open - closed || d == open - closed - TWO64 || d == open - closed + TWO64;
    WrapNear(d);
  }

  lemma WrapNear(d: int)
    requires -TWO64 <= d < TWO64
    ensures Wrap(d) == if d < 0 then d + TWO64 else d
  {
  }

  /** The two derivations of an entry's state agree: the daemon's verdict and the SDK's state. */
  lemma VerdictMatchesState(open: U64, closed: U64, expiration: U64, now: U64)
    ensures Judge(open, closed, expiration, now) == Reap <==> StateOf(open, closed, expiration, now) == Expired
    ensures Judge(open, closed, expiration, now) == Evaluate <==> StateOf(open, closed, expiration, now) == Open
    ensures open < TWO63 && closed < TWO63 && StateOf(open, closed, expiration, now) != Expired ==>
              (StateOf(open, closed, expiration, now) == Open <==> CheckWakeState(open, closed) == Timeout)
  {
    ValuePositive(open, closed);
  }

  /** Dividing by a positive interval is monotone. */
  lemma DivMonotone(a: nat, b: nat, i: nat)
    requires a <= b && i > 0
    ensures a / i <= b / i
  {
    if a / i > b / i {
      assert a / i >= b / i + 1;
      MulMonotone(b / i + 1, a / i, i);
      assert false;
    }
  }

  lemma MulMonotone(a: nat, b: nat, i: nat)
    requires a <= b
    ensures a * i <= b * i
  {
  }

  /** x / i >= q exactly when x has reached the line q * i. */
  lemma ReachedLine(x: nat, q: nat, i: nat)
    requires i > 0
    ensures x / i >= q <==> x >= q * i
  {
    if x / i >= q {
      MulMonotone(q, x / i, i);
    } else {
      MulMonotone(x / i + 1, q, i);
    }
  }

  /**
   For clocks and intervals that come from u64 nanosecond sources nothing overflows: the
   armed line is the least multiple of the interval above the clock, and it is far
   below 2^63.
   */
  lemma NextLineIsLeast(clock: U64, interval: U64)
    requires 0 < interval <= MAX_MS && clock <= MAX_MS
    ensures NextLine(clock, interval) == (clock / interval + 1) * interval
    ensures clock < NextLine(clock, interval) <= clock + interval < TWO63
    ensures NextLine(clock, interval) % interval == 0
    ensures forall q: nat {:trigger q * interval} :: q * interval > clock ==> NextLine(clock, interval) <= q * interval
  {
    var q0 := clock / interval + 1;
    assert clock == (clock / interval) * interval + clock % interval;
    assert q0 * interval == (clock / interval) * interval + interval;
    assert clock < q0 * interval <= clock + interval;
    MultipleMod(q0, interval);
    forall q: nat | q * interval > clock
      ensures q0 * interval <= q * interval
    {
      if q < q0 {
        MulMonotone(q, clock / interval, interval);
      } else {
        MulMonotone(q0, q, interval);
      }
    }
  }

  /** The same line without its rivals. */
  lemma ArmedLine(clock: U64, interval: U64)
    requires 0 < interval <= MAX_MS && clock <= MAX_MS
    ensures NextLine(clock, interval) == (clock / interval + 1) * interval
    ensures clock < NextLine(clock, interval) <= clock + interval < TWO63
    ensures NextLine(clock, interval) % interval == 0
  {
    NextLineIsLeast(clock, interval);
  }

  lemma MultipleMod(q: nat, i: nat)
    requires i > 0
    ensures (q * i) % i == 0
  {
    var x := q * i;
    ReachedLine(x, q, i);
    MulMonotone(q, x / i, i);
  }

  /** A u64 nanosecond reading gives at most MAX_MS milliseconds. */
  lemma MsBound(ns: U64)
    ensures ns / NANOS_PER_MS <= MAX_MS
  {
  }
}
