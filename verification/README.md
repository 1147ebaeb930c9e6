# Abacus interlocks in Dafny

An interlock is three shared 64-bit words, `open_count`, `closed_count` and `expiration_ns`. Client
threads and touch threads change them with atomic operations and sleep on them with futexes; one
daemon reaps interlocks whose time is up and stamps those whose wait contract is met. This project
models that protocol, the daemon's registry, its arithmetic, and the wire protocol between clients
and daemon, and proves what they guarantee.

How it is laid out:

- `Core` has the words, the terminal marker, the signed value, grid lines and the daemon's verdict.
- `Protocol` is one interlock as a transition system. Every atomic load, store, `fetch_add`,
  compare-exchange, clock read, futex enqueue and futex wake is one transition; any number of client
  threads and the daemon interleave freely; spurious compare-exchange failures and all the ways
  `futex_wait` comes back are choices. `Lattice`, `Wakeups`, `TimerSafety`, `TimerBudget`, `TimerMargin`,
  `Stamps`, `CounterSafety`, `CounterBudget`, `CronSafety`, `BarrierSafety`, `MetSleepers`, `SleepTimes`,
  `ReapedWaits`, `Keepalive`, `TouchLoop` and `Records` prove properties of all its runs; `OneCall`, `Calls`,
  `WaitOutcomes`, `WordWaits` and `SignalWaits` say which answer each wait is bound to give, and in how many
  of its own steps; `Attachers` shows that the promises of the wait tiers hold exactly without handles obtained
  by name.
- `Pass` is a daemon pass over the whole registry on values, in any iteration order; `PassStores` says what it
  stores in terms of the stored words alone; `PassOrder` and `PassRuns` prove what depends on that order and
  what whole runs of passes do. `PassRefinement` shows that the transitions of `Protocol`, undisturbed,
  compute exactly what `Pass` says.
- `RegistrySpec` is the registry on values (create, attach, passes, clock updates, client stores) and
  what every sequence of them keeps; `RegistryLaws` says what those commands come to in words and entries, and
  that what `create` hands out is where the theorems about one interlock start; `Registry` is the registry as it
  is written, a class over a map of entries that point at mutable words, each method proved against `RegistrySpec`.
- `Wire` says which bytes a message is and what bytes mean, with strings in UTF-8 (section 4 of
  RFC 3629); `Utf8Laws` proves that table against the encoding of code points, `WireLayout` gives the messages
  byte by byte, `WireLaws` proves the codec's laws, and `WireCodec` has the encoder and decoder loops.
- `Framing` has the read and write loops over a byte stream whose kernel may do anything; `Dispatch` takes
  a request from the stream to the registry and back to a reply; `ClientTable` has the daemon's connection
  table over one cycle.

`dafny verify dfyconfig.toml` checks everything.

## What the results say

Where a promise holds only under a hypothesis, the hypothesis is stated and, where it is cheap, a
reachable counterexample shows that it is needed.

- A thread asleep on a counter has a wake on its way as soon as the counter's low half changes
  (`NoLostWakeup`), and exactly one family of words is an exception: the `open_count` of a timer, counter
  or cron with attachers (`ForgottenIff`). `free` wakes everybody who is asleep (`FreeWakesSleepers`), but
  as the owner's changes no counter, a thread that falls asleep afterwards is missed (`FreeCanBeMissed`).
- Without handles obtained by name, whoever is asleep although its wait is met has a wake on its way
  (`MetSleeperIsWoken`), except when the word has moved by an exact multiple of 2^32 (`AliasIsSleptThrough`).
- A terminated `expiration_ns` is always reported: no wait sleeps again, times out or aborts once it looks, and
  with counters unmet the answer is Reaped (`FreedIsReported`, `FreedUnmetIsReaped`). A met wait always returns
  (`MetIsReturned`, `StampIsReturned`, `FireIsReturned`), and nothing else is called reaped (`AliveIsNotReaped`).
- `expiration_ns` only rises and its marker is permanent; a marked counter is not: exactly three stores
  can erase it (`TerminationSurvives`, `RearmRevivesFreedCron`).
- A timer is early exactly when its target wraps (`TimerNeverEarly`, `WrappedTargetReturnsAtOnce`); one
  daemon cycle inside the 2W margin makes every later iteration return (`MarginMeansReturn`); an abort
  comes only after the whole budget (`AbortOnlyAfterBudget`), and the calls without a budget are those
  with ms zero (`ZeroWaitNeverSleeps`), such as a `wait_until` of the past (`PastTimestampCanAbort`).
- A counter's crossing is delivered exactly when the target leads `closed_count` by less than 2^63
  (`CrossingDelivered`, `FarTargetIsMissed`).
- An interlock that is touched in time lives (`TouchingKeepsAlive`, `SleepingLoopKeepsAlive`).
- What `create` hands out, over any registry that commands can reach, is an initial state of the protocol for
  its tier (`CreateStores`, `CreateStartsRuns`), and a message enters exactly the interlock it describes
  (`AnswerMeans`).
- The outcome of a pass can depend on the hash map's order (`OrderCanBeObserved`); `OrderIndependentIff`
  says exactly from which states it does not.
- A frame decodes to the request that was encoded exactly when that request is complete for its tier
  (`RequestRoundTrip`); whatever the kernel does, requests sent whole arrive once and in order
  (`Exchange`); and what the registry does with them is what it would do with the requests themselves
  (`WireIsTransparent`).

Where the code and its documentation differ, the model follows the code:

- `docs/design/CONTRACTS.md` calls termination irreversible for any of the three words. In the code that
  holds for `expiration_ns` alone.
- The waits document `InterlockReaped` for a reap before delivery. A reap between the loads can come back
  as Ok with the marker as its value (`ReapReturnedAsSuccess`). It does exactly when the load of
  `closed_count` finds the marker (`TimerMarkerIff`, `CounterMarkerIff`, `BarrierMarkerIff`), so after a
  reap has stored the counters such a wait always reports success (`ReapIsReportedAsSuccess`).
- A watched entry that was reaped earlier in the same pass reads as the marker and so satisfies any
  threshold (`OrderCanBeObserved`).
- `wait_ms` says that its deadline leaves a margin of twice the wait; for a wait of zero that margin is
  zero, and the process can abort at once.

## Model

| member | source | states |
|---|---|---|
| Core.ValuePositive | crates/abacus-daemon/src/registry.rs:278-283 | the wrapping signed value is positive exactly when open leads closed by less than 2^63 around the 64-bit circle, zero exactly when they are equal, and the true difference when they are less than 2^63 apart |
| Core.VerdictMatchesState | crates/abacus-client/src/types.rs:52-68 | the daemon reaps exactly the states the SDK calls Expired and evaluates exactly those it calls Open; below 2^63 Open is the wake state Timeout |
| Core.NextLineIsLeast | crates/abacus-daemon/src/registry.rs:317 | for clocks and intervals from u64 nanosecond sources the armed line does not overflow, is the least multiple of the interval above the clock, and is below 2^63 |
| Lattice.ExpirationNeverFalls | crates/abacus-core/src/interlock.rs:89-127 | through any interleaving from any state expiration_ns does not fall, and the marker in it is permanent |
| Lattice.ArmsHonoured | crates/abacus-core/src/interlock.rs:89-111 | after every run each arm that returned Ok is at or below expiration_ns, and once that holds the marker no arm returns Ok again, not even one already under way |
| Lattice.CasAlwaysRaises | crates/abacus-client/src/wait_timer.rs:51-68 | every pending compare-exchange of a target would raise open_count, and no pending one of a deadline expects the marker |
| Lattice.TerminationSurvives | docs/design/CONTRACTS.md:227-230 | one transition revives a terminated interlock if and only if expiration_ns is not the marker and the transition is a fetch_add, a stamp or a cron re-arm onto the last marked counter |
| Lattice.RearmRevivesFreedCron | crates/abacus-daemon/src/registry.rs:312-319 | for every interval a reachable run in which a freed cron is live again after the re-arm |
| Wakeups.NoLostWakeup | crates/abacus-client/src/wait_counter.rs:64-121 | after any run, when the low 32 bits of a word are no longer those a thread asleep on it loaded, somebody in particular owes the word a wake, and every run in which that one takes three steps wakes the thread; in particular while the word has risen by less than 2^32. Covers closed_count always and open_count unless attachers may sleep on that of a timer, counter or cron |
| Wakeups.DebtPaid | crates/abacus-core/src/interlock.rs:113-127 | whatever everybody chooses and whatever the kernel returns, every interleaving in which the debtor takes the steps it still owes, at most three, wakes the sleeper |
| Wakeups.ForgottenIff | crates/abacus-client/src/interlock.rs:177-194 | exactly when no run can leave a thread asleep on a moved word without a wake to come: on closed_count, on open_count of a bare interlock or barrier, and on any word without attachers |
| Wakeups.TargetWakesNobody | crates/abacus-client/src/wait_timer.rs:54-68 | with attachers, a reachable run of any timer in which setting a target leaves a sleeper on open_count without a wake to come |
| Wakeups.CounterTargetWakesNobody | crates/abacus-client/src/wait_counter.rs:46-55 | the same for any counter |
| Wakeups.RearmWakesNobody | crates/abacus-daemon/src/registry.rs:312-319 | the same for a cron of any interval and its re-arm, with the sleeper's target met |
| Wakeups.FreeWakesSleepers | crates/abacus-core/src/interlock.rs:122-127 | everybody asleep on either counter when an owner or attacher is about to free is woken in every interleaving in which that thread takes three steps |
| Wakeups.FreeCanBeMissed | crates/abacus-core/src/interlock.rs:122-127 | a reachable run after which a thread that fell asleep on an unchanged counter after the free's wakes has no wake to come |
| MetSleepers.MetSleeperIsWoken | crates/abacus-client/src/wait_counter.rs:76-84 | without attachers, in every reachable state a thread asleep although its word has reached the target, its counters are met, its cron has fired or its barrier is stamped fell asleep on a smaller value and has a wake on its way, unless the word is an exact multiple of 2^32 above that value |
| MetSleepers.AliasIsSleptThrough | crates/abacus-client/src/wait_counter.rs:77-84 | a reachable run in which a stamp of 2^32 between the load and futex_wait leaves a met counter asleep without a timeout and without a wake to come |
| Calls.CallServesItsArguments | crates/abacus-client/src/interlock.rs:32-94 | a thread between calls that makes a call its handle offers is in that call, with its arguments, through every interleaving up to the answer; bare interlocks and attachers are offered open, close and their waits, each tier its own wait, every owner touch and free; any other call changes nothing |
| WaitOutcomes.FreedIsReported | crates/abacus-client/src/wait_timer.rs:93-96 | once expiration_ns is the marker, a thread that arms, has slept or starts an iteration that looks at it ends its call within three own steps, Reaped or with a value its loads found, and neither sleeps, times out nor aborts; for all six kinds of call |
| WaitOutcomes.FreedSleeperLooks | crates/abacus-client/src/wait_counter.rs:98-102 | a thread asleep when expiration_ns is marked goes straight to such a look when it comes back |
| WaitOutcomes.FreedUnmetIsReaped | crates/abacus-client/src/wait_cron.rs:76-79 | while the counters stay unmet the only answer is then Reaped: for timers, counters, crons, barriers, wait_open and wait_close |
| WaitOutcomes.LapsedIsReported | crates/abacus-client/src/interlock.rs:70-73 | while expiration_ns stays at or below an instant that is over, wait_open and wait_close behind their sleep, a cron iteration and a barrier behind its sleep end within three own steps without sleeping again, Reaped, or a cron with a value |
| WaitOutcomes.LapsedNeverAborts | crates/abacus-client/src/wait_timer.rs:98-114 | a timer wait in its loop does not abort while expiration_ns stays at or below an instant that is over |
| WaitOutcomes.AliveIsNotReaped | crates/abacus-client/src/wait_barrier.rs:60-71 | while no word is marked and expiration_ns stays at or above an instant still to come, no call of any kind reports Reaped or a failed touch |
| WaitOutcomes.MetIsReturned | crates/abacus-client/src/wait_counter.rs:65-97 | a timer or counter wait about to load, while closed_count stays at or above a level that open_count does not exceed, returns a value of at least that level within three own steps without sleeping; an overrun when above it, normal when equal to a steady open_count |
| WordWaits.ReturnsWhatWasHeld | crates/abacus-client/src/interlock.rs:58-94 | while the word stays between two bounds, wait_open and wait_close return Reaped or an unmarked value within them at or above the target, and sleep only on values below it |
| WordWaits.ReachedAnswersAtOnce | crates/abacus-client/src/interlock.rs:177-213 | once the word stays at or above the target the first step of the call ends it, with the value, or Reaped for the marker |
| SleepTimes.SleepsSoLong | crates/abacus-client/src/wait_timer.rs:74-124 | word, cron and barrier waits sleep 100 ms at a time and a counter its timeout; a timer sleeps at most until its deadline, which counts from a time read after its own arm returned |
| TimerSafety.TimerNeverEarly | crates/abacus-client/src/wait_timer.rs:45-140 | under all interleavings a wait that returns Ok with a value other than the marker returns at least its clock read plus ms if and only if that sum does not wrap, and then at least the timestamp too; for ms >= 1 that value was published after the clock read and never before; the marker is returned only after a reap |
| TimerBudget.AbortOnlyAfterBudget | crates/abacus-client/src/wait_timer.rs:70-124 | abort is reached only at or after the absolute deadline, twice ms after the time the call itself read once armed, and futex_wait is never given a zero timeout; also with attachers |
| TimerBudget.ZeroWaitNeverSleeps | crates/abacus-client/src/wait_timer.rs:97-124 | a call that sleeps has ms of at least 1; the first time check of a call with ms zero ends it, as Reaped if the expiration it loaded has passed and otherwise as an abort |
| TimerSafety.WrappedTargetReturnsAtOnce | crates/abacus-client/src/wait_timer.rs:53-68 | a run without any daemon step in which a wait whose target wraps returns the creation stamp |
| TimerBudget.PastTimestampCanAbort | crates/abacus-client/src/wait_timer.rs:136-140 | a run in which wait_until on a timestamp already reached aborts although the interlock is live |
| TimerMargin.SoleAlways | crates/abacus-client/src/wait_timer.rs:51-68 | while one thread is the only waiter and the entry is not being reaped, open_count is the target of its current call, or has been reached by the clock between calls |
| TimerMargin.CycleInsideMarginDelivers | crates/abacus-client/src/wait_timer.rs:70-124 | a cycle whose clock read is at least ms after the arm and whose TTL read is before twice ms after it keeps the entry and leaves closed_count at or above the target, under every interleaving that does not terminate expiration_ns |
| TimerMargin.LaterIterationReturns | crates/abacus-client/src/wait_timer.rs:80-91 | once closed_count has reached the target, an iteration that starts neither sleeps nor aborts nor fails, and returns a value at or above the target, unless the daemon goes on to reap |
| TimerMargin.MarginMeansReturn | crates/abacus-client/src/wait_timer.rs:70-131 | after one cycle inside the margin, over any number of further cycles and interleavings, every later iteration of the call returns Ok with a value at or above the target, unless the daemon goes on to reap |
| Stamps.StampsRise | crates/abacus-daemon/src/registry.rs:278-345 | on a wait tier each daemon stamp is above the value it replaces while that is at most 2^63 (only a barrier may get 0 for 0, at clock 0), even when clients raise open_count between the daemon's load and its store; a barrier gets at most one stamp other than 0; closed_count is a stamp or the marker |
| Stamps.HighStampRepeats | crates/abacus-daemon/src/registry.rs:278-309 | a reachable run in which two passes stamp the same value, more than 2^63 above the target |
| CounterSafety.CounterSound | crates/abacus-client/src/wait_counter.rs:46-97 | Normal or Overrun returns at least the target, and for a positive target a value the daemon read from the watched word, or the marker after a reap |
| CounterSafety.CrossingDelivered | crates/abacus-daemon/src/registry.rs:278-309 | a crossing that precedes a pass over a live entry with unmarked counters is delivered by that pass if and only if the target leads closed_count by less than 2^63, unless expiration_ns is terminated or the target is raised meanwhile; otherwise the entry stays with closed_count as it was |
| CounterSafety.FarTargetIsMissed | crates/abacus-client/src/wait_counter.rs:39-55 | a reachable run in which wait_until(2^63) on a counter at 0 is not delivered by a whole pass although the watched word has reached the target |
| CounterBudget.ArmsTwiceTheTimeout | crates/abacus-client/src/wait_counter.rs:57-60 | a call past its arm has armed for twice its timeout, saturating, and expiration_ns honours it; one with timeout zero never returns Timeout |
| CounterBudget.TimedOutSaysSo | crates/abacus-client/src/wait_counter.rs:98-113 | behind a sleep that timed out, while closed_count stays below a level open_count has reached and expiration_ns is unmarked, the call returns Timeout with the value it loaded within three own steps |
| CounterBudget.SleepTimesOut | crates/abacus-client/src/wait_counter.rs:84-113 | the same from the sleep on, when the kernel times it out |
| CounterBudget.OtherwiseWaitsOn | crates/abacus-client/src/wait_counter.rs:115-117 | woken or interrupted but never timed out, the call is not over while the target stays ahead |
| CronSafety.CronNeverRepeats | crates/abacus-client/src/wait_cron.rs:42-84 | successive Ok results of one thread are daemon stamps in strictly later grid intervals and never the marker, even when read between the stamp and the re-arm |
| Records.RecordsAreComplete | crates/abacus-client/src/wait_cron.rs:70-73 | the records of cron results and of touches hold exactly what the calls of each thread returned along the run, in order and with repeats |
| Records.ResultsRise | crates/abacus-client/src/wait_cron.rs:42-84 | so the results of one thread, read off the run itself, are daemon stamps in strictly later grid intervals |
| CronSafety.CronStaysOnGrid | crates/abacus-daemon/src/registry.rs:310-321 | under all interleavings no two stamps share a grid interval, and outside a fire or a reap open_count is the first line after closed_count |
| CronSafety.FireIsReturned | crates/abacus-client/src/wait_cron.rs:49-74 | once the daemon has fired past the value a call started from, an iteration returns Ok with a later value within two own steps, unless the daemon goes on to reap |
| SignalWaits.FireIsLabelled | crates/abacus-client/src/wait_cron.rs:54-74 | while closed_count stays past the start value the result is Normal as long as open_count has been re-armed to or above it and an Overrun as long as open_count is still below |
| BarrierSafety.BarrierSound | crates/abacus-client/src/wait_barrier.rs:37-73 | an Ok result is the one stamp other than 0 the barrier ever gets, a clock value of at least 1, or the marker once open_count has been reaped |
| BarrierSafety.StampIsReturned | crates/abacus-client/src/wait_barrier.rs:47-58 | in every reachable state of a barrier with a stamp of at least 1 that is not being reaped, an iteration that starts returns Ok with that stamp within two own steps, Normal for 1 and Overrun otherwise, unless the daemon goes on to reap |
| SignalWaits.MarkedCounterEnds | crates/abacus-client/src/wait_barrier.rs:60-63 | while one counter stays marked a barrier iteration ends within three own steps, Reaped or with the value loaded; a cron on a marked closed_count is always Reaped |
| BarrierSafety.ReapReturnedAsSuccess | crates/abacus-client/src/wait_barrier.rs:41-58 | a reachable run in which a wait returns Ok with the marker although nothing was ever stamped |
| ReapedWaits.TimerMarkerIff | crates/abacus-client/src/wait_timer.rs:81-91 | an iteration of a timer's wait returns Ok(Normal) with the marker if and only if its load of closed_count found the marker |
| ReapedWaits.CounterMarkerIff | crates/abacus-client/src/wait_counter.rs:65-97 | either check of a counter's wait returns Normal or Overrun with the marker if and only if its load of closed_count found the marker; it is Normal unless open_count is unmarked, and then the daemon read the marker from the watched word |
| ReapedWaits.BarrierMarkerIff | crates/abacus-client/src/wait_barrier.rs:42-58 | an iteration of a barrier's wait returns Ok(Normal) with the marker if and only if its load of closed_count found the marker |
| ReapedWaits.ReapIsReportedAsSuccess | crates/abacus-core/src/interlock.rs:113-120 | once a reap has stored both counters, a timer or counter wait past its arm, asleep or about to load, and a barrier wait about to load, can only return Ok with the marker: never InterlockReaped, a timeout or an abort |
| Attachers.AttacherDeliversEarly | crates/abacus-client/src/interlock.rs:157-167 | for any attached timer a reachable run without a daemon step in which an attacher's close makes a wait of 10 ms return Ok while the clock has not moved |
| Attachers.TimerPromiseIff | crates/abacus-client/src/wait_timer.rs:45-140 | a timer keeps what TimerNeverEarly promises in all runs if and only if nobody can attach to it |
| Attachers.AttacherFiresCron | crates/abacus-client/src/interlock.rs:163-167 | for an attached cron of any interval a reachable run in which a wait returns a value off every stamp, written by an attacher's close |
| Attachers.CronPromiseIff | crates/abacus-client/src/wait_cron.rs:42-84 | a cron keeps what CronNeverRepeats promises in all runs if and only if nobody can attach to it |
| Attachers.CounterPromiseIff | crates/abacus-client/src/wait_counter.rs:39-122 | a counter keeps what CounterSound promises in all runs if and only if nobody can attach to it |
| Attachers.BarrierPromiseIff | crates/abacus-client/src/wait_barrier.rs:37-73 | a barrier keeps what BarrierSound promises in all runs if and only if nobody can attach to it |
| Keepalive.PunctualIsNeverReaped | crates/abacus-core/src/interlock.rs:75-111 | while the creation deadline or a completed arm's deadline is ahead of the clock and nobody terminates the interlock, no pass reaps it |
| Keepalive.TouchLoopKeepsAlive | crates/abacus-client/src/touch.rs:26-44 | an interlock whose touch loop always has a completed touch that read the time less than twice its interval ago is never reaped |
| TouchLoop.FreshThroughoutIff | crates/abacus-client/src/touch.rs:31-44 | in any run the arms of a thread that only touches come one after the other, and from the first to the last a fresh one exists in every state if and only if each returns before one TTL has passed since the one before it read the time |
| TouchLoop.TouchingKeepsAlive | crates/abacus-client/src/touch.rs:31-44 | in every run in which the first touch returns before the creation deadline, each later one before the one before it lapses, and nobody terminates the interlock or takes its name over, no pass reaps it |
| TouchLoop.SleepingLoopKeepsAlive | crates/abacus-client/src/touch.rs:26-44 | so with twice the interval for a TTL, rounds that lose less than one interval beyond their sleep keep the interlock alive |
| Keepalive.LapsedIsReaped | crates/abacus-daemon/src/registry.rs:271-276 | a pass whose TTL read has reached the deadline ends with the entry removed and expiration_ns (for a wait tier all three words) at the marker, unless an arm whose deadline is past that read returns first |
| Pass.Visited | crates/abacus-daemon/src/registry.rs:254-348 | an entry's words after a pass are those its one visit computed from its original words and what it could read at that point |
| Pass.RemovedIffDead | crates/abacus-daemon/src/registry.rs:264-276 | an entry is collected for removal if and only if its words before the pass are terminated or expired |
| PassStores.ClockStores | crates/abacus-daemon/src/registry.rs:259-321 | over a pass in any order, said of stored words: an ended entry gets three markers, one that does not lead or is bare keeps its words, a leading timer or cron gets the clock exactly when the clock has reached open_count, and the cron the least multiple above it |
| PassStores.CounterStores | crates/abacus-daemon/src/registry.rs:292-309 | a live leading counter gets the watched entry's closed_count, or open_count if it watches that, exactly when it is at least its own open_count; otherwise, and if the watched entry is missing, its words stay |
| PassStores.BarrierStores | crates/abacus-daemon/src/registry.rs:322-345 | a live leading barrier gets the clock if and only if each condition names an entry that is there with its open_count or closed_count, as named, at or above the threshold |
| PassStores.ReadAt | crates/abacus-daemon/src/registry.rs:252-348 | at an entry's turn the entries before it are read as the pass leaves them and the others as they were |
| PassOrder.SameRemovals | crates/abacus-daemon/src/registry.rs:350-353 | the same entries leave the registry in every iteration order: exactly those dead before the pass, the clock never |
| PassOrder.SameButForWatchers | crates/abacus-daemon/src/registry.rs:249-354 | in any two orders every entry ends with the same open_count and expiration_ns, and the same closed_count unless it is a live WaitCounter or WaitBarrier |
| PassOrder.OrderIndependentIff | crates/abacus-daemon/src/registry.rs:249-354 | all iteration orders end in the same words if and only if, in the state before the pass, no entry's visit depends on which of the others it reads after their own visit |
| PassOrder.OrderIndependent | crates/abacus-daemon/src/registry.rs:249-354 | so if one order of the pass leaves every watched entry as it was, all orders end in exactly the same words |
| PassOrder.OrderCanBeObserved | crates/abacus-daemon/src/registry.rs:292-308 | two entries, two orders, two outcomes: a counter reads the marker of a watched entry reaped before it |
| PassOrder.ClockUntouched | crates/abacus-daemon/src/registry.rs:255-257 | a pass leaves the clock's words alone |
| PassRefinement.UndisturbedPassRefines | crates/abacus-daemon/src/registry.rs:259-347 | eight undisturbed daemon transitions over an entry give exactly the words the pass on values computes, and remove it exactly when that does |
| PassRuns.CronRun | crates/abacus-daemon/src/registry.rs:195-201 | in every cron state that creation and passes reach, open_count is below 2^63 and the wrapping signed value is the true, positive difference |
| PassRuns.CronFiresExactly | crates/abacus-daemon/src/registry.rs:310-321 | a pass stamps a live cron if and only if its clock is in a later grid interval than the clock before, it stamps its own clock, and the armed line is then the first above the clock |
| PassRuns.CronCount | crates/abacus-daemon/src/registry.rs:310-321 | a run fires at most once per grid line crossed, and exactly as often as lines are crossed if and only if no pass jumps a whole interval |
| PassRuns.BarrierFiresFirst | crates/abacus-daemon/src/registry.rs:322-345 | a live barrier is stamped by the first pass that finds all conditions met, with that pass's clock, and never again |
| PassRuns.BarrierAccumulates | crates/abacus-daemon/src/registry.rs:322-345 | while each watched word, once found, is found by later passes and does not fall, a barrier has fired by the end of a run if and only if each condition was met at some pass of it |
| RegistrySpec.PlanIff | crates/abacus-daemon/src/registry.rs:98-181 | create's checks pass exactly on acceptable requests; the entry then has its tier's fields as asked and no others, everything watched exists and a cron's interval is positive and bounded; a not-found error names a watched entry that is missing |
| RegistrySpec.ParseConditionsIff | crates/abacus-daemon/src/registry.rs:158-179 | a barrier's conditions are accepted exactly when every name exists and every word byte is 0 or 1, and are kept one by one |
| RegistrySpec.FirstFailureWins | crates/abacus-daemon/src/registry.rs:163-177 | the first bad condition decides the error |
| RegistrySpec.New | crates/abacus-daemon/src/registry.rs:49-79 | a new registry satisfies the registry's invariant |
| RegistrySpec.CreateKeeps | crates/abacus-daemon/src/registry.rs:89-232 | create succeeds exactly on acceptable requests with memory, changes nothing when it fails, gives a fresh id that attach then returns, keeps the invariant and revives nothing |
| RegistrySpec.PassKeeps | crates/abacus-daemon/src/registry.rs:249-354 | a pass in any order keeps the invariant, revives no terminated expiration and leaves the clock alone |
| RegistrySpec.DoKeeps | crates/abacus-daemon/src/registry.rs:89-359 | every create, pass, clock update and client store keeps the invariant, revives nothing, and only clock updates move the clock |
| RegistrySpec.RegisteredOrDead | crates/abacus-daemon/src/registry.rs:213-231 | after every sequence of commands each interlock ever handed out is what attach returns for its name or has the marker in expiration_ns for good; ids are unique and below next_id; the clock is there with id 0 |
| RegistrySpec.AttachIsLatest | crates/abacus-daemon/src/registry.rs:234-241 | a create that has not been terminated is what attach returns, and whatever attach returns is the youngest interlock ever created under the name |
| RegistryLaws.CreateStores | crates/abacus-daemon/src/registry.rs:183-231 | over any registry commands can reach, a create that succeeds gives (clock, clock) for a timer, (least multiple of the interval above the clock, clock) for a cron, (1, 0) for a barrier and (0, 0) otherwise, expiring 100 ms after now; the replaced interlock gets three markers and no other words change |
| RegistryLaws.CreateStartsRuns | crates/abacus-daemon/src/registry.rs:187-211 | those words are an initial state of the protocol for the tier, and the cron and barrier that runs of passes start from |
| RegistryLaws.ClockTells | crates/abacus-daemon/src/registry.rs:49-79 | through any commands the clock's open_count is the last reading stored, closed_count the start time, and its expiration the latest of the creation deadline, the first arm and all refreshes of one second |
| RegistryLaws.PassLeaves | crates/abacus-daemon/src/registry.rs:350-353 | after a pass exactly the clock and the entries that were live are registered, each as it was |
| RegistryLaws.StoresAreActs | crates/abacus-core/src/interlock.rs:89-127 | in every reachable state of one interlock a thread's next step changes the three words as the registry's account of that store says, or not at all |
| Registry.Words.constructor | crates/abacus-core/src/interlock.rs:75-83 | fresh words are zero with the creation deadline |
| Registry.Words.Arm | crates/abacus-core/src/interlock.rs:89-111 | for any number of spurious failures the loop leaves expiration_ns at the larger of its value and the deadline, fails exactly on the marker, and changes no counter |
| Registry.Words.Raise | crates/abacus-client/src/wait_counter.rs:43-55 | the target loop leaves open_count at the larger of its value and the target |
| Registry.Words.Reap | crates/abacus-core/src/interlock.rs:113-120 | all three words hold the marker |
| Registry.Registry.New | crates/abacus-daemon/src/registry.rs:49-79 | the class starts as the registry on values does |
| Registry.Registry.Attach | crates/abacus-daemon/src/registry.rs:234-241 | the handle and id of the current entry, or not found |
| Registry.Registry.ParseBarrier | crates/abacus-daemon/src/registry.rs:158-179 | the loop computes the specification's conditions or its first error |
| Registry.Registry.Resolve | crates/abacus-daemon/src/registry.rs:98-181 | the checks in the code's order give the specification's result and error |
| Registry.Registry.Born | crates/abacus-daemon/src/registry.rs:183-211 | fresh words with the tier's initial counters |
| Registry.Registry.TakeOver | crates/abacus-daemon/src/registry.rs:213-216 | the old entry of a name leaves the map and its words, and no others, are reaped |
| Registry.Registry.Issue | crates/abacus-daemon/src/registry.rs:184-185 | the next id goes to the new interlock and no other words change |
| Registry.Registry.Create | crates/abacus-daemon/src/registry.rs:89-232 | the class and every word in memory change as the registry on values says, for success and each error; no handle is ever reassigned |
| Registry.Registry.ConditionsMet | crates/abacus-daemon/src/registry.rs:325-339 | the short-circuit loop says whether every condition holds of the words in memory |
| Registry.Registry.Contract | crates/abacus-daemon/src/registry.rs:285-347 | the value to stamp, if the tier's contract is met |
| Registry.Registry.Visit | crates/abacus-daemon/src/registry.rs:259-347 | one entry's turn leaves its words as the pass on values says and reports exactly the dead ones |
| Registry.Registry.VisitAll | crates/abacus-daemon/src/registry.rs:252-348 | the loop over the map, in any order, gives the words and the removal list of the pass on values |
| Registry.Registry.RemoveAll | crates/abacus-daemon/src/registry.rs:350-353 | exactly the listed names leave the map |
| Registry.Registry.EvaluateAll | crates/abacus-daemon/src/registry.rs:249-354 | the whole registry after a pass is that of the pass on values, and the invariant holds |
| Registry.Registry.StoreClock | crates/abacus-daemon/src/daemon.rs:122-124 | only the clock's open_count changes |
| Registry.Registry.RefreshClockExpiration | crates/abacus-daemon/src/registry.rs:356-359 | only the clock's expiration_ns changes, and only upwards |
| Registry.Registry.Cycle | crates/abacus-daemon/src/daemon.rs:122-133 | the memory part of a daemon cycle is the clock update, the pass and the refresh, in this order |
| Registry.Registry.ActOn | crates/abacus-client/src/interlock.rs:32-48 | a client's arm, free, open, close or target changes the words of its interlock as on values, and no others |
| Registry.Registry.Perform | crates/abacus-daemon/src/registry.rs:89-359 | every command of the registry on values, done in memory, gives the registry on values, so all that holds of its runs holds of the class |
| WireLaws.RequestRoundTrip | crates/abacus-daemon/src/wire.rs:95-318 | the little-endian prefix of an encoded request is the payload length, at most 4096, and the payload decodes to the request without the fields foreign to its tier if and only if its tier's fields are there; otherwise it is reported as truncated |
| WireLaws.CountIsExact | crates/abacus-daemon/src/wire.rs:131-139 | the sixteen-bit condition count never loses anything in a frame that is sent |
| WireLaws.ConditionsFromFront | crates/abacus-daemon/src/wire.rs:134-138 | a condition list encodes as its first condition followed by the encoding of the others, faults included |
| WireLaws.DecodeIsStable | crates/abacus-daemon/src/wire.rs:207-318 | any verdict other than truncated is unchanged by appending bytes |
| WireLaws.Reencoded | crates/abacus-daemon/src/wire.rs:207-318 | an accepted message carries its tier's fields and no others and re-encodes to a prefix of itself, and within 4096 bytes the encoder accepts it |
| WireLaws.AcceptedIff | crates/abacus-daemon/src/wire.rs:207-318 | a message of at most 4096 bytes decodes to a request if and only if the request is complete, has no foreign fields and its encoding starts the message |
| WireLaws.StrictPrefixIsCutOff | crates/abacus-daemon/src/wire.rs:207-318 | every strict prefix of an encoded payload is reported as truncated |
| WireLaws.ResponseRoundTrip | crates/abacus-daemon/src/wire.rs:163-190 | every response that is encoded decodes to itself, and its prefix is the payload length |
| WireLayout.RequestLayout | crates/abacus-daemon/src/wire.rs:95-161 | the bytes of every complete request that can be sent: four of length, version 1, tag 1 or 2, the counted name, the tier byte and the tier's fields, numbers little-endian |
| WireLayout.ResponseLayout | crates/abacus-daemon/src/wire.rs:163-190 | the bytes of every response: version 1, tag 0x81, 0x82 or 0x88, the id or the code and the counted text |
| WireLayout.AttachIsSentIff | crates/abacus-daemon/src/wire.rs:147-161 | an attach can be sent exactly for names of at most 4092 bytes |
| WireLayout.FaultOf | crates/abacus-daemon/src/wire.rs:207-318 | which fault bytes that are no request have: too short, another version, another tag; an attach is cut off, not UTF-8 or accepted by its own count, a create has only those two faults |
| WireLayout.UnsentBecause | crates/abacus-daemon/src/wire.rs:95-161 | a request is refused by the encoder only for a counter's missing word, a name over 65535 bytes or a payload over 4096 |
| Utf8Laws.Utf8Iff | crates/abacus-daemon/src/wire.rs:373-388 | a byte string is accepted as UTF-8 if and only if it encodes a sequence of Unicode scalar values |
| WireCodec.WriteString | crates/abacus-daemon/src/wire.rs:192-203 | the buffer grows by the length and the bytes, or the string is refused as too long |
| WireCodec.WriteConditions | crates/abacus-daemon/src/wire.rs:134-138 | the pushing loop appends the specification's bytes or fails with its first fault |
| WireCodec.WriteRequest | crates/abacus-daemon/src/wire.rs:95-161 | the encoder computes the specification's frame or fault |
| WireCodec.WriteResponse | crates/abacus-daemon/src/wire.rs:163-190 | the encoder computes the specification's frame or fault |
| WireCodec.ReadConditions | crates/abacus-daemon/src/wire.rs:271-298 | the cursor loop computes the specification's conditions, end position or fault, without reading out of bounds |
| WireCodec.ReadRequest | crates/abacus-daemon/src/wire.rs:207-318 | the decoder computes the specification's request or fault |
| Framing.ReadExactRetrying | crates/abacus-daemon/src/transport.rs:200-238 | for any kernel the buffer is filled with the next bytes of the stream, or the fault says how far it came; would-block and closed only at a frame's start with nothing consumed; it stalls only if too few calls could move bytes |
| Framing.WriteAllRetrying | crates/abacus-client/src/client.rs:96-117 | for any kernel all bytes are sent, exactly when there is no fault, and otherwise a strict prefix of them; it gives up only on an event of the kernel that refuses, and never when enough calls move bytes and none refuses |
| Framing.SendmsgWithFds | crates/abacus-daemon/src/transport.rs:324-396 | the same for a frame that carries a descriptor: one sendmsg, made again only when interrupted, and plain writes for what it left |
| Framing.ReadFramePrefix | crates/abacus-daemon/src/transport.rs:267-282 | four bytes are consumed and their value, at most 4096, returned, or a fault that fits what was there |
| Framing.ReadFramePayload | crates/abacus-daemon/src/transport.rs:284-291 | exactly the payload is consumed, or a fault in the middle of a frame |
| Framing.RecvRequest | crates/abacus-daemon/src/transport.rs:143-147 | a request or decode fault consumes exactly one frame and is the decoding of its payload; would-block consumes nothing; closed means nothing was left |
| Framing.SendRequests | crates/abacus-client/src/client.rs:96-117 | the stream holds the frames of the requests sent whole, in order, and at most a cut-off frame after them |
| Framing.ServeRequests | crates/abacus-daemon/src/daemon.rs:137-149 | repeated receiving returns what was sent, in order and once; a cut-off frame gives no request; closed is only reported after everything has arrived; a kernel that moves enough bytes without errors delivers everything |
| Framing.ArrivalIff | crates/abacus-daemon/src/transport.rs:143-147 | a request arrives as itself without foreign fields exactly when it is complete |
| Framing.Exchange | crates/abacus-daemon/src/transport.rs:200-291 | both ends together for any two kernels: the requests sent whole are the requests received; and all are sent and received when both kernels move enough bytes without errors |
| Dispatch.WireIsTransparent | crates/abacus-daemon/src/daemon.rs:137-227 | for every request that can be sent, complete or not and with any tier byte, the registry's new state and the reply are those of putting the request to the registry directly, whether or not memory and descriptors can be had |
| Dispatch.CreatedIff | crates/abacus-daemon/src/daemon.rs:151-201 | over the wire the registry changes exactly on acceptable requests with a known tier and memory; attach then gives the new interlock under its name and every other name as before; the reply says so exactly if the descriptor could be duplicated |
| Dispatch.AnswerMeans | crates/abacus-daemon/src/daemon.rs:151-227 | a request leaves the registry as it was or enters exactly the interlock it describes: tier by tier byte, watched name and word, interval in ms and every condition; the reply has the id, or 0x02, 0x03 or 0x04 for the reason |
| Dispatch.ReplyBytes | crates/abacus-daemon/src/daemon.rs:182-223 | each reply's bytes on the wire: tag and id of a new or a found interlock, tag and code of a refusal |
| Dispatch.HandleClientRequest | crates/abacus-daemon/src/daemon.rs:137-227 | one call consumes exactly one frame, changes registry and memory as the decoded request calls for, and sends the reply's frame or a strict prefix of it with a fault; a message that does not decode is refused as invalid and changes nothing; which faults are passed on; the new entry and the reply code are those the message calls for, field by field |
| ClientTable.KeptAt | crates/abacus-daemon/src/daemon.rs:115-120 | each unmarked entry moves up by the number of marks before it, and nothing else is in the table |
| ClientTable.Deduped | crates/abacus-daemon/src/daemon.rs:116-117 | removing neighbours that are equal from sorted marks leaves them strictly ascending with the same elements |
| ClientTable.SurvivorsAt | crates/abacus-daemon/src/daemon.rs:97-120 | a connection that neither hung up nor died over its request stands behind exactly those before it that stay, and nothing else is left |
| ClientTable.ServedAt | crates/abacus-daemon/src/daemon.rs:97-114 | the connections asked for a request are the readable ones that did not hang up, in their order |
| ClientTable.JoiningAt | crates/abacus-daemon/src/daemon.rs:77-94 | the new connections are those made non-blocking up to the first accept without one, in order |
| ClientTable.Table.AcceptAll | crates/abacus-daemon/src/daemon.rs:77-94 | accepted connections that could be made non-blocking join at the end, in order, until none waits or accept fails |
| ClientTable.Table.HandleRequests | crates/abacus-daemon/src/daemon.rs:97-114 | polled descriptor i + 1 is still client i; exactly the readable, not hung-up connections are served, and the marks are those to drop |
| ClientTable.Table.RemoveMarked | crates/abacus-daemon/src/daemon.rs:115-120 | for any list of marks, unsorted and with repeats, exactly the unmarked connections stay, in their order |
| ClientTable.Table.Cycle | crates/abacus-daemon/src/daemon.rs:42-120 | after a cycle the table holds the old connections that neither hung up nor died, in order, followed by the new ones |

## Left out

- Client calls as classes with loops: the waits, `open`, `close`, `free` and touch threads run concurrently on shared words, so they are program counters of a transition system on values; their stores and compare-exchange loops are also given as methods on the words, one thread at a time.
- Memory orderings: the three words are sequentially consistent, which is stronger than Acquire and Release across different words.
- Overflow panics: `clock_now + ms` and the deadline additions wrap, as they do in a release build.
- Syscalls: memfd, mmap, ftruncate, dup, poll and the passing of descriptors with a response are not modelled; allocating memory and duplicating a descriptor are flags, and reads, writes, sendmsg and futexes are abstract.
- Timing: cycle cadence, poll timeouts and wake latency are not modelled; clock reads are arbitrary and non-decreasing.
- ProcessClock: its periodic store into an open_count, which wakes nobody, is not one of the transitions.
- WaitRace, ClockHandle and the thin accessors: they only read or poll words that are modelled.
- Boolean compositions of waits and reaping on overrun: documented as plans or remarks, but not in the code.
- Retry loops that never end: a run that stays in a retry loop for ever is a run whose script of kernel events is used up.
- Framing.ServeRequests: does not cover what follows a frame refused as too large, because its payload is not drained and the stream loses its alignment, nor what follows an I/O error in the middle of a frame.
- TimerMargin.MarginMeansReturn: covers a sole waiter, because a second waiter may raise the target beyond the margin of the first.
- PassOrder.OrderIndependentIff: no client stores fall between the visits of the passes that are compared.
- PassRuns.CronFiresExactly: nobody but the daemon writes the cron's counters during the run, which is what an interlock without attachers gives.
- TimerSafety.TimerNeverEarly: holds for timers without attachers, and for no others (`TimerPromiseIff`).
- CronSafety.CronNeverRepeats: holds for crons without attachers, and for no others (`CronPromiseIff`).
- CounterSafety.CounterSound: holds for counters without attachers, and for no others (`CounterPromiseIff`).
- BarrierSafety.BarrierSound: holds for barriers without attachers, and for no others (`BarrierPromiseIff`).
- CounterSafety.CrossingDelivered: the watched word must not fall during the pass, because the pass reads it late.
- Stamps.StampsRise: covers wait tiers without attachers, whose close writes closed_count itself; the bound at 2^63 is needed (`HighStampRepeats`).
- The text of errors: an error reply carries any text.
