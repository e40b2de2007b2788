/** One relay channel of the controller: its record, the four commands and the periodic tick.

    Time is a `steady_clock` reading in integer nanoseconds. The functions here say what one channel does;
    the class in Controller.dfy is proved to do this to each of its eight channels. */
module Relay {
  import opened Machine

  const NS_PER_MS: int := 1_000_000

  /** How long the tick loop sleeps between ticks, at the least. */
  const TICK_SLEEP: int := 10_000_000

  const TWO_32: int := 0x1_0000_0000
  const TWO_64: int := 0x1_0000_0000_0000_0000

  type uint32 = x: int | 0 <= x < 0x1_0000_0000
  type uint64 = x: int | 0 <= x < 0x1_0000_0000_0000_0000

  /** A reading of the steady clock: a signed 64-bit count of nanoseconds since boot. */
  type Instant = x: int | 0 <= x < 0x8000_0000_0000_0000

  datatype RelayMode = TOGGLE | TIMER | PULSE | BLINK

  datatype RelayState = RelayState(
    mode: RelayMode,
    active: bool,
    state: bool,
    startTime: Instant,
    durationMs: uint64,
    blinkOnMs: uint32,
    blinkOffMs: uint32,
    blinkCount: uint32,
    blinkPhase: bool)

  const DEFAULT := RelayState(TOGGLE, false, false, 0, 0, 0, 0, 0, false)

  datatype Command =
    | SetRelay(on: bool)
    | StartTimer(seconds: uint32)
    | StartPulse(pulseMs: uint32)
    | StartBlink(onMs: uint32, offMs: uint32, count: uint32)

  /** `duration_cast<milliseconds>` truncates toward zero. */
  function ElapsedMs(start: Instant, now: Instant): int {
    if now >= start then (now - start) / NS_PER_MS else -((start - now) / NS_PER_MS)
  }

  function ToU32(x: int): uint32 {
    x % TWO_32
  }

  function ToU64(x: int): uint64 {
    x % TWO_64
  }

  function Apply(rs: RelayState, cmd: Command, now: Instant): RelayState {
    match cmd
    case SetRelay(on) => rs.(active := false, mode := TOGGLE, state := on)
    case StartTimer(seconds) =>
      rs.(mode := TIMER, active := true, startTime := now, durationMs := ToU64(seconds * 1000), state := true)
    case StartPulse(ms) =>
      rs.(mode := PULSE, active := true, startTime := now, durationMs := ms, state := true)
    case StartBlink(on, off, n) =>
      rs.(mode := BLINK, active := true, blinkOnMs := on, blinkOffMs := off, blinkCount := n,
          blinkPhase := true, startTime := now, state := true)
  }

  function AfterTick(rs: RelayState, now: Instant): RelayState {
    var elapsed := ElapsedMs(rs.startTime, now);
    if !rs.active then rs
    else if rs.mode == TIMER || rs.mode == PULSE then
      if ToU64(elapsed) >= rs.durationMs then rs.(state := false, active := false, mode := TOGGLE) else rs
    else if rs.mode == BLINK then
      if rs.blinkPhase then
        if ToU32(elapsed) >= rs.blinkOnMs then rs.(state := false, blinkPhase := false, startTime := now) else rs
      else if ToU32(elapsed) < rs.blinkOffMs then rs
      else if rs.blinkCount == 1 then rs.(blinkCount := 0, active := false, mode := TOGGLE)
      else rs.(blinkCount := if rs.blinkCount > 0 then rs.blinkCount - 1 else 0,
               state := true, blinkPhase := true, startTime := now)
    else rs
  }

  function StateOf(rs: RelayState): bool {
    rs.state
  }

  // --- The invariant every command and tick keeps ------------------------------------------------

  ghost predicate Coherent(rs: RelayState) {
    && (rs.active <==> rs.mode != TOGGLE)
    && (rs.mode == TIMER || rs.mode == PULSE ==> rs.state)
    && (rs.mode == BLINK ==> rs.state == rs.blinkPhase)
  }

  // --- Tick schedules ----------------------------------------------------------------------------

  /** The moment just before the k-th tick of a schedule that begins at `s`: the previous tick, or `s`. */
  function Prev(s: Instant, ts: seq<Instant>, k: nat): Instant
    requires k <= |ts|
  {
    if k == 0 then s else ts[k - 1]
  }

  ghost predicate Schedule(s: Instant, ts: seq<Instant>) {
    forall k: nat | k < |ts| :: Prev(s, ts, k) <= ts[k]
  }

  ghost predicate MaxGap(s: Instant, ts: seq<Instant>, d: nat) {
    forall k: nat | k < |ts| :: ts[k] <= Prev(s, ts, k) + d
  }

  /** Ticks come from one loop that sleeps between them; a command may come at any time. */
  ghost predicate Paced(s: Instant, ts: seq<Instant>) {
    forall k: nat | 0 < k < |ts| :: Prev(s, ts, k) + TICK_SLEEP <= ts[k]
  }

  lemma {:induction false} ScheduleFrom(s: Instant, ts: seq<Instant>, j: nat, k: nat)
    requires Schedule(s, ts) && j <= k <= |ts|
    ensures Prev(s, ts, j) <= Prev(s, ts, k)
  {
    if j < k {
      ScheduleFrom(s, ts, j, k - 1);
      assert Prev(s, ts, k - 1) <= ts[k - 1];
    }
  }

  /** The channel after the first k ticks of the schedule, no command intervening. */
  function TickAt(rs: RelayState, ts: seq<Instant>, k: nat): RelayState
    requires k <= |ts|
  {
    if k == 0 then rs else AfterTick(TickAt(rs, ts, k - 1), ts[k - 1])
  }

  /** The physical writes of those ticks: the relay is written exactly when its stored state changes. */
  function TickWrites(rs: RelayState, ts: seq<Instant>, k: nat): seq<bool>
    requires k <= |ts|
  {
    if k == 0 then [] else Changed(TickWrites(rs, ts, k - 1), TickAt(rs, ts, k - 1).state, TickAt(rs, ts, k).state)
  }

  // --- Between commands --------------------------------------------------------------------------

  /** An inactive relay, be it ON or OFF, is left alone by every tick: no tick changes its record or writes it. */
  lemma {:induction false} InactiveStays(rs: RelayState, ts: seq<Instant>, k: nat)
    requires k <= |ts| && !rs.active
    ensures TickAt(rs, ts, k) == rs && TickWrites(rs, ts, k) == []
  {
    if k > 0 {
      InactiveStays(rs, ts, k - 1);
    }
  }

  /** Ticks never put an active relay in another mode; one that they make inactive is in TOGGLE. */
  lemma {:induction false} TicksKeepMode(rs: RelayState, ts: seq<Instant>, k: nat)
    requires k <= |ts| && (rs.active || rs.mode == TOGGLE)
    ensures var st := TickAt(rs, ts, k);
            st.mode == (if st.active then rs.mode else TOGGLE) && (st.active ==> rs.active)
  {
    if k > 0 {
      TicksKeepMode(rs, ts, k - 1);
    }
  }

  // --- Timer and pulse ---------------------------------------------------------------------------

  predicate Counting(rs: RelayState) {
    rs.active && (rs.mode == TIMER || rs.mode == PULSE)
  }

  function Deadline(rs: RelayState): int {
    rs.startTime + rs.durationMs * NS_PER_MS
  }

  function Expired(rs: RelayState): RelayState {
    rs.(state := false, active := false, mode := TOGGLE)
  }

  ghost predicate AllBefore(ts: seq<Instant>, k: nat, deadline: int)
    requires k <= |ts|
  {
    forall j: nat | j < k :: ts[j] < deadline
  }

  lemma OneMoreBefore(ts: seq<Instant>, k: nat, deadline: int)
    requires k < |ts|
    ensures AllBefore(ts, k + 1, deadline) <==> AllBefore(ts, k, deadline) && ts[k] < deadline
  {
  }

  lemma RoundedUp(ms: nat, spent: nat)
    ensures spent < ms * NS_PER_MS ==> ms - spent / NS_PER_MS == (ms * NS_PER_MS - spent + NS_PER_MS - 1) / NS_PER_MS
    ensures spent >= ms * NS_PER_MS <==> spent / NS_PER_MS >= ms
  {
    var q, r := spent / NS_PER_MS, spent % NS_PER_MS;
    assert spent == q * NS_PER_MS + r;
    assert ms * NS_PER_MS - spent + NS_PER_MS - 1 == (ms - q) * NS_PER_MS + (NS_PER_MS - 1 - r);
  }

  /** Millisecond truncation and the 64-bit cast do not move the deadline. */
  lemma TickAtDeadline(rs: RelayState, now: Instant)
    requires Counting(rs) && now >= rs.startTime
    ensures AfterTick(rs, now) == if now >= Deadline(rs) then Expired(rs) else rs
  {
    RoundedUp(rs.durationMs, now - rs.startTime);
  }

  lemma ExpiredStays(rs: RelayState, now: Instant)
    ensures AfterTick(Expired(rs), now) == Expired(rs)
  {
  }

  lemma OneTimerTick(rs: RelayState, ts: seq<Instant>, k: nat)
    requires Counting(rs) && k < |ts| && rs.startTime <= ts[k]
    requires TickAt(rs, ts, k) == if AllBefore(ts, k, Deadline(rs)) then rs else Expired(rs)
    ensures TickAt(rs, ts, k + 1) == if AllBefore(ts, k + 1, Deadline(rs)) then rs else Expired(rs)
  {
    OneMoreBefore(ts, k, Deadline(rs));
    if AllBefore(ts, k, Deadline(rs)) {
      TickAtDeadline(rs, ts[k]);
    } else {
      ExpiredStays(rs, ts[k]);
    }
  }

  /** The whole life of an unsuperseded timer or pulse: ON and untouched while every tick is before the
      deadline, OFF from the first tick at or after it. */
  lemma {:induction false} TimerWindow(rs: RelayState, ts: seq<Instant>, k: nat)
    requires Counting(rs) && Coherent(rs) && Schedule(rs.startTime, ts) && k <= |ts|
    ensures TickAt(rs, ts, k) == if AllBefore(ts, k, Deadline(rs)) then rs else Expired(rs)
  {
    if k > 0 {
      TimerWindow(rs, ts, k - 1);
      ScheduleFrom(rs.startTime, ts, 0, k);
      OneTimerTick(rs, ts, k - 1);
    }
  }

  /** It makes exactly one write, the OFF at its end. */
  lemma {:induction false} TimerWritesOnce(rs: RelayState, ts: seq<Instant>, k: nat)
    requires Counting(rs) && Coherent(rs) && Schedule(rs.startTime, ts) && k <= |ts|
    ensures TickWrites(rs, ts, k) == if AllBefore(ts, k, Deadline(rs)) then [] else [false]
  {
    if k > 0 {
      TimerWritesOnce(rs, ts, k - 1);
      TimerWindow(rs, ts, k - 1);
      TimerWindow(rs, ts, k);
      OneMoreBefore(ts, k - 1, Deadline(rs));
    }
  }

  /** The tick that switches the relay off comes less than one tick gap after the deadline. */
  lemma TimerNotLate(rs: RelayState, ts: seq<Instant>, k: nat, d: nat)
    requires Counting(rs) && Coherent(rs) && Schedule(rs.startTime, ts) && MaxGap(rs.startTime, ts, d) && k < |ts|
    requires TickAt(rs, ts, k).state && !TickAt(rs, ts, k + 1).state
    ensures Deadline(rs) <= ts[k] <= Deadline(rs) + d
    ensures rs.durationMs > 0 ==> ts[k] < Deadline(rs) + d
  {
    TimerWindow(rs, ts, k);
    TimerWindow(rs, ts, k + 1);
    assert ts[k] <= Prev(rs.startTime, ts, k) + d;
  }

  /** When the relay of a channel that gets `cmd`, a timer or pulse, at `s` goes off again. */
  function OffAt(cmd: Command, s: Instant): int
    requires cmd.StartTimer? || cmd.StartPulse?
  {
    s + (if cmd.StartTimer? then cmd.seconds * 1000 else cmd.pulseMs) * NS_PER_MS
  }

  /** Neither the conversion from seconds nor the 64-bit cast loses anything. */
  lemma DeadlineOfCommand(rs: RelayState, cmd: Command, s: Instant)
    requires cmd.StartTimer? || cmd.StartPulse?
    ensures var b := Apply(rs, cmd, s);
            Counting(b) && Coherent(b) && b.startTime == s && Deadline(b) == OffAt(cmd, s)
            && b.durationMs == if cmd.StartTimer? then cmd.seconds * 1000 else cmd.pulseMs
  {
  }

  lemma TimerFrom(rs: RelayState, cmd: Command, s: Instant, ts: seq<Instant>)
    requires (cmd.StartTimer? || cmd.StartPulse?) && Schedule(s, ts)
    ensures var st := TickAt(Apply(rs, cmd, s), ts, |ts|); var early := AllBefore(ts, |ts|, OffAt(cmd, s));
            && st.state == st.active == early
            && TickWrites(Apply(rs, cmd, s), ts, |ts|) == if early then [] else [false]
  {
    var b := Apply(rs, cmd, s);
    DeadlineOfCommand(rs, cmd, s);
    TimerWindow(b, ts, |ts|);
    TimerWritesOnce(b, ts, |ts|);
  }

  // --- A command forgets the past ----------------------------------------------------------------

  /** The part of a record that can still influence the channel: fields a mode does not use are blanked. */
  function Relevant(rs: RelayState): RelayState {
    if !rs.active then DEFAULT.(state := rs.state)
    else if rs.mode == TIMER || rs.mode == PULSE then
      rs.(blinkOnMs := 0, blinkOffMs := 0, blinkCount := 0, blinkPhase := false)
    else rs.(durationMs := 0)
  }

  datatype ChannelEvent = Do(at: Instant, cmd: Command) | Ticked(at: Instant)

  function ChannelStep(rs: RelayState, e: ChannelEvent): RelayState {
    match e
    case Do(at, cmd) => Apply(rs, cmd, at)
    case Ticked(at) => AfterTick(rs, at)
  }

  function ChannelRun(rs: RelayState, es: seq<ChannelEvent>): RelayState {
    Fold(ChannelStep, rs, es)
  }

  function ChannelWrites(rs: RelayState, es: seq<ChannelEvent>): seq<bool> {
    Changes(ChannelStep, StateOf, rs, es)
  }

  lemma {:induction false} CoherentAlways(rs: RelayState, es: seq<ChannelEvent>)
    requires Coherent(rs)
    ensures Coherent(ChannelRun(rs, es))
  {
    if es != [] {
      CoherentAlways(rs, es[..|es| - 1]);
    }
  }

  function TickEvents(ts: seq<Instant>, k: nat): seq<ChannelEvent>
    requires k <= |ts|
  {
    if k == 0 then [] else TickEvents(ts, k - 1) + [Ticked(ts[k - 1])]
  }

  lemma {:induction false} TicksAreEvents(rs: RelayState, ts: seq<Instant>, k: nat)
    requires k <= |ts|
    ensures TickAt(rs, ts, k) == ChannelRun(rs, TickEvents(ts, k))
    ensures TickWrites(rs, ts, k) == ChannelWrites(rs, TickEvents(ts, k))
    decreases k
  {
    if k > 0 {
      TicksAreEvents(rs, ts, k - 1);
      assert TickEvents(ts, k)[..|TickEvents(ts, k)| - 1] == TickEvents(ts, k - 1);
    }
  }

  /** Whatever a channel was doing, one command replaces it entirely: two channels with different pasts that
      receive the same command show the same state, mode and activity ever after. */
  lemma {:induction false} CommandForgetsPast(a: RelayState, b: RelayState, cmd: Command, at: Instant,
                                              es: seq<ChannelEvent>)
    ensures var x, y := ChannelRun(Apply(a, cmd, at), es), ChannelRun(Apply(b, cmd, at), es);
            Relevant(x) == Relevant(y) && x.state == y.state && x.active == y.active && (x.active ==> x.mode == y.mode)
  {
    if es != [] {
      CommandForgetsPast(a, b, cmd, at, es[..|es| - 1]);
    }
  }

  // --- Remaining time ----------------------------------------------------------------------------

  /** The milliseconds left of a timer or pulse, in uint64 arithmetic as the status query computes them. */
  function Remaining(rs: RelayState, now: Instant): uint64 {
    var elapsed := ToU64(ElapsedMs(rs.startTime, now));
    if rs.durationMs > elapsed then ToU64(rs.durationMs - elapsed) else 0
  }

  /** Nothing wraps: the remaining time is the duration less the elapsed time, or 0. */
  lemma RemainingExact(rs: RelayState, now: Instant)
    requires rs.startTime <= now
    ensures var elapsed := ElapsedMs(rs.startTime, now);
            Remaining(rs, now) == if rs.durationMs > elapsed then rs.durationMs - elapsed else 0
  {
    assert 0 <= ElapsedMs(rs.startTime, now) < TWO_64;
  }

  lemma ElapsedGrows(start: Instant, now: Instant, later: Instant)
    requires start <= now <= later
    ensures 0 <= ElapsedMs(start, now) <= ElapsedMs(start, later)
  {
  }

  /** Remaining reaches zero exactly when a tick would switch off; it only falls; nothing wraps. */
  lemma RemainingAgreesWithTick(rs: RelayState, now: Instant, later: Instant)
    requires Counting(rs) && Coherent(rs) && rs.startTime <= now <= later
    ensures Remaining(rs, now) == 0 <==> !AfterTick(rs, now).state
    ensures Remaining(rs, later) <= Remaining(rs, now) <= rs.durationMs
    ensures Remaining(rs, now) > 0 ==> Remaining(rs, now) + ElapsedMs(rs.startTime, now) == rs.durationMs
  {
    TickAtDeadline(rs, now);
    RemainingExact(rs, now);
    RemainingExact(rs, later);
    ElapsedGrows(rs.startTime, now, later);
    RoundedUp(rs.durationMs, now - rs.startTime);
  }

  /** Nanoseconds in milliseconds, rounded up; 0 when none are left. */
  function MsLeft(left: int): nat {
    if left <= 0 then 0 else (left + NS_PER_MS - 1) / NS_PER_MS
  }

  /** Remaining is the true time to the deadline. */
  lemma RemainingIsTimeLeft(rs: RelayState, now: Instant)
    requires Counting(rs) && Coherent(rs) && rs.startTime <= now
    ensures Remaining(rs, now) == MsLeft(Deadline(rs) - now)
  {
    RemainingExact(rs, now);
    RoundedUp(rs.durationMs, now - rs.startTime);
  }

  /** Along a whole unsuperseded timer or pulse, every status query reports the one countdown that the ticks act
      on: it never rises from one query to a later one, whatever ticks fall between. */
  lemma StatusFollowsRun(rs: RelayState, ts: seq<Instant>, j: nat, k: nat, t: Instant, u: Instant)
    requires Counting(rs) && Coherent(rs) && Schedule(rs.startTime, ts) && j <= k <= |ts|
    requires Prev(rs.startTime, ts, j) <= t <= u && Prev(rs.startTime, ts, k) <= u
    requires TickAt(rs, ts, k).active
    ensures TickAt(rs, ts, j).active
    ensures Remaining(TickAt(rs, ts, k), u) <= Remaining(TickAt(rs, ts, j), t) <= rs.durationMs
    ensures Remaining(TickAt(rs, ts, k), u) == 0 <==> !AfterTick(TickAt(rs, ts, k), u).state
  {
    TimerWindow(rs, ts, j);
    TimerWindow(rs, ts, k);
    assert AllBefore(ts, k, Deadline(rs)) ==> AllBefore(ts, j, Deadline(rs));
    assert TickAt(rs, ts, j) == TickAt(rs, ts, k) == rs;
    ScheduleFrom(rs.startTime, ts, 0, j);
    RemainingAgreesWithTick(rs, t, u);
    RemainingAgreesWithTick(rs, u, u);
  }
}
