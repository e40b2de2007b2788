/** When the cast of a blink's elapsed time to 32 bits does harm: exactly when the blink is not `PacedSafe`. The ticks
    of these schedules come, as those of the tick loop do, at least its sleep apart. */
module BlinkWrap {
  import opened Relay
  import opened Blink

  ghost predicate TrueAtEveryTick(rs: RelayState, on: uint32, off: uint32, n: uint32, s: Instant, ts: seq<Instant>) {
    forall k: nat | k < |ts| && TickAt(Started(rs, on, off, n, s), ts, k).active ::
      TrueComparison(TickAt(Started(rs, on, off, n, s), ts, k), ts[k])
  }

  /** Ticks of the loop after a command at `s`: at least the sleep and at most `d` apart. */
  ghost predicate LoopTicks(s: Instant, ts: seq<Instant>, d: nat) {
    Schedule(s, ts) && MaxGap(s, ts, d) && Paced(s, ts)
  }

  ghost predicate TrueOnEverySchedule(rs: RelayState, on: uint32, off: uint32, n: uint32, d: nat) {
    forall s: Instant, ts: seq<Instant> | LoopTicks(s, ts, d) :: TrueAtEveryTick(rs, on, off, n, s, ts)
  }

  // --- Any schedule with a stall -----------------------------------------------------------------

  ghost predicate AllWithin(ts: seq<Instant>, a: nat, k: nat, start: Instant, length: nat)
    requires a <= k <= |ts|
  {
    forall i | a <= i < k :: start <= ts[i] < start + length
  }

  /** While ticks fall inside the phase that was running at tick `a`, it does not end. */
  lemma {:induction false} PhaseLasts(on: uint32, off: uint32, n: uint32, s: Instant, ts: seq<Instant>, a: nat, k: nat,
                                      es: seq<Instant>)
    requires a <= k <= |ts| && es == PhaseEnds(on, off, n, s, ts, a)
    requires AllWithin(ts, a, k, Last(s, es), PhaseNs(on, off, |es|))
    ensures PhaseEnds(on, off, n, s, ts, k) == es
  {
    if a < k {
      PhaseLasts(on, off, n, s, ts, a, k - 1, es);
      TrueBeforeWrap(Last(s, es), ts[k - 1], PhaseMs(on, off, |es|));
    }
  }

  lemma WrappedAway(start: Instant, now: Instant, ms: uint32)
    requires 0 <= now - start - TWO_32 * NS_PER_MS < ms * NS_PER_MS
    ensures ToU32(ElapsedMs(start, now)) < ms && now >= start + ms * NS_PER_MS
  {
    assert ElapsedMs(start, now) == TWO_32 + (now - start - TWO_32 * NS_PER_MS) / NS_PER_MS;
  }

  /** A tick that comes 2^32 ms and less than the running phase's length after its beginning is due, and ignored. */
  lemma WrappedTick(rs: RelayState, on: uint32, off: uint32, n: uint32, s: Instant, ts: seq<Instant>, k: nat,
                    es: seq<Instant>)
    requires k < |ts| && es == PhaseEnds(on, off, n, s, ts, k) && (n == 0 || |es| < 2 * n)
    requires 0 <= ts[k] - Last(s, es) - TWO_32 * NS_PER_MS < PhaseNs(on, off, |es|)
    ensures !TrueAtEveryTick(rs, on, off, n, s, ts)
  {
    var st := TickAt(Started(rs, on, off, n, s), ts, k);
    EdgesArePhaseEnds(rs, on, off, n, s, ts, k);
    BlinkProgress(rs, on, off, n, s, ts, k);
    assert Running(on, off, n, st, |es|, Last(s, es));
    WrappedAway(Last(s, es), ts[k], PhaseMs(on, off, |es|));
    assert !TrueComparison(st, ts[k]);
  }

  /** On any schedule, paced or not: when from tick `a` on all ticks but the last fall inside the running phase, and
      the last is such a tick, the end of the phase is missed. */
  lemma LateTickIgnored(rs: RelayState, on: uint32, off: uint32, n: uint32, s: Instant, ts: seq<Instant>, a: nat,
                        es: seq<Instant>)
    requires a < |ts| && es == PhaseEnds(on, off, n, s, ts, a) && (n == 0 || |es| < 2 * n)
    requires AllWithin(ts, a, |ts| - 1, Last(s, es), PhaseNs(on, off, |es|))
    requires 0 <= ts[|ts| - 1] - Last(s, es) - TWO_32 * NS_PER_MS < PhaseNs(on, off, |es|)
    ensures !TrueAtEveryTick(rs, on, off, n, s, ts)
  {
    PhaseLasts(on, off, n, s, ts, a, |ts| - 1, es);
    WrappedTick(rs, on, off, n, s, ts, |ts| - 1, es);
  }

  // --- Schedules of the tick loop ----------------------------------------------------------------

  /** How much later than a multiple of the sleep the i-th tick comes: `rest` in all, made up for in one gap (`wide`) or
      a nanosecond at a time. */
  function Extra(i: nat, rest: nat, wide: bool): nat {
    if i == 0 then 0 else if wide || rest < i then rest else i
  }

  /** Ticks number 1 to k after `base`. */
  function Regular(base: nat, k: nat, rest: nat, wide: bool): (ts: seq<Instant>)
    requires base + k * TICK_SLEEP + rest <= 4 * TWO_32 * NS_PER_MS
    ensures |ts| == k
  {
    seq(k, i requires 0 <= i < k => (base + (i + 1) * TICK_SLEEP + Extra(i + 1, rest, wide)) as Instant)
  }

  lemma RegularTicks(base: Instant, k: nat, rest: nat, wide: bool, d: nat)
    requires base + k * TICK_SLEEP + rest <= 4 * TWO_32 * NS_PER_MS
    requires TICK_SLEEP + (if wide then rest else if rest == 0 then 0 else 1) <= d
    ensures var ts := Regular(base, k, rest, wide);
            LoopTicks(base, ts, d) && (k > 0 ==> base + TICK_SLEEP <= ts[0])
  {
    var ts := Regular(base, k, rest, wide);
    forall j: nat | j < k ensures Prev(base, ts, j) + TICK_SLEEP <= ts[j] <= Prev(base, ts, j) + d {
      assert ts[j] - Prev(base, ts, j) == TICK_SLEEP + Extra(j + 1, rest, wide) - Extra(j, rest, wide);
    }
  }

  lemma RegularWithin(base: nat, k: nat, rest: nat, wide: bool)
    requires base + k * TICK_SLEEP + rest <= 4 * TWO_32 * NS_PER_MS
    ensures var ts := Regular(base, k, rest, wide);
            && (forall i | 0 <= i < k :: base < ts[i] <= base + (i + 1) * TICK_SLEEP + rest)
            && (forall i | 0 <= i < k - 1 :: ts[i] < base + k * TICK_SLEEP + rest)
            && (k > 0 ==> ts[k - 1] == base + k * TICK_SLEEP + Extra(k, rest, wide))
  {
  }

  lemma OneLoopTick(s: Instant, t: Instant, d: nat)
    requires s <= t <= s + d
    ensures LoopTicks(s, [t], d)
  {
  }

  lemma TickOfConcat(s: Instant, a: seq<Instant>, b: seq<Instant>, j: nat)
    requires a != [] && j < |a + b|
    ensures Prev(s, a + b, j) == if j < |a| then Prev(s, a, j) else Prev(Last(s, a), b, j - |a|)
    ensures (a + b)[j] == if j < |a| then a[j] else b[j - |a|]
  {
  }

  /** Two stretches of loop ticks make one. */
  lemma TicksConcat(s: Instant, a: seq<Instant>, b: seq<Instant>, d: nat)
    requires LoopTicks(s, a, d) && a != [] && LoopTicks(Last(s, a), b, d)
    requires b != [] ==> Last(s, a) + TICK_SLEEP <= b[0]
    ensures LoopTicks(s, a + b, d)
  {
    forall j: nat | j < |a + b|
      ensures Prev(s, a + b, j) <= (a + b)[j] <= Prev(s, a + b, j) + d
      ensures j > 0 ==> Prev(s, a + b, j) + TICK_SLEEP <= (a + b)[j]
    {
      TickOfConcat(s, a, b, j);
    }
  }

  /** Loop ticks from a command at 0 of which one comes at `x`. */
  function TicksTo(x: nat): (ts: seq<Instant>)
    requires x <= TWO_32 * NS_PER_MS
    ensures ts != []
  {
    [(x % TICK_SLEEP) as Instant] + Regular(x % TICK_SLEEP, x / TICK_SLEEP, 0, false)
  }

  lemma TicksToArrive(x: nat, d: nat)
    requires x <= TWO_32 * NS_PER_MS && TICK_SLEEP <= d
    ensures var ts := TicksTo(x);
            && LoopTicks(0, ts, d) && Last(0, ts) == x
            && forall i | 0 <= i < |ts| - 1 :: ts[i] < x
  {
    var r: Instant, k := x % TICK_SLEEP, x / TICK_SLEEP;
    var b := Regular(r, k, 0, false);
    OneLoopTick(0, r, d);
    RegularTicks(r, k, 0, false, d);
    RegularWithin(r, k, 0, false);
    TicksConcat(0, [r], b, d);
    assert r + k * TICK_SLEEP == x;
  }

  /** One tick more, 2^32 ms after `base` or as soon as the loop allows. */
  function Late(base: nat, x: nat): nat {
    if x + TICK_SLEEP < base + TWO_32 * NS_PER_MS then base + TWO_32 * NS_PER_MS else x + TICK_SLEEP
  }

  lemma LateAfter(base: nat, x: nat, ms: uint32, d: nat)
    requires TICK_SLEEP <= d && base <= x && base + TWO_32 * NS_PER_MS - d <= x < base + ms * NS_PER_MS
    ensures x + TICK_SLEEP <= Late(base, x) <= x + d
    ensures base + TWO_32 * NS_PER_MS <= Late(base, x) < base + TWO_32 * NS_PER_MS + ms * NS_PER_MS
  {
  }

  // --- The condition is exact --------------------------------------------------------------------

  /** An ON phase that is not wrap-safe: a tick just before its end, the next too late. */
  lemma OnPhaseMissed(rs: RelayState, on: uint32, off: uint32, n: uint32, d: nat) returns (ts: seq<Instant>)
    requires TICK_SLEEP <= d && !WrapSafe(on, d)
    ensures LoopTicks(0, ts, d) && !TrueAtEveryTick(rs, on, off, n, 0, ts)
  {
    var x := on * NS_PER_MS - 1;
    var a, late: Instant := TicksTo(x), Late(0, x);
    TicksToArrive(x, d);
    OneLoopTick(x, late, d);
    TicksConcat(0, a, [late], d);
    ts := a + [late];
    LateTickIgnored(rs, on, off, n, 0, ts, 0, []);
  }

  /** An ON phase of which a tick comes exactly at the end, and none before it is due, ends there. */
  lemma OnPhaseEnds(on: uint32, off: uint32, n: uint32, ts: seq<Instant>, k: nat)
    requires k < |ts| && ts[k] == on * NS_PER_MS
    requires forall i | 0 <= i < k :: ts[i] < on * NS_PER_MS
    ensures PhaseEnds(on, off, n, 0, ts, k + 1) == [on * NS_PER_MS]
  {
    PhaseLasts(on, off, n, 0, ts, 0, k, []);
    TrueBeforeWrap(0, ts[k], on);
  }

  lemma LateTickAfter(rs: RelayState, on: uint32, off: uint32, n: uint32, a: seq<Instant>, b: seq<Instant>,
                      base: Instant)
    requires b != [] && PhaseEnds(on, off, n, 0, a + b, |a|) == [base]
    requires forall i | 0 <= i < |b| - 1 :: base <= b[i] < base + off * NS_PER_MS
    requires 0 <= b[|b| - 1] - base - TWO_32 * NS_PER_MS < off * NS_PER_MS
    ensures !TrueAtEveryTick(rs, on, off, n, 0, a + b)
  {
    var ts := a + b;
    assert forall i | |a| <= i < |ts| :: ts[i] == b[i - |a|];
    assert Last(0, [base]) == base && PhaseNs(on, off, 1) == off * NS_PER_MS;
    LateTickIgnored(rs, on, off, n, 0, ts, |a|, [base]);
  }

  /** A stretch of regular ticks and a late one are ticks of the loop. */
  lemma LateLoopTicks(base: Instant, d: nat, k: nat, rest: nat, wide: bool, late: Instant)
    requires base <= TWO_32 * NS_PER_MS && k * TICK_SLEEP + rest <= 2 * TWO_32 * NS_PER_MS
    requires TICK_SLEEP + (if wide then rest else if rest == 0 then 0 else 1) <= d
    requires Extra(k, rest, wide) == rest
    requires TICK_SLEEP <= late - (base + k * TICK_SLEEP + rest) <= d
    ensures LoopTicks(base, Regular(base, k, rest, wide) + [late], d)
    ensures base + TICK_SLEEP <= (Regular(base, k, rest, wide) + [late])[0]
  {
    var r := Regular(base, k, rest, wide);
    RegularTicks(base, k, rest, wide, d);
    RegularWithin(base, k, rest, wide);
    OneLoopTick(base + k * TICK_SLEEP + rest, late, d);
    if k == 0 {
      assert r + [late] == [late];
    } else {
      TicksConcat(base, r, [late], d);
    }
  }

  /** The ticks of that OFF phase, which began at `base`. */
  lemma OffTicks(base: Instant, off: uint32, d: nat, k: nat, rest: nat, wide: bool) returns (b: seq<Instant>)
    requires base <= TWO_32 * NS_PER_MS
    requires TICK_SLEEP + (if wide then rest else if rest == 0 then 0 else 1) <= d
    requires Extra(k, rest, wide) == rest
    requires TWO_32 * NS_PER_MS - d <= k * TICK_SLEEP + rest < off * NS_PER_MS
    ensures b != [] && LoopTicks(base, b, d) && base + TICK_SLEEP <= b[0]
    ensures forall i | 0 <= i < |b| - 1 :: base <= b[i] < base + off * NS_PER_MS
    ensures 0 <= b[|b| - 1] - base - TWO_32 * NS_PER_MS < off * NS_PER_MS
  {
    var x := base + k * TICK_SLEEP + rest;
    var late: Instant := Late(base, x);
    LateAfter(base, x, off, d);
    LateLoopTicks(base, d, k, rest, wide, late);
    RegularWithin(base, k, rest, wide);
    b := Regular(base, k, rest, wide) + [late];
  }

  /** An OFF phase of which a loop can make its last tick at `k` sleeps and `rest`, the next one too late. */
  lemma OffPhaseMissed(rs: RelayState, on: uint32, off: uint32, n: uint32, d: nat, k: nat, rest: nat, wide: bool)
    returns (ts: seq<Instant>)
    requires TICK_SLEEP + (if wide then rest else if rest == 0 then 0 else 1) <= d
    requires Extra(k, rest, wide) == rest
    requires TWO_32 * NS_PER_MS - d <= k * TICK_SLEEP + rest < off * NS_PER_MS
    ensures LoopTicks(0, ts, d) && !TrueAtEveryTick(rs, on, off, n, 0, ts)
  {
    var base: Instant := on * NS_PER_MS;
    var a := TicksTo(base);
    var b := OffTicks(base, off, d, k, rest, wide);
    TicksToArrive(base, d);
    TicksConcat(0, a, b, d);
    ts := a + b;
    assert forall i | 0 <= i < |a| :: ts[i] == a[i];
    OnPhaseEnds(on, off, n, ts, |a| - 1);
    LateTickAfter(rs, on, off, n, a, b, base);
  }

  /** A blink that is not `PacedSafe` misses the end of a phase on a schedule of the loop. */
  lemma DueTickIgnored(rs: RelayState, on: uint32, off: uint32, n: uint32, d: nat) returns (ts: seq<Instant>)
    requires !PacedSafe(on, off, d)
    ensures LoopTicks(0, ts, d) && !TrueAtEveryTick(rs, on, off, n, 0, ts)
  {
    if !WrapSafe(on, d) {
      ts := OnPhaseMissed(rs, on, off, n, d);
    } else if off <= 10 {
      ts := OffPhaseMissed(rs, on, off, n, d, 0, 0, true);
    } else if d == TICK_SLEEP {
      ts := OffPhaseMissed(rs, on, off, n, d, LAST_REGULAR_MS / 10, 0, true);
    } else {
      var x := off * NS_PER_MS - 1;
      ts := OffPhaseMissed(rs, on, off, n, d, x / TICK_SLEEP, x % TICK_SLEEP, d >= 2 * TICK_SLEEP);
    }
  }

  /** The cast to 32 bits is harmless at every tick of every schedule of the loop with gaps of at most `d` if and only
      if the blink is `PacedSafe`. */
  lemma WrapConditionExact(rs: RelayState, on: uint32, off: uint32, n: uint32, d: nat)
    ensures TrueOnEverySchedule(rs, on, off, n, d) <==> PacedSafe(on, off, d)
  {
    if PacedSafe(on, off, d) {
      forall s: Instant, ts: seq<Instant>, k: nat
        | LoopTicks(s, ts, d) && k < |ts| && TickAt(Started(rs, on, off, n, s), ts, k).active
        ensures TrueComparison(TickAt(Started(rs, on, off, n, s), ts, k), ts[k])
      {
        TruncationHarmless(rs, on, off, n, s, ts, d, k);
      }
    } else {
      var ts := DueTickIgnored(rs, on, off, n, d);
    }
  }
}
