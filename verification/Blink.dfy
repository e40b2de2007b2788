/** The life of one unsuperseded blink: when its phases change, how many writes it makes and when it ends. */
module Blink {
  import opened Machine
  import opened Relay

  /** A channel in state `rs` that receives start_blink at `s`. */
  function Started(rs: RelayState, on: uint32, off: uint32, n: uint32, s: Instant): RelayState {
    Apply(rs, StartBlink(on, off, n), s)
  }

  /** A tick that ends a phase: the phase flips, or the blink finishes. */
  predicate Advances(before: RelayState, after: RelayState) {
    before.active && (before.blinkPhase != after.blinkPhase || !after.active)
  }

  /** The times of the phase changes among the first k ticks. */
  function EdgeTimes(rs: RelayState, ts: seq<Instant>, k: nat): (es: seq<Instant>)
    requires k <= |ts|
    ensures |es| <= k
  {
    if k == 0 then []
    else
      var es := EdgeTimes(rs, ts, k - 1);
      if Advances(TickAt(rs, ts, k - 1), TickAt(rs, ts, k)) then es + [ts[k - 1]] else es
  }

  function Last(s: Instant, es: seq<Instant>): Instant {
    if es == [] then s else es[|es| - 1]
  }

  function PhaseMs(on: uint32, off: uint32, q: nat): uint32 {
    if q % 2 == 0 then on else off
  }

  function PhaseNs(on: uint32, off: uint32, q: nat): nat {
    PhaseMs(on, off, q) * NS_PER_MS
  }

  /** The length of the first q phases (on, off, on, ...), each stretched by `slack` nanoseconds. */
  function Span(on: uint32, off: uint32, slack: nat, q: nat): nat {
    if q == 0 then 0 else Span(on, off, slack, q - 1) + PhaseNs(on, off, q - 1) + slack
  }

  /** An on phase and an off phase, each late by at most `slack`. */
  function CycleNs(on: uint32, off: uint32, slack: nat): nat {
    (on + off) * NS_PER_MS + 2 * slack
  }

  lemma OneMoreCycle(on: uint32, off: uint32, slack: nat, q: nat)
    requires q % 2 == 0
    ensures Span(on, off, slack, q + 2) == Span(on, off, slack, q) + CycleNs(on, off, slack)
  {
    assert Span(on, off, slack, q + 1) == Span(on, off, slack, q) + on * NS_PER_MS + slack;
  }

  lemma OneMoreTime(n: nat, c: int)
    ensures (n + 1) * c == n * c + c
  {
  }

  lemma {:induction false} SpanOfCycles(on: uint32, off: uint32, slack: nat, n: nat)
    ensures Span(on, off, slack, 2 * n) == n * CycleNs(on, off, slack)
  {
    if n > 0 {
      SpanOfCycles(on, off, slack, n - 1);
      OneMoreCycle(on, off, slack, 2 * n - 2);
      OneMoreTime(n - 1, CycleNs(on, off, slack));
    }
  }

  lemma {:induction false} SpanGrows(on: uint32, off: uint32, slack: nat, p: nat, q: nat)
    requires p <= q
    ensures Span(on, off, slack, p) <= Span(on, off, slack, q)
  {
    if p < q {
      SpanGrows(on, off, slack, p, q - 1);
    }
  }

  // --- What the record says after q phase changes ------------------------------------------------

  ghost predicate Running(on: uint32, off: uint32, n: uint32, st: RelayState, q: nat, last: Instant) {
    && st.active && st.mode == BLINK && st.blinkOnMs == on && st.blinkOffMs == off
    && st.blinkPhase == (q % 2 == 0) && st.state == st.blinkPhase && st.startTime == last
    && st.blinkCount == if n == 0 then 0 else n - q / 2
  }

  ghost predicate Finished(st: RelayState) {
    !st.active && st.mode == TOGGLE && !st.state && !st.blinkPhase && st.blinkCount == 0
  }

  ghost predicate Tracks(on: uint32, off: uint32, n: uint32, st: RelayState, q: nat, last: Instant) {
    if n > 0 && q >= 2 * n then q == 2 * n && Finished(st) else Running(on, off, n, st, q, last)
  }

  /** One tick: it ends the current phase exactly when the comparison on the truncated elapsed time says so,
      and writes the relay unless it ends the last phase; any other tick changes nothing. */
  lemma OneTick(on: uint32, off: uint32, n: uint32, st: RelayState, q: nat, last: Instant, now: Instant)
    requires Tracks(on, off, n, st, q, last)
    ensures Advances(st, AfterTick(st, now))
       <==> (n == 0 || q < 2 * n) && ToU32(ElapsedMs(last, now)) >= PhaseMs(on, off, q)
    ensures Advances(st, AfterTick(st, now)) ==> Tracks(on, off, n, AfterTick(st, now), q + 1, now)
    ensures !Advances(st, AfterTick(st, now)) ==> AfterTick(st, now) == st
    ensures st.state != AfterTick(st, now).state <==> Advances(st, AfterTick(st, now)) && q + 1 != 2 * n
    ensures st.state != AfterTick(st, now).state ==> AfterTick(st, now).state == (q % 2 == 1)
  {
  }

  /** Conservation and termination in one: the count left plus the completed cycles is always `n`, and the
      blink is over exactly at the 2n-th phase change (never, when `n` is 0). */
  lemma {:induction false} BlinkProgress(rs: RelayState, on: uint32, off: uint32, n: uint32, s: Instant,
                                         ts: seq<Instant>, k: nat)
    requires k <= |ts|
    ensures var b := Started(rs, on, off, n, s); var es := EdgeTimes(b, ts, k);
            Tracks(on, off, n, TickAt(b, ts, k), |es|, Last(s, es))
  {
    if k > 0 {
      BlinkProgress(rs, on, off, n, s, ts, k - 1);
      var b := Started(rs, on, off, n, s);
      var es := EdgeTimes(b, ts, k - 1);
      OneTick(on, off, n, TickAt(b, ts, k - 1), |es|, Last(s, es), ts[k - 1]);
    }
  }

  lemma BlinkActive(rs: RelayState, on: uint32, off: uint32, n: uint32, s: Instant, ts: seq<Instant>, k: nat)
    requires k <= |ts|
    ensures var b := Started(rs, on, off, n, s); TickAt(b, ts, k).active <==> n == 0 || |EdgeTimes(b, ts, k)| < 2 * n
  {
    BlinkProgress(rs, on, off, n, s, ts, k);
  }

  /** A reference for the phase ends that knows nothing of the record: the end of a phase is the first tick
      whose truncated distance from the previous end reaches the phase's length. */
  function PhaseEnds(on: uint32, off: uint32, n: uint32, s: Instant, ts: seq<Instant>, k: nat): (es: seq<Instant>)
    requires k <= |ts|
    ensures |es| <= k
  {
    if k == 0 then []
    else
      var es := PhaseEnds(on, off, n, s, ts, k - 1);
      if (n == 0 || |es| < 2 * n) && ToU32(ElapsedMs(Last(s, es), ts[k - 1])) >= PhaseMs(on, off, |es|)
      then es + [ts[k - 1]] else es
  }

  lemma {:induction false} EdgesArePhaseEnds(rs: RelayState, on: uint32, off: uint32, n: uint32, s: Instant,
                                             ts: seq<Instant>, k: nat)
    requires k <= |ts|
    ensures EdgeTimes(Started(rs, on, off, n, s), ts, k) == PhaseEnds(on, off, n, s, ts, k)
  {
    if k > 0 {
      var b := Started(rs, on, off, n, s);
      var es := EdgeTimes(b, ts, k - 1);
      EdgesArePhaseEnds(rs, on, off, n, s, ts, k - 1);
      BlinkProgress(rs, on, off, n, s, ts, k - 1);
      OneTick(on, off, n, TickAt(b, ts, k - 1), |es|, Last(s, es), ts[k - 1]);
    }
  }

  /** What is left to do: two for each cycle, less one in the OFF phase. */
  function Measure(st: RelayState): int {
    if !st.active then 0 else 2 * st.blinkCount - if st.blinkPhase then 0 else 1
  }

  /** Over a whole blink of `n` cycles the measure starts at 2n, loses one at each phase change and nothing
      otherwise; so n cycles take at least 2n ticks. A blink of count 0 is active after every tick sequence. */
  lemma BlinkMeasure(rs: RelayState, on: uint32, off: uint32, n: uint32, s: Instant, ts: seq<Instant>, k: nat)
    requires k <= |ts|
    ensures var b := Started(rs, on, off, n, s); var st := TickAt(b, ts, k);
            && (n > 0 ==> Measure(st) + |EdgeTimes(b, ts, k)| == 2 * n)
            && (n > 0 && !st.active ==> k >= 2 * n)
            && (n == 0 ==> st.active && st.mode == BLINK)
            && (st.active && n > 0 ==> 1 <= st.blinkCount == n - |EdgeTimes(b, ts, k)| / 2)
  {
    BlinkProgress(rs, on, off, n, s, ts, k);
  }

  // --- Edge times --------------------------------------------------------------------------------

  ghost predicate NotAfter(on: uint32, off: uint32, d: nat, s: Instant, es: seq<Instant>) {
    forall q: nat | q < |es| :: es[q] <= s + Span(on, off, d, q + 1)
  }

  ghost predicate NotBefore(on: uint32, off: uint32, s: Instant, es: seq<Instant>) {
    forall q: nat | q < |es| :: s + Span(on, off, 0, q + 1) <= es[q]
  }

  lemma {:induction false} EndsOrdered(on: uint32, off: uint32, n: uint32, s: Instant, ts: seq<Instant>, k: nat)
    requires Schedule(s, ts) && k <= |ts|
    ensures s <= Last(s, PhaseEnds(on, off, n, s, ts, k)) <= Prev(s, ts, k)
  {
    if k > 0 {
      EndsOrdered(on, off, n, s, ts, k - 1);
      assert Prev(s, ts, k - 1) <= ts[k - 1];
    }
  }

  lemma TruncationOnlyDelays(start: Instant, now: Instant, ms: uint32)
    requires start <= now && ToU32(ElapsedMs(start, now)) >= ms
    ensures now >= start + ms * NS_PER_MS
  {
  }

  lemma NotEarlyGrows(on: uint32, off: uint32, s: Instant, es: seq<Instant>, now: Instant)
    requires NotBefore(on, off, s, es) && Last(s, es) <= now
    ensures ToU32(ElapsedMs(Last(s, es), now)) >= PhaseMs(on, off, |es|) ==> NotBefore(on, off, s, es + [now])
  {
    if ToU32(ElapsedMs(Last(s, es), now)) >= PhaseMs(on, off, |es|) {
      TruncationOnlyDelays(Last(s, es), now, PhaseMs(on, off, |es|));
      assert s + Span(on, off, 0, |es|) <= Last(s, es);
    }
  }

  lemma {:induction false} EndsNotEarly(on: uint32, off: uint32, n: uint32, s: Instant, ts: seq<Instant>, k: nat)
    requires Schedule(s, ts) && k <= |ts|
    ensures NotBefore(on, off, s, PhaseEnds(on, off, n, s, ts, k))
  {
    if k > 0 {
      var es := PhaseEnds(on, off, n, s, ts, k - 1);
      EndsNotEarly(on, off, n, s, ts, k - 1);
      EndsOrdered(on, off, n, s, ts, k - 1);
      assert Prev(s, ts, k - 1) <= ts[k - 1];
      NotEarlyGrows(on, off, s, es, ts[k - 1]);
    }
  }

  /** The condition under which the cast of the elapsed time to 32 bits cannot make the controller miss the end
      of a phase of `ms` milliseconds, when ticks come at most `d` nanoseconds apart. */
  predicate WrapSafe(ms: uint32, d: nat) {
    ms == 0 || ms * NS_PER_MS + d <= TWO_32 * NS_PER_MS
  }

  /** The last tick of the slowest loop that falls on a multiple of its sleep before 2^32 ms. */
  const LAST_REGULAR_MS := 4_294_967_290

  /** The same for an OFF phase, which begins with a tick, when ticks are paced: no tick falls inside a phase that is no
      longer than the sleep; ticks that are exactly the sleep apart fall on its multiples. */
  predicate OffSafe(off: uint32, d: nat) {
    || WrapSafe(off, d)
    || (off <= 10 && d < TWO_32 * NS_PER_MS)
    || (d == TICK_SLEEP && off <= LAST_REGULAR_MS)
  }

  /** The condition on a blink under which no paced schedule with ticks at most `d` apart makes it miss a phase's end.
      (If `d` is less than the sleep there is no second tick.) */
  predicate PacedSafe(on: uint32, off: uint32, d: nat) {
    d < TICK_SLEEP || (WrapSafe(on, d) && OffSafe(off, d))
  }

  /** Ticks at most `d` apart that do not make this blink miss a phase's end. */
  ghost predicate Dependable(on: uint32, off: uint32, d: nat, s: Instant, ts: seq<Instant>) {
    && Schedule(s, ts) && MaxGap(s, ts, d)
    && ((WrapSafe(on, d) && WrapSafe(off, d)) || (Paced(s, ts) && PacedSafe(on, off, d)))
  }

  /** While a phase lasts, the latest tick is before its end, unless that tick began the phase. */
  ghost predicate Waiting(on: uint32, off: uint32, s: Instant, ts: seq<Instant>, k: nat, es: seq<Instant>)
    requires k <= |ts|
  {
    Prev(s, ts, k) == Last(s, es) || Prev(s, ts, k) < Last(s, es) + PhaseNs(on, off, |es|)
  }

  /** On a paced schedule, ticks within a phase that began with a tick are at least the sleep after its beginning. */
  ghost predicate OnPace(s: Instant, ts: seq<Instant>, d: nat, k: nat, es: seq<Instant>)
    requires k <= |ts|
  {
    es == [] || Prev(s, ts, k) == Last(s, es)
    || (Last(s, es) + TICK_SLEEP <= Prev(s, ts, k)
        && (d == TICK_SLEEP ==> (Prev(s, ts, k) - Last(s, es)) % TICK_SLEEP == 0))
  }

  lemma PaceGoesOn(last: Instant, prev: Instant, now: Instant, d: nat)
    requires prev == last || (last + TICK_SLEEP <= prev && (d == TICK_SLEEP ==> (prev - last) % TICK_SLEEP == 0))
    requires prev + TICK_SLEEP <= now <= prev + d
    ensures last + TICK_SLEEP <= now && (d == TICK_SLEEP ==> (now - last) % TICK_SLEEP == 0)
  {
    if d == TICK_SLEEP {
      assert now - last == (prev - last) + TICK_SLEEP;
    }
  }

  lemma {:induction false} EndsOnPace(on: uint32, off: uint32, n: uint32, s: Instant, ts: seq<Instant>, d: nat, k: nat)
    requires Schedule(s, ts) && MaxGap(s, ts, d) && Paced(s, ts) && k <= |ts|
    ensures OnPace(s, ts, d, k, PhaseEnds(on, off, n, s, ts, k))
  {
    if k > 1 {
      EndsOnPace(on, off, n, s, ts, d, k - 1);
      var es := PhaseEnds(on, off, n, s, ts, k - 1);
      assert Prev(s, ts, k - 1) + TICK_SLEEP <= ts[k - 1] <= Prev(s, ts, k - 1) + d;
      if es != [] {
        PaceGoesOn(Last(s, es), Prev(s, ts, k - 1), ts[k - 1], d);
      }
    }
  }

  /** The next tick comes before the elapsed time can wrap. */
  lemma NextTickInTime(on: uint32, off: uint32, s: Instant, ts: seq<Instant>, d: nat, k: nat, es: seq<Instant>)
    requires k < |ts| && Dependable(on, off, d, s, ts) && |es| <= k
    requires Last(s, es) <= Prev(s, ts, k) && Waiting(on, off, s, ts, k, es)
    requires Paced(s, ts) ==> OnPace(s, ts, d, k, es)
    ensures PhaseMs(on, off, |es|) == 0 || ts[k] < Last(s, es) + TWO_32 * NS_PER_MS
  {
    assert Prev(s, ts, k) <= ts[k] <= Prev(s, ts, k) + d;
    assert Paced(s, ts) && k > 0 ==> Prev(s, ts, k) + TICK_SLEEP <= ts[k];
  }

  lemma TrueBeforeWrap(start: Instant, now: Instant, ms: uint32)
    requires start <= now && (ms == 0 || now < start + TWO_32 * NS_PER_MS)
    ensures ToU32(ElapsedMs(start, now)) >= ms <==> now >= start + ms * NS_PER_MS
  {
  }

  /** The comparison made at the next tick, while a phase lasts. */
  lemma NextComparison(on: uint32, off: uint32, n: uint32, s: Instant, ts: seq<Instant>, d: nat, k: nat)
    requires Dependable(on, off, d, s, ts) && k < |ts|
    requires Waiting(on, off, s, ts, k, PhaseEnds(on, off, n, s, ts, k))
    ensures var es := PhaseEnds(on, off, n, s, ts, k);
            ToU32(ElapsedMs(Last(s, es), ts[k])) >= PhaseMs(on, off, |es|)
            <==> ts[k] >= Last(s, es) + PhaseNs(on, off, |es|)
  {
    var es := PhaseEnds(on, off, n, s, ts, k);
    EndsOrdered(on, off, n, s, ts, k);
    if Paced(s, ts) {
      EndsOnPace(on, off, n, s, ts, d, k);
    }
    NextTickInTime(on, off, s, ts, d, k, es);
    assert Prev(s, ts, k) <= ts[k];
    TrueBeforeWrap(Last(s, es), ts[k], PhaseMs(on, off, |es|));
  }

  lemma OneMoreTick(on: uint32, off: uint32, s: Instant, ts: seq<Instant>, d: nat, k: nat, es: seq<Instant>)
    requires k < |ts| && MaxGap(s, ts, d)
    requires NotAfter(on, off, d, s, es) && Waiting(on, off, s, ts, k, es)
    ensures if ts[k] >= Last(s, es) + PhaseNs(on, off, |es|)
            then NotAfter(on, off, d, s, es + [ts[k]]) && Waiting(on, off, s, ts, k + 1, es + [ts[k]])
            else Waiting(on, off, s, ts, k + 1, es)
  {
    assert ts[k] <= Prev(s, ts, k) + d;
    assert Last(s, es) <= s + Span(on, off, d, |es|);
  }

  ghost predicate NotLate(on: uint32, off: uint32, n: uint32, s: Instant, ts: seq<Instant>, d: nat, k: nat)
    requires k <= |ts|
  {
    var es := PhaseEnds(on, off, n, s, ts, k);
    NotAfter(on, off, d, s, es) && (n == 0 || |es| < 2 * n ==> Waiting(on, off, s, ts, k, es))
  }

  lemma NotLateAtStart(on: uint32, off: uint32, n: uint32, s: Instant, ts: seq<Instant>, d: nat)
    ensures NotLate(on, off, n, s, ts, d, 0)
  {
  }

  lemma StillNotLate(on: uint32, off: uint32, n: uint32, s: Instant, ts: seq<Instant>, d: nat, k: nat)
    requires Dependable(on, off, d, s, ts) && k < |ts| && NotLate(on, off, n, s, ts, d, k)
    ensures NotLate(on, off, n, s, ts, d, k + 1)
  {
    var es := PhaseEnds(on, off, n, s, ts, k);
    if n == 0 || |es| < 2 * n {
      NextComparison(on, off, n, s, ts, d, k);
      OneMoreTick(on, off, s, ts, d, k, es);
    }
  }

  lemma {:induction false} EndsNotLate(on: uint32, off: uint32, n: uint32, s: Instant, ts: seq<Instant>, d: nat, k: nat)
    requires Dependable(on, off, d, s, ts) && k <= |ts|
    ensures NotLate(on, off, n, s, ts, d, k)
  {
    if k == 0 {
      NotLateAtStart(on, off, n, s, ts, d);
    } else {
      EndsNotLate(on, off, n, s, ts, d, k - 1);
      StillNotLate(on, off, n, s, ts, d, k - 1);
    }
  }

  /** The q-th phase change is never early, on any schedule; on a dependable one with ticks at most `d` apart,
      its drift is at most `d` for each phase so far. */
  lemma BlinkEdgeTimes(rs: RelayState, on: uint32, off: uint32, n: uint32, s: Instant, ts: seq<Instant>, d: nat, k: nat)
    requires Schedule(s, ts) && k <= |ts|
    ensures NotBefore(on, off, s, EdgeTimes(Started(rs, on, off, n, s), ts, k))
    ensures Dependable(on, off, d, s, ts)
            ==> NotAfter(on, off, d, s, EdgeTimes(Started(rs, on, off, n, s), ts, k))
  {
    EdgesArePhaseEnds(rs, on, off, n, s, ts, k);
    EndsNotEarly(on, off, n, s, ts, k);
    if Dependable(on, off, d, s, ts) {
      EndsNotLate(on, off, n, s, ts, d, k);
    }
  }

  /** The comparison the code makes at a tick on 32 bits gives the answer of the untruncated one. */
  predicate TrueComparison(st: RelayState, now: Instant) {
    var ms := if st.blinkPhase then st.blinkOnMs else st.blinkOffMs;
    ToU32(ElapsedMs(st.startTime, now)) >= ms <==> now >= st.startTime + ms * NS_PER_MS
  }

  /** At every tick of every such run the comparison is the true one. */
  lemma TruncationHarmless(rs: RelayState, on: uint32, off: uint32, n: uint32, s: Instant, ts: seq<Instant>, d: nat,
                           k: nat)
    requires Dependable(on, off, d, s, ts) && k < |ts|
    requires TickAt(Started(rs, on, off, n, s), ts, k).active
    ensures TrueComparison(TickAt(Started(rs, on, off, n, s), ts, k), ts[k])
  {
    EdgesArePhaseEnds(rs, on, off, n, s, ts, k);
    BlinkActive(rs, on, off, n, s, ts, k);
    BlinkProgress(rs, on, off, n, s, ts, k);
    EndsNotLate(on, off, n, s, ts, d, k);
    NextComparison(on, off, n, s, ts, d, k);
  }

  /** Once the clock has passed the latest time allowed for the q-th phase change, it has happened. */
  lemma EdgeHasHappened(rs: RelayState, on: uint32, off: uint32, n: uint32, s: Instant, ts: seq<Instant>, d: nat,
                        k: nat, q: nat)
    requires Dependable(on, off, d, s, ts) && k <= |ts|
    requires n == 0 || q <= 2 * n
    requires Prev(s, ts, k) > s + Span(on, off, d, q)
    ensures |EdgeTimes(Started(rs, on, off, n, s), ts, k)| >= q
  {
    var es := PhaseEnds(on, off, n, s, ts, k);
    EdgesArePhaseEnds(rs, on, off, n, s, ts, k);
    if |es| < q {
      EndsNotLate(on, off, n, s, ts, d, k);
      SpanGrows(on, off, d, |es|, q);
      SpanGrows(on, off, d, |es| + 1, q);
    }
  }

  // --- Physical writes ---------------------------------------------------------------------------

  /** OFF, ON, OFF, ... */
  function OffOn(n: nat): seq<bool> {
    if n == 0 then [] else OffOn(n - 1) + [n % 2 == 0]
  }

  lemma OffOnGrows(q: nat)
    ensures OffOn(q + 1) == OffOn(q) + [q % 2 == 1]
  {
  }

  lemma Halves(n: nat)
    ensures (n + 2) / 2 == n / 2 + 1
    ensures n % 2 == 0 ==> (n + 1) / 2 == n / 2
    ensures n % 2 == 1 ==> (n + 1) / 2 == n / 2 + 1
  {
  }

  /** OFF is written as often as ON, or once more. */
  lemma {:induction false} OffOnCounts(n: nat)
    ensures Count(OffOn(n), false) == (n + 1) / 2 && Count(OffOn(n), true) == n / 2
  {
    if n > 0 {
      var r := OffOn(n - 1);
      OffOnCounts(n - 1);
      Halves(n - 1);
      if n % 2 == 0 {
        CountOneMore(r, true, false);
        CountOneMore(r, true, true);
      } else {
        CountOneMore(r, false, false);
        CountOneMore(r, false, true);
      }
    }
  }

  lemma OffOnOfCycles(n: nat)
    requires n > 0
    ensures Count(OffOn(2 * n - 1), false) == n && Count(OffOn(2 * n - 1), true) == n - 1
  {
    OffOnCounts(2 * n - 1);
  }

  /** How many writes q phase changes make: one each, but for the last of a blink of n > 0 cycles. */
  function WritesMade(n: uint32, q: nat): nat {
    if n > 0 && q == 2 * n then 2 * n - 1 else q
  }

  lemma WriteOfTick(on: uint32, off: uint32, n: uint32, st: RelayState, q: nat, last: Instant, now: Instant)
    requires Tracks(on, off, n, st, q, last)
    ensures var st' := AfterTick(st, now); var q' := if Advances(st, st') then q + 1 else q;
            Changed(OffOn(WritesMade(n, q)), st.state, st'.state) == OffOn(WritesMade(n, q'))
  {
    OneTick(on, off, n, st, q, last, now);
    OffOnGrows(q);
  }

  ghost predicate WroteOffOn(b: RelayState, n: uint32, ts: seq<Instant>, k: nat)
    requires k <= |ts|
  {
    TickWrites(b, ts, k) == OffOn(WritesMade(n, |EdgeTimes(b, ts, k)|))
  }

  lemma OneMoreWrite(rs: RelayState, on: uint32, off: uint32, n: uint32, s: Instant, ts: seq<Instant>, k: nat)
    requires k < |ts| && WroteOffOn(Started(rs, on, off, n, s), n, ts, k)
    ensures WroteOffOn(Started(rs, on, off, n, s), n, ts, k + 1)
  {
    var b := Started(rs, on, off, n, s);
    var es := EdgeTimes(b, ts, k);
    BlinkProgress(rs, on, off, n, s, ts, k);
    WriteOfTick(on, off, n, TickAt(b, ts, k), |es|, Last(s, es), ts[k]);
  }

  /** The ticks write OFF, ON, OFF, ...: one write at each phase change, none at the last one. */
  lemma {:induction false} BlinkWrites(rs: RelayState, on: uint32, off: uint32, n: uint32, s: Instant,
                                       ts: seq<Instant>, k: nat)
    requires k <= |ts|
    ensures WroteOffOn(Started(rs, on, off, n, s), n, ts, k)
  {
    if k > 0 {
      BlinkWrites(rs, on, off, n, s, ts, k - 1);
      OneMoreWrite(rs, on, off, n, s, ts, k - 1);
    }
  }

  /** The ticks of a finished blink of n cycles wrote OFF n times and ON n-1 times (the first ON is the command's
      own); it ends OFF, inactive and in TOGGLE. */
  lemma BlinkCompletes(rs: RelayState, on: uint32, off: uint32, n: uint32, s: Instant, ts: seq<Instant>, k: nat)
    requires k <= |ts| && !TickAt(Started(rs, on, off, n, s), ts, k).active
    ensures var b := Started(rs, on, off, n, s); var w := TickWrites(b, ts, k);
            && n > 0 && Finished(TickAt(b, ts, k)) && |EdgeTimes(b, ts, k)| == 2 * n
            && Count(w, false) == n && Count(w, true) == n - 1
  {
    BlinkProgress(rs, on, off, n, s, ts, k);
    BlinkWrites(rs, on, off, n, s, ts, k);
    OffOnOfCycles(n);
  }

  /** It ends between n*(on+off) ms and n*(on+off) ms plus 2n tick gaps after its start. */
  lemma BlinkDuration(rs: RelayState, on: uint32, off: uint32, n: uint32, s: Instant, ts: seq<Instant>, k: nat, d: nat)
    requires Schedule(s, ts) && k <= |ts| && n > 0 && |EdgeTimes(Started(rs, on, off, n, s), ts, k)| == 2 * n
    ensures var end := Last(s, EdgeTimes(Started(rs, on, off, n, s), ts, k));
            && s + n * CycleNs(on, off, 0) <= end
            && (Dependable(on, off, d, s, ts) ==> end <= s + n * CycleNs(on, off, d))
  {
    BlinkEdgeTimes(rs, on, off, n, s, ts, d, k);
    SpanOfCycles(on, off, 0, n);
    SpanOfCycles(on, off, d, n);
  }

  /** Once the clock has passed the latest time allowed, the blink has finished. */
  lemma BlinkOverBy(rs: RelayState, on: uint32, off: uint32, n: uint32, s: Instant, ts: seq<Instant>, d: nat)
    requires n > 0 && Dependable(on, off, d, s, ts)
    requires Prev(s, ts, |ts|) > s + n * CycleNs(on, off, d)
    ensures var b := Started(rs, on, off, n, s); var w := TickWrites(b, ts, |ts|);
            Finished(TickAt(b, ts, |ts|)) && Count(w, false) == n && Count(w, true) == n - 1
  {
    SpanOfCycles(on, off, d, n);
    EdgeHasHappened(rs, on, off, n, s, ts, d, |ts|, 2 * n);
    BlinkActive(rs, on, off, n, s, ts, |ts|);
    BlinkCompletes(rs, on, off, n, s, ts, |ts|);
  }
}
