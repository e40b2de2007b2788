/** The status query: the numbers it reports for a channel, before they are formatted. */
module StatusQuery {
  import opened Relay
  import opened Blink
  import opened Board

  datatype Status =
    | InvalidChannel
    | ToggleStatus(id: int, on: bool)
    | TimerStatus(id: int, on: bool, remainingSeconds: nat)
    | PulseStatus(id: int, on: bool, remainingMs: nat)
    | BlinkStatus(id: int, on: bool, count: int, phase: bool)
    | BareStatus(id: int, on: bool)

  function StatusOf(m: Channels, id: int, now: Instant): Status {
    if !IsChannel(id) then InvalidChannel
    else
      var rs := m[id - 1];
      if !rs.active then ToggleStatus(id, rs.state)
      else match rs.mode
        case TIMER => TimerStatus(id, rs.state, Remaining(rs, now) / 1000)
        case PULSE => PulseStatus(id, rs.state, Remaining(rs, now))
        case BLINK => BlinkStatus(id, rs.state, rs.blinkCount, rs.blinkPhase)
        case TOGGLE => BareStatus(id, rs.state)
  }

  /** On every run from power-up, a status names the mode the channel is in: the fall-through text is never produced,
      a timer or pulse is reported ON, a blink in the phase it shows. */
  lemma StatusOnEveryRun(es: seq<Timed>, id: int, now: Instant)
    requires IsChannel(id)
    ensures var st := StatusOf(Run(Initial(), es), id, now); var rs := Run(Initial(), es)[id - 1];
            && !st.InvalidChannel? && !st.BareStatus?
            && st.id == id && st.on == rs.state
            && (st.ToggleStatus? <==> rs.mode == TOGGLE)
            && (st.TimerStatus? <==> rs.mode == TIMER)
            && (st.PulseStatus? <==> rs.mode == PULSE)
            && (st.BlinkStatus? <==> rs.mode == BLINK)
            && (st.TimerStatus? || st.PulseStatus? ==> st.on)
            && (st.BlinkStatus? ==> st.on == st.phase)
  {
    CoherentOnEveryRun(id, es);
  }

  /** What a status counts down, on every run and at any time since the channel's command: a pulse the milliseconds
      to its deadline, a timer the whole seconds of these. */
  lemma StatusCountsDown(es: seq<Timed>, id: int, now: Instant)
    requires IsChannel(id) && Run(Initial(), es)[id - 1].startTime <= now
    ensures var st := StatusOf(Run(Initial(), es), id, now); var left := Deadline(Run(Initial(), es)[id - 1]) - now;
            && (st.PulseStatus? ==> st.remainingMs == MsLeft(left))
            && (st.TimerStatus? ==> st.remainingSeconds == MsLeft(left) / 1000)
  {
    var rs := Run(Initial(), es)[id - 1];
    CoherentOnEveryRun(id, es);
    if Counting(rs) {
      RemainingIsTimeLeft(rs, now);
    }
  }

  // --- What is reported, told from the channel's last command --------------------------------------

  lemma StatusAfterToggle(id: int, m: Channels, pre: seq<Timed>, s: Instant, on: bool, post: seq<Timed>, now: Instant)
    requires IsChannel(id) && NoCommandFor(id, post)
    ensures StatusOf(Run(m, pre + [Timed(s, Commanded(id, SetRelay(on)))] + post), id, now) == ToggleStatus(id, on)
  {
    ToggleOnBoard(id, m, pre, s, on, post);
  }

  /** The record of a timer or pulse that no tick has ended. */
  lemma CountingOn(id: int, m: Channels, pre: seq<Timed>, s: Instant, cmd: Command, post: seq<Timed>, now: Instant)
    requires IsChannel(id) && NoCommandFor(id, post) && (cmd.StartTimer? || cmd.StartPulse?)
    requires Schedule(s, TickTimes(post)) && s <= now
    requires AllBefore(TickTimes(post), |TickTimes(post)|, OffAt(cmd, s))
    ensures var rs := Run(m, pre + [Timed(s, Commanded(id, cmd))] + post)[id - 1];
            rs.active && rs.state && rs.mode == ModeOf(cmd) && Remaining(rs, now) == MsLeft(OffAt(cmd, s) - now)
  {
    var b := Apply(Run(m, pre)[id - 1], cmd, s);
    Unsuperseded(id, m, pre, s, cmd, post);
    ModeFollowsCommand(id, m, pre, s, cmd, post);
    DeadlineOfCommand(Run(m, pre)[id - 1], cmd, s);
    TimerWindow(b, TickTimes(post), |TickTimes(post)|);
    RemainingIsTimeLeft(b, now);
  }

  /** A timer of so many seconds is reported with the whole seconds left, until the first tick that finds it over. */
  lemma StatusAfterTimer(id: int, m: Channels, pre: seq<Timed>, s: Instant, seconds: uint32, post: seq<Timed>,
                         now: Instant)
    requires IsChannel(id) && NoCommandFor(id, post) && Schedule(s, TickTimes(post)) && s <= now
    ensures var end := s + seconds * 1_000_000_000;
            StatusOf(Run(m, pre + [Timed(s, Commanded(id, StartTimer(seconds)))] + post), id, now)
            == if AllBefore(TickTimes(post), |TickTimes(post)|, end)
               then TimerStatus(id, true, MsLeft(end - now) / 1000) else ToggleStatus(id, false)
  {
    TimerOnBoard(id, m, pre, s, StartTimer(seconds), post);
    if AllBefore(TickTimes(post), |TickTimes(post)|, s + seconds * 1_000_000_000) {
      CountingOn(id, m, pre, s, StartTimer(seconds), post, now);
    }
  }

  /** A pulse is reported with the milliseconds left. */
  lemma StatusAfterPulse(id: int, m: Channels, pre: seq<Timed>, s: Instant, ms: uint32, post: seq<Timed>, now: Instant)
    requires IsChannel(id) && NoCommandFor(id, post) && Schedule(s, TickTimes(post)) && s <= now
    ensures var end := s + ms * 1_000_000;
            StatusOf(Run(m, pre + [Timed(s, Commanded(id, StartPulse(ms)))] + post), id, now)
            == if AllBefore(TickTimes(post), |TickTimes(post)|, end)
               then PulseStatus(id, true, MsLeft(end - now)) else ToggleStatus(id, false)
  {
    TimerOnBoard(id, m, pre, s, StartPulse(ms), post);
    if AllBefore(TickTimes(post), |TickTimes(post)|, s + ms * 1_000_000) {
      CountingOn(id, m, pre, s, StartPulse(ms), post, now);
    }
  }

  /** A blink is reported with the cycles left and the phase that the phase changes of its schedule make. */
  lemma StatusAfterBlink(id: int, m: Channels, pre: seq<Timed>, s: Instant, on: uint32, off: uint32, n: uint32,
                         post: seq<Timed>, now: Instant)
    requires IsChannel(id) && NoCommandFor(id, post)
    ensures var ts := TickTimes(post); var q := |PhaseEnds(on, off, n, s, ts, |ts|)|;
            StatusOf(Run(m, pre + [Timed(s, Commanded(id, StartBlink(on, off, n)))] + post), id, now)
            == if n > 0 && q == 2 * n then ToggleStatus(id, false)
               else BlinkStatus(id, q % 2 == 0, if n == 0 then 0 else n - q / 2, q % 2 == 0)
  {
    var rs, ts := Run(m, pre)[id - 1], TickTimes(post);
    Unsuperseded(id, m, pre, s, StartBlink(on, off, n), post);
    BlinkProgress(rs, on, off, n, s, ts, |ts|);
    EdgesArePhaseEnds(rs, on, off, n, s, ts, |ts|);
  }
}
