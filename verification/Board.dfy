/** Runs of the whole eight-channel controller: what the record map is after any interleaving of commands and
    ticks, which physical writes were made, and how each channel lives on its own. */
module Board {
  import opened Machine
  import opened Relay
  import opened Blink

  const CHANNELS: int := 8

  predicate IsChannel(id: int) {
    1 <= id <= CHANNELS
  }

  /** The record map: keys 1-8, always all present, in key order; the record of channel `id` is at `id - 1`. */
  type Channels = m: seq<RelayState> | |m| == 8
    witness seq(8, _ => DEFAULT)

  function Initial(): Channels {
    seq(8, _ => DEFAULT)
  }

  datatype Event = Commanded(id: int, cmd: Command) | Ticks
  datatype Timed = Timed(at: Instant, event: Event)

  function AllTicked(m: Channels, now: Instant): Channels {
    seq(8, i requires 0 <= i < 8 => AfterTick(m[i], now))
  }

  /** One critical section of the controller's mutex. A command for no channel is refused and changes nothing. */
  function Step(m: Channels, e: Timed): Channels {
    match e.event
    case Commanded(id, cmd) => if IsChannel(id) then m[id - 1 := Apply(m[id - 1], cmd, e.at)] else m
    case Ticks => AllTicked(m, e.at)
  }

  function Run(m: Channels, es: seq<Timed>): Channels {
    Fold(Step, m, es)
  }

  // --- Physical writes ---------------------------------------------------------------------------

  datatype Write = Write(id: int, on: bool)

  /** The log after channel `id` went from one state to another: one write if they differ. */
  function Logged(log: seq<Write>, id: int, before: bool, after: bool): seq<Write> {
    if before != after then log + [Write(id, after)] else log
  }

  /** The log extended by one write for each of channels 1..k whose state differs, in channel order. */
  function LogDiff(log: seq<Write>, m: Channels, m': Channels, k: nat): seq<Write>
    requires k <= CHANNELS
  {
    if k == 0 then log
    else
      Logged(LogDiff(log, m, m', k - 1), k, m[k - 1].state, m'[k - 1].state)
  }

  /** Every `setRelayPhysical` call of a run, in order. */
  function Writes(m: Channels, es: seq<Timed>): seq<Write>
    decreases |es|
  {
    if es == [] then []
    else LogDiff(Writes(m, es[..|es| - 1]), Run(m, es[..|es| - 1]), Run(m, es), CHANNELS)
  }

  ghost predicate InChannelOrder(ws: seq<Write>, k: nat) {
    && (forall i | 0 <= i < |ws| :: 1 <= ws[i].id <= k)
    && (forall i, j | 0 <= i < j < |ws| :: ws[i].id < ws[j].id)
  }

  lemma OneMoreInOrder(ws: seq<Write>, k: nat, before: bool, after: bool)
    requires InChannelOrder(ws, k)
    ensures InChannelOrder(Logged(ws, k + 1, before, after), k + 1)
  {
  }

  /** A step writes in channel order, each channel at most once. */
  lemma {:induction false} StepWritesInOrder(m: Channels, m': Channels, k: nat)
    requires k <= CHANNELS
    ensures InChannelOrder(LogDiff([], m, m', k), k)
    decreases k
  {
    if k > 0 {
      StepWritesInOrder(m, m', k - 1);
      OneMoreInOrder(LogDiff([], m, m', k - 1), k - 1, m[k - 1].state, m'[k - 1].state);
    }
  }

  lemma {:induction false} LogDiffOfOne(log: seq<Write>, m: Channels, id: int, rs: RelayState, k: nat)
    requires IsChannel(id) && k <= CHANNELS
    ensures LogDiff(log, m, m[id - 1 := rs], k)
         == if id <= k then Logged(log, id, m[id - 1].state, rs.state) else log
    decreases k
  {
    if k > 0 {
      LogDiffOfOne(log, m, id, rs, k - 1);
    }
  }

  lemma {:induction false} LogDiffOfSame(log: seq<Write>, m: Channels, k: nat)
    requires k <= CHANNELS
    ensures LogDiff(log, m, m, k) == log
    decreases k
  {
    if k > 0 {
      LogDiffOfSame(log, m, k - 1);
    }
  }

  lemma RunSnoc(m: Channels, es: seq<Timed>, e: Timed)
    ensures Run(m, es + [e]) == Step(Run(m, es), e)
    ensures Writes(m, es + [e]) == LogDiff(Writes(m, es), Run(m, es), Step(Run(m, es), e), CHANNELS)
  {
    assert (es + [e])[..|es|] == es;
  }

  lemma {:induction false} LogDiffAppends(a: seq<Write>, b: seq<Write>, m: Channels, m': Channels, k: nat)
    requires k <= CHANNELS
    ensures LogDiff(a + b, m, m', k) == a + LogDiff(b, m, m', k)
    decreases k
  {
    if k > 0 {
      LogDiffAppends(a, b, m, m', k - 1);
    }
  }

  lemma {:induction false} WritesConcat(m: Channels, a: seq<Timed>, b: seq<Timed>)
    ensures Writes(m, a + b) == Writes(m, a) + Writes(Run(m, a), b)
    decreases |b|
  {
    if b == [] {
      assert a + b == a;
    } else {
      var b' := b[..|b| - 1];
      WritesConcat(m, a, b');
      FoldConcat(Step, m, a, b');
      FoldConcat(Step, m, a, b);
      assert (a + b)[..|a + b| - 1] == a + b';
      LogDiffAppends(Writes(m, a), Writes(Run(m, a), b'), Run(m, a + b'), Run(m, a + b), CHANNELS);
    }
  }

  /** A log that has grown by the writes of `a`, then by those of `b`, has grown by those of `a + b`. */
  lemma RunsCompose(m: Channels, log: seq<Write>, a: seq<Timed>, b: seq<Timed>)
    ensures Run(Run(m, a), b) == Run(m, a + b)
    ensures (log + Writes(m, a)) + Writes(Run(m, a), b) == log + Writes(m, a + b)
  {
    FoldConcat(Step, m, a, b);
    WritesConcat(m, a, b);
    Assoc(log, Writes(m, a), Writes(Run(m, a), b));
  }

  lemma RunOfOne(m: Channels, log: seq<Write>, e: Timed)
    ensures Run(m, [e]) == Step(m, e)
    ensures log + Writes(m, [e]) == LogDiff(log, m, Step(m, e), CHANNELS)
  {
    assert [] + [e] == [e];
    RunSnoc(m, [], e);
    LogDiffAppends(log, [], m, Step(m, e), CHANNELS);
    assert log + [] == log;
  }

  /** A command's effect on the record of its channel, and the one write it may make, are one step of a run. */
  lemma CommandIsStep(log: seq<Write>, m: Channels, m': Channels, id: int, cmd: Command, at: Instant)
    requires IsChannel(id) && m'[id - 1] == Apply(m[id - 1], cmd, at)
    requires forall i | 0 <= i < 8 && i != id - 1 :: m'[i] == m[i]
    ensures m' == Step(m, Timed(at, Commanded(id, cmd)))
    ensures LogDiff(log, m, m', CHANNELS) == Logged(log, id, m[id - 1].state, m'[id - 1].state)
  {
    assert m' == m[id - 1 := m'[id - 1]];
    LogDiffOfOne(log, m, id, m'[id - 1], CHANNELS);
  }

  // --- Decomposition into independent channels ---------------------------------------------------

  /** The writes to one channel, in order. */
  function Restrict(id: int, ws: seq<Write>): seq<bool>
    decreases |ws|
  {
    if ws == [] then []
    else
      var r := Restrict(id, ws[..|ws| - 1]);
      if ws[|ws| - 1].id == id then r + [ws[|ws| - 1].on] else r
  }

  /** What one channel is fed: its own commands and every tick. */
  function Project(id: int, es: seq<Timed>): seq<ChannelEvent>
    decreases |es|
  {
    if es == [] then []
    else
      var p, e := Project(id, es[..|es| - 1]), es[|es| - 1];
      match e.event
      case Commanded(i, cmd) => if i == id then p + [Do(e.at, cmd)] else p
      case Ticks => p + [Ticked(e.at)]
  }

  lemma {:induction false} RestrictLogDiff(id: int, log: seq<Write>, m: Channels, m': Channels, k: nat)
    requires IsChannel(id) && k <= CHANNELS
    ensures var r := Restrict(id, log);
            Restrict(id, LogDiff(log, m, m', k)) == if id <= k then Changed(r, m[id - 1].state, m'[id - 1].state) else r
    decreases k
  {
    if k > 0 {
      RestrictLogDiff(id, log, m, m', k - 1);
    }
  }

  lemma ProjectLast(id: int, es: seq<Timed>)
    requires es != []
    ensures var p, p', e := Project(id, es), Project(id, es[..|es| - 1]), es[|es| - 1];
            if e.event.Commanded? && e.event.id != id then p == p'
            else p == p' + [if e.event.Ticks? then Ticked(e.at) else Do(e.at, e.event.cmd)] && p[..|p| - 1] == p'
  {
  }

  /** The controller is eight independent machines: on any run, channel `id` ends in the state of a one-channel
      machine fed only its own commands and the same ticks. */
  lemma {:induction false} RunDecomposes(id: int, m: Channels, es: seq<Timed>)
    requires IsChannel(id)
    ensures Run(m, es)[id - 1] == ChannelRun(m[id - 1], Project(id, es))
    decreases |es|
  {
    if es != [] {
      RunDecomposes(id, m, es[..|es| - 1]);
      ProjectLast(id, es);
    }
  }

  /** And the writes of the run to that channel are exactly that machine's. */
  lemma {:induction false} WritesDecompose(id: int, m: Channels, es: seq<Timed>)
    requires IsChannel(id)
    ensures Restrict(id, Writes(m, es)) == ChannelWrites(m[id - 1], Project(id, es))
    decreases |es|
  {
    if es != [] {
      var es' := es[..|es| - 1];
      WritesDecompose(id, m, es');
      RunDecomposes(id, m, es');
      RunDecomposes(id, m, es);
      RestrictLogDiff(id, Writes(m, es'), Run(m, es'), Run(m, es), CHANNELS);
      ProjectLast(id, es);
    }
  }

  lemma CoherentOnEveryRun(id: int, es: seq<Timed>)
    requires IsChannel(id)
    ensures Coherent(Run(Initial(), es)[id - 1])
  {
    RunDecomposes(id, Initial(), es);
    CoherentAlways(DEFAULT, Project(id, es));
  }

  // --- Physical agreement ------------------------------------------------------------------------

  /** On every run that begins with channel `id` OFF, its writes alternate ON, OFF, ON, ... and their number tells
      the stored state: it is ON exactly after an odd number of writes. */
  lemma WritesAlternate(id: int, m: Channels, es: seq<Timed>)
    requires IsChannel(id) && !m[id - 1].state
    ensures var ws := Restrict(id, Writes(m, es));
            (forall k: nat | k < |ws| :: ws[k] == (k % 2 == 0)) && (Run(m, es)[id - 1].state <==> |ws| % 2 == 1)
  {
    RunDecomposes(id, m, es);
    WritesDecompose(id, m, es);
    ChangesAlternate(ChannelStep, StateOf, m[id - 1], Project(id, es));
  }

  // --- Unsuperseded commands on the board --------------------------------------------------------

  predicate NoCommandFor(id: int, es: seq<Timed>) {
    forall k: nat | k < |es| :: !(es[k].event.Commanded? && es[k].event.id == id)
  }

  function TickTimes(es: seq<Timed>): seq<Instant>
    decreases |es|
  {
    if es == [] then []
    else
      var ts := TickTimes(es[..|es| - 1]);
      if es[|es| - 1].event.Ticks? then ts + [es[|es| - 1].at] else ts
  }

  lemma {:induction false} TickEventsSnoc(ts: seq<Instant>, t: Instant, k: nat)
    requires k <= |ts|
    ensures TickEvents(ts + [t], k) == TickEvents(ts, k)
    decreases k
  {
    if k > 0 {
      TickEventsSnoc(ts, t, k - 1);
    }
  }

  lemma {:induction false} ProjectTicks(id: int, es: seq<Timed>)
    requires NoCommandFor(id, es)
    ensures Project(id, es) == TickEvents(TickTimes(es), |TickTimes(es)|)
    decreases |es|
  {
    if es != [] {
      var es', e := es[..|es| - 1], es[|es| - 1];
      ProjectTicks(id, es');
      TickEventsSnoc(TickTimes(es'), e.at, |TickTimes(es')|);
    }
  }

  lemma {:induction false} ProjectConcat(id: int, a: seq<Timed>, b: seq<Timed>)
    ensures Project(id, a + b) == Project(id, a) + Project(id, b)
    decreases |b|
  {
    if b == [] {
      assert a + b == a;
    } else {
      ProjectConcat(id, a, b[..|b| - 1]);
      assert (a + b)[..|a + b| - 1] == a + b[..|b| - 1];
    }
  }

  lemma ProjectUnsuperseded(id: int, pre: seq<Timed>, s: Instant, cmd: Command, post: seq<Timed>)
    requires NoCommandFor(id, post)
    ensures Project(id, pre + [Timed(s, Commanded(id, cmd))] + post)
         == Project(id, pre) + [Do(s, cmd)] + TickEvents(TickTimes(post), |TickTimes(post)|)
  {
    var e := Timed(s, Commanded(id, cmd));
    ProjectConcat(id, pre + [e], post);
    ProjectTicks(id, post);
    assert (pre + [e])[..|pre|] == pre;
  }

  /** The state of channel `id`, and its writes, when `cmd` came at `s` after the run `pre` and nothing in `post`
      was a command for that channel: the ticks alone act on it. */
  lemma Unsuperseded(id: int, m: Channels, pre: seq<Timed>, s: Instant, cmd: Command, post: seq<Timed>)
    requires IsChannel(id) && NoCommandFor(id, post)
    ensures var es := pre + [Timed(s, Commanded(id, cmd))] + post;
            var rs := Run(m, pre)[id - 1]; var b := Apply(rs, cmd, s); var ts := TickTimes(post);
            && Run(m, es)[id - 1] == TickAt(b, ts, |ts|)
            && Restrict(id, Writes(m, es))
            == Changed(Restrict(id, Writes(m, pre)), rs.state, b.state) + TickWrites(b, ts, |ts|)
  {
    var es := pre + [Timed(s, Commanded(id, cmd))] + post;
    var p, ts := Project(id, pre), TickTimes(post);
    RunDecomposes(id, m, pre);
    RunDecomposes(id, m, es);
    WritesDecompose(id, m, pre);
    WritesDecompose(id, m, es);
    ProjectUnsuperseded(id, pre, s, cmd, post);
    assert (p + [Do(s, cmd)])[..|p|] == p;
    FoldConcat(ChannelStep, m[id - 1], p + [Do(s, cmd)], TickEvents(ts, |ts|));
    ChangesConcat(ChannelStep, StateOf, m[id - 1], p + [Do(s, cmd)], TickEvents(ts, |ts|));
    TicksAreEvents(Apply(Run(m, pre)[id - 1], cmd, s), ts, |ts|);
  }

  /** A relay switched by `set_relay` keeps that state, inactive and in TOGGLE, through all ticks and all commands to
      other channels; the one write, if it was in the other state, is the command's. */
  lemma ToggleOnBoard(id: int, m: Channels, pre: seq<Timed>, s: Instant, on: bool, post: seq<Timed>)
    requires IsChannel(id) && NoCommandFor(id, post)
    ensures var es := pre + [Timed(s, Commanded(id, SetRelay(on)))] + post; var rs := Run(m, es)[id - 1];
            && rs.state == on && !rs.active && rs.mode == TOGGLE
            && Restrict(id, Writes(m, es)) == Changed(Restrict(id, Writes(m, pre)), Run(m, pre)[id - 1].state, on)
  {
    Unsuperseded(id, m, pre, s, SetRelay(on), post);
    InactiveStays(Apply(Run(m, pre)[id - 1], SetRelay(on), s), TickTimes(post), |TickTimes(post)|);
  }

  /** A channel that is inactive and gets no command keeps its record, and is not written, on any run. */
  lemma InactiveOnBoard(id: int, m: Channels, es: seq<Timed>)
    requires IsChannel(id) && NoCommandFor(id, es) && !m[id - 1].active
    ensures Run(m, es)[id - 1] == m[id - 1] && Restrict(id, Writes(m, es)) == []
  {
    var ts := TickTimes(es);
    RunDecomposes(id, m, es);
    WritesDecompose(id, m, es);
    ProjectTicks(id, es);
    TicksAreEvents(m[id - 1], ts, |ts|);
    InactiveStays(m[id - 1], ts, |ts|);
  }

  function ModeOf(cmd: Command): RelayMode {
    match cmd
    case SetRelay(_) => TOGGLE
    case StartTimer(_) => TIMER
    case StartPulse(_) => PULSE
    case StartBlink(_, _, _) => BLINK
  }

  /** After a command, its channel is in that command's mode as long as it is active, then in TOGGLE. */
  lemma ModeFollowsCommand(id: int, m: Channels, pre: seq<Timed>, s: Instant, cmd: Command, post: seq<Timed>)
    requires IsChannel(id) && NoCommandFor(id, post)
    ensures var rs := Run(m, pre + [Timed(s, Commanded(id, cmd))] + post)[id - 1];
            rs.mode == if rs.active then ModeOf(cmd) else TOGGLE
  {
    Unsuperseded(id, m, pre, s, cmd, post);
    TicksKeepMode(Apply(Run(m, pre)[id - 1], cmd, s), TickTimes(post), |TickTimes(post)|);
  }

  /** The log grew by so many ON writes and so many OFF writes. */
  ghost predicate Wrote(log: seq<bool>, log': seq<bool>, ons: nat, offs: nat) {
    log <= log' && Count(log', true) == Count(log, true) + ons && Count(log', false) == Count(log, false) + offs
  }

  lemma Tally(log: seq<bool>, was: bool, w: seq<bool>)
    ensures Wrote(log, Changed(log, was, true) + w, Count(w, true) + (if was then 0 else 1), Count(w, false))
  {
    CountOneMore(log, true, true);
    CountOneMore(log, true, false);
    CountConcat(Changed(log, was, true), w, true);
    CountConcat(Changed(log, was, true), w, false);
  }

  /** A blink of n > 0 cycles on the board, whatever the other channels are commanded: once the clock has passed
      the latest time allowed, the channel is OFF, inactive and in TOGGLE, and the relay has been written OFF
      exactly n times and ON n times (n-1 if it was already on). */
  lemma BlinkOnBoard(id: int, m: Channels, pre: seq<Timed>, s: Instant, cmd: Command, post: seq<Timed>, d: nat)
    requires IsChannel(id) && NoCommandFor(id, post) && cmd.StartBlink? && cmd.count > 0
    requires Dependable(cmd.onMs, cmd.offMs, d, s, TickTimes(post))
    requires Prev(s, TickTimes(post), |TickTimes(post)|) > s + cmd.count * CycleNs(cmd.onMs, cmd.offMs, d)
    ensures var es := pre + [Timed(s, Commanded(id, cmd))] + post; var was := Run(m, pre)[id - 1].state;
            && Finished(Run(m, es)[id - 1])
            && Wrote(Restrict(id, Writes(m, pre)), Restrict(id, Writes(m, es)),
                     cmd.count - if was then 1 else 0, cmd.count)
  {
    var rs, ts := Run(m, pre)[id - 1], TickTimes(post);
    BlinkOverBy(rs, cmd.onMs, cmd.offMs, cmd.count, s, ts, d);
    Unsuperseded(id, m, pre, s, cmd, post);
    Tally(Restrict(id, Writes(m, pre)), rs.state, TickWrites(Apply(rs, cmd, s), ts, |ts|));
  }

  /** A timer or pulse on the board: ON and active while every tick so far was before the deadline, OFF after
      exactly one OFF write from the first tick that was not. */
  lemma TimerOnBoard(id: int, m: Channels, pre: seq<Timed>, s: Instant, cmd: Command, post: seq<Timed>)
    requires IsChannel(id) && NoCommandFor(id, post) && (cmd.StartTimer? || cmd.StartPulse?)
    requires Schedule(s, TickTimes(post))
    ensures var es := pre + [Timed(s, Commanded(id, cmd))] + post; var ts := TickTimes(post);
            var early := AllBefore(ts, |ts|, OffAt(cmd, s));
            && Run(m, es)[id - 1].state == Run(m, es)[id - 1].active == early
            && Restrict(id, Writes(m, es)) == Changed(Restrict(id, Writes(m, pre)), Run(m, pre)[id - 1].state, true)
               + if early then [] else [false]
  {
    Unsuperseded(id, m, pre, s, cmd, post);
    TimerFrom(Run(m, pre)[id - 1], cmd, s, TickTimes(post));
  }

  /** Any later command on a channel makes every earlier event on it irrelevant. */
  lemma LaterCommandReplaces(id: int, m: Channels, pre: seq<Timed>, pre': seq<Timed>, e: Timed, post: seq<Timed>)
    requires IsChannel(id) && e.event.Commanded? && e.event.id == id
    ensures var a, b := Run(m, pre + [e] + post)[id - 1], Run(m, pre' + [e] + post)[id - 1];
            a.state == b.state && a.active == b.active && (a.active ==> a.mode == b.mode)
  {
    FoldConcat(Step, m, pre + [e], post);
    FoldConcat(Step, m, pre' + [e], post);
    RunSnoc(m, pre, e);
    RunSnoc(m, pre', e);
    RunDecomposes(id, Run(m, pre + [e]), post);
    RunDecomposes(id, Run(m, pre' + [e]), post);
    CommandForgetsPast(Run(m, pre)[id - 1], Run(m, pre')[id - 1], e.event.cmd, e.at, Project(id, post));
  }
}
