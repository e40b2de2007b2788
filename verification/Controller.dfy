/** The controller object: its record map, mutated in place by the commands and by the tick loop. Each method body
    runs under the object's mutex, so a run of the daemon is a sequence of calls; `trace` records it. */
module Controller {
  import opened Relay
  import opened Board
  import opened Hardware
  import opened StatusQuery

  class BaseRelayController {
    var relayStates: Channels
    const hw: GpiodRelayController

    constructor (hw: GpiodRelayController)
      requires hw.Valid()
      ensures this.hw == hw && relayStates == Initial()
    {
      var states: seq<RelayState> := [];
      for i := 1 to 9
        invariant states == seq(i - 1, _ => DEFAULT)
      {
        states := states + [DEFAULT];
      }
      this.hw := hw;
      relayStates := states;
    }

    /** Channel `id` went to record `rs`, with one physical write if its state changed, and no other changed. */
    twostate predicate Became(id: int, rs: RelayState)
      requires IsChannel(id)
      reads this, hw
    {
      && hw.Valid() && hw.requested == old(hw.requested)
      && relayStates[id - 1] == rs
      && (forall i | 0 <= i < 8 && i != id - 1 :: relayStates[i] == old(relayStates)[i])
      && hw.writes == Logged(old(hw.writes), id, old(relayStates)[id - 1].state, rs.state)
    }

    /** A command: refused, with nothing changed, or applied to the record of its channel. */
    twostate predicate Accepted(ok: bool, id: int, cmd: Command, at: Instant)
      reads this, hw
    {
      && ok == IsChannel(id)
      && if ok then Became(id, Apply(old(relayStates)[id - 1], cmd, at))
         else unchanged(this) && unchanged(hw)
    }

    /** `rs` is the record of channel `relayId`, held by reference in the source and stored back by the caller. */
    method SetRelayInternal(relayId: int, rs: RelayState, state: bool) returns (rs': RelayState)
      requires IsChannel(relayId) && hw.Valid()
      modifies hw
      ensures hw.Valid() && hw.requested == old(hw.requested)
      ensures rs' == rs.(state := state)
      ensures hw.writes == Logged(old(hw.writes), relayId, rs.state, state)
    {
      rs' := rs;
      if rs.state != state {
        rs' := rs.(state := state);
        var _ := hw.SetRelayPhysical(relayId, state);
      }
    }

    method SetRelay(relayId: int, state: bool, ghost now: Instant) returns (ok: bool)
      requires hw.Valid()
      modifies this, hw
      ensures Accepted(ok, relayId, Command.SetRelay(state), now)
    {
      if relayId < 1 || relayId > 8 {
        return false;
      }
      var rs := relayStates[relayId - 1].(active := false, mode := TOGGLE);
      rs := SetRelayInternal(relayId, rs, state);
      relayStates := relayStates[relayId - 1 := rs];
      return true;
    }

    method StartTimer(relayId: int, seconds: uint32, now: Instant) returns (ok: bool)
      requires hw.Valid()
      modifies this, hw
      ensures Accepted(ok, relayId, Command.StartTimer(seconds), now)
    {
      if relayId < 1 || relayId > 8 {
        return false;
      }
      var rs := relayStates[relayId - 1].(mode := TIMER, active := true, startTime := now,
                                          durationMs := ToU64(seconds * 1000));
      rs := SetRelayInternal(relayId, rs, true);
      relayStates := relayStates[relayId - 1 := rs];
      return true;
    }

    method StartPulse(relayId: int, durationMs: uint32, now: Instant) returns (ok: bool)
      requires hw.Valid()
      modifies this, hw
      ensures Accepted(ok, relayId, Command.StartPulse(durationMs), now)
    {
      if relayId < 1 || relayId > 8 {
        return false;
      }
      var rs := relayStates[relayId - 1].(mode := PULSE, active := true, startTime := now, durationMs := durationMs);
      rs := SetRelayInternal(relayId, rs, true);
      relayStates := relayStates[relayId - 1 := rs];
      return true;
    }

    method StartBlink(relayId: int, onMs: uint32, offMs: uint32, count: uint32, now: Instant) returns (ok: bool)
      requires hw.Valid()
      modifies this, hw
      ensures Accepted(ok, relayId, Command.StartBlink(onMs, offMs, count), now)
    {
      if relayId < 1 || relayId > 8 {
        return false;
      }
      var rs := relayStates[relayId - 1].(mode := BLINK, active := true, blinkOnMs := onMs, blinkOffMs := offMs,
                                          blinkCount := count, blinkPhase := true, startTime := now);
      rs := SetRelayInternal(relayId, rs, true);
      relayStates := relayStates[relayId - 1 := rs];
      return true;
    }

    method GetRelay(relayId: int) returns (on: bool)
      ensures on <==> IsChannel(relayId) && relayStates[relayId - 1].state
    {
      if relayId < 1 || relayId > 8 {
        return false;
      }
      return relayStates[relayId - 1].state;
    }

    method GetAllStates() returns (states: map<int, bool>)
      ensures forall id :: id in states <==> IsChannel(id)
      ensures forall id :: IsChannel(id) ==> states[id] == relayStates[id - 1].state
    {
      states := map[];
      for id := 1 to 9
        invariant forall i :: i in states <==> 1 <= i < id
        invariant forall i :: i in states ==> states[i] == relayStates[i - 1].state
      {
        states := states[id := relayStates[id - 1].state];
      }
    }

    method GetRelayStatus(relayId: int, now: Instant) returns (status: Status)
      ensures status == StatusOf(relayStates, relayId, now)
      ensures status.InvalidChannel? <==> relayId < 1 || relayId > 8
      ensures IsChannel(relayId) && relayStates[relayId - 1].active ==>
                var mode := relayStates[relayId - 1].mode;
                && (status.TimerStatus? <==> mode == TIMER)
                && (status.PulseStatus? <==> mode == PULSE)
                && (status.BlinkStatus? <==> mode == BLINK)
    {
      if relayId < 1 || relayId > 8 {
        return InvalidChannel;
      }
      var rs := relayStates[relayId - 1];
      if !rs.active {
        return ToggleStatus(relayId, rs.state);
      }
      match rs.mode
      case TIMER =>
        var elapsed := ToU64(ElapsedMs(rs.startTime, now));
        var remaining := if rs.durationMs > elapsed then ToU64(rs.durationMs - elapsed) else 0;
        return TimerStatus(relayId, rs.state, remaining / 1000);
      case PULSE =>
        var elapsed := ToU64(ElapsedMs(rs.startTime, now));
        var remaining := if rs.durationMs > elapsed then ToU64(rs.durationMs - elapsed) else 0;
        return PulseStatus(relayId, rs.state, remaining);
      case BLINK =>
        return BlinkStatus(relayId, rs.state, rs.blinkCount, rs.blinkPhase);
      case TOGGLE =>
        return BareStatus(relayId, rs.state);
    }

    /** The tick's work on one record, with its early exits. */
    method TickOne(relayId: int, record: RelayState, now: Instant) returns (rs: RelayState)
      requires IsChannel(relayId) && hw.Valid()
      modifies hw
      ensures hw.Valid() && hw.requested == old(hw.requested)
      ensures rs == AfterTick(record, now)
      ensures !record.active ==> rs == record && hw.writes == old(hw.writes)
      ensures hw.writes == Logged(old(hw.writes), relayId, record.state, rs.state)
    {
      rs := record;
      if !rs.active {
        return;
      }
      var elapsed := ElapsedMs(rs.startTime, now);
      if rs.mode == TIMER || rs.mode == PULSE {
        if ToU64(elapsed) >= rs.durationMs {
          rs := SetRelayInternal(relayId, rs, false);
          rs := rs.(active := false, mode := TOGGLE);
        }
      } else if rs.mode == BLINK {
        if rs.blinkPhase {
          if ToU32(elapsed) >= rs.blinkOnMs {
            rs := SetRelayInternal(relayId, rs, false);
            rs := rs.(blinkPhase := false, startTime := now);
          }
        } else if ToU32(elapsed) >= rs.blinkOffMs {
          if rs.blinkCount > 0 {
            rs := rs.(blinkCount := rs.blinkCount - 1);
            if rs.blinkCount == 0 {
              rs := rs.(active := false, mode := TOGGLE);
              return;
            }
          }
          rs := SetRelayInternal(relayId, rs, true);
          rs := rs.(blinkPhase := true, startTime := now);
        }
      }
    }

    method Tick(now: Instant)
      requires hw.Valid()
      modifies this, hw
      ensures hw.Valid() && hw.requested == old(hw.requested)
      ensures relayStates == AllTicked(old(relayStates), now)
      ensures forall i | 0 <= i < 8 && !old(relayStates)[i].active :: relayStates[i] == old(relayStates)[i]
      ensures hw.writes == LogDiff(old(hw.writes), old(relayStates), relayStates, CHANNELS)
    {
      ghost var m, m' := relayStates, AllTicked(relayStates, now);
      for relayId := 1 to 9
        invariant hw.Valid() && hw.requested == old(hw.requested)
        invariant forall i | 0 <= i < 8 :: relayStates[i] == if i < relayId - 1 then m'[i] else m[i]
        invariant hw.writes == LogDiff(old(hw.writes), m, m', relayId - 1)
      {
        var rs := TickOne(relayId, relayStates[relayId - 1], now);
        relayStates := relayStates[relayId - 1 := rs];
      }
      assert relayStates == m';
    }
  }

  method Perform(c: BaseRelayController, id: int, cmd: Command, now: Instant) returns (ok: bool)
    requires c.hw.Valid()
    modifies c, c.hw
    ensures c.Accepted(ok, id, cmd, now)
  {
    match cmd
    case SetRelay(on) => ok := c.SetRelay(id, on, now);
    case StartTimer(seconds) => ok := c.StartTimer(id, seconds, now);
    case StartPulse(ms) => ok := c.StartPulse(id, ms, now);
    case StartBlink(on, off, n) => ok := c.StartBlink(id, on, off, n, now);
  }

  /** One critical section. */
  method Section(c: BaseRelayController, e: Timed)
    requires c.hw.Valid()
    modifies c, c.hw
    ensures c.hw.Valid() && c.hw.requested == old(c.hw.requested)
    ensures c.relayStates == Step(old(c.relayStates), e)
    ensures c.hw.writes == LogDiff(old(c.hw.writes), old(c.relayStates), c.relayStates, CHANNELS)
  {
    match e.event
    case Ticks =>
      c.Tick(e.at);
    case Commanded(id, cmd) =>
      var _ := Perform(c, id, cmd, e.at);
      if !IsChannel(id) {
        LogDiffOfSame(c.hw.writes, c.relayStates, CHANNELS);
      } else {
        CommandIsStep(old(c.hw.writes), old(c.relayStates), c.relayStates, id, cmd, e.at);
      }
  }

  /** Any schedule of critical sections: whichever threads take the mutex in turn, the object makes the run of the
      specification, and its physical writes are those of the run. */
  method Replay(c: BaseRelayController, es: seq<Timed>)
    requires c.hw.Valid()
    modifies c, c.hw
    ensures c.hw.Valid() && c.hw.requested == old(c.hw.requested)
    ensures c.relayStates == Run(old(c.relayStates), es)
    ensures c.hw.writes == old(c.hw.writes) + Writes(old(c.relayStates), es)
  {
    ghost var m, w := c.relayStates, c.hw.writes;
    for k := 0 to |es|
      invariant c.hw.Valid() && c.hw.requested == old(c.hw.requested)
      invariant c.relayStates == Run(m, es[..k])
      invariant c.hw.writes == w + Writes(m, es[..k])
    {
      Section(c, es[k]);
      assert es[..k + 1] == es[..k] + [es[k]];
      RunSnoc(m, es[..k], es[k]);
      LogDiffAppends(w, Writes(m, es[..k]), Run(m, es[..k]), c.relayStates, CHANNELS);
    }
    assert es[..|es|] == es;
  }

  /** The daemon from power-up: after any schedule, line by line, the board shows the stored states if every write
      went through; in general it shows channel `id` truly exactly when an even number of its latest writes failed. */
  method PowerUpAndRun(setValueOk: nat -> bool, es: seq<Timed>) returns (c: BaseRelayController)
    ensures fresh(c) && c.relayStates == Run(Initial(), es)
    ensures c.hw.lines == LinesAfter(Writes(Initial(), es), setValueOk)
    ensures Agree(c.hw.lines, c.relayStates, Writes(Initial(), es), setValueOk)
  {
    var hw := new GpiodRelayController(setValueOk);
    var ok := hw.InitHardware(true, false, true);
    c := new BaseRelayController(hw);
    Replay(c, es);
    assert c.hw.writes == Writes(Initial(), es);
    PinsAgree(es, setValueOk);
  }
}
