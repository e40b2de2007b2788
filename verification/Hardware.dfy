/** The relay board's GPIO lines: eight active-low outputs, and what they show after a run. */
module Hardware {
  import opened Relay
  import opened Board

  datatype LineValue = ACTIVE | INACTIVE

  /** Channels 1-8 to BCM pin offsets. */
  function PinMap(): map<int, nat> {
    map[1 := 5, 2 := 6, 3 := 13, 4 := 16, 5 := 19, 6 := 20, 7 := 21, 8 := 26]
  }

  lemma PinsDistinct(i: int, j: int)
    requires IsChannel(i) && IsChannel(j)
    ensures i in PinMap() && j in PinMap() && (PinMap()[i] == PinMap()[j] ==> i == j)
  {
  }

  /** The lines after one write, which reaches its line or not. */
  function Written(lines: map<nat, LineValue>, w: Write, through: bool): map<nat, LineValue> {
    if w.id in PinMap() && through then lines[PinMap()[w.id] := if w.on then INACTIVE else ACTIVE] else lines
  }

  /** The lines after a sequence of writes of which the n-th reaches the line exactly when `ok(n)`. */
  function LinesAfter(ws: seq<Write>, ok: nat -> bool): map<nat, LineValue>
    decreases |ws|
  {
    if ws == [] then map pin | pin in PinMap().Values :: ACTIVE
    else Written(LinesAfter(ws[..|ws| - 1], ok), ws[|ws| - 1], ok(|ws| - 1))
  }

  /** How many of a channel's latest writes have failed in a row. */
  function FailedInARow(id: int, ws: seq<Write>, ok: nat -> bool): nat
    decreases |ws|
  {
    if ws == [] then 0
    else
      var n := FailedInARow(id, ws[..|ws| - 1], ok);
      if ws[|ws| - 1].id != id then n else if ok(|ws| - 1) then 0 else n + 1
  }

  ghost predicate AlternatesFromOn(log: seq<bool>) {
    forall k: nat | k < |log| :: log[k] == (k % 2 == 0)
  }

  lemma AlternatesBefore(log: seq<bool>, x: bool)
    requires AlternatesFromOn(log + [x])
    ensures AlternatesFromOn(log) && x == (|log| % 2 == 0)
  {
    assert forall k: nat | k < |log| :: (log + [x])[k] == log[k];
    assert (log + [x])[|log|] == x;
  }

  lemma LineOfWrite(lines: map<nat, LineValue>, w: Write, through: bool, id: int)
    requires IsChannel(id) && PinMap()[id] in lines
    ensures var lines' := Written(lines, w, through);
            && PinMap()[id] in lines'
            && lines'[PinMap()[id]] ==
               if w.id == id && through then if w.on then INACTIVE else ACTIVE else lines[PinMap()[id]]
  {
    if IsChannel(w.id) {
      PinsDistinct(id, w.id);
    }
  }

  lemma {:induction false} PinParity(id: int, ws: seq<Write>, ok: nat -> bool)
    requires IsChannel(id) && AlternatesFromOn(Restrict(id, ws))
    ensures PinMap()[id] in LinesAfter(ws, ok)
    ensures LinesAfter(ws, ok)[PinMap()[id]] == INACTIVE
       <==> (|Restrict(id, ws)| + FailedInARow(id, ws, ok)) % 2 == 1
    decreases |ws|
  {
    if ws == [] {
      assert PinMap()[id] in PinMap().Values;
    } else {
      var ws', w := ws[..|ws| - 1], ws[|ws| - 1];
      if w.id == id {
        AlternatesBefore(Restrict(id, ws'), w.on);
      }
      PinParity(id, ws', ok);
      LineOfWrite(LinesAfter(ws', ok), w, ok(|ws'|), id);
    }
  }

  lemma PinOrFailures(id: int, ws: seq<Write>, ok: nat -> bool)
    requires IsChannel(id) && AlternatesFromOn(Restrict(id, ws))
    ensures PinMap()[id] in LinesAfter(ws, ok)
    ensures (LinesAfter(ws, ok)[PinMap()[id]] == INACTIVE <==> |Restrict(id, ws)| % 2 == 1)
       <==> FailedInARow(id, ws, ok) % 2 == 0
  {
    PinParity(id, ws, ok);
  }

  /** After any run that begins with channel `id` OFF, its line agrees with the stored state (active-low: INACTIVE is
      ON) exactly when the number of its latest writes that failed in a row is even. */
  lemma PinAgreement(id: int, m: Channels, es: seq<Timed>, ok: nat -> bool)
    requires IsChannel(id) && !m[id - 1].state
    ensures var ws := Writes(m, es);
            && PinMap()[id] in LinesAfter(ws, ok)
            && ((LinesAfter(ws, ok)[PinMap()[id]] == INACTIVE <==> Run(m, es)[id - 1].state)
                <==> FailedInARow(id, ws, ok) % 2 == 0)
  {
    WritesAlternate(id, m, es);
    PinOrFailures(id, Writes(m, es), ok);
  }

  ghost predicate AgreesAt(id: int, lines: map<nat, LineValue>, m: Channels, ws: seq<Write>, ok: nat -> bool)
    requires IsChannel(id)
  {
    && PinMap()[id] in lines
    && ((lines[PinMap()[id]] == INACTIVE <==> m[id - 1].state) <==> FailedInARow(id, ws, ok) % 2 == 0)
  }

  /** The lines agree with the records, channel by channel, under that condition. */
  ghost predicate Agree(lines: map<nat, LineValue>, m: Channels, ws: seq<Write>, ok: nat -> bool) {
    forall id | IsChannel(id) :: AgreesAt(id, lines, m, ws, ok)
  }

  lemma PinsAgree(es: seq<Timed>, ok: nat -> bool)
    ensures Agree(LinesAfter(Writes(Initial(), es), ok), Run(Initial(), es), Writes(Initial(), es), ok)
  {
    forall id | IsChannel(id)
      ensures AgreesAt(id, LinesAfter(Writes(Initial(), es), ok), Run(Initial(), es), Writes(Initial(), es), ok)
    {
      PinAgreement(id, Initial(), es, ok);
    }
  }

  lemma {:induction false} NoneFailed(id: int, ws: seq<Write>, ok: nat -> bool)
    requires forall n: nat | n < |ws| :: ok(n)
    ensures FailedInARow(id, ws, ok) == 0
    decreases |ws|
  {
    if ws != [] {
      NoneFailed(id, ws[..|ws| - 1], ok);
    }
  }

  /** If every write goes through, the board shows exactly the stored states, on every run from power-up. */
  lemma BoardShowsStates(id: int, es: seq<Timed>, ok: nat -> bool)
    requires IsChannel(id) && forall n: nat | n < |Writes(Initial(), es)| :: ok(n)
    ensures PinMap()[id] in LinesAfter(Writes(Initial(), es), ok)
    ensures LinesAfter(Writes(Initial(), es), ok)[PinMap()[id]] == INACTIVE <==> Run(Initial(), es)[id - 1].state
  {
    PinAgreement(id, Initial(), es, ok);
    NoneFailed(id, Writes(Initial(), es), ok);
  }

  /** The smallest disagreement: one `set_relay` whose write fails leaves the relay off and its state ON. */
  lemma FailedWriteShows(id: int, at: Instant, ok: nat -> bool)
    requires IsChannel(id) && !ok(0)
    ensures var es := [Timed(at, Commanded(id, SetRelay(true)))]; var ws := Writes(Initial(), es);
            && FailedInARow(id, ws, ok) == 1
            && PinMap()[id] in LinesAfter(ws, ok) && LinesAfter(ws, ok)[PinMap()[id]] == ACTIVE
            && Run(Initial(), es)[id - 1].state
  {
    var e := Timed(at, Commanded(id, SetRelay(true)));
    var ws := [Write(id, true)];
    RunOfOne(Initial(), [], e);
    LogDiffOfOne([], Initial(), id, Step(Initial(), e)[id - 1], CHANNELS);
    assert Writes(Initial(), [e]) == ws && ws[..0] == [];
    assert PinMap()[id] in PinMap().Values;
  }

  class GpiodRelayController {
    var relayGpioMap: map<int, nat>
    var requested: bool
    var lines: map<nat, LineValue>
    /** The outside world: whether the n-th write goes through (`set_value` throws otherwise), and the next n. */
    const setValueOk: nat -> bool
    var next: nat
    /** Every call of SetRelayPhysical so far. */
    ghost var writes: seq<Write>

    ghost predicate Valid()
      reads this
    {
      relayGpioMap == PinMap() && next == |writes| && (requested ==> lines == LinesAfter(writes, setValueOk))
    }

    constructor (setValueOk: nat -> bool)
      ensures Valid() && !requested && writes == [] && this.setValueOk == setValueOk
    {
      relayGpioMap := map[1 := 5, 2 := 6, 3 := 13, 4 := 16, 5 := 19, 6 := 20, 7 := 21, 8 := 26];
      requested := false;
      lines := map[];
      this.setValueOk := setValueOk;
      next, writes := 0, [];
    }

    /** Opens one of the two chips and requests every line as an output, initially ACTIVE: all relays off. */
    method InitHardware(primaryOpens: bool, fallbackOpens: bool, requestGranted: bool) returns (ok: bool)
      requires Valid() && writes == []
      modifies this
      ensures Valid() && writes == []
      ensures ok <==> (primaryOpens || fallbackOpens) && requestGranted
      ensures requested <==> old(requested) || ok
      ensures ok ==> forall id :: IsChannel(id) ==> PinMap()[id] in lines && lines[PinMap()[id]] == ACTIVE
    {
      var chipOpened := primaryOpens;
      if !chipOpened {
        chipOpened := fallbackOpens;
      }
      if !chipOpened {
        return false;
      }
      var config: map<nat, LineValue> := map[];
      for id := 1 to 9
        invariant config.Keys == set i | 1 <= i < id :: PinMap()[i]
        invariant forall pin :: pin in config ==> config[pin] == ACTIVE
      {
        config := config[relayGpioMap[id] := ACTIVE];
      }
      if !requestGranted {
        return false;
      }
      lines, requested := config, true;
      assert PinMap().Values == set i | 1 <= i < 9 :: PinMap()[i] by {
        assert forall i :: i in PinMap() <==> 1 <= i < 9;
      }
      assert lines == LinesAfter([], setValueOk);
      return true;
    }

    method SetRelayPhysical(relayId: int, state: bool) returns (ok: bool)
      requires Valid()
      modifies this
      ensures Valid() && requested == old(requested)
      ensures writes == old(writes) + [Write(relayId, state)]
      ensures ok <==> requested && IsChannel(relayId) && setValueOk(|old(writes)|)
      ensures !ok ==> lines == old(lines)
    {
      assert (writes + [Write(relayId, state)])[..|writes|] == writes;
      var goesThrough := setValueOk(next);
      next, writes := next + 1, writes + [Write(relayId, state)];
      if !requested {
        return false;
      }
      if relayId !in relayGpioMap || !goesThrough {
        return false;
      }
      lines := lines[relayGpioMap[relayId] := if state then INACTIVE else ACTIVE];
      return true;
    }
  }
}
