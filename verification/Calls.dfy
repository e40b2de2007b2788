/** One call of the client: from its encoding through the router and the controller to the signals of its answer. */
module Calls {
  import opened Relay
  import opened Board
  import opened Framing
  import opened Json
  import opened Router
  import opened Client

  // --- One call, from client to controller and back ----------------------------------------------

  /** `ans` is a true answer to the call with this id, given when the controller's trace was `past`. */
  ghost predicate TrueAnswer(lib: Library, past: seq<Timed>, call: Call, id: int32, ans: Json) {
    match call
    case QueryAll => ans == SuccessResponse(Int(id), Snapshot(Run(Initial(), past)))
    case Do(channel, cmd) =>
      if IsChannel(channel) then
        && past != [] && past[|past| - 1].event == Commanded(channel, cmd)
        && ans == SuccessResponse(Int(id), Echo(channel, cmd))
      else ans == ErrorResponse(Int(id), -32602, lib.text(RelayIdOutOfRange))
  }

  function HandlerOf(call: Call): Handler {
    match call
    case QueryAll => GET_RELAYS
    case Do(_, SetRelay(_)) => SET_RELAY
    case Do(_, StartTimer(_)) => START_TIMER
    case Do(_, StartPulse(_)) => START_PULSE
    case Do(_, StartBlink(_, _, _)) => START_BLINK
  }

  lemma MethodsRegistered(call: Call)
    ensures MethodName(call) in Registered() && Registered()[MethodName(call)] == HandlerOf(call)
  {
    assert "start_timer"[6] != "start_pulse"[6] && "start_timer"[6] != "start_blink"[6];
    assert "start_pulse"[6] != "start_blink"[6];
  }

  function ParamsOf(call: Call): Json {
    Obj(if call.Do? then Params(call.id, call.cmd) else map[])
  }

  /** A client's request reaches the handler of its method, with its parameters. */
  lemma RequestRouted(lib: Library, m: Channels, at: Instant, call: Call, id: int32)
    ensures Dispatchable(Request(call, id))
    ensures Single(lib, Registered(), m, at, Request(call, id))
         == Wrap(lib, Int(id), Invoke(lib, HandlerOf(call), ParamsOf(call), m, at))
  {
    MethodsRegistered(call);
    var req := Request(call, id);
    assert GoodEnvelope(req) && RequestId(req) == Int(id) && Get(req, METHOD).s == MethodName(call);
    assert (if Has(req, PARAMS) then Get(req, PARAMS) else Obj(map[])) == ParamsOf(call);
  }

  /** What the client encodes, the server decodes: the handler is asked for exactly the call's command. */
  lemma CallDecodes(lib: Library, call: Call)
    requires ReadsBack(lib) && call.Do?
    ensures Decode(lib, HandlerOf(call), ParamsOf(call))
         == InRange(lib, call.id, Perform(call.id, call.cmd, Failure(-32603, lib.text(CommandFailed(HandlerOf(call))))))
  {
  }

  lemma CommandExecutes(lib: Library, past: seq<Timed>, at: Instant, call: Call, id: int32)
    requires ReadsBack(lib) && call.Do?
    ensures var r := Wrap(lib, Int(id), Invoke(lib, HandlerOf(call), ParamsOf(call), Run(Initial(), past), at));
            && TrueAnswer(lib, past + r.events, call, id, r.response)
            && r.events == if IsChannel(call.id) then [Timed(at, Commanded(call.id, call.cmd))] else []
  {
    CallDecodes(lib, call);
    WrapFailure(lib, Int(id), -32602, lib.text(RelayIdOutOfRange));
    if IsChannel(call.id) {
      WrapEcho(lib, Int(id), [Timed(at, Commanded(call.id, call.cmd))], call.id, call.cmd);
      assert Invoke(lib, HandlerOf(call), ParamsOf(call), Run(Initial(), past), at)
          == Returned([Timed(at, Commanded(call.id, call.cmd))], Echo(call.id, call.cmd));
    }
  }

  lemma QueryExecutes(lib: Library, past: seq<Timed>, at: Instant, id: int32)
    ensures Wrap(lib, Int(id), Invoke(lib, GET_RELAYS, ParamsOf(QueryAll), Run(Initial(), past), at))
         == Reply([], SuccessResponse(Int(id), Snapshot(Run(Initial(), past))))
  {
    SnapshotComplete(Run(Initial(), past), 8);
  }

  /** A call that reaches the controller is carried out as made, and truly answered. */
  lemma CallExecutes(lib: Library, past: seq<Timed>, at: Instant, call: Call, id: int32)
    requires ReadsBack(lib)
    ensures Dispatchable(Request(call, id))
    ensures var r := Single(lib, Registered(), Run(Initial(), past), at, Request(call, id));
            && TrueAnswer(lib, past + r.events, call, id, r.response)
            && r.events == if call.Do? && IsChannel(call.id) then [Timed(at, Commanded(call.id, call.cmd))] else []
  {
    RequestRouted(lib, Run(Initial(), past), at, call, id);
    if call.Do? {
      CommandExecutes(lib, past, at, call, id);
    } else {
      QueryExecutes(lib, past, at, id);
      assert past + [] == past;
    }
  }

  // --- What the client makes of an answer --------------------------------------------------------

  ghost predicate TrueSignals(m: Channels, signals: seq<Signal>) {
    forall v | 0 <= v < |signals| :: IsChannel(signals[v].id) && signals[v].on == m[signals[v].id - 1].state
  }

  /** An object whose entries are states of channels. */
  ghost predicate ShowsStates(m: Channels, fields: map<Name, Json>) {
    forall key :: key in fields ==> key.NUMBER? && IsChannel(key.n) && fields[key] == Bool(m[key.n - 1].state)
  }

  /** Signal i is the true one of the channel whose number is key i. */
  ghost predicate FromKeys(m: Channels, keys: seq<Name>, signals: seq<Signal>) {
    && TrueSignals(m, signals) && |signals| <= |keys|
    && forall i | 0 <= i < |signals| :: keys[i] == NUMBER(signals[i].id)
  }

  lemma FromOneMoreKey(m: Channels, keys: seq<Name>, signals: seq<Signal>, signal: Signal)
    requires FromKeys(m, keys, signals) && |signals| < |keys| && keys[|signals|] == NUMBER(signal.id)
    requires IsChannel(signal.id) && signal.on == m[signal.id - 1].state
    ensures FromKeys(m, keys, signals + [signal])
  {
  }

  lemma NextStateSignal(lib: Library, m: Channels, fields: map<Name, Json>, keys: seq<Name>, k: nat)
    requires ShowsStates(m, fields)
    requires k < |keys| && forall key | key in keys :: key in fields
    ensures keys[k].NUMBER? && IsChannel(keys[k].n)
    ensures ItemSignals(lib, fields, keys, k + 1)
         == ItemSignals(lib, fields, keys, k) + [Signal(keys[k].n, m[keys[k].n - 1].state)]
  {
    var key := keys[k];
    assert key in keys;
    assert Stoi(lib, key) == Some(key.n) && fields[key] == Bool(m[key.n - 1].state);
  }

  lemma {:induction false} SnapshotSignals(lib: Library, m: Channels, fields: map<Name, Json>, keys: seq<Name>, k: nat)
    requires ShowsStates(m, fields)
    requires k <= |keys| && forall key | key in keys :: key in fields
    ensures var signals := ItemSignals(lib, fields, keys, k);
            FromKeys(m, keys, signals) && |signals| == k
    decreases k
  {
    if k > 0 {
      SnapshotSignals(lib, m, fields, keys, k - 1);
      NextStateSignal(lib, m, fields, keys, k - 1);
      var id := keys[k - 1].n;
      FromOneMoreKey(m, keys, ItemSignals(lib, fields, keys, k - 1), Signal(id, m[id - 1].state));
    }
  }

  // --- Which signals an answer gives, told from its fields ---------------------------------------

  /** A result that names a relay and its state, as that of set_relay does, gives exactly that signal. */
  lemma NamedRelayShown(lib: Library, id: Json, fields: map<Name, Json>, channel: int32, on: bool)
    requires VisitsOwn(lib) && RELAY_ID in fields && STATE in fields
    requires lib.toInt(fields[RELAY_ID]) == Got(channel) && lib.toBool(fields[STATE]) == Got(on)
    ensures SignalsOf(lib, SuccessResponse(id, Obj(fields))) == [Signal(channel, on)]
  {
    var ans := SuccessResponse(id, Obj(fields));
    assert !Has(ans, ERROR) && Get(ans, RESULT) == Obj(fields);
  }

  /** Unless one of the two cannot be read: then it gives none. */
  lemma UnreadableRelayNotShown(lib: Library, id: Json, fields: map<Name, Json>)
    requires VisitsOwn(lib) && RELAY_ID in fields && STATE in fields
    requires lib.toInt(fields[RELAY_ID]).Bad? || lib.toBool(fields[STATE]).Bad?
    ensures SignalsOf(lib, SuccessResponse(id, Obj(fields))) == []
  {
    var ans := SuccessResponse(id, Obj(fields));
    assert !Has(ans, ERROR) && Get(ans, RESULT) == Obj(fields);
  }

  /** An error gives none, whatever else the answer holds; a line that does not parse, none either. */
  lemma ErrorsNotShown(lib: Library, fields: map<Name, Json>, line: seq<byte>)
    requires VisitsOwn(lib)
    ensures ERROR in fields && fields[ERROR] != Null ==> SignalsOf(lib, Obj(fields)) == []
    ensures ERROR !in fields ==> SignalsOf(lib, Obj(fields[ERROR := Null])) == SignalsOf(lib, Obj(fields))
    ensures lib.parse(line).Bad? ==> LineSignal(lib, line) == []
  {
    if ERROR !in fields && RESULT in fields {
      assert Get(Obj(fields[ERROR := Null]), RESULT) == Get(Obj(fields), RESULT);
    }
  }

  lemma ObjectSignals(lib: Library, id: Json, fields: map<Name, Json>)
    requires VisitsOwn(lib) && (RELAY_ID !in fields || STATE !in fields)
    ensures SignalsOf(lib, SuccessResponse(id, Obj(fields)))
         == ItemSignals(lib, fields, lib.items(fields), |lib.items(fields)|)
  {
    var ans := SuccessResponse(id, Obj(fields));
    assert !Has(ans, ERROR) && Get(ans, RESULT) == Obj(fields);
  }

  lemma {:induction false} EchoSignals(lib: Library, id: int32, cmd: Command, keys: seq<Name>, k: nat)
    requires k <= |keys| && forall key | key in keys :: key in Echo(id, cmd).fields
    ensures ItemSignals(lib, Echo(id, cmd).fields, keys, k) == []
    decreases k
  {
    if k > 0 {
      EchoSignals(lib, id, cmd, keys, k - 1);
      assert keys[k - 1] in keys;
    }
  }

  /** A set_relay answer shows the relay; the answer to a start command shows nothing. */
  lemma EchoShown(lib: Library, id: Json, channel: int32, cmd: Command)
    requires ReadsBack(lib) && VisitsOwn(lib)
    ensures SignalsOf(lib, SuccessResponse(id, Echo(channel, cmd)))
         == if cmd.SetRelay? then [Signal(channel, cmd.on)] else []
  {
    var fields := Echo(channel, cmd).fields;
    if cmd.SetRelay? {
      NamedRelayShown(lib, id, fields, channel, cmd.on);
    } else {
      ObjectSignals(lib, id, fields);
      EchoSignals(lib, channel, cmd, lib.items(fields), |lib.items(fields)|);
    }
  }

  /** Entry `key` is a boolean under a number. */
  predicate Says(lib: Library, fields: map<Name, Json>, key: Name, signal: Signal) {
    && key in fields && fields[key] == Bool(signal.on)
    && (key == NUMBER(signal.id) || (key.OTHER? && lib.stoi(key.text) == Some(signal.id)))
  }

  lemma {:induction false} ItemsSay(lib: Library, fields: map<Name, Json>, keys: seq<Name>, k: nat, signal: Signal)
    requires k <= |keys| && forall key | key in keys :: key in fields
    ensures signal in ItemSignals(lib, fields, keys, k)
       <==> exists i :: 0 <= i < k && Says(lib, fields, keys[i], signal)
    decreases k
  {
    if k > 0 {
      ItemsSay(lib, fields, keys, k - 1, signal);
      assert keys[k - 1] in keys;
      var id, val := Stoi(lib, keys[k - 1]), fields[keys[k - 1]];
      if id.Some? && val.Bool? {
        assert signal == Signal(id.value, val.b) <==> Says(lib, fields, keys[k - 1], signal);
      }
    }
  }

  /** Any other object shows exactly its numbered booleans. */
  lemma NumbersShown(lib: Library, id: Json, fields: map<Name, Json>, signal: Signal)
    requires VisitsOwn(lib) && VisitsAll(lib, fields) && (RELAY_ID !in fields || STATE !in fields)
    ensures signal in SignalsOf(lib, SuccessResponse(id, Obj(fields)))
       <==> exists key :: Says(lib, fields, key, signal)
  {
    var keys := lib.items(fields);
    ObjectSignals(lib, id, fields);
    ItemsSay(lib, fields, keys, |keys|, signal);
    if key :| Says(lib, fields, key, signal) {
      assert key in keys;
      var i :| 0 <= i < |keys| && keys[i] == key;
      assert Says(lib, fields, keys[i], signal);
    }
  }

  lemma LastCommandShows(past: seq<Timed>, id: int, cmd: Command)
    requires past != [] && past[|past| - 1].event == Commanded(id, cmd) && IsChannel(id) && cmd.SetRelay?
    ensures Run(Initial(), past)[id - 1].state == cmd.on
  {
  }

  /** What a true answer to a command shows: a switched relay, nothing otherwise. */
  lemma CommandAnswerShows(lib: Library, past: seq<Timed>, channel: int32, cmd: Command, id: int32, ans: Json)
    requires ReadsBack(lib) && VisitsOwn(lib) && TrueAnswer(lib, past, Call.Do(channel, cmd), id, ans)
    ensures SignalsOf(lib, ans) == if IsChannel(channel) && cmd.SetRelay? then [Signal(channel, cmd.on)] else []
  {
    if IsChannel(channel) {
      EchoShown(lib, Int(id), channel, cmd);
    }
  }

  lemma QuerySignalsTrue(lib: Library, past: seq<Timed>, id: int32, ans: Json)
    requires VisitsOwn(lib) && TrueAnswer(lib, past, QueryAll, id, ans)
    ensures TrueSignals(Run(Initial(), past), SignalsOf(lib, ans))
  {
    var fields := StatesTo(Run(Initial(), past), 8);
    SnapshotComplete(Run(Initial(), past), 8);
    ObjectSignals(lib, Int(id), fields);
    SnapshotSignals(lib, Run(Initial(), past), fields, lib.items(fields), |lib.items(fields)|);
  }

  /** The signals of a true answer are states the controller had at that point of its history. */
  lemma AnswerSignalsTrue(lib: Library, past: seq<Timed>, call: Call, id: int32, ans: Json)
    requires ReadsBack(lib) && VisitsOwn(lib) && TrueAnswer(lib, past, call, id, ans)
    ensures TrueSignals(Run(Initial(), past), SignalsOf(lib, ans))
  {
    match call
    case QueryAll => QuerySignalsTrue(lib, past, id, ans);
    case Do(channel, cmd) =>
      CommandAnswerShows(lib, past, channel, cmd, id, ans);
      if IsChannel(channel) && cmd.SetRelay? {
        LastCommandShows(past, channel, cmd);
      }
  }

  /** One signal for each of the eight channels, all of the one moment whose records are `m`. */
  ghost predicate WholeBoard(m: Channels, signals: seq<Signal>) {
    && TrueSignals(m, signals)
    && (forall channel: int32 | IsChannel(channel) :: exists v :: 0 <= v < |signals| && signals[v].id == channel)
    && (forall u, v | 0 <= u < v < |signals| :: signals[u].id != signals[v].id)
  }

  lemma NumbersCover(m: Channels, keys: seq<Name>, signals: seq<Signal>)
    requires TrueSignals(m, signals) && |signals| == |keys|
    requires forall i | 0 <= i < |keys| :: keys[i] == NUMBER(signals[i].id)
    requires forall channel: int32 | IsChannel(channel) :: NUMBER(channel) in keys
    requires forall i, j | 0 <= i < j < |keys| :: keys[i] != keys[j]
    ensures WholeBoard(m, signals)
  {
    forall channel: int32 | IsChannel(channel) ensures exists v :: 0 <= v < |signals| && signals[v].id == channel {
      assert NUMBER(channel) in keys;
      var v :| 0 <= v < |keys| && keys[v] == NUMBER(channel);
      assert signals[v].id == channel;
    }
    forall u, v | 0 <= u < v < |signals| ensures signals[u].id != signals[v].id {
      assert keys[u] != keys[v];
    }
  }

  /** Each get_relays answer is one atomic snapshot of the whole board. */
  lemma QueryShowsBoard(lib: Library, past: seq<Timed>, id: int32, ans: Json)
    requires VisitsOwn(lib) && VisitsAll(lib, StatesTo(Run(Initial(), past), 8))
    requires TrueAnswer(lib, past, QueryAll, id, ans)
    ensures WholeBoard(Run(Initial(), past), SignalsOf(lib, ans))
  {
    var m := Run(Initial(), past);
    var keys := lib.items(StatesTo(m, 8));
    SnapshotComplete(m, 8);
    SnapshotSignals(lib, m, StatesTo(m, 8), keys, |keys|);
    ObjectSignals(lib, Int(id), StatesTo(m, 8));
    NumbersCover(m, keys, ItemSignals(lib, StatesTo(m, 8), keys, |keys|));
  }
}
