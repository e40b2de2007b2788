/** The router object and the handlers it calls, over the shared controller. */
module Dispatch {
  import opened Machine
  import opened Relay
  import opened Board
  import opened StatusQuery
  import opened Controller
  import opened Framing
  import opened Json
  import opened Router

  lemma BatchSnoc(lib: Library, methods: map<string, Handler>, m: Channels, items: seq<Json>, env: nat -> Slot, k: nat,
                  done: Replies, own: seq<Timed>, response: Json)
    requires k < |items| && forall i | 0 <= i < |items| :: Dispatchable(items[i])
    requires done == Batch(lib, methods, m, items, env, 0, k)
    requires var r := Single(lib, methods, Run(Run(m, done.events), env(k).others), env(k).at, items[k]);
             response == r.response && own == env(k).others + r.events
    ensures Batch(lib, methods, m, items, env, 0, k + 1) == Replies(done.events + own, done.responses + [response])
  {
    FoldConcat(Step, m, done.events, env(k).others);
    var r := Single(lib, methods, Run(m, done.events + env(k).others), env(k).at, items[k]);
    Assoc(done.events, env(k).others, r.events);
  }

  /** What a handler's result and the events it caused amount to. */
  ghost function Told(result: Conv<Json>, events: seq<Timed>): Outcome {
    if result.Bad? then Threw(result.what) else Returned(events, result.value)
  }

  class JsonRpcRouter {
    var methods: map<string, Handler>
    const lib: Library
    const controller: BaseRelayController

    constructor (lib: Library, controller: BaseRelayController)
      ensures this.lib == lib && this.controller == controller && methods == map[]
    {
      this.lib, this.controller, methods := lib, controller, map[];
    }

    method RegisterMethod(name: string, handler: Handler)
      modifies this
      ensures methods == old(methods)[name := handler]
    {
      methods := methods[name := handler];
    }

    /** The registrations of `main`. */
    method RegisterAll()
      requires methods == map[]
      modifies this
      ensures methods == Registered()
    {
      RegisterMethod("set_relay", SET_RELAY);
      RegisterMethod("get_relays", GET_RELAYS);
      RegisterMethod("start_timer", START_TIMER);
      RegisterMethod("start_pulse", START_PULSE);
      RegisterMethod("start_blink", START_BLINK);
      RegisterMethod("get_relay_status", GET_RELAY_STATUS);
    }

    /** The controller and its board have gone through exactly these events. */
    twostate predicate Ran(events: seq<Timed>)
      reads controller, controller.hw
    {
      && controller.hw.Valid() && controller.hw.requested == old(controller.hw.requested)
      && controller.relayStates == Run(old(controller.relayStates), events)
      && controller.hw.writes == old(controller.hw.writes) + Writes(old(controller.relayStates), events)
    }

    /** A command to the controller; accepted, it is the one event of the controller's run. */
    method RunCommand(id: int32, cmd: Command, now: Instant) returns (ok: bool, ghost events: seq<Timed>)
      requires controller.hw.Valid()
      modifies controller, controller.hw
      ensures ok == IsChannel(id)
      ensures events == if ok then [Timed(now, Commanded(id, cmd))] else []
      ensures Ran(events)
    {
      ok := Controller.Perform(controller, id, cmd, now);
      events := [];
      if ok {
        events := [Timed(now, Commanded(id, cmd))];
        CommandIsStep(old(controller.hw.writes), old(controller.relayStates), controller.relayStates, id, cmd, now);
        RunOfOne(old(controller.relayStates), old(controller.hw.writes), events[0]);
      } else {
        assert controller.hw.writes + [] == controller.hw.writes;
      }
    }

    lemma NothingRan()
      requires controller.hw.Valid()
      ensures Run(controller.relayStates, []) == controller.relayStates
      ensures controller.hw.writes + Writes(controller.relayStates, []) == controller.hw.writes
    {
    }

    method ReadRelays() returns (fields: map<Name, Json>)
      ensures Obj(fields) == Snapshot(controller.relayStates)
    {
      var states := controller.GetAllStates();
      fields := map[];
      for id := 1 to 9
        invariant fields == StatesTo(controller.relayStates, id - 1)
      {
        fields := fields[NUMBER(id) := Bool(states[id])];
      }
    }

    // The registered handlers, in the source's order of tests and reads; `Bad` is an exception that leaves them.

    method HandleSetRelay(params: Json, now: Instant) returns (result: Conv<Json>, ghost events: seq<Timed>)
      requires controller.hw.Valid()
      modifies controller, controller.hw
      ensures Invoke(lib, SET_RELAY, params, old(controller.relayStates), now) == Told(result, events)
      ensures result.Bad? ==> events == []
      ensures Ran(events)
    {
      events := [];
      NothingRan();
      if !Has(params, RELAY_ID) || !Has(params, STATE) {
        return Got(Failure(-32602, lib.text(MissingParams(SET_RELAY)))), [];
      }
      var relayId := lib.toInt(Get(params, RELAY_ID));
      if relayId.Bad? {
        return Bad(relayId.what), [];
      }
      var state := lib.toBool(Get(params, STATE));
      if state.Bad? {
        return Bad(state.what), [];
      }
      if relayId.value < 1 || relayId.value > 8 {
        return Got(Failure(-32602, lib.text(RelayIdOutOfRange))), [];
      }
      var failure := Failure(-32603, lib.text(CommandFailed(SET_RELAY)));
      var ok;
      ok, events := RunCommand(relayId.value, SetRelay(state.value), now);
      if !ok {
        return Got(failure), events;
      }
      EchoFields(relayId.value, SetRelay(state.value));
      result := Got(Obj(map[SUCCESS := Bool(true), RELAY_ID := Int(relayId.value), STATE := Bool(state.value)]));
    }

    method HandleGetRelays(params: Json, now: Instant) returns (result: Conv<Json>)
      ensures Invoke(lib, GET_RELAYS, params, controller.relayStates, now) == Told(result, [])
      ensures result.Got?
    {
      var fields := ReadRelays();
      result := Got(Obj(fields));
    }

    method HandleStartTimer(params: Json, now: Instant) returns (result: Conv<Json>, ghost events: seq<Timed>)
      requires controller.hw.Valid()
      modifies controller, controller.hw
      ensures Invoke(lib, START_TIMER, params, old(controller.relayStates), now) == Told(result, events)
      ensures result.Bad? ==> events == []
      ensures Ran(events)
    {
      events := [];
      NothingRan();
      if !Has(params, RELAY_ID) || !Has(params, SECONDS) {
        return Got(Failure(-32602, lib.text(MissingParams(START_TIMER)))), [];
      }
      var relayId := lib.toInt(Get(params, RELAY_ID));
      if relayId.Bad? {
        return Bad(relayId.what), [];
      }
      var seconds := lib.toU32(Get(params, SECONDS));
      if seconds.Bad? {
        return Bad(seconds.what), [];
      }
      if relayId.value < 1 || relayId.value > 8 {
        return Got(Failure(-32602, lib.text(RelayIdOutOfRange))), [];
      }
      var failure := Failure(-32603, lib.text(CommandFailed(START_TIMER)));
      var ok;
      ok, events := RunCommand(relayId.value, StartTimer(seconds.value), now);
      if !ok {
        return Got(failure), events;
      }
      EchoFields(relayId.value, StartTimer(seconds.value));
      result := Got(Obj(map[SUCCESS := Bool(true), RELAY_ID := Int(relayId.value), SECONDS := Int(seconds.value)]));
    }

    method HandleStartPulse(params: Json, now: Instant) returns (result: Conv<Json>, ghost events: seq<Timed>)
      requires controller.hw.Valid()
      modifies controller, controller.hw
      ensures Invoke(lib, START_PULSE, params, old(controller.relayStates), now) == Told(result, events)
      ensures result.Bad? ==> events == []
      ensures Ran(events)
    {
      events := [];
      NothingRan();
      if !Has(params, RELAY_ID) || !Has(params, DURATION_MS) {
        return Got(Failure(-32602, lib.text(MissingParams(START_PULSE)))), [];
      }
      var relayId := lib.toInt(Get(params, RELAY_ID));
      if relayId.Bad? {
        return Bad(relayId.what), [];
      }
      var durationMs := lib.toU32(Get(params, DURATION_MS));
      if durationMs.Bad? {
        return Bad(durationMs.what), [];
      }
      if relayId.value < 1 || relayId.value > 8 {
        return Got(Failure(-32602, lib.text(RelayIdOutOfRange))), [];
      }
      var failure := Failure(-32603, lib.text(CommandFailed(START_PULSE)));
      var ok;
      ok, events := RunCommand(relayId.value, StartPulse(durationMs.value), now);
      if !ok {
        return Got(failure), events;
      }
      EchoFields(relayId.value, StartPulse(durationMs.value));
      result := Got(Obj(map[SUCCESS := Bool(true), RELAY_ID := Int(relayId.value),
                            DURATION_MS := Int(durationMs.value)]));
    }

    method HandleStartBlink(params: Json, now: Instant) returns (result: Conv<Json>, ghost events: seq<Timed>)
      requires controller.hw.Valid()
      modifies controller, controller.hw
      ensures Invoke(lib, START_BLINK, params, old(controller.relayStates), now) == Told(result, events)
      ensures result.Bad? ==> events == []
      ensures Ran(events)
    {
      events := [];
      NothingRan();
      if !Has(params, RELAY_ID) || !Has(params, ON_MS) || !Has(params, OFF_MS) || !Has(params, COUNT) {
        return Got(Failure(-32602, lib.text(MissingParams(START_BLINK)))), [];
      }
      var relayId := lib.toInt(Get(params, RELAY_ID));
      if relayId.Bad? {
        return Bad(relayId.what), [];
      }
      var onMs := lib.toU32(Get(params, ON_MS));
      if onMs.Bad? {
        return Bad(onMs.what), [];
      }
      var offMs := lib.toU32(Get(params, OFF_MS));
      if offMs.Bad? {
        return Bad(offMs.what), [];
      }
      var count := lib.toU32(Get(params, COUNT));
      if count.Bad? {
        return Bad(count.what), [];
      }
      if relayId.value < 1 || relayId.value > 8 {
        return Got(Failure(-32602, lib.text(RelayIdOutOfRange))), [];
      }
      var failure := Failure(-32603, lib.text(CommandFailed(START_BLINK)));
      var ok;
      ok, events := RunCommand(relayId.value, StartBlink(onMs.value, offMs.value, count.value), now);
      if !ok {
        return Got(failure), events;
      }
      EchoFields(relayId.value, StartBlink(onMs.value, offMs.value, count.value));
      result := Got(Obj(map[SUCCESS := Bool(true), RELAY_ID := Int(relayId.value), ON_MS := Int(onMs.value),
                            OFF_MS := Int(offMs.value), COUNT := Int(count.value)]));
    }

    method HandleGetRelayStatus(params: Json, now: Instant) returns (result: Conv<Json>)
      ensures Invoke(lib, GET_RELAY_STATUS, params, controller.relayStates, now) == Told(result, [])
    {
      if !Has(params, RELAY_ID) {
        return Got(Failure(-32602, lib.text(MissingParams(GET_RELAY_STATUS))));
      }
      var relayId := lib.toInt(Get(params, RELAY_ID));
      if relayId.Bad? {
        return Bad(relayId.what);
      }
      if relayId.value < 1 || relayId.value > 8 {
        return Got(Failure(-32602, lib.text(RelayIdOutOfRange)));
      }
      var status := controller.GetRelayStatus(relayId.value, now);
      result := Got(Obj(map[RELAY_ID := Int(relayId.value), STATUS := Str(lib.show(status))]));
    }

    /** The handler registered under a name, called through the table. */
    method CallHandler(h: Handler, params: Json, now: Instant) returns (result: Conv<Json>, ghost events: seq<Timed>)
      requires controller.hw.Valid()
      modifies controller, controller.hw
      ensures Invoke(lib, h, params, old(controller.relayStates), now) == Told(result, events)
      ensures result.Bad? ==> events == []
      ensures Ran(events)
    {
      events := [];
      NothingRan();
      match h
      case SET_RELAY => result, events := HandleSetRelay(params, now);
      case GET_RELAYS => result := HandleGetRelays(params, now);
      case START_TIMER => result, events := HandleStartTimer(params, now);
      case START_PULSE => result, events := HandleStartPulse(params, now);
      case START_BLINK => result, events := HandleStartBlink(params, now);
      case GET_RELAY_STATUS => result := HandleGetRelayStatus(params, now);
    }

    method WrapResult(id: Json, result: Json) returns (response: Json)
      ensures forall events :: Wrap(lib, id, Returned(events, result)) == Reply(events, response)
    {
      if Has(result, ERROR) && Has(result, CODE) {
        var code := lib.toInt(Get(result, CODE));
        if code.Bad? {
          return ErrorResponse(id, -32603, lib.text(ExceptionInHandler(code.what)));
        }
        if !Get(result, ERROR).Str? {
          return ErrorResponse(id, -32603, lib.text(ExceptionInHandler("type_error")));
        }
        return ErrorResponse(id, code.value, Get(result, ERROR).s);
      }
      return SuccessResponse(id, result);
    }

    method ProcessSingleRequest(req: Json, now: Instant) returns (response: Json, ghost events: seq<Timed>)
      requires controller.hw.Valid() && Dispatchable(req)
      modifies controller, controller.hw
      ensures Reply(events, response) == Single(lib, methods, old(controller.relayStates), now, req)
      ensures Ran(events)
    {
      events := [];
      var id := if Has(req, ID) then Get(req, ID) else Null;
      if !req.Obj? || !Has(req, JSONRPC) || Get(req, JSONRPC) != Str("2.0") || !Has(req, METHOD) {
        return ErrorResponse(id, -32600, lib.text(BadEnvelope)), [];
      }
      var name := Get(req, METHOD).s;
      var params := if Has(req, PARAMS) then Get(req, PARAMS) else Obj(map[]);
      if name !in methods {
        return ErrorResponse(id, -32601, lib.text(MethodNotFound(name))), [];
      }
      var result;
      result, events := CallHandler(methods[name], params, now);
      if result.Bad? {
        return ErrorResponse(id, -32603, lib.text(ExceptionInHandler(result.what))), events;
      }
      response := WrapResult(id, result.value);
    }

    /** A request after what other threads did while it waited for the mutex. */
    method ProcessInTurn(req: Json, slot: Slot) returns (response: Json, ghost events: seq<Timed>)
      requires controller.hw.Valid() && Dispatchable(req)
      modifies controller, controller.hw
      ensures var m := old(controller.relayStates);
              var r := Single(lib, methods, Run(m, slot.others), slot.at, req);
              response == r.response && events == slot.others + r.events
      ensures response != Null
      ensures Ran(events)
    {
      ghost var m, w := controller.relayStates, controller.hw.writes;
      Replay(controller, slot.others);
      ghost var own;
      response, own := ProcessSingleRequest(req, slot.at);
      events := slot.others + own;
      SingleAnswers(lib, methods, Run(m, slot.others), slot.at, req);
      RunsCompose(m, w, slot.others, own);
    }

    /** One round of the batch loop, after `done` of a batch that began on records `m` with log `w`. */
    method BatchElement(items: seq<Json>, env: nat -> Slot, k: nat, ghost m: Channels, ghost w: seq<Write>,
                        ghost done: Replies)
      returns (singleRes: Json, ghost own: seq<Timed>)
      requires controller.hw.Valid() && k < |items| && forall i | 0 <= i < |items| :: Dispatchable(items[i])
      requires done == Batch(lib, methods, m, items, env, 0, k)
      requires controller.relayStates == Run(m, done.events) && controller.hw.writes == w + Writes(m, done.events)
      modifies controller, controller.hw
      ensures controller.hw.Valid() && controller.hw.requested == old(controller.hw.requested)
      ensures Batch(lib, methods, m, items, env, 0, k + 1) == Replies(done.events + own, done.responses + [singleRes])
      ensures singleRes != Null
      ensures controller.relayStates == Run(m, done.events + own)
      ensures controller.hw.writes == w + Writes(m, done.events + own)
    {
      singleRes, own := ProcessInTurn(items[k], env(k));
      BatchSnoc(lib, methods, m, items, env, k, done, own, singleRes);
      RunsCompose(m, w, done.events, own);
    }

    method ProcessBatch(items: seq<Json>, env: nat -> Slot) returns (batchResponse: seq<Json>, ghost events: seq<Timed>)
      requires controller.hw.Valid() && forall i | 0 <= i < |items| :: Dispatchable(items[i])
      modifies controller, controller.hw
      ensures Replies(events, batchResponse)
           == Batch(lib, methods, old(controller.relayStates), items, env, 0, |items|)
      ensures |batchResponse| == |items|
      ensures Ran(events)
    {
      batchResponse, events := [], [];
      ghost var m, w := controller.relayStates, controller.hw.writes;
      assert w + [] == w;
      for k := 0 to |items|
        invariant controller.hw.Valid() && controller.hw.requested == old(controller.hw.requested)
        invariant controller.relayStates == Run(m, events) && controller.hw.writes == w + Writes(m, events)
        invariant |batchResponse| == k
        invariant Replies(events, batchResponse) == Batch(lib, methods, m, items, env, 0, k)
      {
        ghost var own;
        var singleRes;
        singleRes, own := BatchElement(items, env, k, m, w, Replies(events, batchResponse));
        if singleRes != Null {
          batchResponse := batchResponse + [singleRes];
        }
        events := events + own;
      }
    }

    /** One line from a client to one line back (or nothing, for an empty text). The loop over a batch releases the
        controller's mutex between elements: `env` says what other threads do there. */
    method ProcessRequest(rawRequest: seq<byte>, env: nat -> Slot) returns (text: seq<byte>, ghost events: seq<Timed>)
      requires controller.hw.Valid()
      requires lib.parse(rawRequest).Got? ==> Acceptable(lib.parse(rawRequest).value)
      modifies controller, controller.hw
      ensures Ran(events)
      ensures match lib.parse(rawRequest)
              case Bad(what) =>
                && events == []
                && text == lib.dump(ErrorResponse(Null, -32700, lib.text(ParseError(what)))) + [LF]
              case Got(doc) =>
                var r := Process(lib, methods, old(controller.relayStates), doc, env, 0);
                events == r.events && text == lib.dump(r.response) + [LF]
    {
      events := [];
      var root := lib.parse(rawRequest);
      if root.Bad? {
        return lib.dump(ErrorResponse(Null, -32700, lib.text(ParseError(root.what)))) + [LF], [];
      }
      var doc := root.value;
      var rootResponse;
      if doc.Arr? {
        if doc.items == [] {
          return lib.dump(ErrorResponse(Null, -32600, lib.text(EmptyBatch))) + [LF], [];
        }
        var batchResponse;
        batchResponse, events := ProcessBatch(doc.items, env);
        if batchResponse == [] {
          return [], events;
        }
        rootResponse := Arr(batchResponse);
      } else {
        rootResponse, events := ProcessInTurn(doc, env(0));
        if rootResponse == Null {
          return [], events;
        }
      }
      return lib.dump(rootResponse) + [LF], events;
    }
  }
}
