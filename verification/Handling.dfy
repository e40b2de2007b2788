/** What each request gets, told from its fields and the library's reads alone, case by case: every request falls under
    one of the cases, in the order in which the router and its handlers test them. */
module Handling {
  import opened Relay
  import opened Board
  import opened StatusQuery
  import opened Json
  import opened Router

  // --- What a request asks -----------------------------------------------------------------------

  /** A request of protocol version 2.0 for this method. */
  predicate Asks(req: Json, name: string) {
    && req.Obj? && JSONRPC in req.fields && req.fields[JSONRPC] == Str("2.0")
    && METHOD in req.fields && req.fields[METHOD] == Str(name)
  }

  function IdOf(req: Json): Json {
    if req.Obj? && ID in req.fields then req.fields[ID] else Null
  }

  function ParamsIn(req: Json): Json
    requires req.Obj?
  {
    if PARAMS in req.fields then req.fields[PARAMS] else Obj(map[])
  }

  /** It asks for a method that has this handler. */
  predicate AsksFor(methods: map<string, Handler>, req: Json, name: string, h: Handler) {
    Asks(req, name) && name in methods && methods[name] == h
  }

  /** The parameters a method requires, in the order in which they are read. */
  function Keys(h: Handler): seq<Name> {
    match h
    case SET_RELAY => [RELAY_ID, STATE]
    case GET_RELAYS => []
    case START_TIMER => [RELAY_ID, SECONDS]
    case START_PULSE => [RELAY_ID, DURATION_MS]
    case START_BLINK => [RELAY_ID, ON_MS, OFF_MS, COUNT]
    case GET_RELAY_STATUS => [RELAY_ID]
  }

  predicate HasKeys(p: Json, h: Handler) {
    p.Obj? && forall i | 0 <= i < |Keys(h)| :: Keys(h)[i] in p.fields
  }

  /** The exception of reading this parameter as the integer, boolean or 32-bit number it should be, if any. */
  function ReadFails(lib: Library, p: Json, key: Name): Option<string>
    requires p.Obj? && key in p.fields
  {
    match key
    case RELAY_ID => (var r := lib.toInt(p.fields[key]); if r.Bad? then Some(r.what) else None)
    case STATE => (var r := lib.toBool(p.fields[key]); if r.Bad? then Some(r.what) else None)
    case _ => var r := lib.toU32(p.fields[key]); if r.Bad? then Some(r.what) else None
  }

  predicate AllRead(lib: Library, p: Json, h: Handler, k: nat)
    requires HasKeys(p, h) && k <= |Keys(h)|
  {
    forall i | 0 <= i < k :: ReadFails(lib, p, Keys(h)[i]) == None
  }

  // --- What it gets ------------------------------------------------------------------------------

  /** An error response, and nothing done. */
  predicate Refused(req: Json, r: Reply, code: int, text: string) {
    && r.events == []
    && r.response == Obj(map[JSONRPC := Str("2.0"), ID := IdOf(req),
                             ERROR := Obj(map[CODE := Int(code), MESSAGE := Str(text)])])
  }

  predicate Answered(req: Json, r: Reply, events: seq<Timed>, fields: map<Name, Json>) {
    && r.events == events
    && r.response == Obj(map[JSONRPC := Str("2.0"), ID := IdOf(req), RESULT := Obj(fields)])
  }

  /** One command done, and its values in the answer. */
  predicate Obeyed(req: Json, r: Reply, now: Instant, id: int32, cmd: Command, fields: map<Name, Json>) {
    Answered(req, r, [Timed(now, Commanded(id, cmd))], fields[RELAY_ID := Int(id)][SUCCESS := Bool(true)])
  }

  // --- The envelope ------------------------------------------------------------------------------

  lemma BadEnvelopeRefused(lib: Library, methods: map<string, Handler>, m: Channels, now: Instant, req: Json)
    requires !req.Obj? || JSONRPC !in req.fields || req.fields[JSONRPC] != Str("2.0") || METHOD !in req.fields
    ensures Dispatchable(req)
    ensures Refused(req, Single(lib, methods, m, now, req), -32600, lib.text(BadEnvelope))
  {
  }

  lemma UnknownMethodRefused(lib: Library, methods: map<string, Handler>, m: Channels, now: Instant, req: Json,
                             name: string)
    requires Asks(req, name) && name !in methods
    ensures Dispatchable(req)
    ensures Refused(req, Single(lib, methods, m, now, req), -32601, lib.text(MethodNotFound(name)))
  {
  }

  lemma Handled(lib: Library, methods: map<string, Handler>, m: Channels, now: Instant, req: Json, name: string,
                h: Handler)
    requires AsksFor(methods, req, name, h)
    ensures Dispatchable(req)
    ensures Single(lib, methods, m, now, req) == Wrap(lib, IdOf(req), Invoke(lib, h, ParamsIn(req), m, now))
  {
  }

  // --- The parameters ----------------------------------------------------------------------------

  lemma KeysOf(p: Json, h: Handler)
    requires h != GET_RELAYS
    ensures HasKeys(p, h) <==> HasParams(h, p)
  {
    if HasKeys(p, h) {
      assert Keys(h)[0] in p.fields;
      assert |Keys(h)| > 1 ==> Keys(h)[1] in p.fields;
      assert |Keys(h)| > 2 ==> Keys(h)[2] in p.fields && Keys(h)[3] in p.fields;
    }
  }

  lemma MissingKeyRefused(lib: Library, methods: map<string, Handler>, m: Channels, now: Instant, req: Json,
                          name: string, h: Handler)
    requires ReadsBack(lib) && AsksFor(methods, req, name, h) && !HasKeys(ParamsIn(req), h) && h != GET_RELAYS
    ensures Dispatchable(req)
    ensures Refused(req, Single(lib, methods, m, now, req), -32602, lib.text(MissingParams(h)))
  {
    var p := ParamsIn(req);
    Handled(lib, methods, m, now, req, name, h);
    KeysOf(p, h);
    WrapFailure(lib, IdOf(req), -32602, lib.text(MissingParams(h)));
  }

  lemma FailedReadThrows(lib: Library, p: Json, h: Handler, i: nat)
    requires HasKeys(p, h) && i < |Keys(h)| && AllRead(lib, p, h, i) && ReadFails(lib, p, Keys(h)[i]).Some?
    ensures Decode(lib, h, p) == Throw(ReadFails(lib, p, Keys(h)[i]).value)
  {
    KeysOf(p, h);
    assert i > 0 ==> ReadFails(lib, p, Keys(h)[0]) == None;
    assert i > 1 ==> ReadFails(lib, p, Keys(h)[1]) == None;
    assert i > 2 ==> ReadFails(lib, p, Keys(h)[2]) == None;
  }

  /** The first parameter that cannot be read fails the request, with its exception. */
  lemma FailedReadRefused(lib: Library, methods: map<string, Handler>, m: Channels, now: Instant, req: Json,
                          name: string, h: Handler, i: nat)
    requires AsksFor(methods, req, name, h) && HasKeys(ParamsIn(req), h) && i < |Keys(h)|
    requires AllRead(lib, ParamsIn(req), h, i) && ReadFails(lib, ParamsIn(req), Keys(h)[i]).Some?
    ensures Dispatchable(req)
    ensures var what := ReadFails(lib, ParamsIn(req), Keys(h)[i]).value;
            Refused(req, Single(lib, methods, m, now, req), -32603, lib.text(ExceptionInHandler(what)))
  {
    Handled(lib, methods, m, now, req, name, h);
    FailedReadThrows(lib, ParamsIn(req), h, i);
  }

  lemma OutOfRangeRejects(lib: Library, p: Json, h: Handler, id: int32)
    requires h != GET_RELAYS && HasKeys(p, h) && AllRead(lib, p, h, |Keys(h)|)
    requires RELAY_ID in p.fields && lib.toInt(p.fields[RELAY_ID]) == Got(id) && (id < 1 || id > 8)
    ensures Decode(lib, h, p) == Reject(Failure(-32602, lib.text(RelayIdOutOfRange)))
  {
    KeysOf(p, h);
    assert |Keys(h)| > 1 ==> ReadFails(lib, p, Keys(h)[1]) == None;
    assert |Keys(h)| > 2 ==> ReadFails(lib, p, Keys(h)[2]) == None && ReadFails(lib, p, Keys(h)[3]) == None;
  }

  /** A channel out of range fails it, if everything could be read. */
  lemma OutOfRangeRefused(lib: Library, methods: map<string, Handler>, m: Channels, now: Instant, req: Json,
                          name: string, h: Handler, id: int32)
    requires ReadsBack(lib) && AsksFor(methods, req, name, h) && h != GET_RELAYS
    requires HasKeys(ParamsIn(req), h) && AllRead(lib, ParamsIn(req), h, |Keys(h)|)
    requires RELAY_ID in ParamsIn(req).fields && lib.toInt(ParamsIn(req).fields[RELAY_ID]) == Got(id)
    requires id < 1 || id > 8
    ensures Dispatchable(req)
    ensures Refused(req, Single(lib, methods, m, now, req), -32602, lib.text(RelayIdOutOfRange))
  {
    Handled(lib, methods, m, now, req, name, h);
    OutOfRangeRejects(lib, ParamsIn(req), h, id);
    WrapFailure(lib, IdOf(req), -32602, lib.text(RelayIdOutOfRange));
  }

  // --- What is done ------------------------------------------------------------------------------

  /** A command whose parameters could be read, for a channel, is done. */
  lemma CommandDone(lib: Library, methods: map<string, Handler>, m: Channels, now: Instant, req: Json, name: string,
                    h: Handler, id: int32, cmd: Command)
    requires AsksFor(methods, req, name, h) && 1 <= id <= 8
    requires Decode(lib, h, ParamsIn(req)) == Perform(id, cmd, Failure(-32603, lib.text(CommandFailed(h))))
    ensures Dispatchable(req)
    ensures Single(lib, methods, m, now, req)
         == Reply([Timed(now, Commanded(id, cmd))], SuccessResponse(IdOf(req), Echo(id, cmd)))
  {
    Handled(lib, methods, m, now, req, name, h);
    WrapEcho(lib, IdOf(req), [Timed(now, Commanded(id, cmd))], id, cmd);
  }

  lemma SetRelayObeyed(lib: Library, methods: map<string, Handler>, m: Channels, now: Instant, req: Json, name: string,
                       id: int32, on: bool)
    requires AsksFor(methods, req, name, SET_RELAY) && ParamsIn(req).Obj? && 1 <= id <= 8
    requires var f := ParamsIn(req).fields;
             && RELAY_ID in f && lib.toInt(f[RELAY_ID]) == Got(id) && STATE in f && lib.toBool(f[STATE]) == Got(on)
    ensures Dispatchable(req)
    ensures Obeyed(req, Single(lib, methods, m, now, req), now, id, SetRelay(on), map[STATE := Bool(on)])
  {
    CommandDone(lib, methods, m, now, req, name, SET_RELAY, id, SetRelay(on));
    assert Echo(id, SetRelay(on)).fields == map[STATE := Bool(on)][RELAY_ID := Int(id)][SUCCESS := Bool(true)];
  }

  lemma StartTimerObeyed(lib: Library, methods: map<string, Handler>, m: Channels, now: Instant, req: Json,
                         name: string, id: int32, seconds: uint32)
    requires AsksFor(methods, req, name, START_TIMER) && ParamsIn(req).Obj? && 1 <= id <= 8
    requires var f := ParamsIn(req).fields;
             && RELAY_ID in f && lib.toInt(f[RELAY_ID]) == Got(id)
             && SECONDS in f && lib.toU32(f[SECONDS]) == Got(seconds)
    ensures Dispatchable(req)
    ensures Obeyed(req, Single(lib, methods, m, now, req), now, id, StartTimer(seconds), map[SECONDS := Int(seconds)])
  {
    CommandDone(lib, methods, m, now, req, name, START_TIMER, id, StartTimer(seconds));
    assert Echo(id, StartTimer(seconds)).fields
        == map[SECONDS := Int(seconds)][RELAY_ID := Int(id)][SUCCESS := Bool(true)];
  }

  lemma StartPulseObeyed(lib: Library, methods: map<string, Handler>, m: Channels, now: Instant, req: Json,
                         name: string, id: int32, ms: uint32)
    requires AsksFor(methods, req, name, START_PULSE) && ParamsIn(req).Obj? && 1 <= id <= 8
    requires var f := ParamsIn(req).fields;
             && RELAY_ID in f && lib.toInt(f[RELAY_ID]) == Got(id)
             && DURATION_MS in f && lib.toU32(f[DURATION_MS]) == Got(ms)
    ensures Dispatchable(req)
    ensures Obeyed(req, Single(lib, methods, m, now, req), now, id, StartPulse(ms), map[DURATION_MS := Int(ms)])
  {
    CommandDone(lib, methods, m, now, req, name, START_PULSE, id, StartPulse(ms));
    assert Echo(id, StartPulse(ms)).fields == map[DURATION_MS := Int(ms)][RELAY_ID := Int(id)][SUCCESS := Bool(true)];
  }

  lemma StartBlinkObeyed(lib: Library, methods: map<string, Handler>, m: Channels, now: Instant, req: Json,
                         name: string, id: int32, on: uint32, off: uint32, n: uint32)
    requires AsksFor(methods, req, name, START_BLINK) && ParamsIn(req).Obj? && 1 <= id <= 8
    requires var f := ParamsIn(req).fields;
             && RELAY_ID in f && lib.toInt(f[RELAY_ID]) == Got(id)
             && ON_MS in f && lib.toU32(f[ON_MS]) == Got(on)
             && OFF_MS in f && lib.toU32(f[OFF_MS]) == Got(off)
             && COUNT in f && lib.toU32(f[COUNT]) == Got(n)
    ensures Dispatchable(req)
    ensures Obeyed(req, Single(lib, methods, m, now, req), now, id, StartBlink(on, off, n),
                   map[ON_MS := Int(on), OFF_MS := Int(off), COUNT := Int(n)])
  {
    CommandDone(lib, methods, m, now, req, name, START_BLINK, id, StartBlink(on, off, n));
    assert Echo(id, StartBlink(on, off, n)).fields
        == map[ON_MS := Int(on), OFF_MS := Int(off), COUNT := Int(n)][RELAY_ID := Int(id)][SUCCESS := Bool(true)];
  }

  /** get_relays ignores its parameters and answers the states of all eight channels. */
  lemma GetRelaysAnswered(lib: Library, methods: map<string, Handler>, m: Channels, now: Instant, req: Json,
                          name: string) returns (fields: map<Name, Json>)
    requires AsksFor(methods, req, name, GET_RELAYS)
    ensures Dispatchable(req) && Answered(req, Single(lib, methods, m, now, req), [], fields)
    ensures forall key :: key in fields <==> key.NUMBER? && 1 <= key.n <= 8
    ensures forall id: int32 | 1 <= id <= 8 :: fields[NUMBER(id)] == Bool(m[id - 1].state)
  {
    fields := StatesTo(m, 8);
    SnapshotComplete(m, 8);
    Handled(lib, methods, m, now, req, name, GET_RELAYS);
  }

  /** get_relay_status answers the status of the channel asked for. */
  lemma GetRelayStatusAnswered(lib: Library, methods: map<string, Handler>, m: Channels, now: Instant, req: Json,
                               name: string, id: int32)
    requires AsksFor(methods, req, name, GET_RELAY_STATUS) && ParamsIn(req).Obj? && 1 <= id <= 8
    requires RELAY_ID in ParamsIn(req).fields && lib.toInt(ParamsIn(req).fields[RELAY_ID]) == Got(id)
    ensures Dispatchable(req)
    ensures Answered(req, Single(lib, methods, m, now, req), [],
                     map[RELAY_ID := Int(id), STATUS := Str(lib.show(StatusOf(m, id, now)))])
  {
    Handled(lib, methods, m, now, req, name, GET_RELAY_STATUS);
  }

  // --- And nothing else is -----------------------------------------------------------------------

  /** The command's values are what its parameters read as. */
  predicate ReadAs(lib: Library, h: Handler, p: Json, id: int, cmd: Command) {
    && p.Obj? && RELAY_ID in p.fields && lib.toInt(p.fields[RELAY_ID]) == Got(id) && 1 <= id <= 8
    && match cmd
       case SetRelay(on) => h == SET_RELAY && STATE in p.fields && lib.toBool(p.fields[STATE]) == Got(on)
       case StartTimer(seconds) =>
         h == START_TIMER && SECONDS in p.fields && lib.toU32(p.fields[SECONDS]) == Got(seconds)
       case StartPulse(ms) =>
         h == START_PULSE && DURATION_MS in p.fields && lib.toU32(p.fields[DURATION_MS]) == Got(ms)
       case StartBlink(on, off, n) =>
         && h == START_BLINK
         && ON_MS in p.fields && lib.toU32(p.fields[ON_MS]) == Got(on)
         && OFF_MS in p.fields && lib.toU32(p.fields[OFF_MS]) == Got(off)
         && COUNT in p.fields && lib.toU32(p.fields[COUNT]) == Got(n)
  }

  lemma PerformsAsRead(lib: Library, h: Handler, p: Json)
    ensures var a := Decode(lib, h, p); a.Perform? ==> ReadAs(lib, h, p, a.id, a.cmd)
  {
  }

  /** Whatever a request does to the controller is one command, for the method asked for, every value of which could be
      read from its parameters. */
  lemma CommandsWereRead(lib: Library, methods: map<string, Handler>, m: Channels, now: Instant, req: Json)
    requires Dispatchable(req)
    ensures var r := Single(lib, methods, m, now, req);
            r.events != [] ==>
              && r.events == [r.events[0]] && r.events[0].at == now && r.events[0].event.Commanded?
              && req.Obj? && METHOD in req.fields && req.fields[METHOD].Str?
              && var name := req.fields[METHOD].s;
              && Asks(req, name) && name in methods
              && ReadAs(lib, methods[name], ParamsIn(req), r.events[0].event.id, r.events[0].event.cmd)
  {
    var r := Single(lib, methods, m, now, req);
    if r.events != [] {
      var name := req.fields[METHOD].s;
      Handled(lib, methods, m, now, req, name, methods[name]);
      PerformsAsRead(lib, methods[name], ParamsIn(req));
      Outcomes(lib, methods[name], ParamsIn(req), m, now);
    }
  }
}
