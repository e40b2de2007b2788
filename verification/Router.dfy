/** JSON-RPC 2.0 dispatch: the router, the six method handlers registered at start-up, and batches. */
module Router {
  import opened Machine
  import opened Relay
  import opened Board
  import opened StatusQuery
  import opened Json

  function Registered(): map<string, Handler> {
    map["set_relay" := SET_RELAY, "get_relays" := GET_RELAYS, "start_timer" := START_TIMER,
        "start_pulse" := START_PULSE, "start_blink" := START_BLINK, "get_relay_status" := GET_RELAY_STATUS]
  }

  /** Six different names, the last for the status query. */
  lemma SixMethods()
    ensures |Registered()| == 6
    ensures "get_relay_status" in Registered() && Registered()["get_relay_status"] == GET_RELAY_STATUS
  {
    var names := ["set_relay", "get_relays", "start_timer", "start_pulse", "start_blink", "get_relay_status"];
    assert names[2][6] != names[3][6] && names[2][6] != names[4][6] && names[3][6] != names[4][6];
    assert |names[0]| == 9 && |names[1]| == 10 && |names[2]| == 11 && |names[5]| == 16;
  }

  // --- Responses ---------------------------------------------------------------------------------

  function ErrorResponse(id: Json, code: int, text: string): Json {
    Obj(map[JSONRPC := Str("2.0"), ERROR := Obj(map[CODE := Int(code), MESSAGE := Str(text)]), ID := id])
  }

  function SuccessResponse(id: Json, result: Json): Json {
    Obj(map[JSONRPC := Str("2.0"), RESULT := result, ID := id])
  }

  /** What a handler returns to report an error. */
  function Failure(code: int32, text: string): Json {
    Obj(map[CODE := Int(code), ERROR := Str(text)])
  }

  // --- Handlers ----------------------------------------------------------------------------------

  /** What a handler does once it has read its parameters. */
  datatype Action =
    | Reject(result: Json)
    | Throw(what: string)
    | Perform(id: int32, cmd: Command, failed: Json)
    | ReadAll
    | ReadStatus(channel: int32)

  function InRange(lib: Library, id: int32, action: Action): Action {
    if id < 1 || id > 8 then Reject(Failure(-32602, lib.text(RelayIdOutOfRange))) else action
  }

  /** The keys a method requires besides `relay_id`. */
  predicate HasParams(h: Handler, p: Json) {
    Has(p, RELAY_ID) &&
    match h
    case SET_RELAY => Has(p, STATE)
    case START_TIMER => Has(p, SECONDS)
    case START_PULSE => Has(p, DURATION_MS)
    case START_BLINK => Has(p, ON_MS) && Has(p, OFF_MS) && Has(p, COUNT)
    case _ => true
  }

  /** The typed reads of a command's own parameters, in the order of the source: the first bad one throws. */
  function ReadCommand(lib: Library, h: Handler, p: Json): Conv<Command>
    requires h != GET_RELAYS && h != GET_RELAY_STATUS && HasParams(h, p)
  {
    match h
    case SET_RELAY =>
      var state := lib.toBool(Get(p, STATE));
      if state.Bad? then Bad(state.what) else Got(SetRelay(state.value))
    case START_TIMER =>
      var seconds := lib.toU32(Get(p, SECONDS));
      if seconds.Bad? then Bad(seconds.what) else Got(StartTimer(seconds.value))
    case START_PULSE =>
      var ms := lib.toU32(Get(p, DURATION_MS));
      if ms.Bad? then Bad(ms.what) else Got(StartPulse(ms.value))
    case START_BLINK =>
      var on, off, n := lib.toU32(Get(p, ON_MS)), lib.toU32(Get(p, OFF_MS)), lib.toU32(Get(p, COUNT));
      if on.Bad? then Bad(on.what) else if off.Bad? then Bad(off.what) else if n.Bad? then Bad(n.what)
      else Got(StartBlink(on.value, off.value, n.value))
  }

  /** What a handler makes of its parameters: presence, then the channel, then the command, then the channel's range. */
  function Decode(lib: Library, h: Handler, p: Json): Action {
    if h == GET_RELAYS then ReadAll
    else if !HasParams(h, p) then Reject(Failure(-32602, lib.text(MissingParams(h))))
    else
      var id := lib.toInt(Get(p, RELAY_ID));
      if id.Bad? then Throw(id.what)
      else if h == GET_RELAY_STATUS then InRange(lib, id.value, ReadStatus(id.value))
      else
        var cmd := ReadCommand(lib, h, p);
        if cmd.Bad? then Throw(cmd.what)
        else InRange(lib, id.value, Perform(id.value, cmd.value, Failure(-32603, lib.text(CommandFailed(h)))))
  }

  /** The parameters of a command, as a client sends them and as a success result repeats them. */
  function Params(id: int32, cmd: Command): map<Name, Json> {
    match cmd
    case SetRelay(on) => map[RELAY_ID := Int(id), STATE := Bool(on)]
    case StartTimer(seconds) => map[RELAY_ID := Int(id), SECONDS := Int(seconds)]
    case StartPulse(ms) => map[RELAY_ID := Int(id), DURATION_MS := Int(ms)]
    case StartBlink(on, off, n) => map[RELAY_ID := Int(id), ON_MS := Int(on), OFF_MS := Int(off), COUNT := Int(n)]
  }

  function Echo(id: int32, cmd: Command): Json {
    Obj(Params(id, cmd)[SUCCESS := Bool(true)])
  }

  lemma EchoFields(id: int32, cmd: Command)
    ensures Echo(id, cmd) == Obj(
      match cmd
      case SetRelay(on) => map[SUCCESS := Bool(true), RELAY_ID := Int(id), STATE := Bool(on)]
      case StartTimer(seconds) => map[SUCCESS := Bool(true), RELAY_ID := Int(id), SECONDS := Int(seconds)]
      case StartPulse(ms) => map[SUCCESS := Bool(true), RELAY_ID := Int(id), DURATION_MS := Int(ms)]
      case StartBlink(on, off, n) =>
        map[SUCCESS := Bool(true), RELAY_ID := Int(id), ON_MS := Int(on), OFF_MS := Int(off), COUNT := Int(n)])
  {
  }

  /** The states of channels 1..k, under their printed numbers. */
  function StatesTo(m: Channels, k: int32): map<Name, Json>
    requires 0 <= k <= 8
  {
    if k == 0 then map[] else StatesTo(m, k - 1)[NUMBER(k) := Bool(m[k - 1].state)]
  }

  function Snapshot(m: Channels): Json {
    Obj(StatesTo(m, 8))
  }

  /** The answer to get_relays is one state of all eight channels, and nothing else. */
  lemma {:induction false} SnapshotComplete(m: Channels, k: int32)
    requires 0 <= k <= 8
    ensures forall key :: key in StatesTo(m, k) <==> key.NUMBER? && 1 <= key.n <= k
    ensures forall id: int32 | 1 <= id <= k :: StatesTo(m, k)[NUMBER(id)] == Bool(m[id - 1].state)
    decreases k
  {
    if k > 0 {
      SnapshotComplete(m, k - 1);
    }
  }

  datatype Outcome = Returned(events: seq<Timed>, result: Json) | Threw(what: string)

  /** A handler's call at time `now` on records `m`: the events it causes under the mutex, and its result. */
  function Invoke(lib: Library, h: Handler, p: Json, m: Channels, now: Instant): Outcome {
    match Decode(lib, h, p)
    case Reject(result) => Returned([], result)
    case Throw(what) => Threw(what)
    case Perform(id, cmd, failed) =>
      if IsChannel(id) then Returned([Timed(now, Commanded(id, cmd))], Echo(id, cmd)) else Returned([], failed)
    case ReadAll => Returned([], Snapshot(m))
    case ReadStatus(id) =>
      Returned([], Obj(map[RELAY_ID := Int(id), STATUS := Str(lib.show(StatusOf(m, id, now)))]))
  }

  // --- One request -------------------------------------------------------------------------------

  predicate GoodEnvelope(req: Json) {
    Has(req, JSONRPC) && Get(req, JSONRPC) == Str("2.0") && Has(req, METHOD)
  }

  /** `method`, when it is looked at, is a string: the source reads it outside its `try`. */
  predicate Dispatchable(req: Json) {
    GoodEnvelope(req) ==> Get(req, METHOD).Str?
  }

  function RequestId(req: Json): Json {
    if Has(req, ID) then Get(req, ID) else Null
  }

  datatype Reply = Reply(events: seq<Timed>, response: Json)

  /** How the router turns a handler's result into a response. A throw after the command was carried out would keep
      its events; the results the handlers build never cause one. */
  function Wrap(lib: Library, id: Json, outcome: Outcome): Reply {
    match outcome
    case Threw(what) => Reply([], ErrorResponse(id, -32603, lib.text(ExceptionInHandler(what))))
    case Returned(events, result) =>
      if Has(result, ERROR) && Has(result, CODE) then
        var code := lib.toInt(Get(result, CODE));
        if code.Bad? then Reply(events, ErrorResponse(id, -32603, lib.text(ExceptionInHandler(code.what))))
        else if !Get(result, ERROR).Str?
        then Reply(events, ErrorResponse(id, -32603, lib.text(ExceptionInHandler("type_error"))))
        else Reply(events, ErrorResponse(id, code.value, Get(result, ERROR).s))
      else Reply(events, SuccessResponse(id, result))
  }

  function Single(lib: Library, methods: map<string, Handler>, m: Channels, now: Instant, req: Json): Reply
    requires Dispatchable(req)
  {
    var id := RequestId(req);
    if !GoodEnvelope(req) then Reply([], ErrorResponse(id, -32600, lib.text(BadEnvelope)))
    else
      var name := Get(req, METHOD).s;
      if name !in methods then Reply([], ErrorResponse(id, -32601, lib.text(MethodNotFound(name))))
      else Wrap(lib, id, Invoke(lib, methods[name], if Has(req, PARAMS) then Get(req, PARAMS) else Obj(map[]), m, now))
  }

  lemma WrapEcho(lib: Library, id: Json, events: seq<Timed>, channel: int32, cmd: Command)
    ensures Wrap(lib, id, Returned(events, Echo(channel, cmd)))
         == Reply(events, SuccessResponse(id, Echo(channel, cmd)))
  {
    assert !Has(Echo(channel, cmd), ERROR);
  }

  lemma WrapFailure(lib: Library, id: Json, code: int32, text: string)
    requires ReadsBack(lib)
    ensures Wrap(lib, id, Returned([], Failure(code, text))) == Reply([], ErrorResponse(id, code, text))
  {
  }

  predicate IsError(response: Json) {
    Has(response, ERROR)
  }

  /** The handlers' own range check implies the controller's: what they pass on is always a channel. */
  lemma PerformsOnChannels(lib: Library, h: Handler, p: Json)
    ensures Decode(lib, h, p).Perform? ==> IsChannel(Decode(lib, h, p).id)
  {
  }

  /** What a handler causes and returns: nothing and an error object, one command and its echo, or nothing and data. */
  lemma Outcomes(lib: Library, h: Handler, p: Json, m: Channels, now: Instant)
    ensures var a, o := Decode(lib, h, p), Invoke(lib, h, p, m, now);
            && (a.Throw? <==> o.Threw?)
            && (a.Perform? ==> o == Returned([Timed(now, Commanded(a.id, a.cmd))], Echo(a.id, a.cmd)))
            && (!a.Throw? && !a.Perform? ==> o.events == [])
            && (o.Returned? && Has(o.result, ERROR) ==> exists text: string :: o == Returned([], Failure(-32602, text)))
  {
    PerformsOnChannels(lib, h, p);
    SnapshotComplete(m, 8);
  }

  ghost predicate CarriedOut(e: Timed, now: Instant, req: Json, response: Json) {
    && e.at == now && e.event.Commanded? && IsChannel(e.event.id)
    && response == SuccessResponse(RequestId(req), Echo(e.event.id, e.event.cmd))
  }

  /** A failed request, for whatever reason, left the controller unchanged; a request that changed it did exactly one
      command, answered with exactly the values passed to the controller; and the answer carries the request's id
      (or null) and either an error or a result. */
  lemma FailedRequestsChangeNothing(lib: Library, methods: map<string, Handler>, m: Channels, now: Instant, req: Json)
    requires Dispatchable(req)
    ensures var r := Single(lib, methods, m, now, req);
            && (IsError(r.response) ==> r.events == [])
            && (r.events != [] ==> |r.events| == 1 && CarriedOut(r.events[0], now, req, r.response))
            && Has(r.response, ID) && Get(r.response, ID) == RequestId(req)
            && (Has(r.response, RESULT) <==> !IsError(r.response))
  {
    if GoodEnvelope(req) && Get(req, METHOD).s in methods {
      var h := methods[Get(req, METHOD).s];
      var p := if Has(req, PARAMS) then Get(req, PARAMS) else Obj(map[]);
      PerformsOnChannels(lib, h, p);
      Outcomes(lib, h, p, m, now);
    }
  }

  /** The answers "Failed to ..." do not exist: the only internal errors are exceptions of the typed reads. */
  lemma InternalErrorsAreExceptions(lib: Library, h: Handler, p: Json, m: Channels, now: Instant, id: Json,
                                    text: string)
    requires ReadsBack(lib)
    requires Wrap(lib, id, Invoke(lib, h, p, m, now)).response == ErrorResponse(id, -32603, text)
    ensures Decode(lib, h, p).Throw? && text == lib.text(ExceptionInHandler(Decode(lib, h, p).what))
  {
    Outcomes(lib, h, p, m, now);
    var r := Wrap(lib, id, Invoke(lib, h, p, m, now)).response;
    assert Get(Get(r, ERROR), CODE) == Int(-32603) && Get(Get(r, ERROR), MESSAGE) == Str(text);
  }

  // --- Documents: single requests and batches ----------------------------------------------------

  /** What other threads do under the mutex before a request gets its turn, and the time of that turn. */
  datatype Slot = Slot(others: seq<Timed>, at: Instant)

  datatype Replies = Replies(events: seq<Timed>, responses: seq<Json>)

  /** The first k elements of a batch, element i taking its turn at slot `base + i`. */
  function Batch(lib: Library, methods: map<string, Handler>, m: Channels, items: seq<Json>, env: nat -> Slot,
                 base: nat, k: nat): Replies
    requires k <= |items| && forall i | 0 <= i < |items| :: Dispatchable(items[i])
    decreases k
  {
    if k == 0 then Replies([], [])
    else
      var done := Batch(lib, methods, m, items, env, base, k - 1);
      var slot := env(base + k - 1);
      var events := done.events + slot.others;
      var r := Single(lib, methods, Run(m, events), slot.at, items[k - 1]);
      Replies(events + r.events, done.responses + [r.response])
  }

  predicate Acceptable(doc: Json) {
    if doc.Arr? then forall i | 0 <= i < |doc.items| :: Dispatchable(doc.items[i]) else Dispatchable(doc)
  }

  /** All events from the document's arrival to its last turn, and the answer; `processRequest` answers every one. */
  function Process(lib: Library, methods: map<string, Handler>, m: Channels, doc: Json, env: nat -> Slot,
                   base: nat): Reply
    requires Acceptable(doc)
  {
    if doc.Arr? then
      if doc.items == [] then Reply([], ErrorResponse(Null, -32600, lib.text(EmptyBatch)))
      else
        var b := Batch(lib, methods, m, doc.items, env, base, |doc.items|);
        Reply(b.events, Arr(b.responses))
    else
      var slot := env(base);
      var r := Single(lib, methods, Run(m, slot.others), slot.at, doc);
      Reply(slot.others + r.events, r.response)
  }

  /** The first k of `docs` sent one by one, document i taking its turn at slot i. */
  function Sequence(lib: Library, methods: map<string, Handler>, m: Channels, docs: seq<Json>, env: nat -> Slot,
                    k: nat): Replies
    requires k <= |docs| && forall i | 0 <= i < |docs| :: Acceptable(docs[i])
    decreases k
  {
    if k == 0 then Replies([], [])
    else
      var done := Sequence(lib, methods, m, docs, env, k - 1);
      var r := Process(lib, methods, Run(m, done.events), docs[k - 1], env, k - 1);
      Replies(done.events + r.events, done.responses + [r.response])
  }

  lemma {:induction false} OneByOne(lib: Library, methods: map<string, Handler>, m: Channels, items: seq<Json>,
                                    env: nat -> Slot, k: nat)
    requires k <= |items|
    requires forall i | 0 <= i < |items| :: Acceptable(items[i]) && Dispatchable(items[i]) && !items[i].Arr?
    ensures Batch(lib, methods, m, items, env, 0, k) == Sequence(lib, methods, m, items, env, k)
    decreases k
  {
    if k > 0 {
      OneByOne(lib, methods, m, items, env, k - 1);
      var done, slot := Sequence(lib, methods, m, items, env, k - 1), env(k - 1);
      FoldConcat(Step, m, done.events, slot.others);
      var r := Single(lib, methods, Run(m, done.events + slot.others), slot.at, items[k - 1]);
      Assoc(done.events, slot.others, r.events);
    }
  }

  /** `r` answers element `req` of a batch: it carries its id or null, and an array is an invalid request. */
  ghost predicate Answers(lib: Library, req: Json, r: Json) {
    Has(r, ID) && Get(r, ID) == RequestId(req)
    && (req.Arr? ==> r == ErrorResponse(Null, -32600, lib.text(BadEnvelope)))
  }

  lemma SingleAnswers(lib: Library, methods: map<string, Handler>, m: Channels, now: Instant, req: Json)
    requires Dispatchable(req)
    ensures Answers(lib, req, Single(lib, methods, m, now, req).response)
  {
    FailedRequestsChangeNothing(lib, methods, m, now, req);
  }

  /** An array sent alone is a batch of its own. */
  ghost predicate AnswersAlone(lib: Library, doc: Json, r: Json) {
    doc.Arr? ==> r.Arr? || r == ErrorResponse(Null, -32600, lib.text(EmptyBatch))
  }

  lemma ProcessAnswersAlone(lib: Library, methods: map<string, Handler>, m: Channels, doc: Json, env: nat -> Slot)
    requires Acceptable(doc)
    ensures forall base :: AnswersAlone(lib, doc, Process(lib, methods, m, doc, env, base).response)
  {
  }

  /** The responses so far are as many as the requests, each `good` for its own. */
  ghost predicate Each(good: (Json, Json) -> bool, reqs: seq<Json>, rs: seq<Json>, k: nat) {
    |rs| == k <= |reqs| && forall i | 0 <= i < k :: good(reqs[i], rs[i])
  }

  lemma OneMore(good: (Json, Json) -> bool, reqs: seq<Json>, rs: seq<Json>, k: nat, r: Json)
    requires k < |reqs| && Each(good, reqs, rs, k) && good(reqs[k], r)
    ensures Each(good, reqs, rs + [r], k + 1)
  {
  }

  /** One response for each element, in order, each answering its element. */
  lemma {:induction false} BatchResponses(lib: Library, methods: map<string, Handler>, m: Channels, items: seq<Json>,
                                          env: nat -> Slot, base: nat, k: nat)
    requires k <= |items| && forall i | 0 <= i < |items| :: Dispatchable(items[i])
    ensures Each((req, r) => Answers(lib, req, r), items, Batch(lib, methods, m, items, env, base, k).responses, k)
    decreases k
  {
    if k > 0 {
      BatchResponses(lib, methods, m, items, env, base, k - 1);
      var done, slot := Batch(lib, methods, m, items, env, base, k - 1), env(base + k - 1);
      var r := Single(lib, methods, Run(m, done.events + slot.others), slot.at, items[k - 1]);
      SingleAnswers(lib, methods, Run(m, done.events + slot.others), slot.at, items[k - 1]);
      OneMore((req, r) => Answers(lib, req, r), items, done.responses, k - 1, r.response);
    }
  }

  lemma {:induction false} SequenceResponses(lib: Library, methods: map<string, Handler>, m: Channels, docs: seq<Json>,
                                             env: nat -> Slot, k: nat)
    requires k <= |docs| && forall i | 0 <= i < |docs| :: Acceptable(docs[i])
    ensures Each((doc, r) => AnswersAlone(lib, doc, r), docs, Sequence(lib, methods, m, docs, env, k).responses, k)
    decreases k
  {
    if k > 0 {
      SequenceResponses(lib, methods, m, docs, env, k - 1);
      var done := Sequence(lib, methods, m, docs, env, k - 1);
      var r := Process(lib, methods, Run(m, done.events), docs[k - 1], env, k - 1);
      ProcessAnswersAlone(lib, methods, Run(m, done.events), docs[k - 1], env);
      OneMore((doc, r) => AnswersAlone(lib, doc, r), docs, done.responses, k - 1, r.response);
    }
  }

  /** An array element gets another answer in a batch than alone. */
  lemma ArrayAnswersDiffer(lib: Library, doc: Json, r: Json, alone: Json)
    requires OwnTexts(lib) && doc.Arr? && Answers(lib, doc, r) && AnswersAlone(lib, doc, alone)
    ensures r != alone
  {
    assert Text(BadEnvelope)[17] != Text(EmptyBatch)[17];
    assert Get(Get(r, ERROR), MESSAGE) == Str(Text(BadEnvelope));
    assert alone.Obj? ==> Get(Get(alone, ERROR), MESSAGE) == Str(Text(EmptyBatch));
  }

  lemma ArrayElementDiffers(lib: Library, methods: map<string, Handler>, m: Channels, items: seq<Json>,
                            env: nat -> Slot, i: nat)
    requires OwnTexts(lib) && i < |items| && items[i].Arr?
    requires forall i | 0 <= i < |items| :: Dispatchable(items[i]) && Acceptable(items[i])
    ensures Batch(lib, methods, m, items, env, 0, |items|).responses
         != Sequence(lib, methods, m, items, env, |items|).responses
  {
    BatchResponses(lib, methods, m, items, env, 0, |items|);
    SequenceResponses(lib, methods, m, items, env, |items|);
    ArrayAnswersDiffer(lib, items[i], Batch(lib, methods, m, items, env, 0, |items|).responses[i],
                       Sequence(lib, methods, m, items, env, |items|).responses[i]);
  }

  /** Section 6 of JSON-RPC 2.0: a batch causes the same events and yields the same responses as its elements sent
      one by one at the same times among the same other events, if and only if no element is itself an array (an
      array element is an invalid request in a batch, but a batch of its own when sent alone). */
  lemma BatchEqualsSequence(lib: Library, methods: map<string, Handler>, m: Channels, items: seq<Json>,
                            env: nat -> Slot)
    requires OwnTexts(lib)
    requires items != [] && forall i | 0 <= i < |items| :: Dispatchable(items[i]) && Acceptable(items[i])
    ensures var b := Process(lib, methods, m, Arr(items), env, 0);
            var q := Sequence(lib, methods, m, items, env, |items|);
            b == Reply(q.events, Arr(q.responses)) <==> forall i | 0 <= i < |items| :: !items[i].Arr?
  {
    if i :| 0 <= i < |items| && items[i].Arr? {
      ArrayElementDiffers(lib, methods, m, items, env, i);
    } else {
      OneByOne(lib, methods, m, items, env, |items|);
    }
  }

  /** The smallest case: the batch `[[]]` answers that its element is no request, `[]` sent alone that it is an empty
      batch. */
  lemma NestedBatch(lib: Library, methods: map<string, Handler>, m: Channels, env: nat -> Slot)
    requires OwnTexts(lib)
    ensures var b := Process(lib, methods, m, Arr([Arr([])]), env, 0).response;
            var q := Sequence(lib, methods, m, [Arr([])], env, 1).responses;
            && b == Arr([ErrorResponse(Null, -32600, lib.text(BadEnvelope))])
            && q == [ErrorResponse(Null, -32600, lib.text(EmptyBatch))]
            && b != Arr(q)
  {
    var items := [Arr([])];
    BatchResponses(lib, methods, m, items, env, 0, 1);
    SequenceResponses(lib, methods, m, items, env, 1);
    var r := Batch(lib, methods, m, items, env, 0, 1).responses;
    var alone := Sequence(lib, methods, m, items, env, 1).responses;
    assert r == [r[0]] && alone == [alone[0]];
    ArrayAnswersDiffer(lib, items[0], r[0], alone[0]);
    assert Process(lib, methods, m, items[0], env, 0).response == ErrorResponse(Null, -32600, lib.text(EmptyBatch));
  }
}
