/** A connection's handler thread, byte for byte: what it reads, hands to the router and writes back. */
module Connection {
  import opened Machine
  import opened Board
  import opened Framing
  import opened Json
  import opened Router
  import opened Dispatch
  import opened Client
  import opened Calls

  /** The router can take this line: if it parses, every `method` it will look at is a string. */
  predicate Servable(lib: Library, line: seq<byte>) {
    var doc := lib.parse(line);
    doc.Got? ==> Acceptable(doc.value)
  }

  predicate AllServable(lib: Library, lines: seq<seq<byte>>) {
    forall line | line in lines :: Servable(lib, line)
  }

  /** The events and the answer of one line. */
  function LineReply(lib: Library, methods: map<string, Handler>, m: Channels, line: seq<byte>, env: nat -> Slot): Reply
    requires Servable(lib, line)
  {
    match lib.parse(line)
    case Bad(what) => Reply([], ErrorResponse(Null, -32700, lib.text(ParseError(what))))
    case Got(doc) => Process(lib, methods, m, doc, env, 0)
  }

  /** What the router makes of a line; it is asked only about lines it can take. */
  function Serve(lib: Library, methods: map<string, Handler>): (Channels, seq<byte>, nat -> Slot) -> Reply {
    (m: Channels, line: seq<byte>, env: nat -> Slot) =>
      if Servable(lib, line) then LineReply(lib, methods, m, line, env) else Reply([], Null)
  }

  /** The first k of these lines served in order; what other threads do meanwhile is `env`, line by line. */
  function Served(serve: (Channels, seq<byte>, nat -> Slot) -> Reply, m: Channels, lines: seq<seq<byte>>,
                  env: nat -> nat -> Slot, k: nat): (replies: Replies)
    requires k <= |lines|
    ensures |replies.responses| == k
    decreases k
  {
    if k == 0 then Replies([], [])
    else
      var done := Served(serve, m, lines, env, k - 1);
      var r := serve(Run(m, done.events), lines[k - 1], env(k - 1));
      Replies(done.events + r.events, done.responses + [r.response])
  }

  lemma ServedLast(serve: (Channels, seq<byte>, nat -> Slot) -> Reply, m: Channels, lines: seq<seq<byte>>,
                   env: nat -> nat -> Slot, k: nat)
    requires k < |lines|
    ensures var done := Served(serve, m, lines, env, k);
            var r := serve(Run(m, done.events), lines[k], env(k));
            Served(serve, m, lines, env, k + 1) == Replies(done.events + r.events, done.responses + [r.response])
  {
  }

  lemma {:induction false} ServedKept(serve: (Channels, seq<byte>, nat -> Slot) -> Reply, m: Channels,
                                      lines: seq<seq<byte>>, line: seq<byte>, env: nat -> nat -> Slot, k: nat)
    requires k <= |lines|
    ensures Served(serve, m, lines + [line], env, k) == Served(serve, m, lines, env, k)
    decreases k
  {
    if k > 0 {
      ServedKept(serve, m, lines, line, env, k - 1);
    }
  }

  ghost predicate SameAnswer(serve: (Channels, seq<byte>, nat -> Slot) -> Reply, m: Channels, lines: seq<seq<byte>>,
                             env: nat -> nat -> Slot, i: nat, n: nat)
    requires i < n <= |lines|
  {
    Served(serve, m, lines, env, n).responses[i] == Served(serve, m, lines, env, i + 1).responses[i]
  }

  /** What a line is answered does not depend on the lines after it. */
  lemma {:induction false} AnswerFixed(serve: (Channels, seq<byte>, nat -> Slot) -> Reply, m: Channels,
                                       lines: seq<seq<byte>>, env: nat -> nat -> Slot, i: nat, n: nat)
    requires i < n <= |lines|
    ensures SameAnswer(serve, m, lines, env, i, n)
    decreases n
  {
    if i + 1 < n {
      AnswerFixed(serve, m, lines, env, i, n - 1);
    }
  }

  lemma ServedOneMore(serve: (Channels, seq<byte>, nat -> Slot) -> Reply, m: Channels, lines: seq<seq<byte>>,
                      line: seq<byte>, env: nat -> nat -> Slot)
    ensures var done := Served(serve, m, lines, env, |lines|);
            var r := serve(Run(m, done.events), line, env(|lines|));
            && Served(serve, m, lines + [line], env, |lines| + 1)
            == Replies(done.events + r.events, done.responses + [r.response])
  {
    ServedKept(serve, m, lines, line, env, |lines|);
  }

  /** What has been written when the first `n` answers have been sent. */
  function Sent(lib: Library, responses: seq<Json>, n: nat): seq<byte>
    requires n <= |responses|
  {
    Join(Dumps(lib, responses[..n]))
  }

  lemma SentOneMore(lib: Library, responses: seq<Json>, response: Json)
    ensures Sent(lib, responses + [response], |responses| + 1)
         == Sent(lib, responses, |responses|) + lib.dump(response) + [LF]
  {
    var d := Dumps(lib, responses);
    assert responses[..|responses|] == responses;
    assert (responses + [response])[..|responses| + 1] == responses + [response];
    assert Dumps(lib, responses + [response]) == d + [lib.dump(response)];
    JoinConcat(d, [lib.dump(response)]);
    JoinCons(lib.dump(response), []);
  }

  lemma SentKept(lib: Library, responses: seq<Json>, response: Json, n: nat)
    requires n <= |responses|
    ensures Sent(lib, responses + [response], n) == Sent(lib, responses, n)
  {
    assert (responses + [response])[..n] == responses[..n];
  }

  // --- The handler thread ------------------------------------------------------------------------

  /** How far a handler thread has come: the lines it has handed to the router, how many answers it has sent, the bytes
      it has written, and at how many more of its reads `m_running` will be found set (once cleared it stays so). */
  datatype Progress = Progress(handed: seq<seq<byte>>, sent: nat, written: seq<byte>, runs: nat)

  /** The answers to the first lines handed over are written, to all unless `m_running` was found cleared. */
  ghost predicate Written(lib: Library, p: Progress, responses: seq<Json>) {
    && p.sent <= |p.handed| == |responses|
    && p.written == Sent(lib, responses, p.sent)
    && (p.sent < |p.handed| ==> p.runs == 0)
  }

  /** From records `m` and log `w` on, the controller has come to these records and this log by what the lines handed
      over ask, and their answers are written. */
  ghost predicate KeptBy(lib: Library, serve: (Channels, seq<byte>, nat -> Slot) -> Reply, env: nat -> nat -> Slot,
                         m: Channels, w: seq<Write>, p: Progress, states: Channels, writes: seq<Write>) {
    && var done := Served(serve, m, p.handed, env, |p.handed|);
    && states == Run(m, done.events)
    && writes == w + Writes(m, done.events)
    && Written(lib, p, done.responses)
  }

  ghost predicate Kept(router: JsonRpcRouter, env: nat -> nat -> Slot, m: Channels, w: seq<Write>, p: Progress)
    reads router, router.controller, router.controller.hw
  {
    && router.controller.hw.Valid()
    && KeptBy(router.lib, Serve(router.lib, router.methods), env, m, w, p,
              router.controller.relayStates, router.controller.hw.writes)
  }

  /** After one more line, whose answer is sent if `m_running` is still set. */
  function Further(lib: Library, p: Progress, line: seq<byte>, response: Json): Progress {
    if p.runs > 0
    then Progress(p.handed + [line], p.sent + 1, p.written + (lib.dump(response) + [LF]), p.runs - 1)
    else p.(handed := p.handed + [line])
  }

  lemma WrittenFurther(lib: Library, p: Progress, line: seq<byte>, responses: seq<Json>, response: Json)
    requires Written(lib, p, responses)
    ensures Written(lib, Further(lib, p, line, response), responses + [response])
  {
    if p.runs > 0 {
      SentOneMore(lib, responses, response);
      Assoc(p.written, lib.dump(response), [LF]);
    } else {
      SentKept(lib, responses, response, p.sent);
    }
  }

  lemma OneLineFurther(lib: Library, serve: (Channels, seq<byte>, nat -> Slot) -> Reply, env: nat -> nat -> Slot,
                       m: Channels, w: seq<Write>, p: Progress, states: Channels, writes: seq<Write>,
                       line: seq<byte>, r: Reply)
    requires KeptBy(lib, serve, env, m, w, p, states, writes) && r == serve(states, line, env(|p.handed|))
    ensures KeptBy(lib, serve, env, m, w, Further(lib, p, line, r.response),
                   Run(states, r.events), writes + Writes(states, r.events))
  {
    var done := Served(serve, m, p.handed, env, |p.handed|);
    ServedOneMore(serve, m, p.handed, line, env);
    RunsCompose(m, w, done.events, r.events);
    WrittenFurther(lib, p, line, done.responses, r.response);
  }

  /** One line: if it is a request, it is handed over, and answered if `m_running` is still set. */
  method ServeLine(router: JsonRpcRouter, line: seq<byte>, env: nat -> nat -> Slot, p: Progress,
                   ghost m: Channels, ghost w: seq<Write>) returns (p': Progress)
    requires Kept(router, env, m, w, p) && (IsRequest(line) ==> Servable(router.lib, line))
    modifies router.controller, router.controller.hw
    ensures Kept(router, env, m, w, p')
    ensures p'.handed == if line == [] || line == [13] then p.handed else p.handed + [line]
    ensures p'.sent + p'.runs == p.sent + p.runs
    ensures router.controller.hw.requested == old(router.controller.hw.requested)
  {
    if line == [] || line == [CR] {
      return p;
    }
    ghost var states, writes := router.controller.relayStates, router.controller.hw.writes;
    ghost var r := Serve(router.lib, router.methods)(states, line, env(|p.handed|));
    var text, events := router.ProcessRequest(line, env(|p.handed|));
    OneLineFurther(router.lib, Serve(router.lib, router.methods), env, m, w, p, states, writes, line, r);
    p' := p.(handed := p.handed + [line]);
    if p.runs > 0 {
      p' := p'.(sent := p.sent + 1, written := p.written + text, runs := p.runs - 1);
    }
    assert p' == Further(router.lib, p, line, r.response);
  }

  /** The buffer as lines that have been cut off its front, and what is left. */
  ghost predicate CutInto(buffer: seq<byte>, cut: seq<seq<byte>>, left: seq<byte>) {
    Lines(buffer) == cut + Lines(left) && Tail(buffer) == Tail(left)
  }

  lemma CutOne(buffer: seq<byte>, cut: seq<seq<byte>>, line: seq<byte>, left: seq<byte>)
    requires CutInto(buffer, cut, line + [LF] + left) && LF !in line
    ensures CutInto(buffer, cut + [line], left)
    ensures Requests(cut + [line]) == if IsRequest(line) then Requests(cut) + [line] else Requests(cut)
    ensures IsRequest(line) ==> line in Requests(Lines(buffer))
  {
    LinesCons(line, left);
    Assoc(cut, [line], Lines(left));
    assert (cut + [line])[..|cut|] == cut;
    RequestsConcat(cut + [line], Lines(left));
  }

  lemma CutAll(buffer: seq<byte>, cut: seq<seq<byte>>, left: seq<byte>)
    requires CutInto(buffer, cut, left) && LF !in left
    ensures cut == Lines(buffer) && left == Tail(buffer)
  {
    NoLF(left);
    assert cut + [] == cut;
  }

  /** The inner loop: requests are cut off the front of the buffer and served while it holds a newline. */
  method ServeBuffer(router: JsonRpcRouter, buffer: seq<byte>, env: nat -> nat -> Slot, p: Progress,
                     ghost m: Channels, ghost w: seq<Write>) returns (p': Progress, requestBuffer: seq<byte>)
    requires Kept(router, env, m, w, p) && AllServable(router.lib, Requests(Lines(buffer)))
    modifies router.controller, router.controller.hw
    ensures Kept(router, env, m, w, p') && p'.handed == p.handed + Requests(Lines(buffer))
    ensures p'.sent + p'.runs == p.sent + p.runs
    ensures requestBuffer == Tail(buffer)
    ensures router.controller.hw.requested == old(router.controller.hw.requested)
  {
    p', requestBuffer := p, buffer;
    ghost var cut: seq<seq<byte>> := [];
    assert cut + Lines(buffer) == Lines(buffer);
    var newlinePos := FindLF(requestBuffer);
    while newlinePos < |requestBuffer|
      invariant newlinePos == FindLF(requestBuffer)
      invariant CutInto(buffer, cut, requestBuffer)
      invariant Kept(router, env, m, w, p') && p'.handed == p.handed + Requests(cut)
      invariant p'.sent + p'.runs == p.sent + p.runs
      invariant router.controller.hw.requested == old(router.controller.hw.requested)
      decreases |requestBuffer|
    {
      var rawRequest := requestBuffer[..newlinePos];
      CutFirst(requestBuffer, newlinePos);
      requestBuffer := requestBuffer[newlinePos + 1..];
      CutOne(buffer, cut, rawRequest, requestBuffer);
      Assoc(p.handed, Requests(cut), [rawRequest]);
      p' := ServeLine(router, rawRequest, env, p', m, w);
      cut := cut + [rawRequest];
      newlinePos := FindLF(requestBuffer);
    }
    assert requestBuffer[..newlinePos] == requestBuffer;
    CutAll(buffer, cut, requestBuffer);
  }

  lemma ServablePrefix(lib: Library, stream: seq<byte>, chunk: seq<byte>, rest: seq<byte>)
    requires AllServable(lib, Requests(Lines(stream + (chunk + rest))))
    ensures AllServable(lib, Requests(Lines(Tail(stream) + chunk)))
  {
    Assoc(stream, chunk, rest);
    OneMoreChunk(stream + chunk, rest);
    OneMoreChunk(stream, chunk);
  }

  lemma ReceivedSplit(chunks: seq<seq<byte>>, i: nat)
    requires i <= |chunks| && Full(chunks[..i])
    ensures Received(chunks) == Received(chunks[..i]) + Received(chunks[i..])
  {
    assert chunks == chunks[..i] + chunks[i..];
    ReceivedConcat(chunks[..i], chunks[i..]);
  }

  lemma AllReceived(chunks: seq<seq<byte>>, i: nat)
    requires i <= |chunks| && (i < |chunks| ==> chunks[i] == []) && Full(chunks[..i])
    ensures Received(chunks[..i]) == Received(chunks)
  {
    ReceivedSplit(chunks, i);
    assert Received(chunks[..i]) + [] == Received(chunks[..i]);
  }

  lemma ReceiveOne(chunks: seq<seq<byte>>, i: nat)
    requires i < |chunks| && chunks[i] != [] && Full(chunks[..i])
    ensures Full(chunks[..i + 1]) && Received(chunks[..i + 1]) == Received(chunks[..i]) + chunks[i]
  {
    assert chunks[..i + 1] == chunks[..i] + [chunks[i]];
    ReceivedLast(chunks[..i], chunks[i]);
  }

  /** One more chunk: what is received so far, what it adds, and that it can be served. */
  lemma OneMoreReceived(lib: Library, chunks: seq<seq<byte>>, i: nat)
    requires i < |chunks| && chunks[i] != [] && Full(chunks[..i])
    requires AllServable(lib, Requests(Lines(Received(chunks))))
    ensures Full(chunks[..i + 1])
    ensures var before, after := Received(chunks[..i]), Received(chunks[..i + 1]);
            && Requests(Lines(after)) == Requests(Lines(before)) + Requests(Lines(Tail(before) + chunks[i]))
            && Tail(after) == Tail(Tail(before) + chunks[i])
            && AllServable(lib, Requests(Lines(Tail(before) + chunks[i])))
  {
    var before, rest := Received(chunks[..i]), Received(chunks[i + 1..]);
    ReceiveOne(chunks, i);
    ReceivedSplit(chunks, i + 1);
    OneMoreChunk(before, chunks[i]);
    Assoc(before, chunks[i], rest);
    ServablePrefix(lib, before, chunks[i], rest);
  }

  /** The read loop of a connection handler, over what successive `recv` calls return (an empty chunk stands for a
      closed or failed connection) until `m_running` is found cleared, at its read number `runs` if the connection lasts
      so long. However the stream is cut, the lines handed to the router are exactly the terminated ones of what was
      received, but for the empty and lone-CR ones; the unterminated tail stays in the buffer; the controller goes
      through what they ask, in order; and the bytes written back are the answers to them, in order, one line each: to
      all, unless `m_running` was found cleared. */
  method HandleClient(router: JsonRpcRouter, chunks: seq<seq<byte>>, runs: nat, env: nat -> nat -> Slot)
    returns (p: Progress, requestBuffer: seq<byte>, ghost n: nat)
    requires router.controller.hw.Valid() && AllServable(router.lib, Requests(Lines(Received(chunks))))
    modifies router.controller, router.controller.hw
    ensures n <= |chunks| && p.handed == Requests(Lines(Received(chunks[..n])))
    ensures requestBuffer == Tail(Received(chunks[..n]))
    ensures var lines := Lines(Received(chunks[..n]));
            KeepsAll(lines, p.handed)
    ensures Kept(router, env, old(router.controller.relayStates), old(router.controller.hw.writes), p)
    ensures n + p.sent <= runs
    ensures n + p.sent < runs ==> p.sent == |p.handed| && Received(chunks[..n]) == Received(chunks)
  {
    ghost var m, w := router.controller.relayStates, router.controller.hw.writes;
    p, requestBuffer := Progress([], 0, [], runs), [];
    assert w + [] == w;
    var i := 0;
    while p.runs > 0
      invariant 0 <= i <= |chunks|
      invariant Full(chunks[..i])
      invariant Kept(router, env, m, w, p)
      invariant p.handed == Requests(Lines(Received(chunks[..i]))) && requestBuffer == Tail(Received(chunks[..i]))
      invariant i + p.sent + p.runs == runs
      decreases |chunks| - i
    {
      p := p.(runs := p.runs - 1);
      if i == |chunks| || chunks[i] == [] {
        AllReceived(chunks, i);
        break;
      }
      OneMoreReceived(router.lib, chunks, i);
      p, requestBuffer := ServeBuffer(router, requestBuffer + chunks[i], env, p, m, w);
      i := i + 1;
    }
    n := i;
    RequestsKept(Lines(Received(chunks[..n])));
  }

  // --- A client's conversation with it -----------------------------------------------------------

  /** The requests of a client's first calls, which number them 1, 2, 3, ... */
  function RequestsOf(calls: seq<Call>): seq<Json>
    requires |calls| < 0x7FFF_FFFF
  {
    seq(|calls|, i requires 0 <= i < |calls| => Request(calls[i], i + 1))
  }

  lemma LineOfCall(lib: Library, calls: seq<Call>, i: nat)
    requires i < |calls| < 0x7FFF_FFFF && PrintAsLines(lib, RequestsOf(calls))
    ensures Dumps(lib, RequestsOf(calls))[i] == lib.dump(Request(calls[i], i + 1))
    ensures PrintsAsLine(lib, Request(calls[i], i + 1))
  {
    assert RequestsOf(calls)[i] == Request(calls[i], i + 1);
  }

  lemma RequestServable(lib: Library, call: Call, id: int32)
    requires PrintsAsLine(lib, Request(call, id))
    ensures Servable(lib, lib.dump(Request(call, id)))
  {
    RequestRouted(lib, Initial(), 0, call, id);
  }

  lemma RequestsServable(lib: Library, calls: seq<Call>)
    requires |calls| < 0x7FFF_FFFF && PrintAsLines(lib, RequestsOf(calls))
    ensures AllServable(lib, Dumps(lib, RequestsOf(calls)))
  {
    forall line | line in Dumps(lib, RequestsOf(calls)) ensures Servable(lib, line) {
      var i :| 0 <= i < |calls| && line == Dumps(lib, RequestsOf(calls))[i];
      LineOfCall(lib, calls, i);
      RequestServable(lib, calls[i], i + 1);
    }
  }

  /** One request among what other threads do: its answer is true of the controller right after it. */
  lemma RequestServed(lib: Library, past: seq<Timed>, done: seq<Timed>, call: Call, id: int32, env: nat -> Slot)
    requires ReadsBack(lib) && PrintsAsLine(lib, Request(call, id))
    ensures Servable(lib, lib.dump(Request(call, id)))
    ensures var r := LineReply(lib, Registered(), Run(Run(Initial(), past), done), lib.dump(Request(call, id)), env);
            TrueAnswer(lib, past + (done + r.events), call, id, r.response)
  {
    var others, at := env(0).others, env(0).at;
    FoldConcat(Step, Initial(), past, done);
    FoldConcat(Step, Initial(), past + done, others);
    CallExecutes(lib, past + done + others, at, call, id);
    var r := Single(lib, Registered(), Run(Initial(), past + done + others), at, Request(call, id));
    Assoc(past, done, others + r.events);
    Assoc(past + done, others, r.events);
  }

  /** Line i of a connection is answered truly as this call with this id, right after its turn. */
  ghost predicate TrueInTurn(lib: Library, past: seq<Timed>, lines: seq<seq<byte>>, env: nat -> nat -> Slot, i: nat,
                             call: Call, id: int32)
    requires i < |lines|
  {
    var replies := Served(Serve(lib, Registered()), Run(Initial(), past), lines, env, i + 1);
    TrueAnswer(lib, past + replies.events, call, id, replies.responses[i])
  }

  lemma CallInTurn(lib: Library, past: seq<Timed>, lines: seq<seq<byte>>, env: nat -> nat -> Slot, i: nat,
                   call: Call, id: int32)
    requires ReadsBack(lib) && i < |lines|
    requires lines[i] == lib.dump(Request(call, id)) && PrintsAsLine(lib, Request(call, id))
    ensures TrueInTurn(lib, past, lines, env, i, call, id)
  {
    var done := Served(Serve(lib, Registered()), Run(Initial(), past), lines, env, i).events;
    RequestServed(lib, past, done, call, id, env(i));
    ServedLast(Serve(lib, Registered()), Run(Initial(), past), lines, env, i);
  }

  /** Answers written back, broken off after `n` of them and part of another, are what the client reads. */
  lemma AnswersRead(lib: Library, rs: seq<Json>, n: nat, rest: seq<byte>, back: seq<byte>)
    requires VisitsOwn(lib) && n <= |rs| && PrintAsLines(lib, rs)
    requires LF !in rest && back == Sent(lib, rs, n) + rest
    ensures Lines(back) == Dumps(lib, rs[..n]) && LineSignals(lib, Lines(back)) == MessageSignals(lib, rs[..n], n)
  {
    TransportDelivers(lib, rs[..n], back, rest);
    SignalsOfDumps(lib, rs[..n], n);
    assert Dumps(lib, rs[..n])[..n] == Dumps(lib, rs[..n]);
  }

  lemma RequestsArrive(lib: Library, calls: seq<Call>, request: seq<byte>)
    requires |calls| < 0x7FFF_FFFF && PrintAsLines(lib, RequestsOf(calls))
    requires request == Join(Dumps(lib, RequestsOf(calls)))
    ensures Requests(Lines(request)) == Dumps(lib, RequestsOf(calls)) && AllServable(lib, Requests(Lines(request)))
  {
    assert request + [] == request;
    TransportDelivers(lib, RequestsOf(calls), request, []);
    RequestsServable(lib, calls);
  }

  /** A client's calls, sent as bytes and cut up on the way in any manner, are the lines the server hands to its router;
      the i-th answer is a true answer to the i-th call, under its id, given right after its turn. */
  lemma Conversation(lib: Library, past: seq<Timed>, calls: seq<Call>, env: nat -> nat -> Slot, request: seq<byte>,
                     i: nat)
    requires ReadsBack(lib) && i < |calls| < 0x7FFF_FFFF
    requires PrintAsLines(lib, RequestsOf(calls)) && request == Join(Dumps(lib, RequestsOf(calls)))
    ensures var lines := Requests(Lines(request));
            && lines == Dumps(lib, RequestsOf(calls)) && AllServable(lib, lines)
            && TrueInTurn(lib, past, lines, env, i, calls[i], i + 1)
            && SameAnswer(Serve(lib, Registered()), Run(Initial(), past), lines, env, i, |lines|)
  {
    var lines := Dumps(lib, RequestsOf(calls));
    RequestsArrive(lib, calls, request);
    LineOfCall(lib, calls, i);
    CallInTurn(lib, past, lines, env, i, calls[i], i + 1);
    AnswerFixed(Serve(lib, Registered()), Run(Initial(), past), lines, env, i, |lines|);
  }
}
