/** One client and the daemon over two in-order streams, interleaved with everything else that happens to the
    controller: other clients' commands and ticks. The server's handler thread computes an answer under the
    controller's mutex and sends it in a later step; the client may send ahead without waiting. */
module Protocol {
  import opened Machine
  import opened Segments
  import opened Relay
  import opened Board
  import opened Json
  import opened Router
  import opened Client
  import opened Calls

  /** The system. The last six fields are history: the calls made and the length of the controller's trace when each
      was sent, the answer to each request executed so far and the length of the trace right after its turn, how many
      answers the client has processed, and for each signal which answer it came from. */
  datatype System = System(
    trace: seq<Timed>,
    nextId: int32,
    toServer: seq<Json>,
    unsent: seq<Json>,
    toClient: seq<Json>,
    view: seq<Signal>,
    calls: seq<Call>,
    sentAt: seq<nat>,
    answers: seq<Json>,
    points: seq<nat>,
    handled: nat,
    sources: seq<nat>)

  const START := System([], 1, [], [], [], [], [], [], [], [], 0, [])

  datatype Action =
    | Send(call: Call)
    | Execute(at: Instant)
    | Answer
    | Deliver
    | Other(event: Timed)

  /** The client sends a call under its next id. */
  function Sent(s: System, call: Call): System
    requires s.nextId < 0x7FFF_FFFF
  {
    s.(nextId := s.nextId + 1, toServer := s.toServer + [Request(call, s.nextId)],
       calls := s.calls + [call], sentAt := s.sentAt + [|s.trace|])
  }

  /** The handler thread has carried out the first request on its stream, with reply `r`. */
  function Executed(s: System, r: Reply): System
    requires s.toServer != []
  {
    s.(trace := s.trace + r.events, toServer := s.toServer[1..], unsent := [r.response],
       answers := s.answers + [r.response], points := s.points + [|s.trace + r.events|])
  }

  /** The client has processed the first answer on its stream, which gave rise to `signals`. */
  function Delivered(s: System, signals: seq<Signal>): System
    requires s.toClient != [] && s.handled < |s.points|
  {
    s.(toClient := s.toClient[1..], handled := s.handled + 1, view := s.view + signals,
       sources := s.sources + Repeat(s.handled, |signals|))
  }

  /** One step; an action that is not possible leaves the system as it is. */
  function Next(lib: Library, s: System, a: Action): System
    requires VisitsOwn(lib)
  {
    match a
    case Send(call) =>
      if s.nextId == 0x7FFF_FFFF then s else Sent(s, call)
    case Execute(at) =>
      if s.toServer == [] || s.unsent != [] || !Dispatchable(s.toServer[0]) then s
      else Executed(s, Single(lib, Registered(), Run(Initial(), s.trace), at, s.toServer[0]))
    case Answer =>
      s.(toClient := s.toClient + s.unsent, unsent := [])
    case Deliver =>
      if s.toClient == [] || s.handled >= |s.points| then s
      else Delivered(s, SignalsOf(lib, s.toClient[0]))
    case Other(event) =>
      s.(trace := s.trace + [event])
  }

  function Execution(lib: Library, actions: seq<Action>): System
    requires VisitsOwn(lib)
    decreases |actions|
  {
    if actions == [] then START
    else Next(lib, Execution(lib, actions[..|actions| - 1]), actions[|actions| - 1])
  }

  // --- The invariant -----------------------------------------------------------------------------

  ghost predicate Sorted(points: seq<nat>) {
    forall j, k | 0 <= j < k < |points| :: points[j] <= points[k]
  }

  /** The requests on their way are those of the last calls, in order, each under its own id. */
  ghost predicate Queued(calls: seq<Call>, answered: nat, toServer: seq<Json>) {
    && |calls| == answered + |toServer| && |calls| < 0x7FFF_FFFF
    && forall j | 0 <= j < |toServer| :: toServer[j] == Request(calls[answered + j], answered + j + 1)
  }

  /** The answers not yet processed are on their way, or still to be sent. */
  predicate Undelivered(answers: seq<Json>, handled: nat, toClient: seq<Json>, unsent: seq<Json>) {
    handled <= |answers| && answers[handled..] == toClient + unsent
  }

  /** Every answer was true at its point of the controller's history; no point is before its request was sent, and
      points never go back. */
  ghost predicate Truthful(lib: Library, trace: seq<Timed>, calls: seq<Call>, sentAt: seq<nat>,
                           answers: seq<Json>, points: seq<nat>) {
    && |points| == |answers| <= |calls| == |sentAt| < 0x7FFF_FFFF
    && Sorted(points)
    && (forall k | 0 <= k < |sentAt| :: sentAt[k] <= |trace|)
    && (forall k | 0 <= k < |points| :: sentAt[k] <= points[k] <= |trace|)
    && (forall k | 0 <= k < |answers| :: TrueAnswer(lib, trace[..points[k]], calls[k], k + 1, answers[k]))
  }

  /** A signal is one of those of this answer, and the state its channel had at the answer's point. */
  ghost predicate ShownBy(lib: Library, trace: seq<Timed>, signal: Signal, answer: Json, point: nat)
    requires VisitsOwn(lib)
  {
    && point <= |trace|
    && signal in SignalsOf(lib, answer)
    && IsChannel(signal.id)
    && signal.on == Run(Initial(), trace[..point])[signal.id - 1].state
  }

  /** Every signal is shown by the answer it came from; these answers were processed in order. */
  ghost predicate ViewTrue(lib: Library, trace: seq<Timed>, answers: seq<Json>, points: seq<nat>, handled: nat,
                           view: seq<Signal>, sources: seq<nat>)
    requires VisitsOwn(lib)
  {
    && |sources| == |view| && handled <= |answers| == |points|
    && Sorted(sources)
    && forall v | 0 <= v < |view| ::
         sources[v] < handled && ShownBy(lib, trace, view[v], answers[sources[v]], points[sources[v]])
  }

  ghost predicate Invariant(lib: Library, s: System)
    requires VisitsOwn(lib)
  {
    && s.nextId == |s.calls| + 1
    && Queued(s.calls, |s.answers|, s.toServer)
    && Undelivered(s.answers, s.handled, s.toClient, s.unsent)
    && Truthful(lib, s.trace, s.calls, s.sentAt, s.answers, s.points)
    && ViewTrue(lib, s.trace, s.answers, s.points, s.handled, s.view, s.sources)
  }

  // --- The invariant is kept, part by part -------------------------------------------------------

  lemma PrefixesKept<T>(a: seq<T>, b: seq<T>)
    ensures forall p: nat | p <= |a| :: (a + b)[..p] == a[..p]
  {
  }

  /** More events make no answer less true. */
  lemma TruthfulLater(lib: Library, trace: seq<Timed>, more: seq<Timed>, calls: seq<Call>, sentAt: seq<nat>,
                      answers: seq<Json>, points: seq<nat>)
    requires Truthful(lib, trace, calls, sentAt, answers, points)
    ensures Truthful(lib, trace + more, calls, sentAt, answers, points)
  {
    PrefixesKept(trace, more);
  }

  lemma ViewLater(lib: Library, trace: seq<Timed>, more: seq<Timed>, answers: seq<Json>, points: seq<nat>, handled: nat,
                  view: seq<Signal>, sources: seq<nat>)
    requires VisitsOwn(lib) && ViewTrue(lib, trace, answers, points, handled, view, sources)
    ensures ViewTrue(lib, trace + more, answers, points, handled, view, sources)
  {
    PrefixesKept(trace, more);
  }

  lemma TruthfulSent(lib: Library, trace: seq<Timed>, calls: seq<Call>, sentAt: seq<nat>, answers: seq<Json>,
                     points: seq<nat>, call: Call)
    requires Truthful(lib, trace, calls, sentAt, answers, points) && |calls| + 1 < 0x7FFF_FFFF
    ensures Truthful(lib, trace, calls + [call], sentAt + [|trace|], answers, points)
  {
  }

  lemma TruthfulAnswered(lib: Library, trace: seq<Timed>, r: Reply, calls: seq<Call>, sentAt: seq<nat>,
                         answers: seq<Json>, points: seq<nat>)
    requires Truthful(lib, trace, calls, sentAt, answers, points) && |answers| < |calls|
    requires TrueAnswer(lib, trace + r.events, calls[|answers|], |answers| + 1, r.response)
    ensures Truthful(lib, trace + r.events, calls, sentAt, answers + [r.response], points + [|trace + r.events|])
  {
    TruthfulLater(lib, trace, r.events, calls, sentAt, answers, points);
    var later := trace + r.events;
    assert later[..|later|] == later;
  }

  lemma ViewAnswered(lib: Library, trace: seq<Timed>, r: Reply, answers: seq<Json>, points: seq<nat>, handled: nat,
                     view: seq<Signal>, sources: seq<nat>)
    requires VisitsOwn(lib) && ViewTrue(lib, trace, answers, points, handled, view, sources)
    ensures ViewTrue(lib, trace + r.events, answers + [r.response], points + [|trace + r.events|],
                     handled, view, sources)
  {
    ViewLater(lib, trace, r.events, answers, points, handled, view, sources);
  }

  lemma ViewProcessed(lib: Library, trace: seq<Timed>, answers: seq<Json>, points: seq<nat>, handled: nat,
                      view: seq<Signal>, sources: seq<nat>, signals: seq<Signal>)
    requires VisitsOwn(lib) && ViewTrue(lib, trace, answers, points, handled, view, sources)
    requires handled < |answers| && signals == SignalsOf(lib, answers[handled]) && points[handled] <= |trace|
    requires TrueSignals(Run(Initial(), trace[..points[handled]]), signals)
    ensures ViewTrue(lib, trace, answers, points, handled + 1, view + signals,
                     sources + Repeat(handled, |signals|))
  {
    forall v | 0 <= v < |signals| ensures ShownBy(lib, trace, signals[v], answers[handled], points[handled]) {
      assert signals[v] in signals;
    }
  }

  lemma QueuedSent(calls: seq<Call>, answered: nat, toServer: seq<Json>, call: Call)
    requires Queued(calls, answered, toServer) && |calls| + 1 < 0x7FFF_FFFF
    ensures Queued(calls + [call], answered, toServer + [Request(call, |calls| + 1)])
  {
  }

  lemma QueuedExecuted(calls: seq<Call>, answered: nat, toServer: seq<Json>)
    requires Queued(calls, answered, toServer) && toServer != []
    ensures Queued(calls, answered + 1, toServer[1..])
  {
  }

  lemma UndeliveredExecuted(answers: seq<Json>, handled: nat, toClient: seq<Json>, r: Json)
    requires Undelivered(answers, handled, toClient, [])
    ensures Undelivered(answers + [r], handled, toClient, [r])
  {
    assert (answers + [r])[handled..] == answers[handled..] + [r];
    assert toClient + [] == toClient;
  }

  lemma SentKeeps(lib: Library, s: System, call: Call)
    requires VisitsOwn(lib) && Invariant(lib, s) && s.nextId < 0x7FFF_FFFF
    ensures Invariant(lib, Sent(s, call))
  {
    TruthfulSent(lib, s.trace, s.calls, s.sentAt, s.answers, s.points, call);
    QueuedSent(s.calls, |s.answers|, s.toServer, call);
  }

  lemma ExecutedKeeps(lib: Library, s: System, r: Reply)
    requires VisitsOwn(lib) && Invariant(lib, s) && s.toServer != [] && s.unsent == []
    requires TrueAnswer(lib, s.trace + r.events, s.calls[|s.answers|], |s.answers| + 1, r.response)
    ensures Invariant(lib, Executed(s, r))
  {
    TruthfulAnswered(lib, s.trace, r, s.calls, s.sentAt, s.answers, s.points);
    ViewAnswered(lib, s.trace, r, s.answers, s.points, s.handled, s.view, s.sources);
    UndeliveredExecuted(s.answers, s.handled, s.toClient, r.response);
    QueuedExecuted(s.calls, |s.answers|, s.toServer);
  }

  /** The handler of the first request on its stream does what the request asks, and its answer is true. */
  lemma ExecuteKeeps(lib: Library, s: System, at: Instant)
    requires VisitsOwn(lib) && ReadsBack(lib) && Invariant(lib, s) && s.toServer != [] && s.unsent == []
    ensures Dispatchable(s.toServer[0])
    ensures Invariant(lib, Executed(s, Single(lib, Registered(), Run(Initial(), s.trace), at, s.toServer[0])))
  {
    var k := |s.answers|;
    assert s.toServer[0] == Request(s.calls[k], k + 1);
    CallExecutes(lib, s.trace, at, s.calls[k], k + 1);
    ExecutedKeeps(lib, s, Single(lib, Registered(), Run(Initial(), s.trace), at, s.toServer[0]));
  }

  lemma AnswerKeeps(lib: Library, s: System)
    requires VisitsOwn(lib) && Invariant(lib, s)
    ensures Invariant(lib, Next(lib, s, Answer))
  {
    assert (s.toClient + s.unsent) + [] == s.toClient + s.unsent;
  }

  lemma DeliveredTail<T>(a: seq<T>, k: nat, first: seq<T>, rest: seq<T>)
    requires k <= |a| && a[k..] == first + rest && first != []
    ensures k < |a| && a[k] == first[0] && a[k + 1..] == first[1..] + rest
  {
    assert a[k] == a[k..][0];
    assert a[k + 1..] == a[k..][1..];
  }

  lemma DeliverKeeps(lib: Library, s: System)
    requires VisitsOwn(lib) && ReadsBack(lib) && Invariant(lib, s) && s.toClient != []
    ensures s.handled < |s.answers| && s.toClient[0] == s.answers[s.handled]
    ensures Invariant(lib, Delivered(s, SignalsOf(lib, s.toClient[0])))
  {
    var k := s.handled;
    DeliveredTail(s.answers, k, s.toClient, s.unsent);
    AnswerSignalsTrue(lib, s.trace[..s.points[k]], s.calls[k], k + 1, s.answers[k]);
    ViewProcessed(lib, s.trace, s.answers, s.points, k, s.view, s.sources, SignalsOf(lib, s.answers[k]));
  }

  lemma OtherKeeps(lib: Library, s: System, event: Timed)
    requires VisitsOwn(lib) && Invariant(lib, s)
    ensures Invariant(lib, s.(trace := s.trace + [event]))
  {
    TruthfulLater(lib, s.trace, [event], s.calls, s.sentAt, s.answers, s.points);
    ViewLater(lib, s.trace, [event], s.answers, s.points, s.handled, s.view, s.sources);
  }

  lemma NextKeeps(lib: Library, s: System, a: Action)
    requires VisitsOwn(lib) && ReadsBack(lib) && Invariant(lib, s)
    ensures Invariant(lib, Next(lib, s, a))
  {
    match a
    case Send(call) =>
      if s.nextId < 0x7FFF_FFFF {
        SentKeeps(lib, s, call);
      }
    case Execute(at) =>
      if s.toServer != [] && s.unsent == [] {
        ExecuteKeeps(lib, s, at);
      }
    case Answer =>
      AnswerKeeps(lib, s);
    case Deliver =>
      if s.toClient != [] {
        DeliverKeeps(lib, s);
      }
    case Other(event) =>
      OtherKeeps(lib, s, event);
  }

  lemma {:induction false} InvariantHolds(lib: Library, actions: seq<Action>)
    requires VisitsOwn(lib) && ReadsBack(lib)
    ensures Invariant(lib, Execution(lib, actions))
    decreases |actions|
  {
    if actions != [] {
      InvariantHolds(lib, actions[..|actions| - 1]);
      NextKeeps(lib, Execution(lib, actions[..|actions| - 1]), actions[|actions| - 1]);
    }
  }

  // --- What holds of every execution -------------------------------------------------------------

  /** The v-th signal comes from answer k, was the state of its channel at the point at which that answer's request was
      executed, and this was after the request was sent. */
  ghost predicate Refines(lib: Library, s: System, v: nat, k: nat)
    requires VisitsOwn(lib)
  {
    && v < |s.view| && k < s.handled <= |s.answers| && k < |s.points| && k < |s.sentAt|
    && s.sentAt[k] <= s.points[k]
    && ShownBy(lib, s.trace, s.view[v], s.answers[k], s.points[k])
  }

  lemma InvariantRefines(lib: Library, s: System, v: nat)
    requires VisitsOwn(lib) && Invariant(lib, s) && v < |s.view|
    ensures v < |s.sources| && Refines(lib, s, v, s.sources[v])
  {
  }

  lemma InvariantOrders(lib: Library, s: System, u: nat, v: nat)
    requires VisitsOwn(lib) && Invariant(lib, s) && u <= v < |s.view|
    ensures |s.sources| == |s.view| && s.sources[u] <= s.sources[v] < |s.points|
    ensures s.points[s.sources[u]] <= s.points[s.sources[v]]
  {
  }

  /** The client's view refines the controller's history: on every interleaving, each relay-state signal comes from one
      answer and is a state its channel really had at the point of the controller's run at which that answer's request
      was executed, after it was sent; answers show in order, so that their points never go back in time. */
  lemma ViewRefinesHistory(lib: Library, actions: seq<Action>, u: nat, v: nat)
    requires VisitsOwn(lib) && ReadsBack(lib) && u <= v < |Execution(lib, actions).view|
    ensures var s := Execution(lib, actions);
            && |s.sources| == |s.view| && Refines(lib, s, v, s.sources[v])
            && s.sources[u] <= s.sources[v] < |s.points| && s.points[s.sources[u]] <= s.points[s.sources[v]]
  {
    InvariantHolds(lib, actions);
    InvariantRefines(lib, Execution(lib, actions), v);
    InvariantOrders(lib, Execution(lib, actions), u, v);
  }

  /** And each answer is true at the point at which its request was executed. */
  lemma AnswersTrue(lib: Library, actions: seq<Action>, k: nat)
    requires VisitsOwn(lib) && ReadsBack(lib) && k < |Execution(lib, actions).answers|
    ensures var s := Execution(lib, actions);
            && k < |s.points| && s.points[k] <= |s.trace| && k < |s.calls| && k + 1 < 0x8000_0000
            && TrueAnswer(lib, s.trace[..s.points[k]], s.calls[k], k + 1, s.answers[k])
  {
    InvariantHolds(lib, actions);
  }

  ghost predicate ViewIsAnswers(lib: Library, s: System)
    requires VisitsOwn(lib)
  {
    && s.handled <= |s.answers|
    && s.view == MessageSignals(lib, s.answers, s.handled)
    && s.sources == MessageSources(lib, s.answers, s.handled)
  }

  lemma ViewExecuted(lib: Library, s: System, r: Reply)
    requires VisitsOwn(lib) && ViewIsAnswers(lib, s) && s.toServer != []
    ensures ViewIsAnswers(lib, Executed(s, r))
  {
    MessageSignalsKept(lib, s.answers, r.response, s.handled);
  }

  lemma ViewDelivered(lib: Library, s: System)
    requires VisitsOwn(lib) && ViewIsAnswers(lib, s) && s.toClient != [] && s.handled < |s.points|
    requires s.handled < |s.answers| && s.toClient[0] == s.answers[s.handled]
    ensures ViewIsAnswers(lib, Delivered(s, SignalsOf(lib, s.toClient[0])))
  {
  }

  lemma ViewStep(lib: Library, s: System, a: Action)
    requires VisitsOwn(lib) && ReadsBack(lib) && Invariant(lib, s) && ViewIsAnswers(lib, s)
    ensures ViewIsAnswers(lib, Next(lib, s, a))
  {
    if a.Execute? {
      if s.toServer != [] && s.unsent == [] && Dispatchable(s.toServer[0]) {
        ViewExecuted(lib, s, Single(lib, Registered(), Run(Initial(), s.trace), a.at, s.toServer[0]));
      }
    } else if a.Deliver? && s.toClient != [] {
      DeliverKeeps(lib, s);
      ViewDelivered(lib, s);
    }
  }

  /** The view is all the signals of the answers processed, in order: none is lost either. */
  lemma {:induction false} ViewComplete(lib: Library, actions: seq<Action>)
    requires VisitsOwn(lib) && ReadsBack(lib)
    ensures ViewIsAnswers(lib, Execution(lib, actions))
    decreases |actions|
  {
    if actions != [] {
      var before := Execution(lib, actions[..|actions| - 1]);
      ViewComplete(lib, actions[..|actions| - 1]);
      InvariantHolds(lib, actions[..|actions| - 1]);
      ViewStep(lib, before, actions[|actions| - 1]);
    }
  }

  /** What each processed answer shows: exactly its own signals, once each and in order, together in the view. */
  lemma AnswerShown(lib: Library, actions: seq<Action>, k: nat) returns (a: nat)
    requires VisitsOwn(lib) && ReadsBack(lib) && k < Execution(lib, actions).handled
    ensures var s := Execution(lib, actions);
            k < |s.answers| && Segment(s.view, s.sources, k, a, SignalsOf(lib, s.answers[k]))
  {
    var s := Execution(lib, actions);
    ViewComplete(lib, actions);
    PartStands(Shows(lib, s.answers), s.handled, k);
    a := |MessageSignals(lib, s.answers, k)|;
  }

  /** The processed answer to a command: if that switched a relay, there is exactly one signal from it, and this shows
      the relay as switched; if it started something, or was for no channel, there is none. */
  lemma CommandShown(lib: Library, actions: seq<Action>, k: nat, channel: int32, cmd: Command) returns (v: nat)
    requires VisitsOwn(lib) && ReadsBack(lib) && k < Execution(lib, actions).handled
    requires k < |Execution(lib, actions).calls| && Execution(lib, actions).calls[k] == Call.Do(channel, cmd)
    ensures var s := Execution(lib, actions);
            && |s.view| == |s.sources|
            && if IsChannel(channel) && cmd.SetRelay?
               then && v < |s.view| && s.view[v] == Signal(channel, cmd.on)
                    && forall u | 0 <= u < |s.sources| :: s.sources[u] == k <==> u == v
               else forall u | 0 <= u < |s.sources| :: s.sources[u] != k
  {
    var s := Execution(lib, actions);
    v := AnswerShown(lib, actions, k);
    AnswersTrue(lib, actions, k);
    CommandAnswerShows(lib, s.trace[..s.points[k]], channel, cmd, k + 1, s.answers[k]);
    SegmentOfOne(s.view, s.sources, k, v, SignalsOf(lib, s.answers[k]));
  }

  predicate HasId(j: Json, id: int) {
    Has(j, ID) && Get(j, ID) == Int(id)
  }

  /** Requests sent are the answers processed, those in flight and the requests awaiting execution; the k-th answer
      carries the id of the k-th request, and these ids are 1, 2, 3, ... */
  lemma RequestsAccounted(lib: Library, actions: seq<Action>)
    requires VisitsOwn(lib) && ReadsBack(lib)
    ensures var s := Execution(lib, actions);
            && |s.calls| == s.handled + |s.toClient| + |s.unsent| + |s.toServer|
            && s.nextId == |s.calls| + 1
            && (forall k | 0 <= k < |s.answers| :: HasId(s.answers[k], k + 1))
            && (forall j | 0 <= j < |s.toServer| :: HasId(s.toServer[j], |s.answers| + j + 1))
            && s.handled <= |s.answers| && s.toClient + s.unsent == s.answers[s.handled..]
  {
    InvariantHolds(lib, actions);
    var s := Execution(lib, actions);
    assert |s.answers[s.handled..]| == |s.toClient| + |s.unsent|;
    forall k | 0 <= k < |s.answers| ensures HasId(s.answers[k], k + 1) {
      assert TrueAnswer(lib, s.trace[..s.points[k]], s.calls[k], k + 1, s.answers[k]);
    }
  }

  /** The k-th answer, when it is a get_relays answer, shows all eight channels as they were together at one point. */
  lemma SnapshotsAtomic(lib: Library, actions: seq<Action>, k: nat)
    requires VisitsOwn(lib) && ReadsBack(lib) && forall fields :: VisitsAll(lib, fields)
    requires k < |Execution(lib, actions).answers| && k < |Execution(lib, actions).calls|
    requires Execution(lib, actions).calls[k] == QueryAll
    ensures var s := Execution(lib, actions);
            && k < |s.points| && s.points[k] <= |s.trace|
            && WholeBoard(Run(Initial(), s.trace[..s.points[k]]), SignalsOf(lib, s.answers[k]))
  {
    InvariantHolds(lib, actions);
    var s := Execution(lib, actions);
    QueryShowsBoard(lib, s.trace[..s.points[k]], k + 1, s.answers[k]);
  }

  // --- Nothing is lost or stuck ------------------------------------------------------------------

  function OthersIn(actions: seq<Action>): nat
    decreases |actions|
  {
    if actions == [] then 0
    else OthersIn(actions[..|actions| - 1]) + if actions[|actions| - 1].Other? then 1 else 0
  }

  /** The commands among the first k calls. */
  function CommandsIn(calls: seq<Call>, k: nat): nat
    requires k <= |calls|
  {
    if k == 0 then 0
    else CommandsIn(calls, k - 1) + if calls[k - 1].Do? && IsChannel(calls[k - 1].id) then 1 else 0
  }

  lemma {:induction false} CommandsKept(calls: seq<Call>, call: Call, k: nat)
    requires k <= |calls|
    ensures CommandsIn(calls + [call], k) == CommandsIn(calls, k)
  {
    if k > 0 {
      CommandsKept(calls, call, k - 1);
    }
  }

  /** Events of the trace that are not this client's. */
  function Foreign(s: System): int
    requires |s.answers| <= |s.calls|
  {
    |s.trace| - CommandsIn(s.calls, |s.answers|)
  }

  lemma TraceSent(s: System, call: Call)
    requires |s.answers| <= |s.calls| && s.nextId < 0x7FFF_FFFF
    ensures Foreign(Sent(s, call)) == Foreign(s)
  {
    CommandsKept(s.calls, call, |s.answers|);
  }

  lemma TraceExecuted(s: System, r: Reply)
    requires |s.answers| < |s.calls| && s.toServer != []
    requires var call := s.calls[|s.answers|];
             |r.events| == if call.Do? && IsChannel(call.id) then 1 else 0
    ensures Foreign(Executed(s, r)) == Foreign(s)
  {
  }

  lemma TraceStep(lib: Library, s: System, a: Action)
    requires VisitsOwn(lib) && ReadsBack(lib) && Invariant(lib, s)
    ensures |s.answers| <= |s.calls| && |Next(lib, s, a).answers| <= |Next(lib, s, a).calls|
    ensures Foreign(Next(lib, s, a)) == Foreign(s) + if a.Other? then 1 else 0
  {
    if a.Send? && s.nextId < 0x7FFF_FFFF {
      TraceSent(s, a.call);
    } else if a.Execute? && s.toServer != [] && s.unsent == [] {
      var k := |s.answers|;
      assert s.toServer[0] == Request(s.calls[k], k + 1);
      CallExecutes(lib, s.trace, a.at, s.calls[k], k + 1);
      TraceExecuted(s, Single(lib, Registered(), Run(Initial(), s.trace), a.at, s.toServer[0]));
    }
  }

  /** The controller's history consists of the other clients' commands and the ticks, and of one event for each command
      of this client that was executed: none is lost and none is carried out twice. */
  lemma {:induction false} TraceAccounted(lib: Library, actions: seq<Action>)
    requires VisitsOwn(lib) && ReadsBack(lib)
    ensures var s := Execution(lib, actions);
            |s.answers| <= |s.calls| && |s.trace| == OthersIn(actions) + CommandsIn(s.calls, |s.answers|)
    decreases |actions|
  {
    if actions != [] {
      TraceAccounted(lib, actions[..|actions| - 1]);
      InvariantHolds(lib, actions[..|actions| - 1]);
      TraceStep(lib, Execution(lib, actions[..|actions| - 1]), actions[|actions| - 1]);
    }
  }

  /** What is still to be done for the calls made. */
  function Pending(s: System): nat {
    3 * |s.toServer| + 2 * |s.unsent| + |s.toClient|
  }

  function Forward(s: System, at: Instant): Action {
    if s.toClient != [] then Deliver else if s.unsent != [] then Answer else Execute(at)
  }

  lemma ForwardHelps(lib: Library, s: System, at: Instant)
    requires VisitsOwn(lib) && ReadsBack(lib) && Invariant(lib, s) && Pending(s) > 0
    ensures Pending(Next(lib, s, Forward(s, at))) < Pending(s)
    ensures Next(lib, s, Forward(s, at)).calls == s.calls
  {
    if s.toClient != [] {
      DeliverKeeps(lib, s);
    } else if s.unsent == [] {
      ExecuteKeeps(lib, s, at);
    }
  }

  ghost predicate Completed(s: System, calls: seq<Call>) {
    s.calls == calls && s.handled == |calls| == |s.answers|
  }

  lemma NothingPending(lib: Library, s: System)
    requires VisitsOwn(lib) && Invariant(lib, s) && Pending(s) == 0
    ensures Completed(s, s.calls)
  {
    assert |s.answers[s.handled..]| == 0;
  }

  lemma ExecutionSnoc(lib: Library, actions: seq<Action>, a: Action)
    requires VisitsOwn(lib)
    ensures Execution(lib, actions + [a]) == Next(lib, Execution(lib, actions), a)
  {
    assert (actions + [a])[..|actions|] == actions;
  }

  /** From every state there is a way on, by the server's and the client's own steps, to one in which every call made
      has been executed, answered and processed. */
  lemma {:induction false} EveryCallCompletes(lib: Library, actions: seq<Action>, at: Instant)
    returns (more: seq<Action>)
    requires VisitsOwn(lib) && ReadsBack(lib)
    ensures forall i | 0 <= i < |more| :: !more[i].Send? && !more[i].Other?
    ensures Completed(Execution(lib, actions + more), Execution(lib, actions).calls)
    decreases Pending(Execution(lib, actions))
  {
    var s := Execution(lib, actions);
    InvariantHolds(lib, actions);
    if Pending(s) == 0 {
      more := [];
      assert actions + [] == actions;
      NothingPending(lib, s);
    } else {
      var a := Forward(s, at);
      ForwardHelps(lib, s, at);
      ExecutionSnoc(lib, actions, a);
      var rest := EveryCallCompletes(lib, actions + [a], at);
      more := [a] + rest;
      Assoc(actions, [a], rest);
    }
  }
}
