/** The server's threads: the listener, one detached handler per connection, and `stop`. Every atomic piece of each is
    one action; an execution is any interleaving of them. File descriptors are reused as soon as they are closed. */
module ServerLifecycle {
  import opened Machine

  /** A handler's life. It reads while `running`: it tests the flag, receives a chunk, and answers the requests that the
      chunk completes. TLS session and socket are released before the list entry is erased. */
  datatype Phase =
    | Listed
    | Handshaking
    | Testing
    | Receiving
    | Answering(left: nat)
    | Leaving
    | Released
    | Closed
    | Erased

  /** The most bytes, and so the most newlines, that one `recv` into the handler's buffer gives. */
  const CHUNK: nat := 2047

  /** `shut`: `shutdown` has been called on its socket, so a blocked read or handshake returns with failure. */
  datatype Conn = Conn(fd: nat, phase: Phase, shut: bool)

  datatype Listener = Checking | Accepting | Holding(fd: nat) | Spawning | Exited

  /** Where `stop` is; `Passing(n)`: it holds the lock of the list and has shut down its first `n` entries. */
  datatype Stopper = Serving | Flagged | SocketClosed | Joined | Passing(done: nat) | PassDone | Drained | Freed

  /** `sessions` is the list of client sessions, by descriptor; `conns` every connection put on it, in that order. */
  datatype Server = Server(running: bool, listener: Listener, stopper: Stopper, sessions: seq<nat>, conns: seq<Conn>)

  const STARTED := Server(true, Checking, Serving, [], [])

  /** What the handler of a connection does next; `cut` when the failure is that of a shut-down socket. */
  datatype Move =
    | ShakeOk
    | ShakeFails(cut: bool)
    | Test
    | Receive(lines: nat)
    | ReadFails(cut: bool)
    | Answer
    | Release
    | Close
    | Erase

  datatype Action =
    // listenLoop
    | Check
    | Accept(fd: nat)
    | AcceptFails
    | Push
    | Spawn
    // handleClient of connection i
    | Handler(i: nat, move: Move)
    // stop
    | ClearRunning
    | CloseListening
    | JoinListener
    | BeginPass
    | ShutOne
    | EndPass
    | SeeEmpty
    | FreeContext

  predicate Open(c: Conn) {
    c.phase != Closed && c.phase != Erased
  }

  predicate InUse(s: Server, fd: nat) {
    (exists i | 0 <= i < |s.conns| :: Open(s.conns[i]) && s.conns[i].fd == fd) || s.listener == Holding(fd)
  }

  /** The list without its first entry of this descriptor. */
  function RemoveFirst(list: seq<nat>, fd: nat): seq<nat>
    decreases |list|
  {
    if list == [] then []
    else
      var n := |list| - 1;
      if fd in list[..n] then RemoveFirst(list[..n], fd) + [list[n]]
      else if list[n] == fd then list[..n] else list
  }

  /** `shutdown(fd)`: it affects the connection that has this descriptor open, if there is one. */
  function ShutDown(fd: nat, conns: seq<Conn>): seq<Conn> {
    seq(|conns|, i requires 0 <= i < |conns| =>
      if Open(conns[i]) && conns[i].fd == fd then conns[i].(shut := true) else conns[i])
  }

  function Moved(s: Server, i: nat, phase: Phase): Server
    requires i < |s.conns|
  {
    s.(conns := s.conns[i := s.conns[i].(phase := phase)])
  }

  function Gone(s: Server, i: nat): Server
    requires i < |s.conns|
  {
    Moved(s, i, Erased).(sessions := RemoveFirst(s.sessions, s.conns[i].fd))
  }

  predicate Starts(phase: Phase, m: Move) {
    match m
    case ShakeOk | ShakeFails(_) => phase == Handshaking
    case Test => phase == Testing
    case Receive(lines) => phase == Receiving && lines <= CHUNK
    case ReadFails(_) => phase == Receiving
    case Answer => phase.Answering?
    case Release => phase == Leaving
    case Close => phase == Released
    case Erase => phase == Closed
  }

  /** Where a move leads, depending on `running`. */
  function After(phase: Phase, m: Move, running: bool): Phase
    requires Starts(phase, m)
  {
    match m
    case ShakeOk => Testing
    case ShakeFails(_) | ReadFails(_) => Leaving
    case Test => if running then Receiving else Leaving
    case Receive(lines) => Answering(lines)
    case Answer => if phase.left > 0 then Answering(phase.left - 1) else Testing
    case Release => Released
    case Close => Closed
    case Erase => Erased
  }

  predicate MayMove(s: Server, i: nat, m: Move) {
    && i < |s.conns| && Starts(s.conns[i].phase, m)
    && (m == ShakeFails(true) || m == ReadFails(true) ==> s.conns[i].shut)
    && (m == Erase ==> !s.stopper.Passing?)
  }

  function Acted(s: Server, i: nat, m: Move): Server
    requires MayMove(s, i, m)
  {
    if m == Erase then Gone(s, i) else Moved(s, i, After(s.conns[i].phase, m, s.running))
  }

  ghost predicate Enabled(s: Server, a: Action) {
    match a
    case Check => s.listener == Checking
    case Accept(fd) => s.listener == Accepting && (s.stopper == Serving || s.stopper == Flagged) && !InUse(s, fd)
    case AcceptFails => s.listener == Accepting
    case Push => s.listener.Holding? && !s.stopper.Passing?
    case Spawn => s.listener == Spawning && s.conns != []
    case Handler(i, m) => MayMove(s, i, m)
    case ClearRunning => s.stopper == Serving
    case CloseListening => s.stopper == Flagged
    case JoinListener => s.stopper == SocketClosed && s.listener == Exited
    case BeginPass => s.stopper == Joined
    case ShutOne => s.stopper.Passing? && s.stopper.done < |s.sessions|
    case EndPass => s.stopper == Passing(|s.sessions|)
    case SeeEmpty => s.stopper == PassDone && s.sessions == []
    case FreeContext => s.stopper == Drained
  }

  ghost function Next(s: Server, a: Action): Server
    requires Enabled(s, a)
  {
    match a
    case Check => s.(listener := if s.running then Accepting else Exited)
    case Accept(fd) => s.(listener := Holding(fd))
    case AcceptFails => s.(listener := if s.running then Checking else Exited)
    case Push =>
      s.(listener := Spawning,
         sessions := s.sessions + [s.listener.fd], conns := s.conns + [Conn(s.listener.fd, Listed, false)])
    case Spawn => Moved(s, |s.conns| - 1, Handshaking).(listener := Checking)
    case Handler(i, m) => Acted(s, i, m)
    case ClearRunning => s.(running := false, stopper := Flagged)
    case CloseListening => s.(stopper := SocketClosed)
    case JoinListener => s.(stopper := Joined)
    case BeginPass => s.(stopper := Passing(0))
    case ShutOne => s.(stopper := Passing(s.stopper.done + 1), conns := ShutDown(s.sessions[s.stopper.done], s.conns))
    case EndPass => s.(stopper := PassDone)
    case SeeEmpty => s.(stopper := Drained)
    case FreeContext => s.(stopper := Freed)
  }

  ghost predicate Follows(s: Server, a: Action, s': Server) {
    Enabled(s, a) && s' == Next(s, a)
  }

  /** An execution: a sequence of states, each the result of an enabled action on the one before. */
  ghost predicate Execution(states: seq<Server>, actions: seq<Action>) {
    && |states| == |actions| + 1 && states[0] == STARTED
    && forall k | 0 <= k < |actions| :: Follows(states[k], actions[k], states[k + 1])
  }

  // --- Counting ----------------------------------------------------------------------------------

  function IsOf(fd: nat): nat -> nat {
    (x: nat) => if x == fd then 1 else 0
  }

  function Owes(fd: nat): Conn -> nat {
    (c: Conn) => if c.phase != Erased && c.fd == fd then 1 else 0
  }

  /** How many entries the list has for a descriptor. */
  function Entries(sessions: seq<nat>, fd: nat): nat {
    Sum(IsOf(fd), sessions)
  }

  /** How many connections with that descriptor have a handler that has not yet erased its entry. */
  function Unerased(conns: seq<Conn>, fd: nat): nat {
    Sum(Owes(fd), conns)
  }

  lemma {:induction false} NoEntries(list: seq<nat>, fd: nat)
    requires fd !in list
    ensures RemoveFirst(list, fd) == list
  {
    if list != [] {
      assert fd !in list[..|list| - 1];
    }
  }

  lemma {:induction false} RemoveFirstCounts(list: seq<nat>, fd: nat, g: nat)
    ensures Entries(RemoveFirst(list, fd), g) == Entries(list, g) - (if g == fd && fd in list then 1 else 0)
    ensures |RemoveFirst(list, fd)| <= |list|
    decreases |list|
  {
    if list != [] {
      var n := |list| - 1;
      RemoveFirstCounts(list[..n], fd, g);
      SumOneMore(IsOf(g), RemoveFirst(list[..n], fd), list[n]);
      if fd !in list[..n] {
        NoEntries(list[..n], fd);
      }
    }
  }

  // --- The invariant -----------------------------------------------------------------------------

  predicate AfterJoin(p: Stopper) {
    p == Joined || p.Passing? || p == PassDone || p == Drained || p == Freed
  }

  /** One list entry for each connection not yet erased, by descriptor. */
  ghost predicate Counted(sessions: seq<nat>, conns: seq<Conn>) {
    forall fd: nat :: Entries(sessions, fd) == Unerased(conns, fd)
  }

  /** An open descriptor has one owner, be it the connection the listener has just accepted. */
  predicate OneOwner(listener: Listener, conns: seq<Conn>) {
    && (forall i, j | 0 <= i < j < |conns| && Open(conns[i]) && Open(conns[j]) :: conns[i].fd != conns[j].fd)
    && (listener.Holding? ==> forall i | 0 <= i < |conns| && Open(conns[i]) :: conns[i].fd != listener.fd)
  }

  /** How far the listener and `stop` can be from each other; a connection waits unspawned only for the listener. */
  predicate InStep(running: bool, listener: Listener, stopper: Stopper, conns: seq<Conn>) {
    && (running <==> stopper == Serving)
    && (listener == Exited ==> !running)
    && (AfterJoin(stopper) ==> listener == Exited)
    && (listener == Spawning ==> conns != [] && conns[|conns| - 1].phase == Listed)
    && (forall i | 0 <= i < |conns| && conns[i].phase == Listed :: listener == Spawning && i == |conns| - 1)
  }

  /** What the pass has reached so far is shut down; when the list was seen empty every handler had erased its entry. */
  predicate Reached(stopper: Stopper, sessions: seq<nat>, conns: seq<Conn>) {
    match stopper
    case Passing(done) =>
      && done <= |sessions|
      && forall i | 0 <= i < |conns| && Open(conns[i]) && conns[i].fd in sessions[..done] :: conns[i].shut
    case PassDone => forall i | 0 <= i < |conns| && Open(conns[i]) :: conns[i].shut
    case Drained | Freed => forall i | 0 <= i < |conns| :: conns[i].phase == Erased
    case _ => true
  }

  ghost predicate Invariant(s: Server) {
    && Counted(s.sessions, s.conns)
    && OneOwner(s.listener, s.conns)
    && InStep(s.running, s.listener, s.stopper, s.conns)
    && Reached(s.stopper, s.sessions, s.conns)
  }

  /** A connection not yet erased has its entry. */
  lemma EntryExists(sessions: seq<nat>, conns: seq<Conn>, i: nat)
    requires Counted(sessions, conns) && i < |conns| && conns[i].phase != Erased
    ensures conns[i].fd in sessions
  {
    SumAtLeast(Owes(conns[i].fd), conns, i);
    assert Entries(sessions, conns[i].fd) == Unerased(conns, conns[i].fd);
    var k := SumFound(IsOf(conns[i].fd), sessions);
  }

  lemma MovedCounted(sessions: seq<nat>, conns: seq<Conn>, i: nat, phase: Phase)
    requires Counted(sessions, conns) && i < |conns| && conns[i].phase != Erased && phase != Erased
    ensures Counted(sessions, conns[i := conns[i].(phase := phase)])
  {
    forall fd: nat ensures Entries(sessions, fd) == Unerased(conns[i := conns[i].(phase := phase)], fd) {
      SumUpdate(Owes(fd), conns, i, conns[i].(phase := phase));
      assert Entries(sessions, fd) == Unerased(conns, fd);
    }
  }

  /** A handler's step to a later phase, short of the erase. */
  lemma MovedKeeps(s: Server, i: nat, phase: Phase)
    requires Invariant(s) && i < |s.conns| && Open(s.conns[i]) && s.conns[i].phase != Listed
    requires phase != Erased && phase != Listed
    ensures Invariant(Moved(s, i, phase))
  {
    MovedCounted(s.sessions, s.conns, i, phase);
  }

  lemma PushCounted(sessions: seq<nat>, conns: seq<Conn>, fd: nat)
    requires Counted(sessions, conns)
    ensures Counted(sessions + [fd], conns + [Conn(fd, Listed, false)])
  {
    forall g: nat ensures Entries(sessions + [fd], g) == Unerased(conns + [Conn(fd, Listed, false)], g) {
      SumOneMore(IsOf(g), sessions, fd);
      SumOneMore(Owes(g), conns, Conn(fd, Listed, false));
      assert Entries(sessions, g) == Unerased(conns, g);
    }
  }

  lemma PushKeeps(s: Server)
    requires Invariant(s) && Enabled(s, Push)
    ensures Invariant(Next(s, Push))
  {
    var conns' := Next(s, Push).conns;
    PushCounted(s.sessions, s.conns, s.listener.fd);
    assert OneOwner(Spawning, conns');
    assert InStep(s.running, Spawning, s.stopper, conns');
  }

  lemma SpawnKeeps(s: Server)
    requires Invariant(s) && s.listener == Spawning
    ensures Invariant(Moved(s, |s.conns| - 1, Handshaking).(listener := Checking))
  {
    var n := |s.conns| - 1;
    var conns' := s.conns[n := s.conns[n].(phase := Handshaking)];
    MovedCounted(s.sessions, s.conns, n, Handshaking);
    assert OneOwner(Checking, conns');
    assert InStep(s.running, Checking, s.stopper, conns');
    assert Reached(s.stopper, s.sessions, conns');
  }

  lemma EraseCounted(sessions: seq<nat>, conns: seq<Conn>, i: nat)
    requires Counted(sessions, conns) && i < |conns| && conns[i].phase != Erased
    ensures Counted(RemoveFirst(sessions, conns[i].fd), conns[i := conns[i].(phase := Erased)])
  {
    var fd, conns' := conns[i].fd, conns[i := conns[i].(phase := Erased)];
    EntryExists(sessions, conns, i);
    forall g: nat ensures Entries(RemoveFirst(sessions, fd), g) == Unerased(conns', g) {
      RemoveFirstCounts(sessions, fd, g);
      SumUpdate(Owes(g), conns, i, conns[i].(phase := Erased));
      assert Entries(sessions, g) == Unerased(conns, g);
    }
  }

  lemma EraseKeeps(s: Server, i: nat)
    requires Invariant(s) && MayMove(s, i, Erase)
    ensures Invariant(Gone(s, i))
  {
    EraseCounted(s.sessions, s.conns, i);
  }

  lemma ShutDownOnly(fd: nat, conns: seq<Conn>)
    ensures |ShutDown(fd, conns)| == |conns|
    ensures forall i | 0 <= i < |conns| ::
              ShutDown(fd, conns)[i].fd == conns[i].fd && ShutDown(fd, conns)[i].phase == conns[i].phase
  {
  }

  lemma ShutDownCounted(sessions: seq<nat>, fd: nat, conns: seq<Conn>)
    requires Counted(sessions, conns)
    ensures Counted(sessions, ShutDown(fd, conns))
  {
    forall g: nat ensures Entries(sessions, g) == Unerased(ShutDown(fd, conns), g) {
      SumSame(Owes(g), conns, ShutDown(fd, conns));
      assert Entries(sessions, g) == Unerased(conns, g);
    }
  }

  lemma ShutOneReached(done: nat, sessions: seq<nat>, conns: seq<Conn>)
    requires Reached(Passing(done), sessions, conns) && done < |sessions|
    ensures Reached(Passing(done + 1), sessions, ShutDown(sessions[done], conns))
  {
    assert sessions[..done + 1] == sessions[..done] + [sessions[done]];
  }

  lemma ShutOneKeeps(s: Server)
    requires Invariant(s) && s.stopper.Passing? && s.stopper.done < |s.sessions|
    ensures Invariant(s.(stopper := Passing(s.stopper.done + 1),
                         conns := ShutDown(s.sessions[s.stopper.done], s.conns)))
  {
    var conns' := ShutDown(s.sessions[s.stopper.done], s.conns);
    ShutDownCounted(s.sessions, s.sessions[s.stopper.done], s.conns);
    ShutOneReached(s.stopper.done, s.sessions, s.conns);
    ShutDownOnly(s.sessions[s.stopper.done], s.conns);
    assert OneOwner(s.listener, conns');
    assert InStep(s.running, s.listener, Passing(s.stopper.done + 1), conns');
  }

  /** The pass over the list has reached every connection that still has its socket. */
  lemma EndPassKeeps(s: Server)
    requires Invariant(s) && Enabled(s, EndPass)
    ensures Invariant(Next(s, EndPass))
  {
    assert s.sessions[..|s.sessions|] == s.sessions;
    forall i | 0 <= i < |s.conns| && Open(s.conns[i]) ensures s.conns[i].shut {
      EntryExists(s.sessions, s.conns, i);
    }
  }

  lemma SeeEmptyKeeps(s: Server)
    requires Invariant(s) && Enabled(s, SeeEmpty)
    ensures Invariant(Next(s, SeeEmpty))
  {
    forall i | 0 <= i < |s.conns| ensures s.conns[i].phase == Erased {
      if s.conns[i].phase != Erased {
        EntryExists(s.sessions, s.conns, i);
      }
    }
  }

  lemma HandlerKeeps(s: Server, i: nat, m: Move)
    requires Invariant(s) && MayMove(s, i, m)
    ensures Invariant(Acted(s, i, m))
  {
    if m == Erase {
      EraseKeeps(s, i);
    } else {
      MovedKeeps(s, i, After(s.conns[i].phase, m, s.running));
    }
  }

  lemma AcceptKeeps(s: Server, fd: nat)
    requires Invariant(s) && Enabled(s, Accept(fd))
    ensures Invariant(Next(s, Accept(fd)))
  {
  }

  /** The actions that touch neither the list nor a connection. */
  lemma ControlKeeps(s: Server, a: Action)
    requires Invariant(s) && Enabled(s, a)
    requires a == Check || a == AcceptFails || a == ClearRunning || a == CloseListening || a == JoinListener
             || a == BeginPass || a == FreeContext
    ensures Invariant(Next(s, a))
  {
    var s' := Next(s, a);
    assert InStep(s'.running, s'.listener, s'.stopper, s.conns);
    assert Reached(s'.stopper, s.sessions, s.conns);
  }

  lemma NextKeeps(s: Server, a: Action)
    requires Invariant(s) && Enabled(s, a)
    ensures Invariant(Next(s, a))
  {
    match a
    case Accept(fd) => AcceptKeeps(s, fd);
    case Push => PushKeeps(s);
    case Spawn => SpawnKeeps(s);
    case Handler(i, m) => HandlerKeeps(s, i, m);
    case ShutOne => ShutOneKeeps(s);
    case EndPass => EndPassKeeps(s);
    case SeeEmpty => SeeEmptyKeeps(s);
    case _ => ControlKeeps(s, a);
  }

  lemma FollowsKeeps(s: Server, a: Action, s': Server)
    requires Invariant(s) && Follows(s, a, s')
    ensures Invariant(s')
  {
    NextKeeps(s, a);
  }

  lemma StartedFine()
    ensures Invariant(STARTED)
  {
  }

  lemma {:induction false} InvariantHolds(states: seq<Server>, actions: seq<Action>, k: nat)
    requires Execution(states, actions) && k < |states|
    ensures Invariant(states[k])
    decreases k
  {
    if k == 0 {
      StartedFine();
    } else {
      InvariantHolds(states, actions, k - 1);
      FollowsKeeps(states[k - 1], actions[k - 1], states[k]);
    }
  }

  // --- What holds of every execution -------------------------------------------------------------

  /** For every descriptor, the list has as many entries as there are connections with it not yet erased, reuse
      included. */
  lemma SessionsCounted(states: seq<Server>, actions: seq<Action>, k: nat, fd: nat)
    requires Execution(states, actions) && k < |states|
    ensures Entries(states[k].sessions, fd) == Unerased(states[k].conns, fd)
  {
    InvariantHolds(states, actions, k);
  }

  /** An erase, which comes after the socket was closed, always finds an entry of its descriptor. */
  lemma EraseFindsEntry(states: seq<Server>, actions: seq<Action>, k: nat, i: nat)
    requires Execution(states, actions) && k < |actions| && actions[k] == Handler(i, Erase)
    ensures i < |states[k].conns| && states[k].conns[i].fd in states[k].sessions && !Open(states[k].conns[i])
  {
    InvariantHolds(states, actions, k);
    assert Follows(states[k], actions[k], states[k + 1]);
    EntryExists(states[k].sessions, states[k].conns, i);
  }

  /** Once the listener is joined no connection is added; the shutdown pass reaches every one that still has its
      socket; and the TLS context is used only before it is freed: then every session is released and erased. */
  lemma ShutdownComplete(states: seq<Server>, actions: seq<Action>, k: nat)
    requires Execution(states, actions) && k < |states|
    ensures var s := states[k];
            && (AfterJoin(s.stopper) && k < |actions| ==> |states[k + 1].conns| == |s.conns|)
            && (s.stopper == PassDone ==> forall i | 0 <= i < |s.conns| && Open(s.conns[i]) :: s.conns[i].shut)
            && (s.stopper == Freed ==>
                  s.listener == Exited && forall i | 0 <= i < |s.conns| :: s.conns[i].phase == Erased)
  {
    InvariantHolds(states, actions, k);
    if k < |actions| {
      assert Follows(states[k], actions[k], states[k + 1]);
    }
  }

  predicate InService(phase: Phase) {
    phase == Handshaking || phase == Testing || phase == Receiving || phase.Answering?
  }

  /** A handler serves its connection until its peer fails it or the server is stopped. */
  lemma ServedWhileRunning(s: Server, a: Action, s': Server, i: nat)
    requires Follows(s, a, s') && s.running && i < |s.conns| && InService(s.conns[i].phase)
    requires s.listener == Spawning ==> i != |s.conns| - 1
    ensures i < |s'.conns|
    ensures InService(s'.conns[i].phase)
         || (a.Handler? && a.i == i && (a.move.ShakeFails? || a.move.ReadFails?) && s'.conns[i].phase == Leaving)
  {
  }

  /** Requests that connection i's handler has received in the first k actions. */
  function Arrived(actions: seq<Action>, i: nat, k: nat): nat
    requires k <= |actions|
  {
    if k == 0 then 0
    else
      var a := actions[k - 1];
      Arrived(actions, i, k - 1) + if a.Handler? && a.i == i && a.move.Receive? then a.move.lines else 0
  }

  function Left(s: Server, i: nat): nat {
    if i < |s.conns| && s.conns[i].phase.Answering? then s.conns[i].phase.left else 0
  }

  /** Requests that it has answered. */
  function Done(states: seq<Server>, actions: seq<Action>, i: nat, k: nat): nat
    requires k <= |actions| <= |states|
  {
    if k == 0 then 0
    else
      var a := actions[k - 1];
      Done(states, actions, i, k - 1)
      + if a == Handler(i, Answer) && Left(states[k - 1], i) > 0 then 1 else 0
  }

  lemma LeftAfter(s: Server, a: Action, s': Server, i: nat)
    requires Invariant(s) && Follows(s, a, s')
    ensures Left(s', i) == Left(s, i) + (if a.Handler? && a.i == i && a.move.Receive? then a.move.lines else 0)
                         - (if a == Handler(i, Answer) && Left(s, i) > 0 then 1 else 0)
  {
  }

  /** Every request received is answered or still to be, even once the server is told to stop. */
  lemma {:induction false} RequestsConserved(states: seq<Server>, actions: seq<Action>, i: nat, k: nat)
    requires Execution(states, actions) && k < |states|
    ensures Arrived(actions, i, k) == Done(states, actions, i, k) + Left(states[k], i)
    decreases k
  {
    if k > 0 {
      RequestsConserved(states, actions, i, k - 1);
      InvariantHolds(states, actions, k - 1);
      LeftAfter(states[k - 1], actions[k - 1], states[k], i);
    }
  }

  // --- And `stop` gets there ---------------------------------------------------------------------

  function Rank(c: Conn): nat {
    match c.phase
    case Receiving => CHUNK + 6
    case Answering(left) => left + 5
    case Listed => 6
    case Handshaking => 5
    case Testing => 4
    case Leaving => 3
    case Released => 2
    case Closed => 1
    case Erased => 0
  }

  function ListenerWork(listener: Listener): nat {
    match listener
    case Exited => 0
    case Checking => 1
    case Spawning => 2
    case Holding(_) => 10
    case Accepting => 11
  }

  function StopperWork(s: Server): int {
    match s.stopper
    case Freed => 0
    case Drained => 1
    case PassDone => 2
    case Passing(done) => 3 + |s.sessions| - done
    case Joined => 4 + |s.sessions|
    case SocketClosed => 5 + |s.sessions|
    case Flagged => 6 + |s.sessions|
    case Serving => 7 + |s.sessions|
  }

  /** What is left for all threads together to do, once the server has been told to stop. */
  function Remaining(s: Server): int {
    Sum(Rank, s.conns) + ListenerWork(s.listener) + StopperWork(s)
  }

  lemma RankFalls(c: Conn, m: Move)
    requires Starts(c.phase, m)
    ensures Rank(c.(phase := After(c.phase, m, false))) < Rank(c)
  {
  }

  lemma HandlerAdvances(s: Server, i: nat, m: Move)
    requires MayMove(s, i, m) && !s.running
    ensures Remaining(Acted(s, i, m)) < Remaining(s)
  {
    RankFalls(s.conns[i], m);
    SumUpdate(Rank, s.conns, i, s.conns[i].(phase := After(s.conns[i].phase, m, false)));
    RemoveFirstCounts(s.sessions, s.conns[i].fd, 0);
  }

  lemma ListenerAdvances(s: Server, a: Action)
    requires Invariant(s) && s.stopper != Serving && Enabled(s, a) && (a.Push? || a.Spawn?)
    ensures Remaining(Next(s, a)) < Remaining(s)
  {
    if a.Push? {
      assert Next(s, a).conns[..|s.conns|] == s.conns;
    } else {
      SumUpdate(Rank, s.conns, |s.conns| - 1, s.conns[|s.conns| - 1].(phase := Handshaking));
    }
  }

  /** Once `running` is cleared, whatever any thread does brings the end nearer. */
  lemma StopAdvances(s: Server, a: Action)
    requires Invariant(s) && s.stopper != Serving && Enabled(s, a)
    ensures Remaining(Next(s, a)) < Remaining(s) && Next(s, a).stopper != Serving
  {
    match a
    case Push => ListenerAdvances(s, a);
    case Spawn => ListenerAdvances(s, a);
    case Handler(i, m) => HandlerAdvances(s, i, m);
    case ShutOne => SumSame(Rank, s.conns, ShutDown(s.sessions[s.stopper.done], s.conns));
    case _ =>
  }

  lemma RemainingBound(s: Server)
    requires Invariant(s)
    ensures Remaining(s) >= 0
  {
  }

  lemma FollowsAdvances(s: Server, a: Action, s': Server)
    requires Invariant(s) && Follows(s, a, s') && s.stopper != Serving
    ensures Remaining(s') < Remaining(s) && s'.stopper != Serving
  {
    StopAdvances(s, a);
  }

  lemma StepAdvances(states: seq<Server>, actions: seq<Action>, k: nat)
    requires Execution(states, actions) && k < |actions| && states[k].stopper != Serving
    ensures Remaining(states[k + 1]) < Remaining(states[k]) && states[k + 1].stopper != Serving
  {
    InvariantHolds(states, actions, k);
    FollowsAdvances(states[k], actions[k], states[k + 1]);
  }

  lemma {:induction false} CountsDown(states: seq<Server>, actions: seq<Action>, j: nat, k: nat)
    requires Execution(states, actions) && j <= k < |states| && states[j].stopper != Serving
    ensures states[k].stopper != Serving && Remaining(states[k]) <= Remaining(states[j]) - (k - j)
    decreases k
  {
    if j < k {
      CountsDown(states, actions, j, k - 1);
      StepAdvances(states, actions, k - 1);
    }
  }

  /** Hence after `stop` has begun only so many actions are possible, whatever the schedule. */
  lemma StopEnds(states: seq<Server>, actions: seq<Action>, j: nat, k: nat)
    requires Execution(states, actions) && j <= k < |states| && states[j].stopper != Serving
    ensures k - j <= Remaining(states[j])
  {
    CountsDown(states, actions, j, k);
    InvariantHolds(states, actions, k);
    RemainingBound(states[k]);
  }

  /** What a thread can do without waiting for a peer: a call on a socket that has been shut down returns. */
  predicate Unaided(s: Server, a: Action) {
    match a
    case Handler(_, m) => m != ShakeOk && m != ShakeFails(false) && m != ReadFails(false) && !m.Receive?
    case Accept(_) => false
    case AcceptFails => s.stopper == SocketClosed
    case _ => true
  }

  function HandlerGoesOn(phase: Phase): Move {
    match phase
    case Listed | Handshaking => ShakeFails(true)
    case Testing => Test
    case Receiving => ReadFails(true)
    case Answering(_) => Answer
    case Leaving => Release
    case Released => Close
    case Closed | Erased => Erase
  }

  lemma HandlerGoesOnMoves(s: Server, i: nat)
    requires Invariant(s) && s.stopper == PassDone && i < |s.conns| && s.conns[i].phase != Erased
    ensures MayMove(s, i, HandlerGoesOn(s.conns[i].phase))
  {
  }

  lemma DrainGoesOn(s: Server) returns (a: Action)
    requires Invariant(s) && s.stopper == PassDone
    ensures Enabled(s, a) && Unaided(s, a)
  {
    if s.sessions == [] {
      a := SeeEmpty;
    } else {
      var fd := s.sessions[0];
      SumAtLeast(IsOf(fd), s.sessions, 0);
      assert Entries(s.sessions, fd) == Unerased(s.conns, fd);
      var i := SumFound(Owes(fd), s.conns);
      HandlerGoesOnMoves(s, i);
      a := Handler(i, HandlerGoesOn(s.conns[i].phase));
    }
  }

  function ListenerGoesOn(listener: Listener): Action {
    match listener
    case Checking => Check
    case Accepting => AcceptFails
    case Holding(_) => Push
    case Spawning => Spawn
    case Exited => JoinListener
  }

  /** And until the context is freed some thread can go on without the help of a peer: `stop` returns. */
  lemma StopNeverStuck(s: Server) returns (a: Action)
    requires Invariant(s) && s.stopper != Serving && s.stopper != Freed
    ensures Enabled(s, a) && Unaided(s, a)
  {
    match s.stopper
    case Flagged => a := CloseListening;
    case SocketClosed => a := ListenerGoesOn(s.listener);
    case Joined => a := BeginPass;
    case Passing(done) => a := if done < |s.sessions| then ShutOne else EndPass;
    case PassDone => a := DrainGoesOn(s);
    case Drained => a := FreeContext;
  }
}
