/** The desktop client's threads: the application thread, which connects, disconnects and stops, and the read threads it
    starts. Each atomic piece of `requestConnect`, `requestDisconnect`, `TcpClient` and `readLoop` is one action. */
module ClientLifecycle {
  import opened Machine

  /** Where a read thread is: before the loop's test, before `isOpen`, in `receiveLine`, ... */
  datatype Reader = Testing | Looking | Receiving | Processing | Sleeping | GotNothing | Clearing | Done

  /** `Cut`: `shutdownSocket` has been called, so that a blocked read returns. */
  datatype Socket = Closed | Connected | Cut

  /** Where the application thread is; `reconnect` when `requestDisconnect` was called by `requestConnect`. */
  datatype App =
    | Idle
    | Unblocking(reconnect: bool)
    | Joining(reconnect: bool)
    | Dropping(reconnect: bool)
    | Redropping
    | Dialing
    | Flagging
    | Spawning

  /** `readers`: every read thread ever started, in that order; `joinable`: `m_readThread` stands for the last one. */
  datatype Client = Client(app: App, running: bool, joinable: bool, socket: Socket, readers: seq<Reader>)

  const STARTED := Client(Idle, false, false, Closed, [])

  datatype Action =
    // the application thread
    | RequestDisconnect(reconnect: bool)
    | ShutdownSocket
    | Join
    | ClientDisconnect
    | DialSucceeds
    | DialFails
    | SetRunning
    | StartReader
    // read thread i
    | Read(i: nat, outcome: Outcome)

  /** What `receiveLine` gives in this step, if this step is one; `lost` when the connection was cut here. */
  datatype Outcome = Plain | Line | Nothing(lost: bool)

  /** One step of a read thread, given what it can see. */
  function Advanced(r: Reader, running: bool, socket: Socket, o: Outcome): Reader {
    match r
    case Testing => if running then Looking else Done
    case Looking => if socket == Closed then Sleeping else Receiving
    case Receiving => if o.Nothing? then GotNothing else Processing
    case Processing | Sleeping => Testing
    case GotNothing => if running then Clearing else Done
    case Clearing | Done => Done
  }

  predicate Enabled(c: Client, a: Action) {
    match a
    case RequestDisconnect(_) => c.app == Idle
    case ShutdownSocket => c.app.Unblocking?
    case Join => c.app.Joining? && (c.joinable ==> c.readers != [] && c.readers[|c.readers| - 1] == Done)
    case ClientDisconnect => c.app.Dropping? || c.app == Redropping
    case DialSucceeds | DialFails => c.app == Dialing
    case SetRunning => c.app == Flagging
    case StartReader => c.app == Spawning
    case Read(i, o) =>
      && i < |c.readers| && c.readers[i] != Done
      && (c.readers[i] == Receiving <==> o != Plain)
      && (o == Nothing(true) ==> c.socket == Cut)
  }

  function Next(c: Client, a: Action): Client
    requires Enabled(c, a)
  {
    match a
    case RequestDisconnect(reconnect) => c.(app := Unblocking(reconnect), running := false)
    case ShutdownSocket =>
      c.(app := Joining(c.app.reconnect), socket := if c.socket == Connected then Cut else c.socket)
    case Join => c.(app := Dropping(c.app.reconnect), joinable := false)
    case ClientDisconnect =>
      c.(app := if c.app == Redropping then Dialing else if c.app.reconnect then Redropping else Idle, socket := Closed)
    case DialSucceeds => c.(app := Flagging, socket := Connected)
    case DialFails => c.(app := Idle)
    case SetRunning => c.(app := Spawning, running := true)
    case StartReader => c.(app := Idle, joinable := true, readers := c.readers + [Testing])
    case Read(i, o) =>
      c.(readers := c.readers[i := Advanced(c.readers[i], c.running, c.socket, o)],
         running := c.running && c.readers[i] != Clearing)
  }

  predicate Follows(c: Client, a: Action, c': Client) {
    Enabled(c, a) && c' == Next(c, a)
  }

  predicate Execution(states: seq<Client>, actions: seq<Action>) {
    && |states| == |actions| + 1 && states[0] == STARTED
    && forall k | 0 <= k < |actions| :: Follows(states[k], actions[k], states[k + 1])
  }

  // --- The invariant -----------------------------------------------------------------------------

  predicate Alive(c: Client, i: nat) {
    i < |c.readers| && c.readers[i] != Done
  }

  /** From the exchange of `requestDisconnect` until a new connection is flagged. */
  predicate Disconnecting(app: App) {
    app.Unblocking? || app.Joining? || app.Dropping? || app == Redropping || app == Dialing || app == Flagging
  }

  ghost predicate Invariant(c: Client) {
    && (forall i: nat | Alive(c, i) :: c.joinable && i == |c.readers| - 1)
    && (c.joinable ==> c.readers != [] && c.socket != Closed)
    && (c.joinable ==> c.app == Idle || c.app.Unblocking? || (c.app.Joining? && c.socket == Cut))
    && (Disconnecting(c.app) ==> !c.running)
    && (c.app == Flagging || c.app == Spawning ==> c.socket == Connected)
    && (c.app == Spawning ==> c.running)
    && (c.app == Idle && !c.joinable ==> !c.running)
    && (!c.joinable && (c.app == Idle || c.app == Redropping || c.app == Dialing) ==> c.socket == Closed)
    && (forall i: nat | Alive(c, i) :: c.readers[i] != Sleeping)
  }

  lemma FollowsKeeps(c: Client, a: Action, c': Client)
    requires Invariant(c) && Follows(c, a, c')
    ensures Invariant(c')
  {
    if a.Read? {
      assert Alive(c, a.i);
    }
    forall i: nat | Alive(c', i) ensures c'.joinable && i == |c'.readers| - 1 && c'.readers[i] != Sleeping {
      if i < |c.readers| {
        assert Alive(c, i);
      }
    }
  }

  lemma {:induction false} InvariantHolds(states: seq<Client>, actions: seq<Action>, k: nat)
    requires Execution(states, actions) && k < |states|
    ensures Invariant(states[k])
    decreases k
  {
    if k > 0 {
      InvariantHolds(states, actions, k - 1);
      FollowsKeeps(states[k - 1], actions[k - 1], states[k]);
    }
  }

  // --- What holds of every execution -------------------------------------------------------------

  /** At most one read thread is alive, and it is the one `m_readThread` stands for: a thread's late clearing of
      `m_running` cannot hit a newer connection. It never finds the socket closed. */
  lemma OneReader(states: seq<Client>, actions: seq<Action>, k: nat, i: nat)
    requires Execution(states, actions) && k < |states| && Alive(states[k], i)
    ensures states[k].joinable && states[k].socket != Closed
    ensures forall j: nat | Alive(states[k], j) :: j == i
  {
    InvariantHolds(states, actions, k);
  }

  /** `TcpClient::disconnect`, be it the one in `connect`, frees what a reader uses only when there is none; the handle
      of a thread is never overwritten; connecting starts with `m_running` false and a new reader with `m_running` set
      and its socket connected; and between connections all is closed. */
  lemma ResourcesSafe(states: seq<Client>, actions: seq<Action>, k: nat)
    requires Execution(states, actions) && k < |actions|
    ensures actions[k] == ClientDisconnect ==> forall i: nat :: !Alive(states[k], i)
    ensures actions[k] == DialSucceeds || actions[k] == DialFails ==> forall i: nat :: !Alive(states[k], i)
    ensures actions[k] == StartReader ==> !states[k].joinable && states[k].running && states[k].socket == Connected
    ensures states[k].app == Idle && !states[k].joinable ==> states[k].socket == Closed && !states[k].running
    ensures Disconnecting(states[k].app) ==> !states[k].running
  {
    InvariantHolds(states, actions, k);
    assert Follows(states[k], actions[k], states[k + 1]);
  }

  /** A read thread ends only when `m_running` is clear: by `requestDisconnect`, or by itself after an empty line. */
  lemma ReaderEndsStopped(states: seq<Client>, actions: seq<Action>, k: nat, i: nat)
    requires Execution(states, actions) && k < |actions| && Alive(states[k], i) && !Alive(states[k + 1], i)
    ensures !states[k + 1].running
  {
    assert Follows(states[k], actions[k], states[k + 1]);
  }

  predicate GaveUp(c: Client, i: nat) {
    i < |c.readers| && (c.readers[i] == GotNothing || c.readers[i] == Clearing || c.readers[i] == Done)
  }

  /** A read thread that has got an empty line reads no more. */
  lemma {:induction false} NothingEnds(states: seq<Client>, actions: seq<Action>, j: nat, k: nat, i: nat)
    requires Execution(states, actions) && j <= k < |states| && GaveUp(states[j], i)
    ensures GaveUp(states[k], i)
    decreases k
  {
    if j < k {
      NothingEnds(states, actions, j, k - 1, i);
      assert Follows(states[k - 1], actions[k - 1], states[k]);
    }
  }

  /** Any other goes on reading as long as `m_running` is set. */
  lemma OthersReadOn(c: Client, a: Action, c': Client, i: nat)
    requires Follows(c, a, c') && c.running && i < |c.readers| && !GaveUp(c, i)
    ensures GaveUp(c', i) ==> a.Read? && a.i == i && a.outcome.Nothing?
  {
  }

  /** Once the old read thread is joined, `requestDisconnect` ends with all closed; as part of `requestConnect` it is
      followed by a dial, after which either all is closed again or one new reader runs on the new connection. */
  lemma AfterJoin(c: Client)
    requires Invariant(c) && c.app.Dropping?
    ensures Enabled(c, ClientDisconnect)
    ensures var closed := Next(c, ClientDisconnect);
            && closed.socket == Closed && !closed.joinable && !closed.running
            && if !c.app.reconnect then closed.app == Idle
               else
                 && Enabled(closed, ClientDisconnect)
                 && var dialing := Next(closed, ClientDisconnect);
                 && Enabled(dialing, DialSucceeds) && Enabled(dialing, DialFails)
                 && Next(dialing, DialFails) == closed.(app := Idle)
                 && var flagging := Next(dialing, DialSucceeds);
                 && Enabled(flagging, SetRunning)
                 && Enabled(Next(flagging, SetRunning), StartReader)
                 && Next(Next(flagging, SetRunning), StartReader)
                 == Client(Idle, true, true, Connected, c.readers + [Testing])
  {
  }

  // --- `requestDisconnect` returns ---------------------------------------------------------------

  function ReaderWork(r: Reader): nat {
    match r
    case Looking => 5
    case Receiving => 4
    case GotNothing => 3
    case Processing | Sleeping | Clearing => 2
    case Testing => 1
    case Done => 0
  }

  function AppWork(app: App): nat {
    match app
    case Unblocking(_) => 3
    case Joining(_) => 2
    case Dropping(_) => 1
    case _ => 0
  }

  /** What is left of a call of `requestDisconnect` that has cleared `m_running`. */
  function Remaining(c: Client): nat {
    Sum(ReaderWork, c.readers) + AppWork(c.app)
  }

  predicate InDisconnect(c: Client) {
    c.app.Unblocking? || c.app.Joining? || c.app.Dropping?
  }

  lemma ReaderWorkFalls(r: Reader, socket: Socket, o: Outcome)
    requires r != Done
    ensures ReaderWork(Advanced(r, false, socket, o)) < ReaderWork(r)
  {
  }

  /** Every action of either thread brings the end of the call nearer. */
  lemma DisconnectAdvances(c: Client, a: Action, c': Client)
    requires Invariant(c) && Follows(c, a, c') && InDisconnect(c)
    ensures Remaining(c') < Remaining(c)
  {
    if a.Read? {
      ReaderWorkFalls(c.readers[a.i], c.socket, a.outcome);
      SumUpdate(ReaderWork, c.readers, a.i, Advanced(c.readers[a.i], c.running, c.socket, a.outcome));
    }
  }

  /** So a call that is still going on after n actions had at least n to go. */
  lemma {:induction false} DisconnectEnds(states: seq<Client>, actions: seq<Action>, j: nat, k: nat)
    requires Execution(states, actions) && j <= k < |states|
    requires forall n | j <= n < k :: InDisconnect(states[n])
    ensures Remaining(states[k]) <= Remaining(states[j]) - (k - j)
    decreases k
  {
    if j < k {
      DisconnectEnds(states, actions, j, k - 1);
      InvariantHolds(states, actions, k - 1);
      DisconnectAdvances(states[k - 1], actions[k - 1], states[k]);
    }
  }

  /** And some thread can always act without the peer's help: a read on a socket that was cut returns. */
  lemma DisconnectNeverStuck(c: Client) returns (a: Action)
    requires Invariant(c) && InDisconnect(c)
    ensures Enabled(c, a) && (a.Read? && c.readers[a.i] == Receiving ==> a.outcome == Nothing(true))
  {
    match c.app
    case Unblocking(_) => a := ShutdownSocket;
    case Dropping(_) => a := ClientDisconnect;
    case Joining(_) =>
      var last := |c.readers| - 1;
      if c.joinable && c.readers[last] != Done {
        a := Read(last, if c.readers[last] == Receiving then Nothing(true) else Plain);
      } else {
        a := Join;
      }
  }
}
