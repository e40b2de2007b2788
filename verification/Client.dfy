/** The desktop client: its line transport, the requests it sends and the relay-state signals it emits. */
module Client {
  import opened Machine
  import opened Segments
  import opened Relay
  import opened Framing
  import opened Json
  import opened Router

  // --- Transport ---------------------------------------------------------------------------------

  /** How much of a message of `len` bytes is out after `send` calls k, k+1, ...: call j offers the rest and the kernel
      takes at most `kernel(j)` bytes of it; nothing or an error ends the transfer. */
  function Pushed(kernel: nat -> int, k: nat, sent: nat, len: nat): (n: nat)
    requires sent <= len
    ensures sent <= n <= len
    decreases len - sent
  {
    if sent == len || kernel(k) <= 0 then sent
    else Pushed(kernel, k + 1, if kernel(k) < len - sent then sent + kernel(k) else len, len)
  }

  /** What calls k, k+1, ..., k+n-1 take together when each takes what it can. */
  function Taken(kernel: nat -> int, k: nat, n: nat): int {
    if n == 0 then 0 else Taken(kernel, k, n - 1) + kernel(k + n - 1)
  }

  lemma {:induction false} TakenFirst(kernel: nat -> int, k: nat, n: nat)
    requires n > 0
    ensures Taken(kernel, k, n) == kernel(k) + Taken(kernel, k + 1, n - 1)
  {
    if n > 1 {
      TakenFirst(kernel, k, n - 1);
    }
  }

  lemma {:induction false} TakenPositive(kernel: nat -> int, k: nat, n: nat)
    requires forall j: nat | k <= j < k + n :: kernel(j) > 0
    ensures Taken(kernel, k, n) >= n
  {
    if n > 0 {
      TakenPositive(kernel, k, n - 1);
    }
  }

  /** After n calls that each took something, the message is out if that is enough for it; if not, and the next call
      fails, exactly what they took is out. */
  lemma {:induction false} PushedExact(kernel: nat -> int, k: nat, sent: nat, len: nat, n: nat)
    requires sent <= len && forall j: nat | k <= j < k + n :: kernel(j) > 0
    ensures sent + Taken(kernel, k, n) >= len ==> Pushed(kernel, k, sent, len) == len
    ensures sent + Taken(kernel, k, n) < len && kernel(k + n) <= 0
            ==> Pushed(kernel, k, sent, len) == sent + Taken(kernel, k, n)
    decreases n
  {
    if n > 0 {
      TakenFirst(kernel, k, n);
      if sent + kernel(k) < len {
        PushedExact(kernel, k + 1, sent + kernel(k), len, n - 1);
      } else {
        TakenPositive(kernel, k + 1, n - 1);
      }
    }
  }

  lemma {:induction false} PushedAll(kernel: nat -> int, k: nat, sent: nat, len: nat)
    requires sent <= len && forall j: nat | k <= j :: kernel(j) > 0
    ensures Pushed(kernel, k, sent, len) == len
    decreases len - sent
  {
    if sent < len {
      PushedAll(kernel, k + 1, if kernel(k) < len - sent then sent + kernel(k) else len, len);
    }
  }

  lemma SameFirstLF(a: seq<byte>, s: seq<byte>, pos: nat)
    requires a <= s && pos == FindLF(a) < |a|
    ensures FindLF(s) == pos && s[..pos] == a[..pos]
  {
    FirstLF(a[..pos], s[pos + 1..]);
    assert s == a[..pos] + [LF] + s[pos + 1..];
  }

  class TcpClient {
    var socketFd: int
    var readBuffer: seq<byte>
    /** The outside world: what `recv` will return, call by call, and what the kernel has taken for the peer. */
    var incoming: seq<seq<byte>>
    var wire: seq<byte>

    constructor ()
      ensures socketFd < 0 && readBuffer == [] && incoming == [] && wire == []
    {
      socketFd, readBuffer, incoming, wire := -1, [], [], [];
    }

    /** Every byte of this connection not yet handed out as part of a line. */
    function Available(): seq<byte>
      reads this
    {
      readBuffer + if socketFd >= 0 then Received(incoming) else []
    }

    method Disconnect()
      modifies this
      ensures socketFd < 0 && Available() == [] && wire == old(wire)
    {
      socketFd := -1;
      readBuffer := [];
    }

    /** A new connection, over which `stream` will arrive; it starts with nothing of the old one. */
    method Connect(fd: int, stream: seq<seq<byte>>) returns (ok: bool)
      modifies this
      ensures ok <==> fd >= 0
      ensures ok ==> socketFd == fd && Available() == Received(stream)
      ensures !ok ==> socketFd < 0 && Available() == []
      ensures wire == old(wire)
    {
      Disconnect();
      if fd < 0 {
        return false;
      }
      socketFd, incoming := fd, stream;
      return true;
    }

    method IsOpen() returns (open: bool)
      ensures open <==> socketFd >= 0
    {
      return socketFd >= 0;
    }

    /** True exactly when the whole message went out; otherwise a proper prefix of it did. */
    method Send(message: seq<byte>, kernel: nat -> int) returns (ok: bool)
      modifies this`wire
      ensures old(socketFd) < 0 ==> !ok && wire == old(wire)
      ensures old(socketFd) >= 0 ==> wire == old(wire) + message[..Pushed(kernel, 0, 0, |message|)]
      ensures old(socketFd) >= 0 ==> (ok <==> Pushed(kernel, 0, 0, |message|) == |message|)
    {
      if socketFd < 0 {
        return false;
      }
      var totalSent, k := 0, 0;
      while totalSent < |message|
        invariant 0 <= totalSent <= |message| && 0 <= k
        invariant wire == old(wire) + message[..totalSent]
        invariant Pushed(kernel, 0, 0, |message|) == Pushed(kernel, k, totalSent, |message|)
        decreases |message| - totalSent
      {
        if kernel(k) <= 0 {
          return false;
        }
        var sent := if kernel(k) < |message| - totalSent then kernel(k) else |message| - totalSent;
        assert message[..totalSent + sent] == message[..totalSent] + message[totalSent..totalSent + sent];
        wire := wire + message[totalSent..totalSent + sent];
        totalSent, k := totalSent + sent, k + 1;
      }
      return true;
    }

    /** The next line, without its newline, however the bytes arrive; "" when the stream ends without one. Nothing
        that was received is lost. */
    method ReceiveLine() returns (line: seq<byte>)
      modifies this`readBuffer, this`incoming
      ensures var all := old(Available()); var i := FindLF(all);
              if i < |all| then line == all[..i] && Available() == all[i + 1..]
              else line == [] && Available() == all
    {
      ghost var all := Available();
      while true
        invariant Available() == all
        decreases |incoming|
      {
        var pos := FindLF(readBuffer);
        if pos < |readBuffer| {
          SameFirstLF(readBuffer, all, pos);
          line := readBuffer[..pos];
          readBuffer := readBuffer[pos + 1..];
          return;
        }
        if socketFd < 0 || incoming == [] || incoming[0] == [] {
          assert all == readBuffer;
          return [];
        }
        Assoc(readBuffer, incoming[0], Received(incoming[1..]));
        readBuffer, incoming := readBuffer + incoming[0], incoming[1..];
      }
    }
  }

  // --- Requests ----------------------------------------------------------------------------------

  datatype Call = Do(id: int32, cmd: Command) | QueryAll

  function MethodName(call: Call): string {
    match call
    case QueryAll => "get_relays"
    case Do(_, SetRelay(_)) => "set_relay"
    case Do(_, StartTimer(_)) => "start_timer"
    case Do(_, StartPulse(_)) => "start_pulse"
    case Do(_, StartBlink(_, _, _)) => "start_blink"
  }

  function Request(call: Call, id: int32): Json {
    var req := map[JSONRPC := Str("2.0"), METHOD := Str(MethodName(call)), ID := Int(id)];
    Obj(if call.Do? then req[PARAMS := Obj(Params(call.id, call.cmd))] else req)
  }

  // --- Signals -----------------------------------------------------------------------------------

  datatype Signal = Signal(id: int32, on: bool)

  /** `std::stoi` of an object key; most keys make it throw. */
  function Stoi(lib: Library, key: Name): Option<int32> {
    match key
    case NUMBER(n) => Some(n)
    case OTHER(text) => lib.stoi(text)
    case _ => None
  }

  /** The signals of the first k keys visited. */
  function ItemSignals(lib: Library, fields: map<Name, Json>, keys: seq<Name>, k: nat): seq<Signal>
    requires k <= |keys| && forall key | key in keys :: key in fields
    decreases k
  {
    if k == 0 then []
    else
      var done := ItemSignals(lib, fields, keys, k - 1);
      var id, val := Stoi(lib, keys[k - 1]), fields[keys[k - 1]];
      if id.Some? && val.Bool? then done + [Signal(id.value, val.b)] else done
  }

  /** The relay-state signals an answer gives rise to: none for an error, one for a set_relay result, one for each
      numbered boolean of any other object. */
  function SignalsOf(lib: Library, res: Json): seq<Signal>
    requires VisitsOwn(lib)
  {
    if Has(res, ERROR) && Get(res, ERROR) != Null then []
    else if !Has(res, RESULT) || !Get(res, RESULT).Obj? then []
    else
      var result := Get(res, RESULT);
      if Has(result, RELAY_ID) && Has(result, STATE) then
        var id, state := lib.toInt(Get(result, RELAY_ID)), lib.toBool(Get(result, STATE));
        if id.Got? && state.Got? then [Signal(id.value, state.value)] else []
      else
        var keys := lib.items(result.fields);
        ItemSignals(lib, result.fields, keys, |keys|)
  }

  /** The signals of each message. */
  function Shows(lib: Library, msgs: seq<Json>): seq<seq<Signal>>
    requires VisitsOwn(lib)
  {
    seq(|msgs|, i requires 0 <= i < |msgs| => SignalsOf(lib, msgs[i]))
  }

  /** The signals of the first k messages, in order. */
  function MessageSignals(lib: Library, msgs: seq<Json>, k: nat): seq<Signal>
    requires VisitsOwn(lib) && k <= |msgs|
  {
    Flat(Shows(lib, msgs), k)
  }

  /** For each of these signals, which message it comes from. */
  function MessageSources(lib: Library, msgs: seq<Json>, k: nat): seq<nat>
    requires VisitsOwn(lib) && k <= |msgs|
  {
    Origins(Shows(lib, msgs), k)
  }

  lemma MessageSignalsKept(lib: Library, msgs: seq<Json>, msg: Json, k: nat)
    requires VisitsOwn(lib) && k <= |msgs|
    ensures MessageSignals(lib, msgs + [msg], k) == MessageSignals(lib, msgs, k)
    ensures MessageSources(lib, msgs + [msg], k) == MessageSources(lib, msgs, k)
  {
    assert Shows(lib, msgs + [msg]) == Shows(lib, msgs) + [SignalsOf(lib, msg)];
    FlatKept(Shows(lib, msgs), SignalsOf(lib, msg), k);
  }

  /** A line that does not parse gives no signal. */
  function LineSignal(lib: Library, line: seq<byte>): seq<Signal>
    requires VisitsOwn(lib)
  {
    var res := lib.parse(line);
    if res.Got? then SignalsOf(lib, res.value) else []
  }

  /** The signals of a sequence of received lines. */
  function LineSignals(lib: Library, lines: seq<seq<byte>>): seq<Signal>
    requires VisitsOwn(lib)
    decreases |lines|
  {
    if lines == [] then []
    else LineSignals(lib, lines[..|lines| - 1]) + LineSignal(lib, lines[|lines| - 1])
  }

  lemma LineSignalsSnoc(lib: Library, lines: seq<seq<byte>>, n: nat)
    requires n < |lines| && VisitsOwn(lib)
    ensures LineSignals(lib, lines[..n + 1]) == LineSignals(lib, lines[..n]) + LineSignal(lib, lines[n])
  {
    assert lines[..n + 1][..n] == lines[..n];
  }

  /** The first n lines were not empty, and these are the signals after them. */
  ghost predicate Processed(lib: Library, before: seq<Signal>, lines: seq<seq<byte>>, n: nat, signals: seq<Signal>)
    requires n <= |lines| && VisitsOwn(lib)
  {
    (forall k | 0 <= k < n :: lines[k] != []) && signals == before + LineSignals(lib, lines[..n])
  }

  lemma ProcessedOneMore(lib: Library, before: seq<Signal>, lines: seq<seq<byte>>, n: nat)
    requires n < |lines| && lines[n] != [] && VisitsOwn(lib)
    ensures forall signals | Processed(lib, before, lines, n, signals) ::
              Processed(lib, before, lines, n + 1, signals + LineSignal(lib, lines[n]))
  {
    LineSignalsSnoc(lib, lines, n);
    Assoc(before, LineSignals(lib, lines[..n]), LineSignal(lib, lines[n]));
  }

  lemma FirstOfRest<T>(s: seq<T>, n: nat)
    requires n <= |s|
    ensures if n == |s| then s[n..] == [] else s[n..] != [] && s[n..][0] == s[n] && s[n..][1..] == s[n + 1..]
  {
  }

  class AppController {
    const lib: Library
    const client: TcpClient
    var requestId: int32
    var running: bool
    var signals: seq<Signal>

    constructor (lib: Library, client: TcpClient)
      ensures this.lib == lib && this.client == client && requestId == 1 && !running && signals == []
    {
      this.lib, this.client, requestId, running, signals := lib, client, 1, false, [];
    }

    /** Sends one request under the next id; nothing happens when not connected. */
    method SendJsonRpc(call: Call, kernel: nat -> int) returns (ok: bool)
      requires requestId < 0x7FFF_FFFF
      modifies this`requestId, client`wire
      ensures client.socketFd < 0 ==> !ok && requestId == old(requestId) && client.wire == old(client.wire)
      ensures client.socketFd >= 0 ==>
        var raw := lib.dump(Request(call, old(requestId))) + [LF];
        && requestId == old(requestId) + 1
        && client.wire == old(client.wire) + raw[..Pushed(kernel, 0, 0, |raw|)]
        && (ok <==> Pushed(kernel, 0, 0, |raw|) == |raw|)
    {
      var open := client.IsOpen();
      if !open {
        return false;
      }
      var req := Request(call, requestId);
      requestId := requestId + 1;
      var raw := lib.dump(req) + [LF];
      ok := client.Send(raw, kernel);
    }

    method ProcessResponse(rawResponse: seq<byte>)
      requires VisitsOwn(lib)
      modifies this`signals
      ensures signals == old(signals) + LineSignal(lib, rawResponse)
      ensures ReadsBack(lib) ==> forall id, channel: int32, on: bool
                | lib.parse(rawResponse) == Got(SuccessResponse(id, Echo(channel, SetRelay(on)))) ::
                  signals == old(signals) + [Signal(channel, on)]
    {
      var parsed := lib.parse(rawResponse);
      if parsed.Bad? {
        return;
      }
      var res := parsed.value;
      if Has(res, ERROR) && Get(res, ERROR) != Null {
        return;
      }
      if !Has(res, RESULT) || !Get(res, RESULT).Obj? {
        return;
      }
      var result := Get(res, RESULT);
      if Has(result, RELAY_ID) && Has(result, STATE) {
        var id, state := lib.toInt(Get(result, RELAY_ID)), lib.toBool(Get(result, STATE));
        if id.Got? && state.Got? {
          signals := signals + [Signal(id.value, state.value)];
        }
      } else {
        var keys := lib.items(result.fields);
        ghost var before := signals;
        for k := 0 to |keys|
          invariant signals == before + ItemSignals(lib, result.fields, keys, k)
        {
          assert keys[k] in keys;
          var id, val := Stoi(lib, keys[k]), result.fields[keys[k]];
          if id.Some? && val.Bool? {
            signals := signals + [Signal(id.value, val.b)];
          }
        }
      }
    }

    /** `receiveLine`, in terms of the lines still to come on the connection. */
    method NextLine() returns (line: seq<byte>)
      modifies client
      ensures var lines := Lines(old(client.Available()));
              if lines == [] then line == [] else line == lines[0] && Lines(client.Available()) == lines[1..]
    {
      HeadLine(client.Available());
      line := client.ReceiveLine();
    }

    /** One round of the read thread, over the lines still to come on the connection; false at an empty line. */
    method ReadOnce() returns (more: bool)
      requires VisitsOwn(lib)
      modifies this, client
      ensures var lines := Lines(old(client.Available()));
              if lines == [] || lines[0] == [] then !more && !running && signals == old(signals)
              else && more && Lines(client.Available()) == lines[1..]
                   && signals == old(signals) + LineSignal(lib, lines[0])
    {
      var line := NextLine();
      if line == [] {
        running := false;
        return false;
      }
      ghost var rest := client.Available();
      ProcessResponse(line);
      assert client.Available() == rest;
      return true;
    }

    /** The read thread, which finds `m_running` set at its first `rounds` checks. It processes lines in order and
        stops early only at an empty line or the end of the stream. While the thread lives the socket is not
        closed (see ClientLifecycle), so `isOpen` holds throughout. */
    method ReadLoop(rounds: nat) returns (ghost n: nat)
      requires client.socketFd >= 0
      requires VisitsOwn(lib)
      modifies this, client
      ensures var lines := Lines(old(client.Available()));
              && n <= rounds && n <= |lines|
              && (forall k | 0 <= k < n :: lines[k] != [])
              && signals == old(signals) + LineSignals(lib, lines[..n])
              && (n < rounds ==> !running && (n == |lines| || lines[n] == []))
    {
      n := 0;
      ghost var lines := Lines(client.Available());
      var i := 0;
      while i < rounds
        invariant 0 <= n == i <= rounds && n <= |lines|
        invariant Lines(client.Available()) == lines[n..]
        invariant Processed(lib, old(signals), lines, n, signals)
      {
        FirstOfRest(lines, n);
        var more := ReadOnce();
        if !more {
          return;
        }
        ProcessedOneMore(lib, old(signals), lines, n);
        i, n := i + 1, n + 1;
      }
    }
  }

  // --- The line transport as a whole -------------------------------------------------------------

  function Dumps(lib: Library, msgs: seq<Json>): seq<seq<byte>> {
    seq(|msgs|, i requires 0 <= i < |msgs| => lib.dump(msgs[i]))
  }

  /** Printed messages, each followed by a newline, come out of any stream that carries them, complete or cut in the
      middle of one, as exactly those messages, on either side: as the requests a server handles and as the non-empty
      lines a client reads. */
  lemma TransportDelivers(lib: Library, msgs: seq<Json>, stream: seq<byte>, rest: seq<byte>)
    requires LF !in rest && PrintAsLines(lib, msgs)
    requires stream == Join(Dumps(lib, msgs)) + rest
    ensures Lines(stream) == Requests(Lines(stream)) == Dumps(lib, msgs) && Tail(stream) == rest
    ensures forall i | 0 <= i < |msgs| :: Lines(stream)[i] != [] && lib.parse(Lines(stream)[i]) == Got(msgs[i])
  {
    LinesUnique(Dumps(lib, msgs), rest);
    AllRequests(Dumps(lib, msgs));
  }

  lemma {:induction false} SignalsOfDumps(lib: Library, msgs: seq<Json>, k: nat)
    requires VisitsOwn(lib) && k <= |msgs| && PrintAsLines(lib, msgs)
    ensures LineSignals(lib, Dumps(lib, msgs)[..k]) == MessageSignals(lib, msgs, k)
    decreases k
  {
    if k > 0 {
      SignalsOfDumps(lib, msgs, k - 1);
      LineSignalsSnoc(lib, Dumps(lib, msgs), k - 1);
      assert lib.parse(Dumps(lib, msgs)[k - 1]) == Got(msgs[k - 1]);
    }
  }

  /** The read thread on a stream of printed messages, at whatever point it breaks off: it processes as many as there
      are, or as it is given time for, and emits exactly their signals. It never takes a message for a lost
      connection: it stops by itself only after the last. */
  method ReadMessages(app: AppController, rounds: nat, ghost msgs: seq<Json>, ghost rest: seq<byte>)
    returns (ghost n: nat)
    requires app.client.socketFd >= 0 && VisitsOwn(app.lib)
    requires LF !in rest && PrintAsLines(app.lib, msgs)
    requires app.client.Available() == Join(Dumps(app.lib, msgs)) + rest
    modifies app, app.client
    ensures n == if rounds <= |msgs| then rounds else |msgs|
    ensures app.signals == old(app.signals) + MessageSignals(app.lib, msgs, n)
    ensures n < rounds ==> !app.running
  {
    TransportDelivers(app.lib, msgs, app.client.Available(), rest);
    n := app.ReadLoop(rounds);
    SignalsOfDumps(app.lib, msgs, n);
  }
}
