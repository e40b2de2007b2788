/** JSON values, and what the model takes from the JSON library. */
module Json {
  import opened Relay
  import opened StatusQuery
  import opened Framing

  type int32 = x: int | -0x8000_0000 <= x < 0x8000_0000

  /** Object keys. NUMBER is a key that is a decimal number as printed; OTHER is any further text. */
  datatype Name =
    | JSONRPC | ID | METHOD | PARAMS | RESULT | ERROR | CODE | MESSAGE
    | SUCCESS | RELAY_ID | STATE | SECONDS | DURATION_MS | ON_MS | OFF_MS | COUNT | STATUS
    | NUMBER(n: int32)
    | OTHER(text: string)

  datatype Handler = SET_RELAY | GET_RELAYS | START_TIMER | START_PULSE | START_BLINK | GET_RELAY_STATUS

  /** The error texts of the daemon, by what they say. */
  datatype Message =
    | ParseError(what: string)
    | EmptyBatch
    | BadEnvelope
    | MethodNotFound(name: string)
    | MissingParams(handler: Handler)
    | RelayIdOutOfRange
    | CommandFailed(handler: Handler)
    | ExceptionInHandler(what: string)

  function Needs(h: Handler): string {
    match h
    case SET_RELAY => "'relay_id' (integer) and 'state' (boolean) are"
    case START_TIMER => "'relay_id' (integer) and 'seconds' (integer) are"
    case START_PULSE => "'relay_id' (integer) and 'duration_ms' (integer) are"
    case START_BLINK => "'relay_id' (integer), 'on_ms' (integer), 'off_ms' (integer), and 'count' (integer) are"
    case _ => "'relay_id' (integer) is"
  }

  function Deed(h: Handler): string {
    match h
    case START_TIMER => "start timer"
    case START_PULSE => "start pulse"
    case START_BLINK => "start blink"
    case _ => "update GPIO pin state"
  }

  function Text(m: Message): string {
    match m
    case ParseError(what) => "Parse error: " + what
    case EmptyBatch => "Invalid Request: Empty batch"
    case BadEnvelope => "Invalid Request: Missing required JSON-RPC 2.0 fields"
    case MethodNotFound(name) => "Method not found: " + name
    case MissingParams(h) => "Invalid params: " + Needs(h) + " required."
    case RelayIdOutOfRange => "Invalid params: 'relay_id' must be between 1 and 8."
    case CommandFailed(h) => "Internal error: Failed to " + Deed(h) + "."
    case ExceptionInHandler(what) => "Internal error: Exception occurred in handler: " + what
  }

  /** A non-integer number keeps its digits; the conversions below decide what becomes of it. */
  datatype Json =
    | Null
    | Bool(b: bool)
    | Int(n: int)
    | Float(digits: string)
    | Str(s: string)
    | Arr(items: seq<Json>)
    | Obj(fields: map<Name, Json>)

  predicate Has(j: Json, key: Name) {
    j.Obj? && key in j.fields
  }

  function Get(j: Json, key: Name): Json
    requires Has(j, key)
  {
    j.fields[key]
  }

  /** A conversion that may throw, with the text of its exception. */
  datatype Conv<+T> = Got(value: T) | Bad(what: string)

  datatype Option<+T> = None | Some(value: T)

  /** What is taken as given: the library's typed reads, the order in which it visits an object's items, its printing
      and parsing, the status text, and the error texts, which are those of `Text`. */
  datatype Library = Library(
    toInt: Json -> Conv<int32>,
    toU32: Json -> Conv<uint32>,
    toBool: Json -> Conv<bool>,
    stoi: string -> Option<int32>,
    items: map<Name, Json> -> seq<Name>,
    show: Status -> string,
    text: Message -> string,
    parse: seq<byte> -> Conv<Json>,
    dump: Json -> seq<byte>)

  ghost predicate OwnTexts(lib: Library) {
    forall m: Message :: lib.text(m) == Text(m)
  }

  /** A value of the very type asked for converts to itself. */
  ghost predicate ReadsBack(lib: Library) {
    && (forall n: int32 :: lib.toInt(Int(n)) == Got(n))
    && (forall n: uint32 :: lib.toU32(Int(n)) == Got(n))
    && (forall b: bool :: lib.toBool(Bool(b)) == Got(b))
  }

  /** Iteration visits only keys of the object. */
  ghost predicate VisitsOwn(lib: Library) {
    forall fields: map<Name, Json>, key: Name {:trigger key in lib.items(fields)} ::
      key in lib.items(fields) ==> key in fields
  }

  /** Iteration over this object visits each of its keys exactly once. */
  ghost predicate VisitsAll(lib: Library, fields: map<Name, Json>) {
    && (forall key :: key in fields ==> key in lib.items(fields))
    && (forall i, j | 0 <= i < j < |lib.items(fields)| :: lib.items(fields)[i] != lib.items(fields)[j])
  }

  /** This value is printed as one non-empty line (section 7 of RFC 8259: control characters are escaped in strings)
      that parses to it. That is so of the values the two programs send and of all that were parsed; a key OTHER(text)
      whose text is that of another name parses to that name. */
  ghost predicate PrintsAsLine(lib: Library, j: Json) {
    10 !in lib.dump(j) && lib.dump(j) != [] && lib.dump(j) != [13] && lib.parse(lib.dump(j)) == Got(j)
  }

  ghost predicate PrintAsLines(lib: Library, msgs: seq<Json>) {
    forall i | 0 <= i < |msgs| :: PrintsAsLine(lib, msgs[i])
  }
}
