/** Newline framing of the byte streams, at both ends of a connection. */
module Framing {
  import opened Machine

  newtype byte = x: int | 0 <= x < 256

  const LF: byte := 10
  const CR: byte := 13

  /** Where the first newline is, or the length when there is none. */
  function FindLF(s: seq<byte>): (i: nat)
    ensures i <= |s| && (i < |s| ==> s[i] == LF) && LF !in s[..i]
  {
    if s == [] || s[0] == LF then 0
    else
      var i := FindLF(s[1..]);
      assert s[..i + 1] == [s[0]] + s[1..][..i];
      i + 1
  }

  /** The newline-terminated lines of a stream, without their newlines. */
  function Lines(s: seq<byte>): seq<seq<byte>>
    decreases |s|
  {
    var i := FindLF(s);
    if i == |s| then [] else [s[..i]] + Lines(s[i + 1..])
  }

  /** What follows the last newline. */
  function Tail(s: seq<byte>): seq<byte>
    decreases |s|
  {
    var i := FindLF(s);
    if i == |s| then s else Tail(s[i + 1..])
  }

  function Join(lines: seq<seq<byte>>): seq<byte> {
    if lines == [] then [] else lines[0] + [LF] + Join(lines[1..])
  }

  ghost predicate NewlineFree(lines: seq<seq<byte>>) {
    forall k | 0 <= k < |lines| :: LF !in lines[k]
  }

  lemma {:induction false} FirstLF(a: seq<byte>, b: seq<byte>)
    requires LF !in a
    ensures FindLF(a + [LF] + b) == |a|
    decreases |a|
  {
    if a != [] {
      FirstLF(a[1..], b);
      assert (a + [LF] + b)[1..] == a[1..] + [LF] + b;
    }
  }

  lemma NoLF(s: seq<byte>)
    requires LF !in s
    ensures Lines(s) == [] && Tail(s) == s
  {
    assert FindLF(s) == |s|;
  }

  lemma HeadLine(s: seq<byte>)
    ensures var i := FindLF(s);
            if i < |s| then |Lines(s)| > 0 && Lines(s)[0] == s[..i] && Lines(s)[1..] == Lines(s[i + 1..])
            else Lines(s) == []
  {
  }

  lemma LinesCons(a: seq<byte>, b: seq<byte>)
    requires LF !in a
    ensures Lines(a + [LF] + b) == [a] + Lines(b) && Tail(a + [LF] + b) == Tail(b)
  {
    var s := a + [LF] + b;
    FirstLF(a, b);
    assert s[..|a|] == a && s[|a| + 1..] == b;
  }

  lemma JoinCons(a: seq<byte>, lines: seq<seq<byte>>)
    ensures Join([a] + lines) == a + [LF] + Join(lines)
  {
    assert ([a] + lines)[1..] == lines;
  }

  /** Lines and Tail are the only way to read a stream as newline-free lines and a newline-free rest. */
  lemma {:induction false} LinesUnique(lines: seq<seq<byte>>, rest: seq<byte>)
    requires NewlineFree(lines) && LF !in rest
    ensures Lines(Join(lines) + rest) == lines && Tail(Join(lines) + rest) == rest
    decreases |lines|
  {
    if lines == [] {
      assert Join(lines) + rest == rest;
      NoLF(rest);
    } else {
      var b := Join(lines[1..]) + rest;
      LinesUnique(lines[1..], rest);
      assert Join(lines) + rest == lines[0] + [LF] + b;
      LinesCons(lines[0], b);
    }
  }

  lemma CutFirst(s: seq<byte>, i: nat)
    requires i < |s| && s[i] == LF
    ensures s == s[..i] + [LF] + s[i + 1..]
  {
  }

  ghost predicate Covered(s: seq<byte>) {
    s == Join(Lines(s)) + Tail(s) && NewlineFree(Lines(s)) && LF !in Tail(s)
  }

  lemma CoveredCons(a: seq<byte>, b: seq<byte>)
    requires LF !in a && Covered(b)
    ensures Covered(a + [LF] + b)
  {
    LinesCons(a, b);
    JoinCons(a, Lines(b));
    Assoc(a + [LF], Join(Lines(b)), Tail(b));
  }

  lemma {:induction false} LinesCover(s: seq<byte>)
    ensures Covered(s)
    decreases |s|
  {
    var i := FindLF(s);
    if i == |s| {
      assert s[..i] == s;
      NoLF(s);
    } else {
      LinesCover(s[i + 1..]);
      CutFirst(s, i);
      CoveredCons(s[..i], s[i + 1..]);
    }
  }

  lemma {:induction false} JoinConcat(a: seq<seq<byte>>, b: seq<seq<byte>>)
    ensures Join(a + b) == Join(a) + Join(b)
    decreases |a|
  {
    if a == [] {
      assert a + b == b;
    } else {
      JoinConcat(a[1..], b);
      assert (a + b)[1..] == a[1..] + b;
    }
  }

  /** More bytes only complete the unterminated tail. */
  lemma LinesAppend(s: seq<byte>, more: seq<byte>)
    ensures Lines(s + more) == Lines(s) + Lines(Tail(s) + more)
    ensures Tail(s + more) == Tail(Tail(s) + more)
  {
    LinesCover(s);
    var t := Tail(s) + more;
    LinesCover(t);
    JoinConcat(Lines(s), Lines(t));
    Assoc(Join(Lines(s)), Tail(s), more);
    Assoc(Join(Lines(s)), Join(Lines(t)), Tail(t));
    LinesUnique(Lines(s) + Lines(t), Tail(t));
  }

  /** What the `recv` calls deliver before the first one that returns nothing. */
  function Received(chunks: seq<seq<byte>>): seq<byte> {
    if chunks == [] || chunks[0] == [] then [] else chunks[0] + Received(chunks[1..])
  }

  // --- What arrives -----------------------------------------------------------------------------

  ghost predicate Full(chunks: seq<seq<byte>>) {
    forall j | 0 <= j < |chunks| :: chunks[j] != []
  }

  lemma {:induction false} ReceivedConcat(a: seq<seq<byte>>, b: seq<seq<byte>>)
    requires Full(a)
    ensures Received(a + b) == Received(a) + Received(b)
    decreases |a|
  {
    if a == [] {
      assert a + b == b;
    } else {
      ReceivedConcat(a[1..], b);
      assert (a + b)[1..] == a[1..] + b;
      Assoc(a[0], Received(a[1..]), Received(b));
    }
  }

  lemma ReceivedLast(chunks: seq<seq<byte>>, chunk: seq<byte>)
    requires chunk != [] && Full(chunks)
    ensures Received(chunks + [chunk]) == Received(chunks) + chunk
  {
    ReceivedConcat(chunks, [chunk]);
    assert [chunk][1..] == [] && chunk + [] == chunk;
  }

  /** Nothing arrives after a `recv` that returns nothing. */
  lemma ReceivedStops(a: seq<seq<byte>>, b: seq<seq<byte>>)
    requires Full(a)
    ensures Received(a + ([[]] + b)) == Received(a)
  {
    ReceivedConcat(a, [[]] + b);
    assert Received(a) + [] == Received(a);
  }

  // --- Requests ------------------------------------------------------------------------------

  predicate IsRequest(line: seq<byte>) {
    line != [] && line != [CR]
  }

  function Requests(lines: seq<seq<byte>>): seq<seq<byte>>
    decreases |lines|
  {
    if lines == [] then []
    else
      var r := Requests(lines[..|lines| - 1]);
      if IsRequest(lines[|lines| - 1]) then r + [lines[|lines| - 1]] else r
  }

  lemma {:induction false} RequestsConcat(a: seq<seq<byte>>, b: seq<seq<byte>>)
    ensures Requests(a + b) == Requests(a) + Requests(b)
    decreases |b|
  {
    if b == [] {
      assert a + b == a;
    } else {
      RequestsConcat(a, b[..|b| - 1]);
      assert (a + b)[..|a + b| - 1] == a + b[..|b| - 1];
    }
  }

  /** One more chunk: what it adds to the requests depends only on it and on the unterminated tail before it. */
  lemma OneMoreChunk(stream: seq<byte>, chunk: seq<byte>)
    ensures Requests(Lines(stream + chunk)) == Requests(Lines(stream)) + Requests(Lines(Tail(stream) + chunk))
    ensures Tail(stream + chunk) == Tail(Tail(stream) + chunk)
  {
    LinesAppend(stream, chunk);
    RequestsConcat(Lines(stream), Lines(Tail(stream) + chunk));
  }

  /** The requests do not depend on where the stream was cut. */
  lemma ChunkIndependence(a: seq<seq<byte>>, b: seq<seq<byte>>, lines: seq<seq<byte>>, rest: seq<byte>)
    requires NewlineFree(lines) && LF !in rest
    requires Received(a) == Received(b) == Join(lines) + rest
    ensures Requests(Lines(Received(a))) == Requests(Lines(Received(b))) == Requests(lines)
    ensures Tail(Received(a)) == Tail(Received(b)) == rest
  {
    LinesUnique(lines, rest);
  }

  /** Lines of which none is empty or a lone carriage return are all requests. */
  lemma {:induction false} AllRequests(lines: seq<seq<byte>>)
    requires forall k | 0 <= k < |lines| :: lines[k] != [] && lines[k] != [13]
    ensures Requests(lines) == lines
    decreases |lines|
  {
    if lines != [] {
      AllRequests(lines[..|lines| - 1]);
    }
  }

  /** An empty line or a lone carriage return counts for nothing, wherever it comes. */
  lemma BlankIgnored(a: seq<seq<byte>>, blank: seq<byte>, b: seq<seq<byte>>)
    requires blank == [] || blank == [13]
    ensures Requests(a + [blank] + b) == Requests(a + b)
  {
    RequestsConcat(a + [blank], b);
    RequestsConcat(a, b);
    assert (a + [blank])[..|a|] == a;
  }

  /** Every other line is kept. */
  lemma RequestKept(lines: seq<seq<byte>>, i: nat)
    requires i < |lines| && lines[i] != [] && lines[i] != [13]
    ensures lines[i] in Requests(lines)
  {
    assert lines == (lines[..i] + [lines[i]]) + lines[i + 1..];
    RequestsConcat(lines[..i] + [lines[i]], lines[i + 1..]);
    RequestsConcat(lines[..i], [lines[i]]);
    AllRequests([lines[i]]);
  }

  /** All lines but the empty ones and lone carriage returns are among those handed over. */
  ghost predicate KeepsAll(lines: seq<seq<byte>>, handed: seq<seq<byte>>) {
    forall i | 0 <= i < |lines| && lines[i] != [] && lines[i] != [13] :: lines[i] in handed
  }

  lemma RequestsKept(lines: seq<seq<byte>>)
    ensures KeepsAll(lines, Requests(lines))
  {
    forall i | 0 <= i < |lines| && lines[i] != [] && lines[i] != [13] ensures lines[i] in Requests(lines) {
      RequestKept(lines, i);
    }
  }

  /** A client may end its lines with CR LF: the line is handed over with its carriage return. */
  lemma CrLfLine(line: seq<byte>)
    requires line != [] && 10 !in line
    ensures Lines(line + [13, 10]) == [line + [13]] == Requests(Lines(line + [13, 10]))
    ensures Requests(Lines([13, 10])) == []
  {
    LinesCons(line + [13], []);
    LinesCons([13], []);
    assert line + [13, 10] == (line + [13]) + [10] + [] && [13, 10] == [13] + [10] + [];
    AllRequests([line + [13]]);
    BlankIgnored([], [13], []);
  }
}
