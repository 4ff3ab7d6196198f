/** The newline-oriented writer over a WebSocket: each complete line becomes one message
    (agent/codex_app_server_host.go, codexWebSocketTransport.Write). */
module LineTransport {
  import opened Json
  import opened Bytes

  const LF: byte := 10
  const CR: byte := 13

  /** One trailing CR removed. */
  function TrimCR(line: bytes): (m: bytes) {
    if line != [] && line[|line| - 1] == CR then line[..|line| - 1] else line
  }

  /** The message of a line; an empty one is not sent. */
  function Message(line: bytes): (m: seq<bytes>) {
    if TrimCR(line) == [] then [] else [TrimCR(line)]
  }

  /** Exactly one trailing CR is taken off, and a line without one is sent as it is; only a line that is empty
      then is not sent. */
  lemma {:induction false} MessageExactly(line: bytes)
    ensures TrimCR(line + [CR]) == line
    ensures (forall l: bytes :: line != l + [CR]) ==> TrimCR(line) == line
    ensures line != [] ==> Message(line + [CR]) == [line]
    ensures line != [] && line[|line| - 1] != CR ==> Message(line) == [line]
    ensures Message([]) == [] && Message([CR]) == []
  {
    assert (line + [CR])[..|line|] == line;
    if line != [] && line[|line| - 1] == CR {
      assert line == line[..|line| - 1] + [CR];
    }
  }

  /** The unterminated line so far and the messages sent. */
  datatype Progress = Progress(line: bytes, sent: seq<bytes>)

  function Next(p: Progress, x: byte): Progress {
    if x == LF then Progress([], p.sent + Message(p.line)) else p.(line := p.line + [x])
  }

  /** What a stream does, byte by byte. */
  function Feed(p: Progress, s: bytes): (r: Progress)
    decreases |s|
  {
    if s == [] then p else Feed(Next(p, s[0]), s[1..])
  }

  lemma {:induction false} FeedConcat(p: Progress, a: bytes, b: bytes)
    ensures Feed(p, a + b) == Feed(Feed(p, a), b)
    decreases |a|
  {
    if a == [] {
      assert a + b == b;
    } else {
      assert (a + b)[1..] == a[1..] + b && (a + b)[0] == a[0];
      FeedConcat(Next(p, a[0]), a[1..], b);
    }
  }

  lemma {:induction false} FeedLine(p: Progress, line: bytes)
    requires LF !in line
    ensures Feed(p, line) == p.(line := p.line + line)
    decreases |line|
  {
    if line == [] {
      assert p.line + line == p.line;
    } else {
      assert line[0] in line;
      FeedLine(Next(p, line[0]), line[1..]);
      assert p.line + line == (p.line + [line[0]]) + line[1..];
    }
  }

  lemma {:induction false} FeedGrows(p: Progress, s: bytes)
    ensures IsPrefix(p.sent, Feed(p, s).sent)
    decreases |s|
  {
    if s != [] {
      FeedGrows(Next(p, s[0]), s[1..]);
    }
  }

  /** A complete line is sent before the rest of the stream. */
  lemma {:induction false} FeedFirst(sent: seq<bytes>, line: bytes, rest: bytes)
    requires LF !in line
    ensures Feed(Progress([], sent), line + [LF] + rest) == Feed(Progress([], sent + Message(line)), rest)
  {
    var p := Progress([], sent);
    assert line + [LF] + rest == line + ([LF] + rest);
    FeedConcat(p, line, [LF] + rest);
    FeedLine(p, line);
    assert [] + line == line;
    assert ([LF] + rest)[1..] == rest;
  }

  // ---- The reference: lines of a text ----

  /** Pieces joined by newlines. */
  function Join(pieces: seq<bytes>): (s: bytes)
    requires pieces != []
  {
    if |pieces| == 1 then pieces[0] else pieces[0] + [LF] + Join(pieces[1..])
  }

  ghost predicate AreLines(pieces: seq<bytes>) {
    pieces != [] && forall i :: 0 <= i < |pieces| ==> LF !in pieces[i]
  }

  /** The messages of complete lines. */
  function Messages(lines: seq<bytes>): (m: seq<bytes>) {
    if lines == [] then [] else Message(lines[0]) + Messages(lines[1..])
  }

  /** A text is sent as the messages of its complete lines; its last, unterminated piece remains. */
  lemma {:induction false} StreamIsLines(sent: seq<bytes>, pieces: seq<bytes>)
    requires AreLines(pieces)
    ensures var last := |pieces| - 1;
            Feed(Progress([], sent), Join(pieces)) == Progress(pieces[last], sent + Messages(pieces[..last]))
    decreases |pieces|
  {
    var last := |pieces| - 1;
    if last == 0 {
      FeedLine(Progress([], sent), pieces[0]);
      assert pieces[..0] == [] && sent + [] == sent && [] + pieces[0] == pieces[0];
    } else {
      var first := Message(pieces[0]);
      FeedFirst(sent, pieces[0], Join(pieces[1..]));
      StreamIsLines(sent + first, pieces[1..]);
      assert pieces[..last][1..] == pieces[1..][..last - 1];
      assert (sent + first) + Messages(pieces[1..][..last - 1]) == sent + (first + Messages(pieces[1..][..last - 1]));
    }
  }

  lemma {:induction false} FirstIndex(s: bytes, b: byte) returns (n: nat)
    requires b in s
    ensures n < |s| && s[n] == b && b !in s[..n]
  {
    n := 0;
    while s[n] != b
      invariant n < |s| && b !in s[..n]
      decreases |s| - n
    {
      assert s[..n + 1] == s[..n] + [s[n]];
      n := n + 1;
      if n == |s| {
        assert s[..n] == s;
      }
    }
  }

  /** Every stream is a text. */
  lemma {:induction false} HasLines(s: bytes) returns (pieces: seq<bytes>)
    ensures AreLines(pieces) && Join(pieces) == s
  {
    if LF !in s {
      pieces := [s];
    } else {
      var n := FirstIndex(s, LF);
      var rest := HasLines(s[n + 1..]);
      pieces := [s[..n]] + rest;
      assert pieces[1..] == rest;
      assert s == s[..n] + [LF] + s[n + 1..];
    }
  }

  // ---- Writing in chunks ----

  /** Writes the chunks one after the other. */
  function WriteChunks(p: Progress, chunks: seq<bytes>): (r: Progress)
    decreases |chunks|
  {
    if chunks == [] then p else WriteChunks(Feed(p, chunks[0]), chunks[1..])
  }

  lemma {:induction false} ChunksAreIrrelevant(p: Progress, chunks: seq<bytes>)
    ensures WriteChunks(p, chunks) == Feed(p, Flat(chunks))
    decreases |chunks|
  {
    if chunks != [] {
      ChunksAreIrrelevant(Feed(p, chunks[0]), chunks[1..]);
      FeedConcat(p, chunks[0], Flat(chunks[1..]));
    }
  }

  /** Main theorem: however the stream is cut into writes, the messages are the non-empty lines of the whole
      stream, one trailing CR removed, and the buffer is its unterminated tail. */
  lemma {:induction false} WritesAreLines(chunks: seq<bytes>, pieces: seq<bytes>)
    requires AreLines(pieces) && Flat(chunks) == Join(pieces)
    ensures var last := |pieces| - 1;
            WriteChunks(Progress([], []), chunks) == Progress(pieces[last], Messages(pieces[..last]))
  {
    var last := |pieces| - 1;
    ChunksAreIrrelevant(Progress([], []), chunks);
    StreamIsLines([], pieces);
    assert [] + Messages(pieces[..last]) == Messages(pieces[..last]);
  }

  // ---- The transport as an object ----

  method FindByte(s: bytes, b: byte) returns (n: nat)
    ensures n <= |s| && (n < |s| ==> s[n] == b) && b !in s[..n]
  {
    n := 0;
    while n < |s| && s[n] != b
      invariant n <= |s| && b !in s[..n]
    {
      assert s[..n + 1] == s[..n] + [s[n]];
      n := n + 1;
    }
  }

  /** Whether as many operations on the connection succeed, if one fails at all. */
  predicate Affords(left: Option<nat>, cost: nat) {
    left.None? || left.value >= cost
  }

  function Spend(left: Option<nat>, cost: nat): Option<nat> {
    if left.Some? then Some(if left.value >= cost then left.value - cost else 0) else None
  }

  /** Setting the deadline, one operation a message, and clearing the deadline; nothing for no message. */
  function Cost(messages: int): (n: nat) {
    if messages <= 0 then 0 else messages + 2
  }

  /** The buffer and new data are fed as one. */
  lemma {:induction false} FeedBuffered(sent: seq<bytes>, line: bytes, data: bytes)
    requires LF !in line
    ensures Feed(Progress([], sent), line + data) == Feed(Progress(line, sent), data)
  {
    FeedConcat(Progress([], sent), line, data);
    FeedLine(Progress([], sent), line);
    assert [] + line == line;
  }

  /** The first line of the buffer can be sent. */
  lemma {:induction false} FeedFrom(sent: seq<bytes>, s: bytes, n: nat)
    requires n < |s| && s[n] == LF && LF !in s[..n]
    ensures Feed(Progress([], sent), s) == Feed(Progress([], sent + Message(s[..n])), s[n + 1..])
    ensures IsPrefix(sent, Feed(Progress([], sent), s).sent)
  {
    assert s == s[..n] + [LF] + s[n + 1..];
    FeedFirst(sent, s[..n], s[n + 1..]);
    FeedGrows(Progress([], sent), s);
  }

  /** Without a newline nothing more is sent. */
  lemma {:induction false} LastPiece(sent: seq<bytes>, line: bytes)
    ensures LF !in line ==> Feed(Progress([], sent), line) == Progress(line, sent)
  {
    if LF !in line {
      FeedLine(Progress([], sent), line);
      assert [] + line == line;
    }
  }

  class Transport {
    var writeBuf: bytes
    var closed: bool
    var sent: seq<bytes>

    /** An open transport never keeps a complete line. */
    ghost predicate Valid()
      reads this
    {
      !closed ==> LF !in writeBuf
    }

    ghost function Value(): (p: Progress)
      reads this
    {
      Progress(writeBuf, sent)
    }

    constructor ()
      ensures Valid() && !closed && Value() == Progress([], [])
    {
      writeBuf, closed, sent := [], false, [];
    }

    /** One operation on the connection; a failure closes the transport. */
    method Operate(left: Option<nat>) returns (ok: bool, after: Option<nat>)
      requires !closed
      modifies `closed
      ensures closed == !ok && ok == (left != Some(0)) && after == Spend(left, 1)
    {
      ok, after := left != Some(0), Spend(left, 1);
      closed := !ok;
    }

    /** Sends the message of a line, after the deadline has been set once. */
    method SendLine(line: bytes, deadlineSet: bool, left: Option<nat>) returns (ok: bool, deadline: bool, after: Option<nat>)
      requires !closed
      modifies `closed, `sent
      ensures var cost := if Message(line) == [] then 0 else if deadlineSet then 1 else 2;
              closed == !ok && ok == Affords(left, cost) && (ok ==> after == Spend(left, cost))
      ensures ok ==> deadline == (deadlineSet || Message(line) != [])
      ensures sent == if ok then old(sent) + Message(line) else old(sent)
    {
      ok, deadline, after := true, deadlineSet, left;
      var message := TrimCR(line);
      if message != [] {
        if !deadline {
          ok, after := Operate(after);
          if !ok {
            return;
          }
          deadline := true;
        }
        ok, after := Operate(after);
        if ok {
          sent := sent + [message];
        }
      }
    }

    /** Takes the first line out of the buffer and sends it; the rest of the stream does what it would have
        done. */
    method SendFirst(newline: nat, deadlineSet: bool, left: Option<nat>, ghost goal: Progress)
      returns (ok: bool, deadline: bool, after: Option<nat>)
      requires !closed && newline < |writeBuf| && writeBuf[newline] == LF && LF !in writeBuf[..newline]
      requires Feed(Progress([], sent), writeBuf) == goal
      modifies `closed, `sent, `writeBuf
      ensures closed == !ok && IsPrefix(sent, goal.sent) && |old(sent)| <= |sent|
      ensures ok ==> Feed(Progress([], sent), writeBuf) == goal && |writeBuf| < |old(writeBuf)|
      ensures ok && |sent| == |old(sent)| ==> deadline == deadlineSet && after == left
      ensures ok && |sent| > |old(sent)| ==>
                var cost := if deadlineSet then 1 else 2;
                |sent| == |old(sent)| + 1 && deadline && Affords(left, cost) && after == Spend(left, cost)
      ensures !ok ==> sent == old(sent) && |sent| < |goal.sent| && !Affords(left, if deadlineSet then 1 else 2)
    {
      var line, rest := writeBuf[..newline], writeBuf[newline + 1..];
      FeedFrom(sent, writeBuf, newline);
      FeedGrows(Progress([], sent + Message(line)), rest);
      ok, deadline, after := SendLine(line, deadlineSet, left);
      if ok {
        writeBuf := rest;
      }
    }

    /** `operations` is how many operations on the connection succeed before one fails, if any does.  The write
        succeeds exactly if they suffice, and then exactly the complete lines are sent; otherwise it closes the
        transport after the messages that they sufficed for. */
    method Write(data: bytes, operations: Option<nat>) returns (ok: bool)
      requires Valid()
      modifies this
      ensures Valid() && closed == !ok
      ensures old(closed) ==> Value() == old(Value())
      ensures !old(closed) ==> (ok <==> Affords(operations, Cost(|Feed(old(Value()), data).sent| - |old(sent)|)))
      ensures ok ==> Value() == Feed(old(Value()), data)
      ensures !old(closed) ==> IsPrefix(sent, Feed(old(Value()), data).sent)
      ensures !old(closed) && !ok ==> |sent| == |old(sent)| + (if operations.value == 0 then 0 else operations.value - 1)
    {
      if closed {
        return false;
      }
      FeedBuffered(sent, writeBuf, data);
      ghost var goal := Feed(Value(), data);
      writeBuf := writeBuf + data;
      ok := SendLines(operations, goal);
    }

    /** Sends every complete line of the buffer. */
    method SendLines(operations: Option<nat>, ghost goal: Progress) returns (ok: bool)
      requires !closed && Feed(Progress([], sent), writeBuf) == goal
      modifies this
      ensures Valid() && closed == !ok && IsPrefix(sent, goal.sent)
      ensures ok <==> Affords(operations, Cost(|goal.sent| - |old(sent)|))
      ensures ok ==> Value() == goal
      ensures !ok ==> |sent| == |old(sent)| + (if operations.value == 0 then 0 else operations.value - 1)
    {
      var deadlineSet, left := false, operations;
      var newline: nat := FindByte(writeBuf, LF);
      ghost var first := |sent|;
      FeedGrows(Progress([], sent), writeBuf);
      while newline < |writeBuf|
        invariant !closed && first <= |sent| && IsPrefix(sent, goal.sent) && (deadlineSet <==> |sent| > first)
        invariant Affords(operations, if deadlineSet then 1 + |sent| - first else 0)
        invariant left == Spend(operations, if deadlineSet then 1 + |sent| - first else 0)
        invariant newline <= |writeBuf| && (newline < |writeBuf| ==> writeBuf[newline] == LF) && LF !in writeBuf[..newline]
        invariant Feed(Progress([], sent), writeBuf) == goal
        decreases |writeBuf|
      {
        ok, deadlineSet, left := SendFirst(newline, deadlineSet, left, goal);
        if !ok {
          return;
        }
        newline := FindByte(writeBuf, LF);
      }
      LastPiece(sent, writeBuf);
      assert writeBuf[..newline] == writeBuf;
      ok := true;
      if deadlineSet {
        ok, left := Operate(left);
      }
    }
  }
}
