/** Desktop frames: a four-byte little-endian length, then a payload of 1 byte to 256 MiB that is valid text
    (agent/codex_desktop_frame.go).  Which payloads are valid UTF-8 and JSON is a parameter. */
module FrameCodec {
  import opened Json
  import opened Bytes

  const HEADER: nat := 4
  const MAX_FRAME: nat := 0x1000_0000

  datatype ReadError = EndOfStream | Truncated | BadLength | BadPayload

  predicate GoodLength(n: nat) {
    0 < n <= MAX_FRAME
  }

  predicate GoodPayload(payload: bytes, valid: bytes -> bool) {
    GoodLength(|payload|) && valid(payload)
  }

  // ---- The header ----

  /** The low 32 bits, lowest byte first. */
  function Little(n: nat): (h: bytes)
    ensures |h| == HEADER
  {
    [(n % 256) as byte, (n / 256 % 256) as byte, (n / 65536 % 256) as byte, (n / 16777216 % 256) as byte]
  }

  function LittleValue(h: bytes): (n: nat)
    requires |h| == HEADER
  {
    h[0] as int + 256 * (h[1] as int) + 65536 * (h[2] as int) + 16777216 * (h[3] as int)
  }

  lemma {:induction false} HeaderRoundTrip(n: nat)
    requires n < 0x1_0000_0000
    ensures LittleValue(Little(n)) == n
  {
    assert n / 65536 == n / 256 / 256;
    assert n / 16777216 == n / 65536 / 256;
  }

  /** The lowest byte comes first. */
  lemma {:induction false} HeaderIsLittleEndian(a: byte, b: byte, c: byte, d: byte)
    ensures LittleValue([a, b, c, d]) == a as int + 0x100 * (b as int) + 0x1_0000 * (c as int) + 0x100_0000 * (d as int)
    ensures Little(a as int + 0x100 * (b as int) + 0x1_0000 * (c as int) + 0x100_0000 * (d as int)) == [a, b, c, d]
  {
    var z := c as int + 0x100 * (d as int);
    var y := b as int + 0x100 * z;
    var x := a as int + 0x100 * y;
    LowByte(a as int, y);
    LowByte(b as int, z);
    LowByte(c as int, d as int);
    assert x / 0x1_0000 == z && x / 0x100_0000 == d as int by {
      DivTwice(x, 0x100, 0x100);
      DivTwice(x, 0x1_0000, 0x100);
    }
  }

  lemma {:induction false} LowByte(low: nat, high: nat)
    requires low < 0x100
    ensures (low + 0x100 * high) % 0x100 == low && (low + 0x100 * high) / 0x100 == high
  {
  }

  lemma {:induction false} DivTwice(n: nat, a: nat, b: nat)
    requires a == 0x100 || a == 0x1_0000
    requires b == 0x100
    ensures n / (a * b) == n / a / b
  {
  }

  // ---- One frame ----

  function Encode(payload: bytes): (s: bytes)
    ensures |s| == HEADER + |payload|
  {
    Little(|payload|) + payload
  }

  datatype ReadResult = Frame(payload: bytes, rest: bytes) | Error(error: ReadError)

  /** Reads one frame from the front of a stream. */
  function Read(s: bytes, valid: bytes -> bool): (r: ReadResult)
    ensures r.Frame? ==> |r.rest| < |s|
  {
    if s == [] then Error(EndOfStream)
    else if |s| < HEADER then Error(Truncated)
    else
      var n := LittleValue(s[..HEADER]);
      if !GoodLength(n) then Error(BadLength)
      else if |s| < HEADER + n then Error(Truncated)
      else
        var payload := s[HEADER..HEADER + n];
        if !GoodPayload(payload, valid) then Error(BadPayload) else Frame(payload, s[HEADER + n..])
  }

  lemma {:induction false} ReadEncoded(payload: bytes, rest: bytes, valid: bytes -> bool)
    requires GoodPayload(payload, valid)
    ensures Read(Encode(payload) + rest, valid) == Frame(payload, rest)
  {
    var s := Encode(payload) + rest;
    HeaderRoundTrip(|payload|);
    assert s[..HEADER] == Little(|payload|);
    assert s[HEADER..HEADER + |payload|] == payload;
    assert s[HEADER + |payload|..] == rest;
  }

  /** What is read is exactly a frame at the front of the stream: a payload of 1 byte to 256 MiB that is valid,
      behind its own length. */
  lemma {:induction false} ReadExactly(s: bytes, payload: bytes, rest: bytes, valid: bytes -> bool)
    ensures Read(s, valid) == Frame(payload, rest) <==>
              s == Encode(payload) + rest && 1 <= |payload| <= 256 * 1024 * 1024 && valid(payload)
  {
    if Read(s, valid) == Frame(payload, rest) {
      HeaderIsLittleEndian(s[0], s[1], s[2], s[3]);
      assert s[..HEADER] == [s[0], s[1], s[2], s[3]];
      assert s == s[..HEADER] + payload + rest;
    }
    if s == Encode(payload) + rest && GoodPayload(payload, valid) {
      ReadEncoded(payload, rest, valid);
    }
  }

  /** Otherwise the stream is at its end, or ends within the frame, or states a length that is not allowed, or
      holds a payload that is not valid. */
  lemma {:induction false} ErrorExactly(s: bytes, valid: bytes -> bool)
    ensures Read(s, valid) == Error(EndOfStream) <==> s == []
    ensures Read(s, valid) == Error(BadLength) <==>
              |s| >= 4 && !(1 <= LittleValue(s[..4]) <= 256 * 1024 * 1024)
    ensures Read(s, valid) == Error(Truncated) <==>
              0 < |s| < 4 || (|s| >= 4 && 1 <= LittleValue(s[..4]) <= 256 * 1024 * 1024 && |s| < 4 + LittleValue(s[..4]))
    ensures Read(s, valid) == Error(BadPayload) <==>
              && |s| >= 4 && 1 <= LittleValue(s[..4]) <= 256 * 1024 * 1024 && |s| >= 4 + LittleValue(s[..4])
              && !valid(s[4..4 + LittleValue(s[..4])])
  {
  }

  /** A frame cut short is reported, never misread. */
  lemma {:induction false} ReadCut(payload: bytes, n: nat, valid: bytes -> bool)
    requires GoodPayload(payload, valid) && n < |Encode(payload)|
    ensures Read(Encode(payload)[..n], valid) == Error(if n == 0 then EndOfStream else Truncated)
  {
    if n >= HEADER {
      HeaderRoundTrip(|payload|);
      assert Encode(payload)[..n][..HEADER] == Little(|payload|);
    }
  }

  // ---- A stream of frames ----

  ghost predicate AllGood(frames: seq<bytes>, valid: bytes -> bool) {
    forall i :: 0 <= i < |frames| ==> GoodPayload(frames[i], valid)
  }

  function Stream(frames: seq<bytes>): (s: bytes) {
    if frames == [] then [] else Encode(frames[0]) + Stream(frames[1..])
  }

  /** Reads frames until the first error. */
  function ReadAll(s: bytes, valid: bytes -> bool): (r: (seq<bytes>, ReadError))
    decreases |s|
  {
    match Read(s, valid)
    case Error(e) => ([], e)
    case Frame(payload, rest) =>
      var (more, e) := ReadAll(rest, valid);
      ([payload] + more, e)
  }

  /** Main theorem: a sequence of valid frames reads back frame for frame. */
  lemma {:induction false} StreamRoundTrip(frames: seq<bytes>, valid: bytes -> bool)
    requires AllGood(frames, valid)
    ensures ReadAll(Stream(frames), valid) == (frames, EndOfStream)
  {
    if frames != [] {
      ReadEncoded(frames[0], Stream(frames[1..]), valid);
      StreamRoundTrip(frames[1..], valid);
      assert frames == [frames[0]] + frames[1..];
    }
  }

  lemma {:induction false} ReadOneMore(frames: seq<bytes>, rest: bytes, valid: bytes -> bool)
    requires frames != [] && AllGood(frames, valid) && IsPrefix(ReadAll(rest, valid).0, frames[1..])
    ensures var got := ReadAll(rest, valid).0;
            && ReadAll(Encode(frames[0]) + rest, valid) == ([frames[0]] + got, ReadAll(rest, valid).1)
            && Stream(frames[..1 + |got|]) == Encode(frames[0]) + Stream(frames[1..][..|got|])
  {
    var got := ReadAll(rest, valid).0;
    ReadEncoded(frames[0], rest, valid);
    assert frames[..1 + |got|][1..] == frames[1..][..|got|];
  }

  /** A stream cut anywhere reads back the frames before the cut; a cut inside a frame shows. */
  lemma {:induction false} CutStreamReadsPrefix(frames: seq<bytes>, n: nat, valid: bytes -> bool)
    requires AllGood(frames, valid) && n <= |Stream(frames)|
    ensures var (got, e) := ReadAll(Stream(frames)[..n], valid);
            && IsPrefix(got, frames) && (e == EndOfStream || e == Truncated)
            && (e == EndOfStream <==> n == |Stream(frames[..|got|])|)
    decreases |frames|
  {
    var s := Stream(frames);
    if frames == [] {
      assert s[..n] == [];
    } else {
      var first, rest := Encode(frames[0]), Stream(frames[1..]);
      if n < |first| {
        assert s[..n] == first[..n];
        ReadCut(frames[0], n, valid);
      } else {
        assert s[..n] == first + rest[..n - |first|];
        CutStreamReadsPrefix(frames[1..], n - |first|, valid);
        ReadOneMore(frames, rest[..n - |first|], valid);
      }
    }
  }

  lemma {:induction false} Assoc(x: bytes, y: bytes, z: bytes)
    ensures x + (y + z) == (x + y) + z
  {
  }

  lemma {:induction false} StreamSnoc(frames: seq<bytes>, payload: bytes)
    ensures Stream(frames + [payload]) == Stream(frames) + Encode(payload)
  {
    if frames == [] {
      assert frames + [payload] == [payload] && [payload][1..] == [];
      assert Encode(payload) + [] == Encode(payload);
    } else {
      var rest := frames[1..];
      StreamSnoc(rest, payload);
      assert (frames + [payload])[1..] == rest + [payload];
      Assoc(Encode(frames[0]), Stream(rest), Encode(payload));
    }
  }

  // ---- Writing through short writes ----

  /** What a writer answers: how many bytes it claims to have taken, and whether it failed. */
  datatype Reply = Reply(count: int, failed: bool)

  /** The answers left when `n` bytes have been taken, if each answer takes some of what is left and none
      fails. */
  function After(n: nat, replies: seq<Reply>): (left: Option<seq<Reply>>)
    decreases |replies|
  {
    if n == 0 then Some(replies)
    else if replies == [] || replies[0].failed || !(0 < replies[0].count <= n) then None
    else After(n - replies[0].count, replies[1..])
  }

  function Taken(replies: seq<Reply>): (n: int) {
    if replies == [] then 0 else replies[0].count + Taken(replies[1..])
  }

  /** The first `k` answers do not fail, take some bytes each, and together `n` bytes. */
  predicate Suffice(n: nat, replies: seq<Reply>, k: int) {
    0 <= k <= |replies| && Taken(replies[..k]) == n && forall i :: 0 <= i < k ==> !replies[i].failed && replies[i].count > 0
  }

  lemma {:induction false} SufficeFurtherOn(n: nat, replies: seq<Reply>, k: nat)
    requires replies != [] && !replies[0].failed && 0 < replies[0].count <= n && k < |replies|
    ensures Suffice(n - replies[0].count, replies[1..], k) <==> Suffice(n, replies, k + 1)
    ensures replies[1..][k..] == replies[k + 1..]
  {
    assert replies[..k + 1][1..] == replies[1..][..k];
    if Suffice(n, replies, k + 1) {
      forall i | 0 <= i < k ensures !replies[1..][i].failed && replies[1..][i].count > 0 {
        assert replies[1..][i] == replies[i + 1];
      }
    }
    if Suffice(n - replies[0].count, replies[1..], k) {
      forall i | 0 <= i < k + 1 ensures !replies[i].failed && replies[i].count > 0 {
        assert i > 0 ==> replies[1..][i - 1] == replies[i];
      }
    }
  }

  lemma {:induction false} AfterTakes(n: nat, replies: seq<Reply>) returns (k: nat)
    requires After(n, replies).Some?
    ensures Suffice(n, replies, k) && After(n, replies) == Some(replies[k..])
    decreases |replies|
  {
    k := 0;
    if n > 0 {
      var rest := AfterTakes(n - replies[0].count, replies[1..]);
      SufficeFurtherOn(n, replies, rest);
      k := rest + 1;
    } else {
      assert replies[..0] == [] && replies[0..] == replies;
    }
  }

  lemma {:induction false} AfterReaches(n: nat, replies: seq<Reply>, k: nat)
    requires Suffice(n, replies, k)
    ensures After(n, replies) == Some(replies[k..])
    decreases |replies|
  {
    if k == 0 {
      assert replies[..0] == [] && replies[0..] == replies;
    } else {
      assert replies[..k][1..] == replies[1..][..k - 1];
      TakenIsPositive(replies[1..][..k - 1]);
      SufficeFurtherOn(n, replies, k - 1);
      AfterReaches(n - replies[0].count, replies[1..], k - 1);
    }
  }

  /** The answers suffice exactly if the first few of them do not fail, take some bytes each, and together all of
      them; then the others are left. */
  lemma {:induction false} AfterExactly(n: nat, replies: seq<Reply>)
    ensures After(n, replies).Some? <==> exists k :: Suffice(n, replies, k)
    ensures forall k :: Suffice(n, replies, k) ==> After(n, replies) == Some(replies[k..])
  {
    if After(n, replies).Some? {
      var k := AfterTakes(n, replies);
    }
    forall k | Suffice(n, replies, k) ensures After(n, replies) == Some(replies[k..]) {
      AfterReaches(n, replies, k);
    }
  }

  lemma {:induction false} TakenIsPositive(replies: seq<Reply>)
    requires forall i :: 0 <= i < |replies| ==> replies[i].count > 0
    ensures Taken(replies) >= |replies|
  {
    if replies != [] {
      TakenIsPositive(replies[1..]);
    }
  }

  /** The same for a header and a payload. */
  function AfterFrame(payload: bytes, replies: seq<Reply>): (left: Option<seq<Reply>>) {
    match After(HEADER, replies)
    case None => None
    case Some(rest) => After(|payload|, rest)
  }

  /** How many frames get through: up to the first that is not valid or that the answers do not take. */
  function Through(frames: seq<bytes>, valid: bytes -> bool, replies: seq<Reply>): (n: nat)
    ensures n <= |frames|
  {
    if frames == [] || !GoodPayload(frames[0], valid) then 0
    else
      match AfterFrame(frames[0], replies)
      case None => 0
      case Some(left) => 1 + Through(frames[1..], valid, left)
  }

  /** The answers take all the frames. */
  predicate TakesAll(frames: seq<bytes>, replies: seq<Reply>) {
    frames == [] || (AfterFrame(frames[0], replies).Some? && TakesAll(frames[1..], AfterFrame(frames[0], replies).value))
  }

  lemma {:induction false} AllThroughExactly(frames: seq<bytes>, valid: bytes -> bool, replies: seq<Reply>)
    ensures Through(frames, valid, replies) == |frames| <==> AllGood(frames, valid) && TakesAll(frames, replies)
    decreases |frames|
  {
    if frames != [] {
      if GoodPayload(frames[0], valid) && AfterFrame(frames[0], replies).Some? {
        AllThroughExactly(frames[1..], valid, AfterFrame(frames[0], replies).value);
      }
      assert AllGood(frames, valid) <==> GoodPayload(frames[0], valid) && AllGood(frames[1..], valid) by {
        if GoodPayload(frames[0], valid) && AllGood(frames[1..], valid) {
          forall i | 0 <= i < |frames| ensures GoodPayload(frames[i], valid) {
            if i > 0 {
              assert frames[i] == frames[1..][i - 1];
            }
          }
        }
      }
    }
  }

  /** A writer that takes everything in one byte steps, the shortest there are. */
  predicate ByteByByte(replies: seq<Reply>) {
    forall i :: 0 <= i < |replies| ==> replies[i] == Reply(1, false)
  }

  lemma {:induction false} BytesSuffice(n: nat, replies: seq<Reply>)
    requires ByteByByte(replies) && |replies| >= n
    ensures After(n, replies) == Some(replies[n..])
    decreases n
  {
    if n > 0 {
      BytesSuffice(n - 1, replies[1..]);
    }
  }

  /** However short the writes, enough of them take every sequence of frames. */
  lemma {:induction false} ShortWritesSuffice(frames: seq<bytes>, replies: seq<Reply>)
    requires ByteByByte(replies) && |replies| >= |Stream(frames)|
    ensures TakesAll(frames, replies)
    decreases |frames|
  {
    if frames != [] {
      BytesSuffice(HEADER, replies);
      BytesSuffice(|frames[0]|, replies[HEADER..]);
      var left := replies[HEADER..][|frames[0]|..];
      assert AfterFrame(frames[0], replies) == Some(left);
      ShortWritesSuffice(frames[1..], left);
    }
  }

  /** The first `done` frames, and after them at most a part of a valid one. */
  ghost predicate Holds(out: bytes, frames: seq<bytes>, done: nat, valid: bytes -> bool)
    requires done <= |frames|
  {
    if done < |frames| && GoodPayload(frames[done], valid) then
      exists n :: 0 <= n <= |Encode(frames[done])| && out == Stream(frames[..done]) + Encode(frames[done])[..n]
    else out == Stream(frames[..done])
  }

  /** A connection that takes as much of each write as it likes. */
  class Wire {
    var out: bytes

    constructor ()
      ensures out == []
    {
      out := [];
    }

    method Take(data: bytes, reply: Reply)
      modifies this
      ensures out == old(out) + if 0 <= reply.count <= |data| then data[..reply.count] else []
    {
      if 0 <= reply.count <= |data| {
        out := out + data[..reply.count];
      }
    }

    /** Repeats short writes until everything is out; `replies` are the answers of the writer, and a writer
        without further answers is stuck. */
    method WriteBytes(data: bytes, replies: seq<Reply>) returns (ok: bool, left: seq<Reply>)
      modifies this
      ensures ok <==> After(|data|, replies).Some?
      ensures ok ==> left == After(|data|, replies).value
      ensures ok ==> out == old(out) + data
      ensures !ok ==> exists n :: 0 <= n <= |data| && out == old(out) + data[..n]
    {
      var rest := data;
      left := replies;
      while rest != [] && left != []
        invariant |rest| <= |data| && rest == data[|data| - |rest|..]
        invariant out == old(out) + data[..|data| - |rest|]
        invariant After(|data|, replies) == After(|rest|, left)
        decreases |left|
      {
        var reply := left[0];
        Take(rest, reply);
        left := left[1..];
        if reply.count < 0 || reply.count > |rest| {
          return false, left;
        }
        assert out == old(out) + data[..|data| - |rest| + reply.count];
        if reply.failed || reply.count == 0 {
          return false, left;
        }
        rest := rest[reply.count..];
      }
      ok := rest == [];
    }

    /** An invalid payload writes nothing; otherwise the encoded frame is written if the answers take it, or a
        part of it and an error. */
    method WriteFrame(payload: bytes, valid: bytes -> bool, replies: seq<Reply>) returns (ok: bool, left: seq<Reply>)
      modifies this
      ensures ok <==> GoodPayload(payload, valid) && AfterFrame(payload, replies).Some?
      ensures ok ==> left == AfterFrame(payload, replies).value
      ensures !GoodPayload(payload, valid) ==> out == old(out)
      ensures ok ==> GoodPayload(payload, valid) && out == old(out) + Encode(payload)
      ensures GoodPayload(payload, valid) && !ok ==> exists n :: 0 <= n <= |Encode(payload)| && out == old(out) + Encode(payload)[..n]
    {
      if !GoodPayload(payload, valid) {
        return false, replies;
      }
      var header := Little(|payload|);
      ok, left := WriteBytes(header, replies);
      if !ok {
        assert forall n :: 0 <= n <= |header| ==> header[..n] == Encode(payload)[..n];
        return;
      }
      ok, left := WriteBytes(payload, left);
      assert forall n :: 0 <= n <= |payload| ==> header + payload[..n] == Encode(payload)[..HEADER + n];
    }

    /** Writes frames until the first failure: exactly as many as are valid and taken.  They read back one for
        one, whatever the writer's answers; and all are written exactly if all are valid and taken. */
    method WriteFrames(frames: seq<bytes>, valid: bytes -> bool, replies: seq<Reply>) returns (done: nat)
      requires out == []
      modifies this
      ensures done == Through(frames, valid, replies) && AllGood(frames[..done], valid)
      ensures Holds(out, frames, done, valid) && IsPrefix(frames[..done], ReadAll(out, valid).0)
      ensures done == |frames| <==> AllGood(frames, valid) && TakesAll(frames, replies)
      ensures done == |frames| ==> ReadAll(out, valid) == (frames, EndOfStream)
    {
      done := 0;
      var left := replies;
      AllThroughExactly(frames, valid, replies);
      assert frames[0..] == frames;
      while done < |frames|
        invariant done <= |frames| && AllGood(frames[..done], valid) && out == Stream(frames[..done])
        invariant Through(frames, valid, replies) == done + Through(frames[done..], valid, left)
      {
        var ok;
        assert frames[done..][0] == frames[done] && frames[done..][1..] == frames[done + 1..];
        ok, left := WriteFrame(frames[done], valid, left);
        assert frames[..done + 1] == frames[..done] + [frames[done]];
        if !ok {
          PartialFrame(frames[..done], frames[done], out, valid);
          return;
        }
        StreamSnoc(frames[..done], frames[done]);
        done := done + 1;
      }
      assert frames[..done] == frames;
      StreamRoundTrip(frames, valid);
    }
  }

  /** What an interrupted frame leaves behind still reads back as the frames before it. */
  lemma {:induction false} PartialFrame(frames: seq<bytes>, payload: bytes, out: bytes, valid: bytes -> bool)
    requires AllGood(frames, valid)
    requires out == Stream(frames) || (GoodPayload(payload, valid) && exists n :: 0 <= n <= |Encode(payload)| && out == Stream(frames) + Encode(payload)[..n])
    ensures IsPrefix(frames, ReadAll(out, valid).0)
  {
    if out == Stream(frames) {
      StreamRoundTrip(frames, valid);
    } else {
      var n :| 0 <= n <= |Encode(payload)| && out == Stream(frames) + Encode(payload)[..n];
      ReadAhead(frames, Encode(payload)[..n], valid);
    }
  }

  lemma {:induction false} ReadAhead(frames: seq<bytes>, rest: bytes, valid: bytes -> bool)
    requires AllGood(frames, valid)
    ensures IsPrefix(frames, ReadAll(Stream(frames) + rest, valid).0)
  {
    if frames != [] {
      var tail := Stream(frames[1..]);
      assert Stream(frames) + rest == Encode(frames[0]) + (tail + rest);
      ReadEncoded(frames[0], tail + rest, valid);
      ReadAhead(frames[1..], rest, valid);
    }
  }
}
