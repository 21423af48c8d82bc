/**
 * pkg/ipc: length-prefixed frames (frame.go) and the request loop (server.go).
 *
 * Bytes are naturals below 256. The JSON codec is a pair of functions; the facts
 * used of it are stated where they are used. A stream is the bytes still to come
 * and the bytes written so far.
 */
module Ipc {
  import Text

  type Byte = b: int | 0 <= b < 256
  type Bytes = seq<Byte>

  const MAX_FRAME_SIZE: int := 0x10_0000

  // ---- the length prefix ----

  /** binary.BigEndian.PutUint32 */
  function PutUint32(n: int): (hdr: Bytes)
    requires 0 <= n < 0x1_0000_0000
    ensures |hdr| == 4
  {
    [n / 0x100_0000, n / 0x1_0000 % 256, n / 0x100 % 256, n % 256]
  }

  /** binary.BigEndian.Uint32 */
  function Uint32(hdr: Bytes): (n: int)
    requires |hdr| == 4
    ensures 0 <= n < 0x1_0000_0000
  {
    var a: int, b: int, c: int, d: int := hdr[0], hdr[1], hdr[2], hdr[3];
    a * 0x100_0000 + b * 0x1_0000 + c * 0x100 + d
  }

  /** A length survives its header, which holds its bytes, the most significant first. */
  lemma Uint32RoundTrip(n: int)
    requires 0 <= n < 0x1_0000_0000
    ensures Uint32(PutUint32(n)) == n
    ensures var hdr := PutUint32(n);
            n == hdr[0] as int * 16777216 + hdr[1] as int * 65536 + hdr[2] as int * 256 + hdr[3] as int
  {
    assert n == n / 256 * 256 + n % 256;
    assert n / 256 == n / 256 / 256 * 256 + n / 256 % 256;
    assert n / 256 / 256 == n / 256 / 256 / 256 * 256 + n / 256 / 256 % 256;
    assert n / 0x1_0000 == n / 256 / 256 && n / 0x100_0000 == n / 256 / 256 / 256;
  }

  // ---- envelopes ----

  datatype Origin = NoOrigin | From(node: string, nodeID: nat, authenticated: bool, trusted: bool)

  datatype Envelope = Envelope(
    kind: string, reqID: string, methodName: string, appID: string, manifestVersion: int,
    origin: Origin, payload: Bytes, error: string)

  datatype Encoded = Json(bytes: Bytes) | Unencodable
  datatype Decoded = Env(env: Envelope) | Malformed

  /** encoding/json on envelopes. */
  datatype Codec = Codec(encode: Envelope -> Encoded, decode: Bytes -> Decoded)

  /** The envelope has a non-empty encoding that fits a frame. */
  predicate Fits(c: Codec, e: Envelope)
  {
    c.encode(e).Json? && 0 < |c.encode(e).bytes| <= MAX_FRAME_SIZE
  }

  /** ... and decoding it gives the envelope back. */
  predicate Travels(c: Codec, e: Envelope)
  {
    Fits(c, e) && c.decode(c.encode(e).bytes) == Env(e)
  }

  /** A body with its length prefix. */
  function Framed(body: Bytes): Bytes
    requires |body| <= MAX_FRAME_SIZE
  {
    PutUint32(|body|) + body
  }

  // ---- reading ----

  /** What ReadFrame reports. BodyEof is the wrapped io.EOF of a body that never starts. */
  datatype Frame =
    | Got(env: Envelope, rest: Bytes)
    | Eof
    | BodyEof
    | UnexpectedEof
    | ZeroLength
    | TooLarge
    | BadBody
    | ReadFailed

  /** Bytes are missing: what the stream's end makes of it. */
  function Missing(broken: bool, otherwise: Frame): Frame
  {
    if broken then ReadFailed else otherwise
  }

  /**
   * The frame at the front of a stream. Once its bytes run out, a broken stream
   * fails to read, and any other is at its end.
   */
  function FrameAt(c: Codec, input: Bytes, broken: bool): (f: Frame)
    ensures f.Got? ==> |f.rest| < |input|
  {
    if input == [] then Missing(broken, Eof)
    else if |input| < 4 then Missing(broken, UnexpectedEof)
    else
      var n := Uint32(input[..4]);
      if n == 0 then ZeroLength
      else if n > MAX_FRAME_SIZE then TooLarge
      else if |input| == 4 then Missing(broken, BodyEof)
      else if |input| < 4 + n then Missing(broken, UnexpectedEof)
      else match c.decode(input[4..4 + n])
        case Malformed => BadBody
        case Env(e) => Got(e, input[4 + n..])
  }

  /** errors.Is(err, io.EOF) */
  predicate IsEof(f: Frame) { f.Eof? || f.BodyEof? }

  // ---- the connection ----

  datatype ReadStatus = Full | AtEof | Partial | Failed

  class Conn {
    var input: Bytes
    var output: Bytes

    /** Reading past the input fails, and is not an end of file. */
    const broken: bool

    /** How many more bytes the peer accepts before a write fails. */
    var room: nat

    constructor (input: Bytes, broken: bool, room: nat)
      ensures this.input == input && this.broken == broken && output == [] && this.room == room
    {
      this.input, this.broken, output, this.room := input, broken, [], room;
    }

    /** io.ReadFull of n bytes. */
    method ReadFull(n: nat) returns (got: Bytes, status: ReadStatus)
      requires n > 0
      modifies this`input
      ensures status ==
        if |old(input)| >= n then Full else if broken then Failed else if old(input) == [] then AtEof else Partial
      ensures status.Full? ==> got == old(input)[..n] && input == old(input)[n..]
      ensures !status.Full? ==> input == []
    {
      if |input| >= n {
        got, status := input[..n], Full;
        input := input[n..];
      } else {
        got, status := input, if broken then Failed else if input == [] then AtEof else Partial;
        input := [];
      }
    }

    /** Writes until the peer stops accepting. */
    method Write(b: Bytes) returns (ok: bool)
      modifies this`output, this`room
      ensures ok == (|b| <= old(room))
      ensures ok ==> output == old(output) + b && room == old(room) - |b|
      ensures !ok ==> output == old(output) + b[..old(room)] && room == 0
    {
      ok := |b| <= room;
      if ok {
        output, room := output + b, room - |b|;
      } else {
        output, room := output + b[..room], 0;
      }
    }

    /** ReadFrame: the frame at the front of the stream; the stream moves past a good frame. */
    method ReadFrame(c: Codec) returns (f: Frame)
      modifies this`input
      ensures f == FrameAt(c, old(input), broken)
      ensures f.Got? ==> input == f.rest
    {
      var hdr, status := ReadFull(4);
      if !status.Full? {
        return if status.Failed? then ReadFailed else if status.AtEof? then Eof else UnexpectedEof;
      }
      var n := Uint32(hdr);
      if n == 0 {
        return ZeroLength;
      }
      if n > MAX_FRAME_SIZE {
        return TooLarge;
      }
      var body;
      body, status := ReadFull(n);
      if !status.Full? {
        return if status.Failed? then ReadFailed else if status.AtEof? then BodyEof else UnexpectedEof;
      }
      assert old(input)[4..][..n] == old(input)[4..4 + n];
      assert old(input)[4..][n..] == old(input)[4 + n..];
      match c.decode(body)
      case Malformed => return BadBody;
      case Env(e) => return Got(e, input);
    }

    /** WriteFrame: the whole frame is written exactly when it fits and the peer takes it. */
    method WriteFrame(c: Codec, e: Envelope) returns (ok: bool)
      modifies this`output, this`room
      ensures ok == Writable(c, e, old(room))
      ensures output == old(output) + Written(c, e, old(room))
      ensures ok ==> room == old(room) - |Written(c, e, old(room))|
    {
      var body := c.encode(e);
      if body.Unencodable? || |body.bytes| > MAX_FRAME_SIZE {
        return false;
      }
      ok := Write(PutUint32(|body.bytes|));
      if ok {
        ok := Write(body.bytes);
      }
      assert output == old(output) + Written(c, e, old(room));
    }
  }

  /** The frame fits and the peer takes all of it. */
  predicate Writable(c: Codec, e: Envelope, room: nat)
  {
    var body := c.encode(e);
    body.Json? && |body.bytes| <= MAX_FRAME_SIZE && 4 + |body.bytes| <= room
  }

  /** What WriteFrame puts on the wire: nothing, the frame, or as much of it as the peer takes. */
  function Written(c: Codec, e: Envelope, room: nat): (out: Bytes)
    ensures |out| <= room
  {
    var body := c.encode(e);
    if body.Unencodable? || |body.bytes| > MAX_FRAME_SIZE then []
    else if 4 + |body.bytes| <= room then Framed(body.bytes)
    else Framed(body.bytes)[..room]
  }

  // ---- the request loop ----

  datatype Answer = Payload(bytes: Bytes) | HandlerError(msg: string)

  /** Around one turn of the loop: whether the context is done, and what the handler answers if it is called. */
  datatype Turn = Turn(contextDone: bool, answer: Answer)

  type Environment = nat -> Turn

  function DispatchOne(methods: set<string>, req: Envelope, answer: Answer): (reply: Envelope)
    ensures reply.reqID == req.reqID
  {
    var blank := Envelope("", req.reqID, "", "", 0, NoOrigin, [], "");
    if req.methodName !in methods then blank.(kind := "err", error := "method not found: " + req.methodName)
    else match answer
      case HandlerError(msg) => blank.(kind := "err", error := msg)
      case Payload(bytes) => blank.(kind := "reply", payload := bytes)
  }

  datatype Result = Nil | ContextError | ReadError(frame: Frame) | WriteError

  datatype Served = Served(result: Result, written: Bytes)

  /** Everything ReadFrame would deliver from a stream, and how it ends. */
  datatype Parsed = Parsed(envs: seq<Envelope>, end: Frame)

  function Parse(c: Codec, input: Bytes, broken: bool): (p: Parsed)
    ensures !p.end.Got?
    decreases |input|
  {
    var f := FrameAt(c, input, broken);
    if f.Got? then
      var later := Parse(c, f.rest, broken);
      Parsed([f.env] + later.envs, later.end)
    else Parsed([], f)
  }

  /** The loop from turn i, on the frames still to come. */
  function ServeFrom(c: Codec, methods: set<string>, env: Environment, i: nat, envs: seq<Envelope>, end: Frame,
                     room: nat): Served
    decreases |envs|
  {
    if env(i).contextDone then Served(ContextError, [])
    else if envs == [] then Served(if IsEof(end) then Nil else ReadError(end), [])
    else if envs[0].kind != "req" then ServeFrom(c, methods, env, i + 1, envs[1..], end, room)
    else
      var reply := DispatchOne(methods, envs[0], env(i).answer);
      var out := Written(c, reply, room);
      if !Writable(c, reply, room) then Served(WriteError, out)
      else
        var next := ServeFrom(c, methods, env, i + 1, envs[1..], end, room - |out|);
        Served(next.result, out + next.written)
  }

  /** What Serve does from turn i on a stream of bytes. */
  function ServeRest(c: Codec, methods: set<string>, env: Environment, i: nat, input: Bytes, broken: bool,
                     room: nat): Served
  {
    ServeFrom(c, methods, env, i, Parse(c, input, broken).envs, Parse(c, input, broken).end, room)
  }

  /** What Serve does on a stream of bytes. */
  function ServeStream(c: Codec, methods: set<string>, env: Environment, input: Bytes, broken: bool,
                       room: nat): Served
  {
    ServeRest(c, methods, env, 0, input, broken, room)
  }

  /** One turn, by the frame at the front of the stream. */
  lemma ServeTurn(c: Codec, methods: set<string>, env: Environment, i: nat, input: Bytes, broken: bool, room: nat)
    requires !env(i).contextDone
    ensures var f, s := FrameAt(c, input, broken), ServeRest(c, methods, env, i, input, broken, room);
            if !f.Got? then s == Served(if IsEof(f) then Nil else ReadError(f), [])
            else if f.env.kind != "req" then s == ServeRest(c, methods, env, i + 1, f.rest, broken, room)
            else
              var reply := DispatchOne(methods, f.env, env(i).answer);
              var out := Written(c, reply, room);
              if !Writable(c, reply, room) then s == Served(WriteError, out)
              else
                var next := ServeRest(c, methods, env, i + 1, f.rest, broken, room - |out|);
                s == Served(next.result, out + next.written)
  {
    var f, p := FrameAt(c, input, broken), Parse(c, input, broken);
    if f.Got? {
      var later := Parse(c, f.rest, broken);
      assert p.envs[0] == f.env && p.envs[1..] == later.envs && p.end == later.end;
    }
  }

  /** Serve on a connection: the result and the bytes written are those of the specification. */
  method Serve(conn: Conn, c: Codec, methods: set<string>, env: Environment) returns (r: Result)
    modifies conn
    ensures var s := ServeStream(c, methods, env, old(conn.input), conn.broken, old(conn.room));
            r == s.result && conn.output == old(conn.output) + s.written
  {
    var i := 0;
    ghost var all := ServeStream(c, methods, env, conn.input, conn.broken, conn.room);
    ghost var final := conn.output + all.written;
    while true
      invariant var s := ServeRest(c, methods, env, i, conn.input, conn.broken, conn.room);
                s.result == all.result && conn.output + s.written == final
      decreases |conn.input|
    {
      if env(i).contextDone {
        return ContextError;
      }
      ServeTurn(c, methods, env, i, conn.input, conn.broken, conn.room);
      ghost var room := conn.room;
      var f := conn.ReadFrame(c);
      if IsEof(f) {
        return Nil;
      }
      if !f.Got? {
        return ReadError(f);
      }
      if f.env.kind == "req" {
        var reply := DispatchOne(methods, f.env, env(i).answer);
        ghost var before, out := conn.output, Written(c, reply, room);
        var ok := conn.WriteFrame(c, reply);
        if !ok {
          return WriteError;
        }
        Text.Associate(before, out, ServeRest(c, methods, env, i + 1, f.rest, conn.broken, room - |out|).written);
      }
      i := i + 1;
    }
  }

  // ---- reading a whole stream ----

  /** A body ReadFrame accepts. */
  predicate GoodBody(c: Codec, body: Bytes)
  {
    0 < |body| <= MAX_FRAME_SIZE && c.decode(body).Env?
  }

  ghost predicate AllGood(c: Codec, bodies: seq<Bytes>)
  {
    forall k :: 0 <= k < |bodies| ==> GoodBody(c, bodies[k])
  }

  /** The bytes of a list of frames, and then a tail. */
  ghost function Stream(c: Codec, bodies: seq<Bytes>, tail: Bytes): Bytes
    requires AllGood(c, bodies)
  {
    if bodies == [] then tail else Framed(bodies[0]) + Stream(c, bodies[1..], tail)
  }

  /** The envelopes the bodies carry. */
  ghost function Carried(c: Codec, bodies: seq<Bytes>): seq<Envelope>
    requires AllGood(c, bodies)
  {
    if bodies == [] then [] else [c.decode(bodies[0]).env] + Carried(c, bodies[1..])
  }

  /** Where a stream may stop for Serve to call it a clean close: nothing left, or exactly one in-range header. */
  predicate CleanEnd(tail: Bytes)
  {
    tail == [] || (|tail| == 4 && 0 < Uint32(tail) <= MAX_FRAME_SIZE)
  }

  /** A good body's frame is read back, whatever follows. */
  lemma FrameOfBody(c: Codec, body: Bytes, rest: Bytes, broken: bool)
    requires GoodBody(c, body)
    ensures FrameAt(c, Framed(body) + rest, broken) == Got(c.decode(body).env, rest)
  {
    var input := Framed(body) + rest;
    Uint32RoundTrip(|body|);
    assert input[..4] == PutUint32(|body|);
    assert input[4..4 + |body|] == body;
    assert input[4 + |body|..] == rest;
  }

  lemma EofIffCleanEnd(c: Codec, tail: Bytes, broken: bool)
    ensures IsEof(FrameAt(c, tail, broken)) <==> !broken && CleanEnd(tail)
  {
    assert |tail| == 4 ==> tail[..4] == tail;
  }

  lemma ParseGot(c: Codec, input: Bytes, broken: bool, e: Envelope, rest: Bytes)
    requires FrameAt(c, input, broken) == Got(e, rest)
    ensures Parse(c, input, broken) == Parsed([e] + Parse(c, rest, broken).envs, Parse(c, rest, broken).end)
  {
  }

  /** Good frames up to a clean end parse to the envelopes they carry, and an end of file. */
  lemma {:induction false} ParseStream(c: Codec, bodies: seq<Bytes>, tail: Bytes, broken: bool)
    requires AllGood(c, bodies) && !broken && CleanEnd(tail)
    ensures Parse(c, Stream(c, bodies, tail), broken).envs == Carried(c, bodies)
    ensures IsEof(Parse(c, Stream(c, bodies, tail), broken).end)
  {
    if bodies == [] {
      EofIffCleanEnd(c, tail, broken);
    } else {
      ParseStream(c, bodies[1..], tail, broken);
      FrameOfBody(c, bodies[0], Stream(c, bodies[1..], tail), broken);
      ParseGot(c, Stream(c, bodies, tail), broken, c.decode(bodies[0]).env, Stream(c, bodies[1..], tail));
    }
  }

  /** A 4-byte header is the big-endian form of its own value. */
  lemma Uint32Inverse(hdr: Bytes)
    requires |hdr| == 4
    ensures PutUint32(Uint32(hdr)) == hdr
  {
    var a: int, b: int, c: int, d: int := hdr[0], hdr[1], hdr[2], hdr[3];
    BigEndianDigits(a, b, c, d);
  }

  lemma BigEndianDigits(a: int, b: int, c: int, d: int)
    requires 0 <= a < 256 && 0 <= b < 256 && 0 <= c < 256 && 0 <= d < 256
    ensures var n := a * 0x100_0000 + b * 0x1_0000 + c * 0x100 + d;
            && n / 0x100_0000 == a && n / 0x1_0000 % 256 == b && n / 0x100 % 256 == c && n % 256 == d
  {
    var n := a * 0x100_0000 + b * 0x1_0000 + c * 0x100 + d;
    assert n / 0x1_0000 == a * 256 + b;
    assert n / 0x100 == (a * 256 + b) * 256 + c;
  }

  /** A frame that reads well is a good body with its own length prefix. */
  lemma FrameIsFramed(c: Codec, input: Bytes, broken: bool) returns (body: Bytes)
    requires FrameAt(c, input, broken).Got?
    ensures GoodBody(c, body) && c.decode(body).env == FrameAt(c, input, broken).env
    ensures input == Framed(body) + FrameAt(c, input, broken).rest
  {
    var n := Uint32(input[..4]);
    body := input[4..4 + n];
    Uint32Inverse(input[..4]);
    assert input == input[..4] + input[4..4 + n] + input[4 + n..];
  }

  /** A stream that parses up to an end of file is good frames up to a clean end. */
  lemma {:induction false} ParseNeedsGood(c: Codec, input: Bytes, broken: bool)
    returns (bodies: seq<Bytes>, tail: Bytes)
    requires IsEof(Parse(c, input, broken).end)
    ensures AllGood(c, bodies) && !broken && CleanEnd(tail)
    ensures input == Stream(c, bodies, tail)
    decreases |input|
  {
    var f := FrameAt(c, input, broken);
    if f.Got? {
      var body := FrameIsFramed(c, input, broken);
      var later;
      later, tail := ParseNeedsGood(c, f.rest, broken);
      bodies := [body] + later;
      assert bodies[0] == body && bodies[1..] == later;
    } else {
      EofIffCleanEnd(c, input, broken);
      bodies, tail := [], input;
    }
  }

  // ---- answering ----

  ghost predicate Uncancelled(env: Environment)
  {
    forall i :: !env(i).contextDone
  }

  /** The replies a client is owed: one per request, in order, and none for anything else. */
  function Owed(methods: set<string>, env: Environment, i: nat, envs: seq<Envelope>): seq<Envelope>
    decreases |envs|
  {
    if envs == [] then []
    else if envs[0].kind == "req" then
      [DispatchOne(methods, envs[0], env(i).answer)] + Owed(methods, env, i + 1, envs[1..])
    else Owed(methods, env, i + 1, envs[1..])
  }

  /** The envelope has an encoding that fits a frame. */
  predicate Encodes(c: Codec, e: Envelope)
  {
    c.encode(e).Json? && |c.encode(e).bytes| <= MAX_FRAME_SIZE
  }

  ghost predicate AllEncode(c: Codec, envs: seq<Envelope>)
  {
    forall k :: 0 <= k < |envs| ==> Encodes(c, envs[k])
  }

  /** The bytes of a list of envelopes, framed. */
  ghost function FramedAll(c: Codec, envs: seq<Envelope>): Bytes
    requires AllEncode(c, envs)
  {
    if envs == [] then [] else Framed(c.encode(envs[0]).bytes) + FramedAll(c, envs[1..])
  }

  /** The peer has room for all of them. */
  ghost predicate RoomFor(c: Codec, envs: seq<Envelope>, room: nat)
  {
    AllEncode(c, envs) && |FramedAll(c, envs)| <= room
  }

  lemma FramedAllCons(c: Codec, e: Envelope, envs: seq<Envelope>)
    requires Encodes(c, e) && AllEncode(c, envs)
    ensures AllEncode(c, [e] + envs)
    ensures FramedAll(c, [e] + envs) == Framed(c.encode(e).bytes) + FramedAll(c, envs)
  {
    assert ([e] + envs)[1..] == envs;
  }

  lemma RoomForCons(c: Codec, e: Envelope, envs: seq<Envelope>, room: nat)
    ensures RoomFor(c, [e] + envs, room) <==>
      Writable(c, e, room) && RoomFor(c, envs, room - |Written(c, e, room)|)
  {
    assert ([e] + envs)[0] == e;
    assert forall k :: 0 <= k < |envs| ==> envs[k] == ([e] + envs)[k + 1];
    if Encodes(c, e) && AllEncode(c, envs) {
      FramedAllCons(c, e, envs);
    }
  }

  /**
   * With a context that is never done, the loop gets through all frames exactly
   * when the peer has room for the replies owed, and then it writes exactly those.
   */
  lemma {:induction false} ServeFromExact(c: Codec, methods: set<string>, env: Environment, i: nat,
                                          envs: seq<Envelope>, end: Frame, room: nat)
    requires Uncancelled(env)
    ensures var s := ServeFrom(c, methods, env, i, envs, end, room);
            var owed := Owed(methods, env, i, envs);
            if RoomFor(c, owed, room)
            then s == Served(if IsEof(end) then Nil else ReadError(end), FramedAll(c, owed))
            else s.result == WriteError
    decreases |envs|
  {
    if envs != [] {
      if envs[0].kind == "req" {
        var reply := DispatchOne(methods, envs[0], env(i).answer);
        var later := Owed(methods, env, i + 1, envs[1..]);
        RoomForCons(c, reply, later, room);
        ServeFromExact(c, methods, env, i + 1, envs[1..], end, room - |Written(c, reply, room)|);
        if RoomFor(c, [reply] + later, room) {
          FramedAllCons(c, reply, later);
        }
      } else {
        ServeFromExact(c, methods, env, i + 1, envs[1..], end, room);
      }
    }
  }

  // ---- the promises ----

  /** The input is these good frames up to a clean end, and the peer takes the replies to them. */
  ghost predicate CleanInput(c: Codec, methods: set<string>, env: Environment, input: Bytes, room: nat,
                             bodies: seq<Bytes>, tail: Bytes)
  {
    && AllGood(c, bodies) && CleanEnd(tail) && input == Stream(c, bodies, tail)
    && RoomFor(c, Owed(methods, env, 0, Carried(c, bodies)), room)
  }

  /**
   * With a context that is never done, Serve returns nil exactly when the stream
   * is not broken, every frame read was good, every reply could be written, and the stream ends at a frame
   * boundary or right after one complete in-range header.
   */
  lemma ServeReturnsNilIff(c: Codec, methods: set<string>, env: Environment, input: Bytes, broken: bool, room: nat)
    requires Uncancelled(env)
    ensures ServeStream(c, methods, env, input, broken, room).result.Nil? <==>
      !broken && exists bodies, tail :: CleanInput(c, methods, env, input, room, bodies, tail)
  {
    var p := Parse(c, input, broken);
    ServeFromExact(c, methods, env, 0, p.envs, p.end, room);
    if ServeStream(c, methods, env, input, broken, room).result.Nil? {
      var bodies, tail := ParseNeedsGood(c, input, broken);
      ParseStream(c, bodies, tail, broken);
      assert CleanInput(c, methods, env, input, room, bodies, tail);
    }
    if !broken && exists bodies, tail :: CleanInput(c, methods, env, input, room, bodies, tail) {
      var bodies, tail :| CleanInput(c, methods, env, input, room, bodies, tail);
      ParseStream(c, bodies, tail, broken);
    }
  }

  /**
   * The documented promise that a cut inside a frame is an error fails for a cut
   * right after a header: Serve calls it clean.
   */
  lemma CutAfterHeaderLooksClean(c: Codec, methods: set<string>, env: Environment, n: int, room: nat)
    requires 0 < n <= MAX_FRAME_SIZE && Uncancelled(env)
    ensures ServeStream(c, methods, env, PutUint32(n), false, room) == Served(Nil, [])
  {
    Uint32RoundTrip(n);
    EofIffCleanEnd(c, PutUint32(n), false);
  }

  ghost predicate AllTravel(c: Codec, envs: seq<Envelope>)
  {
    forall k :: 0 <= k < |envs| ==> Travels(c, envs[k])
  }

  /** The encoded bodies of a list of envelopes. */
  ghost function Bodies(c: Codec, envs: seq<Envelope>): (bodies: seq<Bytes>)
    requires AllTravel(c, envs)
    ensures AllGood(c, bodies)
  {
    if envs == [] then [] else [c.encode(envs[0]).bytes] + Bodies(c, envs[1..])
  }

  lemma {:induction false} BodiesCarry(c: Codec, envs: seq<Envelope>)
    requires AllTravel(c, envs)
    ensures Carried(c, Bodies(c, envs)) == envs
  {
    if envs != [] {
      BodiesCarry(c, envs[1..]);
      assert Bodies(c, envs)[1..] == Bodies(c, envs[1..]);
      assert Travels(c, envs[0]);
    }
  }

  /**
   * For every list of envelopes whose encodings and replies fit, Serve over their
   * frames returns nil and writes exactly one framed reply per request, in order,
   * and nothing for anything else.
   */
  lemma ServeAnswersEveryRequest(c: Codec, methods: set<string>, env: Environment, envs: seq<Envelope>, room: nat)
    requires Uncancelled(env) && AllTravel(c, envs)
    requires RoomFor(c, Owed(methods, env, 0, envs), room)
    ensures ServeStream(c, methods, env, Stream(c, Bodies(c, envs), []), false, room)
         == Served(Nil, FramedAll(c, Owed(methods, env, 0, envs)))
  {
    BodiesCarry(c, envs);
    ParseStream(c, Bodies(c, envs), [], false);
    var p := Parse(c, Stream(c, Bodies(c, envs), []), false);
    ServeFromExact(c, methods, env, 0, p.envs, p.end, room);
  }

  /** The request ids of the envelopes that ask for a reply. */
  function RequestIds(envs: seq<Envelope>): seq<string>
  {
    if envs == [] then []
    else if envs[0].kind == "req" then [envs[0].reqID] + RequestIds(envs[1..])
    else RequestIds(envs[1..])
  }

  function Ids(envs: seq<Envelope>): seq<string>
  {
    if envs == [] then [] else [envs[0].reqID] + Ids(envs[1..])
  }

  /** Replies carry the ids of the requests, one each, in order, and are never requests themselves. */
  lemma {:induction false} OwedKeepsIds(methods: set<string>, env: Environment, i: nat, envs: seq<Envelope>)
    ensures Ids(Owed(methods, env, i, envs)) == RequestIds(envs)
    ensures RequestIds(Owed(methods, env, i, envs)) == []
    decreases |envs|
  {
    if envs != [] {
      OwedKeepsIds(methods, env, i + 1, envs[1..]);
      var later := Owed(methods, env, i + 1, envs[1..]);
      var reply := DispatchOne(methods, envs[0], env(i).answer);
      assert ([reply] + later)[1..] == later;
    }
  }

  // ---- what each reply says ----

  /** A request, and what its handler answers if there is one. */
  datatype Exchange = Exchange(req: Envelope, answer: Answer)

  /** The requests among the envelopes, in order, each with the answer of the turn it is read in. */
  function Exchanges(env: Environment, i: nat, envs: seq<Envelope>): seq<Exchange>
    decreases |envs|
  {
    if envs == [] then []
    else if envs[0].kind == "req" then
      [Exchange(envs[0], env(i).answer)] + Exchanges(env, i + 1, envs[1..])
    else Exchanges(env, i + 1, envs[1..])
  }

  /**
   * The reply to a request: the handler's payload or its error if the method is
   * registered, and otherwise an error that names the missing method. Nothing else
   * is set.
   */
  predicate Replies(reply: Envelope, x: Exchange, methods: set<string>)
  {
    && reply.reqID == x.req.reqID
    && reply.methodName == "" && reply.appID == "" && reply.manifestVersion == 0 && reply.origin == NoOrigin
    && (if x.req.methodName in methods && x.answer.Payload?
        then reply.kind == "reply" && reply.payload == x.answer.bytes && reply.error == ""
        else if x.req.methodName in methods
        then reply.kind == "err" && reply.payload == [] && reply.error == x.answer.msg
        else reply.kind == "err" && reply.payload == []
             && reply.error == "method not found: " + x.req.methodName)
  }

  ghost predicate RepliesTo(replies: seq<Envelope>, xs: seq<Exchange>, methods: set<string>)
  {
    |replies| == |xs| && forall k :: 0 <= k < |xs| ==> Replies(replies[k], xs[k], methods)
  }

  lemma OneReplies(methods: set<string>, req: Envelope, answer: Answer)
    ensures Replies(DispatchOne(methods, req, answer), Exchange(req, answer), methods)
  {
  }

  /** The k-th reply owed is the reply to the k-th request. */
  lemma {:induction false} OwedReplies(methods: set<string>, env: Environment, i: nat, envs: seq<Envelope>)
    ensures RepliesTo(Owed(methods, env, i, envs), Exchanges(env, i, envs), methods)
    decreases |envs|
  {
    if envs != [] {
      OwedReplies(methods, env, i + 1, envs[1..]);
      if envs[0].kind == "req" {
        OneReplies(methods, envs[0], env(i).answer);
      }
    }
  }

  /**
   * Over the frames of any envelopes, with room for the replies, Serve writes one
   * framed reply per request, and the k-th is the reply to the k-th request.
   */
  lemma ServeRepliesToEveryRequest(c: Codec, methods: set<string>, env: Environment, envs: seq<Envelope>, room: nat)
    returns (replies: seq<Envelope>)
    requires Uncancelled(env) && AllTravel(c, envs)
    requires RoomFor(c, Owed(methods, env, 0, envs), room)
    ensures AllEncode(c, replies) && RepliesTo(replies, Exchanges(env, 0, envs), methods)
    ensures ServeStream(c, methods, env, Stream(c, Bodies(c, envs), []), false, room)
         == Served(Nil, FramedAll(c, replies))
  {
    replies := Owed(methods, env, 0, envs);
    OwedReplies(methods, env, 0, envs);
    ServeAnswersEveryRequest(c, methods, env, envs, room);
  }

  // ---- a context that ends ----

  /** The context is done at turn n, and was not before. */
  ghost predicate DoneAt(env: Environment, i: nat, n: nat)
  {
    i <= n && env(n).contextDone && forall j :: i <= j < n ==> !env(j).contextDone
  }

  /** A request served, with room for its reply and for those after it. */
  lemma ServesOne(c: Codec, methods: set<string>, env: Environment, i: nat, req: Envelope, later: seq<Envelope>,
                  room: nat)
    requires req.kind == "req"
    requires RoomFor(c, [DispatchOne(methods, req, env(i).answer)] + later, room)
    ensures var reply := DispatchOne(methods, req, env(i).answer);
            var out := Written(c, reply, room);
            && Writable(c, reply, room) && RoomFor(c, later, room - |out|)
            && FramedAll(c, [reply] + later) == out + FramedAll(c, later)
  {
    var reply := DispatchOne(methods, req, env(i).answer);
    RoomForCons(c, reply, later, room);
    FramedAllCons(c, reply, later);
  }

  /**
   * When the context ends at turn n and that many frames can be served, Serve
   * stops there with the context's error, and has written exactly the replies owed
   * to them.
   */
  lemma {:induction false} CancelledServe(c: Codec, methods: set<string>, env: Environment, i: nat, n: nat,
                                          envs: seq<Envelope>, end: Frame, room: nat, served: seq<Envelope>)
    requires DoneAt(env, i, n) && |served| == n - i <= |envs| && served == envs[..n - i]
    requires RoomFor(c, Owed(methods, env, i, served), room)
    ensures ServeFrom(c, methods, env, i, envs, end, room)
         == Served(ContextError, FramedAll(c, Owed(methods, env, i, served)))
    decreases n - i
  {
    if i < n {
      assert served[0] == envs[0] && served[1..] == envs[1..][..n - i - 1];
      var room' := room;
      if envs[0].kind == "req" {
        ServesOne(c, methods, env, i, envs[0], Owed(methods, env, i + 1, served[1..]), room);
        room' := room - |Written(c, DispatchOne(methods, envs[0], env(i).answer), room)|;
      }
      CancelledServe(c, methods, env, i + 1, n, envs[1..], end, room', served[1..]);
    }
  }

  // ---- what is not a frame ----

  /**
   * What ReadFrame makes of a stream that does not hold a whole good frame: nothing
   * at all, part of a header, a header for no or for more than 1048576 bytes,
   * a header alone, part of a body, or a body that does not decode. If the stream
   * fails where bytes are missing, that is the error.
   */
  lemma NotAFrame(c: Codec, n: int, rest: Bytes, part: Bytes, broken: bool)
    requires 0 <= n < 4294967296 && 0 < |part| < 4
    ensures FrameAt(c, [], broken) == if broken then ReadFailed else Eof
    ensures FrameAt(c, part, broken) == if broken then ReadFailed else UnexpectedEof
    ensures n == 0 ==> FrameAt(c, PutUint32(n) + rest, broken) == ZeroLength
    ensures n > 1048576 ==> FrameAt(c, PutUint32(n) + rest, broken) == TooLarge
    ensures 0 < n <= 1048576 && |rest| == 0 ==>
              FrameAt(c, PutUint32(n) + rest, broken) == if broken then ReadFailed else BodyEof
    ensures 0 < n <= 1048576 && 0 < |rest| < n ==>
              FrameAt(c, PutUint32(n) + rest, broken) == if broken then ReadFailed else UnexpectedEof
    ensures 0 < n <= 1048576 && |rest| >= n && c.decode(rest[..n]).Malformed? ==>
              FrameAt(c, PutUint32(n) + rest, broken) == BadBody
  {
    var input := PutUint32(n) + rest;
    Uint32RoundTrip(n);
    assert input[..4] == PutUint32(n);
    if |rest| >= n {
      assert input[4..4 + n] == rest[..n];
    }
  }

  /** An envelope that does not encode, or to more than 1048576 bytes, is not written; a smaller one is framed whole. */
  lemma WrittenWhole(c: Codec, e: Envelope, room: nat)
    ensures c.encode(e).Unencodable? || |c.encode(e).bytes| > 1048576 ==>
              !Writable(c, e, room) && Written(c, e, room) == []
    ensures c.encode(e).Json? && |c.encode(e).bytes| <= 1048576 && 4 + |c.encode(e).bytes| <= room ==>
              Writable(c, e, room) && Written(c, e, room) == PutUint32(|c.encode(e).bytes|) + c.encode(e).bytes
  {
  }
}
