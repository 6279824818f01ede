/** The TCP envelope and the compression layer, over sockets that send and receive in pieces. */
module Framing {
  import opened Wrappers
  import opened Bytes
  import Msg
  import Wire
  import R = Response
  import B = BatchRoundTrip

  /** What send and receive throw; BeyondBody is no exception, see Rebuild. */
  datatype IoError = SocketFailed | ConnectionClosed | BadPrefix | BadLength | BodyTooLong | BodyTooShort | InflateFailed | BeyondBody

  const GUID: Buffer := [0x8A, 0xBE, 0x8E, 0x59, 0x23, 0x64, 0xCB, 0x40, 0x3D, 0x71, 0xD2, 0xE3, 0xBC, 0x64, 0xD0, 0x01]
  const SESSION_STATE_FLAG: Byte := 0x5A
  const CONNECT_FLAG: Byte := 0x09
  const MAX_BODY_LEN: nat := 0x1000_0000
  const ENVELOPE_LEN: nat := 20

  // ----- the envelope -----

  function Aligned(n: nat): nat {
    (n + 7) / 8 * 8
  }

  function PadFor(body: Buffer): nat {
    Aligned(ENVELOPE_LEN + |body|) - (ENVELOPE_LEN + |body|)
  }

  function Wrap(body: Buffer): Buffer {
    GUID + LeBytes(Aligned(ENVELOPE_LEN + |body|) % U32_LIMIT, 4) + body + Zeros(PadFor(body))
  }

  /** The wrapped message has the least multiple of eight bytes its envelope and body fit in. */
  lemma WrapLength(body: Buffer)
    ensures |Wrap(body)| % 8 == 0
    ensures ENVELOPE_LEN + |body| <= |Wrap(body)| < ENVELOPE_LEN + |body| + 8
  {
  }

  /** What a stream's first message is: its body with padding, and the rest of the stream. */
  function Deframe(stream: Buffer): Result<(Buffer, Buffer), IoError> {
    if |stream| < ENVELOPE_LEN then Err(ConnectionClosed)
    else if stream[..16] != GUID then Err(BadPrefix)
    else
      var total := LeValue(stream[16..20]);
      if total < ENVELOPE_LEN then Err(BadLength)
      else if total - ENVELOPE_LEN > MAX_BODY_LEN then Err(BodyTooLong)
      else if |stream| < total then Err(ConnectionClosed)
      else Ok((stream[ENVELOPE_LEN..total], stream[total..]))
  }

  lemma DeframeWrap(body: Buffer, rest: Buffer)
    requires |body| + 8 <= MAX_BODY_LEN
    ensures Deframe(Wrap(body) + rest) == Ok((body + Zeros(PadFor(body)), rest))
  {
    hide LeBytes, LeValue;
    var total := Aligned(ENVELOPE_LEN + |body|);
    var len := LeBytes(total, 4);
    var stream := Wrap(body) + rest;
    assert stream == GUID + len + (body + Zeros(PadFor(body))) + rest;
    assert stream[..16] == GUID && stream[16..20] == len;
    LeRoundTrip32(total);
    assert stream[ENVELOPE_LEN..total] == body + Zeros(PadFor(body));
    assert stream[total..] == rest;
  }

  /** What becomes of a stream that starts with an envelope, by the length in it: at most 256 MiB of body are let in, none below zero. */
  lemma LengthDecides(total: nat, tail: Buffer)
    requires total < U32_LIMIT
    ensures Deframe(GUID + LeBytes(total, 4) + tail)
         == if total < 20 then Err(BadLength)
            else if total > 20 + 268_435_456 then Err(BodyTooLong)
            else if |tail| < total - 20 then Err(ConnectionClosed)
            else Ok((tail[..total - 20], tail[total - 20..]))
  {
    hide LeBytes, LeValue;
    var stream := GUID + LeBytes(total, 4) + tail;
    LeRoundTrip32(total);
    assert stream[..16] == GUID && stream[16..20] == LeBytes(total, 4) && stream[20..] == tail;
    if 20 <= total && |tail| >= total - 20 {
      assert stream[20..total] == tail[..total - 20] && stream[total..] == tail[total - 20..];
    }
  }

  /** And what does not start with one is refused as soon as its first 20 bytes are there. */
  lemma OthersAreRefused(stream: Buffer)
    requires |stream| < 20 || stream[..16] != GUID
    ensures Deframe(stream) == Err(if |stream| < 20 then ConnectionClosed else BadPrefix)
  {
  }

  // ----- sockets -----

  /** What one ::send or ::recv may do: move up to n bytes, be interrupted, or fail. */
  datatype Step = Moves(n: nat) | Interrupted | Fails

  /** A socket whose calls follow a schedule, the peer's bytes on one side and ours on the other. */
  class Socket {
    var plan: seq<Step>
    var sent: Buffer
    var incoming: Buffer

    constructor (plan: seq<Step>, incoming: Buffer)
      ensures this.plan == plan && sent == [] && this.incoming == incoming
    {
      this.plan := plan;
      sent := [];
      this.incoming := incoming;
    }

    /** ::send of some bytes: how many were taken; none when interrupted. */
    method Send(data: Buffer) returns (r: Result<nat, IoError>)
      modifies this
      ensures incoming == old(incoming) && |plan| <= |old(plan)|
      ensures r.Ok? ==> r.value <= |data| && sent == old(sent) + data[..r.value] && |plan| < |old(plan)|
      ensures r.Err? ==> sent == old(sent) && r.error == SocketFailed
    {
      if plan == [] || plan[0].Fails? { return Err(SocketFailed); }
      var n := if plan[0].Moves? then (if plan[0].n < |data| then plan[0].n else |data|) else 0;
      plan := plan[1..];
      sent := sent + data[..n];
      return Ok(n);
    }

    /** ::recv of at most len bytes: the bytes, none when interrupted, or the end of the connection. */
    method Recv(len: nat) returns (r: Result<Buffer, IoError>)
      requires len > 0
      modifies this
      ensures sent == old(sent) && |plan| <= |old(plan)|
      ensures r.Ok? ==> |r.value| <= len && old(incoming) == r.value + incoming && |plan| < |old(plan)|
      ensures r.Err? ==> incoming == old(incoming) && (r.error == SocketFailed || r.error == ConnectionClosed)
    {
      if plan == [] || plan[0].Fails? { return Err(SocketFailed); }
      var step := plan[0];
      plan := plan[1..];
      if step.Interrupted? { return Ok([]); }
      var most := if step.n < len then step.n else len;
      var n := if most < |incoming| then most else |incoming|;
      if n == 0 { return Err(ConnectionClosed); }
      var got := incoming[..n];
      incoming := incoming[n..];
      return Ok(got);
    }

    /** write_all: whatever the schedule of short sends, all bytes go out once and in order, or it throws. */
    method WriteAll(data: Buffer) returns (r: Result<(), IoError>)
      modifies this
      ensures incoming == old(incoming) && |plan| <= |old(plan)|
      ensures r.Ok? ==> sent == old(sent) + data
      ensures r.Err? ==> old(sent) <= sent <= old(sent) + data && r.error == SocketFailed
    {
      var off: nat := 0;
      while off < |data|
        invariant off <= |data| && sent == old(sent) + data[..off]
        invariant incoming == old(incoming) && |plan| <= |old(plan)|
        decreases |plan|
      {
        var n := Send(data[off..]);
        if n.Err? { return Err(n.error); }
        assert data[..off + n.value] == data[..off] + data[off..][..n.value];
        off := off + n.value;
      }
      return Ok(());
    }

    /** read_exact: the next len bytes of the stream, however they arrive, or it throws. */
    method ReadExact(len: nat) returns (r: Result<Buffer, IoError>)
      modifies this
      ensures sent == old(sent) && |plan| <= |old(plan)|
      ensures r.Ok? ==> |r.value| == len && old(incoming) == r.value + incoming
      ensures r.Err? ==> r.error == SocketFailed || r.error == ConnectionClosed
    {
      var buf: Buffer := [];
      while |buf| < len
        invariant |buf| <= len && old(incoming) == buf + incoming
        invariant sent == old(sent) && |plan| <= |old(plan)|
        decreases |plan|
      {
        var got := Recv(len - |buf|);
        if got.Err? { return Err(got.error); }
        buf := buf + got.value;
      }
      return Ok(buf);
    }

    /** recv_msg: when the socket does not fail, exactly the first message of the stream. */
    method RecvMsg() returns (r: Result<Buffer, IoError>)
      modifies this
      ensures sent == old(sent)
      ensures r.Ok? ==> Deframe(old(incoming)) == Ok((r.value, incoming))
      ensures r.Err? && r.error != SocketFailed && r.error != ConnectionClosed ==> Deframe(old(incoming)) == Err(r.error)
    {
      hide LeValue;
      var head := ReadExact(ENVELOPE_LEN);
      if head.Err? { return Err(head.error); }
      ghost var stream := old(incoming);
      assert stream[..16] == head.value[..16] && stream[16..20] == head.value[16..20];
      if head.value[..16] != GUID { return Err(BadPrefix); }
      var total := LeValue(head.value[16..20]);
      if total < ENVELOPE_LEN { return Err(BadLength); }
      if total - ENVELOPE_LEN > MAX_BODY_LEN { return Err(BodyTooLong); }
      var body := ReadExact(total - ENVELOPE_LEN);
      if body.Err? { return Err(body.error); }
      assert stream == head.value + body.value + incoming;
      assert stream[ENVELOPE_LEN..total] == body.value && stream[total..] == incoming;
      return Ok(body.value);
    }
  }

  // ----- compression -----

  type Deflate = Buffer -> Buffer
  type Inflate = Buffer -> Option<Buffer>

  predicate IsConnect(body: Buffer)
    requires |body| >= 7
  {
    LeValue(body[1..3]) == Msg.CONNECT
  }

  /** The body that goes on the wire: sections of 16 bytes or less stay plain. */
  function ToSend(body: Buffer, deflate: Deflate): Result<Buffer, IoError> {
    if |body| < 7 then Err(BodyTooShort)
    else if |body| - 7 <= 16 then Ok([if IsConnect(body) then CONNECT_FLAG else SESSION_STATE_FLAG] + body[1..])
    else
      var deflated := deflate(body[7..]);
      Ok([if IsConnect(body) then CONNECT_FLAG else SESSION_STATE_FLAG + 1] + body[1..3]
         + LeBytes(|deflated| % U32_LIMIT, 4) + deflated)
  }

  /**
   * A received body made uniform: flag 0, inner section plain, lengths rewritten. The guard on the section's
   * length adds in 32 bits. Where it lets a section through that goes beyond the body, inflate is handed
   * bytes that are none of it, and nothing can be said of the outcome: BeyondBody.
   */
  function Rebuild(raw: Buffer, inflate: Inflate): Result<Buffer, IoError> {
    if |raw| < 7 || raw[0] % 2 == 0 then Ok(if raw == [] then raw else raw[0 := 0])
    else
      var innerLen := LeValue(raw[3..7]);
      if (7 + innerLen) % U32_LIMIT > |raw| then Err(BodyTooShort)
      else if 7 + innerLen > |raw| then Err(BeyondBody)
      else
        var inflated := inflate(raw[7..7 + innerLen]);
        if inflated.None? then Err(InflateFailed)
        else Ok([0] + raw[1..3] + LeBytes(|inflated.value| % U32_LIMIT, 4) + inflated.value)
  }

  /**
   * send_recv_compressed. A failed send leaves a prefix of the message on the wire and reads nothing; any
   * error but a socket's own or a closed connection is the one the reply itself calls for.
   */
  method SendRecvCompressed(socket: Socket, body: Buffer, deflate: Deflate, inflate: Inflate)
    returns (r: Result<Buffer, IoError>)
    modifies socket
    ensures r.Ok? ==>
              && ToSend(body, deflate).Ok? && socket.sent == old(socket.sent) + Wrap(ToSend(body, deflate).value)
              && Deframe(old(socket.incoming)).Ok?
              && socket.incoming == Deframe(old(socket.incoming)).value.1
              && Rebuild(Deframe(old(socket.incoming)).value.0, inflate) == r
    ensures |body| < 7 ==> r == Err(BodyTooShort) && socket.sent == old(socket.sent) && socket.incoming == old(socket.incoming)
    ensures |body| >= 7 ==> old(socket.sent) <= socket.sent <= old(socket.sent) + Wrap(ToSend(body, deflate).value)
    ensures |body| >= 7 && socket.sent != old(socket.sent) + Wrap(ToSend(body, deflate).value) ==>
              r == Err(SocketFailed) && socket.incoming == old(socket.incoming)
    ensures |body| >= 7 && r.Err? && r.error != SocketFailed && r.error != ConnectionClosed ==>
              match Deframe(old(socket.incoming))
              case Err(e) => r.error == e
              case Ok((raw, rest)) => socket.incoming == rest && Rebuild(raw, inflate) == r
  {
    hide LeBytes, LeValue;
    if |body| < 7 { return Err(BodyTooShort); }
    var toSend: Buffer;
    if |body| - 7 <= 16 {
      toSend := [if IsConnect(body) then CONNECT_FLAG else SESSION_STATE_FLAG] + body[1..];
    } else {
      var deflated := deflate(body[7..]);
      toSend := [if IsConnect(body) then CONNECT_FLAG else SESSION_STATE_FLAG + 1];
      toSend := toSend + [body[1]];
      toSend := toSend + [body[2]];
      assert toSend == [if IsConnect(body) then CONNECT_FLAG else SESSION_STATE_FLAG + 1] + body[1..3];
      toSend := toSend + LeBytes(|deflated| % U32_LIMIT, 4);
      toSend := toSend + deflated;
    }
    assert ToSend(body, deflate) == Ok(toSend);
    var written := socket.WriteAll(Wrap(toSend));
    if written.Err? { return Err(written.error); }
    var raw := socket.RecvMsg();
    if raw.Err? { return Err(raw.error); }
    var m := raw.value;
    if |m| < 7 || m[0] % 2 == 0 {
      if m != [] { m := m[0 := 0]; }
      return Ok(m);
    }
    var innerLen := LeValue(m[3..7]);
    if (7 + innerLen) % U32_LIMIT > |m| { return Err(BodyTooShort); }
    if 7 + innerLen > |m| { return Err(BeyondBody); }
    var inflated := inflate(m[7..7 + innerLen]);
    if inflated.None? { return Err(InflateFailed); }
    var out: Buffer := [0];
    out := out + [m[1]];
    out := out + [m[2]];
    assert out == [0] + m[1..3];
    out := out + LeBytes(|inflated.value| % U32_LIMIT, 4);
    out := out + inflated.value;
    return Ok(out);
  }

  /**
   * What the guard is worth, for every compressed body the envelope lets in: it refuses a section that goes
   * beyond the body if and only if the section's length leaves room for the header in 32 bits. A length in
   * the topmost seven always passes it.
   */
  lemma GuardIsExact(raw: Buffer, inflate: Inflate)
    requires 7 <= |raw| <= MAX_BODY_LEN && raw[0] % 2 == 1
    ensures var (innerLen, r) := (LeValue(raw[3..7]), Rebuild(raw, inflate));
            && (r == Err(BodyTooShort) <==> |raw| < 7 + innerLen < U32_LIMIT)
            && (r == Err(BeyondBody) <==> 7 + innerLen >= U32_LIMIT)
            && (r.Ok? || r == Err(InflateFailed) <==> 7 + innerLen <= |raw|)
  {
    hide LeValue;
    LengthBound(raw[3..7]);
  }

  lemma LengthBound(b: Buffer)
    requires |b| == 4
    ensures LeValue(b) < U32_LIMIT
  {
    PowersOf256();
    LeValueBound(b);
  }

  // ----- round trips -----

  /** What a peer makes of a received body: the request code and the plain inner section. */
  function PeerReads(raw: Buffer, inflate: Inflate): Option<(nat, Buffer)> {
    if |raw| < 7 then None
    else if raw[0] % 2 == 0 then Some((LeValue(raw[1..3]), raw[7..]))
    else
      var innerLen := LeValue(raw[3..7]);
      if 7 + innerLen > |raw| then None
      else
        var inner :- inflate(raw[7..7 + innerLen]);
        Some((LeValue(raw[1..3]), inner))
  }

  /** The low flag bit says "deflated", except on a Connect body with a short inner section. */
  lemma FlagBitMeansDeflated(body: Buffer, deflate: Deflate)
    requires |body| >= 7
    ensures var deflated := |body| - 7 > 16;
            (ToSend(body, deflate).value[0] % 2 == 1 <==> deflated) <==> !(IsConnect(body) && !deflated)
  {
  }

  /** The flag byte of every message: 9 on a Connect, else 5A, and 5B where the section is deflated. */
  lemma FlagOfMessage(reqcode: nat, inner: Buffer, deflate: Deflate)
    requires reqcode < U16_LIMIT
    ensures ToSend(Msg.Message(reqcode, inner), deflate).Ok?
    ensures ToSend(Msg.Message(reqcode, inner), deflate).value[0] == if reqcode == 0 then 0x09 else if |inner| > 16 then 0x5B else 0x5A
  {
    hide LeBytes, LeValue;
    LeRoundTrip16(reqcode);
    Msg.MessageHeader(reqcode, inner);
  }

  /** Every Connect body the client builds is deflated, so its flag bit never lies. */
  lemma ConnectIsDeflated(hostname: Buffer, nonce: nat, deflate: Deflate)
    ensures var body := Msg.Message(Msg.CONNECT, Wire.PackAll(Msg.ConnectUnits(hostname, nonce))) + Zeros(4);
            |body| - 7 > 16 && (ToSend(body, deflate).value[0] % 2 == 1)
  {
    Msg.ConnectInnerLength(hostname, nonce);
    var body := Msg.Message(Msg.CONNECT, Wire.PackAll(Msg.ConnectUnits(hostname, nonce))) + Zeros(4);
    assert |body| == 7 + 33 + |hostname|;
  }

  /** A body that survives the wire: not a Connect with a short inner section, and what is deflated can be inflated. */
  predicate Sendable(body: Buffer, deflate: Deflate, inflate: Inflate) {
    7 <= |body|
    && if |body| - 7 <= 16 then !IsConnect(body)
       else inflate(deflate(body[7..])) == Some(body[7..]) && |deflate(body[7..])| + 15 <= MAX_BODY_LEN
  }

  /** The request code and the inner section are those of the body, up to fewer than eight zero bytes. */
  predicate Same(body: Buffer, got: (nat, Buffer)) {
    && |body| >= 7 && got.0 == LeValue(body[1..3])
    && 0 <= |got.1| - (|body| - 7) < 8 && got.1 == body[7..] + Zeros(|got.1| - (|body| - 7))
  }

  /**
   * What the peer recovers from the wire: stripping the envelope and inflating where the flag says so
   * gives the same request code and the same inner section, and leaves what follows.
   */
  lemma PeerRecoversBody(body: Buffer, rest: Buffer, deflate: Deflate, inflate: Inflate)
    requires Sendable(body, deflate, inflate)
    ensures var framed := Deframe(Wrap(ToSend(body, deflate).value) + rest);
            && framed.Ok? && framed.value.1 == rest
            && PeerReads(framed.value.0, inflate).Some?
            && Same(body, PeerReads(framed.value.0, inflate).value)
  {
    hide LeBytes, LeValue, Deframe;
    var wire := ToSend(body, deflate).value;
    DeframeWrap(wire, rest);
    var pad := PadFor(wire);
    var raw := wire + Zeros(pad);
    if |body| - 7 <= 16 {
      assert raw[1..3] == body[1..3];
      assert raw[7..] == body[7..] + Zeros(pad);
    } else {
      var d := deflate(body[7..]);
      assert raw == [wire[0]] + (body[1..3] + LeBytes(|d|, 4) + d + Zeros(pad));
      FourParts(wire[0], body[1..3], LeBytes(|d|, 4), d, Zeros(pad));
      LeRoundTrip32(|d|);
      assert body[7..] + Zeros(0) == body[7..];
    }
  }

  /** Bodies back to back, as they stand on the wire. */
  function OnWire(bodies: seq<Buffer>, deflate: Deflate): Buffer
    requires forall i :: 0 <= i < |bodies| ==> |bodies[i]| >= 7
  {
    if bodies == [] then [] else Wrap(ToSend(bodies[0], deflate).value) + OnWire(bodies[1..], deflate)
  }

  lemma {:induction false} OnWireSnoc(bodies: seq<Buffer>, i: nat, deflate: Deflate)
    requires i < |bodies| && forall k :: 0 <= k < |bodies| ==> |bodies[k]| >= 7
    ensures OnWire(bodies[..i + 1], deflate) == OnWire(bodies[..i], deflate) + Wrap(ToSend(bodies[i], deflate).value)
  {
    hide Wrap, ToSend;
    if i == 0 {
      assert bodies[..1] == [bodies[0]] && bodies[..1][1..] == [];
    } else {
      OnWireSnoc(bodies[1..], i - 1, deflate);
      assert bodies[..i + 1][1..] == bodies[1..][..i] && bodies[..i][1..] == bodies[1..][..i - 1];
    }
  }

  /**
   * Two parties. Whatever the schedules of the two sockets, the client's short sends and the peer's short
   * receives: unless a socket fails, the peer gets every message once, in order, each with its request
   * code and its inner section, and nothing is left on the wire.
   */
  method Converse(client: Socket, peer: Socket, bodies: seq<Buffer>, deflate: Deflate, inflate: Inflate)
    returns (r: Result<seq<(nat, Buffer)>, IoError>)
    requires client != peer && client.sent == [] && peer.incoming == []
    requires forall i :: 0 <= i < |bodies| ==> Sendable(bodies[i], deflate, inflate)
    modifies client, peer
    ensures r.Ok? ==>
              && |r.value| == |bodies| && (forall i :: 0 <= i < |bodies| ==> Same(bodies[i], r.value[i]))
              && client.sent == OnWire(bodies, deflate) && peer.incoming == []
    ensures r.Err? ==> r.error == SocketFailed || r.error == ConnectionClosed
  {
    hide Wrap, ToSend, Deframe, PeerReads, Same;
    for i := 0 to |bodies|
      invariant client.sent == OnWire(bodies[..i], deflate)
    {
      var toSend := ToSend(bodies[i], deflate);
      LongEnough(bodies[i], deflate);
      var written := client.WriteAll(Wrap(toSend.value));
      if written.Err? { return Err(written.error); }
      OnWireSnoc(bodies, i, deflate);
    }
    assert bodies[..|bodies|] == bodies;
    peer.incoming := client.sent;
    var got: seq<(nat, Buffer)> := [];
    for i := 0 to |bodies|
      invariant client.sent == OnWire(bodies, deflate) && peer.incoming == OnWire(bodies[i..], deflate)
      invariant |got| == i && forall k :: 0 <= k < i ==> Same(bodies[k], got[k])
    {
      assert bodies[i..][1..] == bodies[i + 1..];
      PeerRecoversBody(bodies[i], OnWire(bodies[i + 1..], deflate), deflate, inflate);
      var raw := peer.RecvMsg();
      if raw.Err? { return Err(raw.error); }
      got := got + [PeerReads(raw.value, inflate).value];
    }
    return Ok(got);
  }

  lemma LongEnough(body: Buffer, deflate: Deflate)
    requires |body| >= 7
    ensures ToSend(body, deflate).Ok?
  {
  }

  lemma FourParts(flag: Byte, a: Buffer, b: Buffer, c: Buffer, d: Buffer)
    requires |a| == 2 && |b| == 4
    ensures var raw := [flag] + (a + b + c + d);
            |raw| == 7 + |c| + |d| && raw[1..3] == a && raw[3..7] == b && raw[7..7 + |c|] == c
  {
  }

  /** A compressed reply is rebuilt to the plain message it stands for; the envelope's padding is gone. */
  lemma CompressedReplyIsRebuilt(flag: Byte, reqcode: nat, inner: Buffer, pad: nat, deflate: Deflate, inflate: Inflate)
    requires flag % 2 == 1 && reqcode < U16_LIMIT && |inner| < U32_LIMIT
    requires |deflate(inner)| < MAX_BODY_LEN && inflate(deflate(inner)) == Some(inner)
    ensures var d := deflate(inner);
            Rebuild([flag] + LeBytes(reqcode, 2) + LeBytes(|d|, 4) + d + Zeros(pad), inflate) == Ok(Msg.Message(reqcode, inner))
  {
    hide LeBytes, LeValue;
    var d := deflate(inner);
    var raw := [flag] + LeBytes(reqcode, 2) + LeBytes(|d|, 4) + d + Zeros(pad);
    assert raw == [flag] + (LeBytes(reqcode, 2) + LeBytes(|d|, 4) + d + Zeros(pad));
    FourParts(flag, LeBytes(reqcode, 2), LeBytes(|d|, 4), d, Zeros(pad));
    LeRoundTrip32(|d|);
  }

  /** A plain reply keeps its padding: only the flag byte is cleared. */
  lemma PlainReplyKeepsPadding(flag: Byte, tail: Buffer, pad: nat, inflate: Inflate)
    requires flag % 2 == 0
    ensures Rebuild([flag] + tail + Zeros(pad), inflate) == Ok([0] + tail + Zeros(pad))
  {
    var raw := [flag] + tail + Zeros(pad);
    assert raw[0 := 0] == [0] + tail + Zeros(pad);
  }

  /**
   * What that padding does to a reader: a batch of rows, framed as the last thing of a plain reply, is
   * refused by the client if and only if the reply's length leaves a remainder of 1, 2 or 3 by eight.
   */
  lemma PlainBatchReply(flag: Byte, header: Buffer, b: R.CursorBatch, expected: nat, rest: Buffer, inflate: Inflate)
    requires flag % 2 == 0 && |header| == 6
    requires expected >= 5 && B.SingleRowBatch(b, expected) && b.code == R.RESULT_OK
    requires 7 + |B.EncodeBatch(b, [])| + 8 <= MAX_BODY_LEN
    ensures var body := [flag] + header + B.EncodeBatch(b, []);
            var framed := Deframe(Wrap(body) + rest);
            && framed.Ok? && Rebuild(framed.value.0, inflate).Ok?
            && R.ReadBatch(Rebuild(framed.value.0, inflate).value, 7, expected)
               == if |body| % 8 in {1, 2, 3} then Err(Wire.NoLength) else Ok(Some((b, |body|)))
  {
    hide Deframe, Rebuild, R.ReadBatch, B.SingleRowBatch, B.EncodeBatch, PadFor, Wrap;
    var batch := B.EncodeBatch(b, []);
    var body := [flag] + header + batch;
    var pad := PadFor(body);
    DeframeWrap(body, rest);
    PlainReplyKeepsPadding(flag, header + batch, pad, inflate);
    assert [flag] + (header + batch) == body;
    BatchBehindHeader(header, b, pad);
    PadOf(body);
    B.PaddedBatch([0] + (header + batch) + Zeros(pad), 7, b, pad, expected);
  }

  lemma PadOf(body: Buffer)
    ensures PadFor(body) < 8 && (|body| % 8 in {1, 2, 3} <==> 1 <= PadFor(body) <= 3)
  {
  }

  lemma BatchBehindHeader(header: Buffer, b: R.CursorBatch, pad: nat)
    requires |header| == 6
    ensures ([0] + (header + B.EncodeBatch(b, [])) + Zeros(pad))[7..] == B.EncodeBatch(b, Zeros(pad))
  {
    hide B.Head;
    Nested(B.Head(b.code, b.info), Wire.PackAll(b.rows), Zeros(pad));
    var batch := B.EncodeBatch(b, []);
    assert ([0] + (header + batch) + Zeros(pad))[7..] == batch + Zeros(pad);
  }

  lemma Nested(a: Buffer, b: Buffer, c: Buffer)
    ensures a + (b + []) + c == a + (b + c)
  {
    assert b + [] == b;
    assert a + b + c == a + (b + c);
  }
}
