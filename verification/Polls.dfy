/** Which replies ask for another poll, read off the replies a server packs; and how often a runner polls. */
module Polls {
  import opened Wrappers
  import opened Bytes
  import opened Wire
  import opened Transports
  import opened Response
  import opened Cursor
  import Msg

  /** A reply as the server packs it. */
  function Packed(reqcode: nat, units: seq<Buffer>): Buffer {
    Msg.Message(reqcode, PackAll(units))
  }

  /**
   * A reply asks for another poll if and only if its request code is the polling sentinel, or its first unit
   * is the result code 3 in two bytes. A reply without any unit does only for the sentinel.
   */
  lemma NotReadyIsExact(reqcode: nat, first: Buffer, rest: seq<Buffer>)
    requires reqcode < U16_LIMIT && |first| < U32_LIMIT
    ensures NotReady(Packed(reqcode, [first] + rest)) <==> reqcode == 0x2C14 || first == [3, 0]
    ensures NotReady(Packed(reqcode, [])) <==> reqcode == 0x2C14
  {
    hide LeBytes, LeValue;
    ReqcodeBack(reqcode, PackAll([]));
    var inner := PackAll([first] + rest);
    var body := Packed(reqcode, [first] + rest);
    ReqcodeBack(reqcode, inner);
    assert ([first] + rest)[1..] == rest;
    var len, tail := LeBytes(|first|, 4), PackAll(rest);
    assert inner == len + first + tail;
    LeRoundTrip32(|first|);
    assert body[7..] == inner;
    assert body[7..11] == inner[..4] == len;
    if |first| == 2 {
      assert body[11..13] == inner[4..6] == first;
      TwoBytes(first);
    }
  }

  lemma ReqcodeBack(reqcode: nat, inner: Buffer)
    requires reqcode < U16_LIMIT
    ensures BodyReqcode(Msg.Message(reqcode, inner)) == reqcode
  {
    hide LeBytes, LeValue;
    var body := Msg.Message(reqcode, inner);
    LeRoundTrip16(reqcode);
    assert body[1..3] == LeBytes(reqcode, 2);
  }

  /** The sentinel is told by two bytes of a body, however short the rest. */
  lemma SentinelIsExact(body: Buffer)
    ensures BodyReqcode(body) == 0x2C14 <==> |body| >= 3 && body[1] == 0x14 && body[2] == 0x2C
    ensures |body| < 13 ==> (NotReady(body) <==> BodyReqcode(body) == 0x2C14)
  {
    if |body| >= 3 {
      PairValue(body[1..3]);
    }
  }

  lemma PairValue(b: Buffer)
    requires |b| == 2
    ensures LeValue(b) == b[0] + 256 * (b[1] as nat)
  {
    assert b[1..] == [b[1]] && b[1..][1..] == [];
    assert LeValue([b[1]]) == b[1];
  }

  lemma TwoBytes(b: Buffer)
    requires |b| == 2
    ensures LeValue(b) == 3 <==> b == [3, 0]
  {
    PairValue(b);
  }

  /** For every result code: code 3, or the sentinel, and nothing else. */
  lemma CodeDecides(reqcode: nat, code: nat, rest: seq<Buffer>)
    requires reqcode < U16_LIMIT && code < U16_LIMIT
    ensures NotReady(Packed(reqcode, [LeBytes(code, 2)] + rest)) <==> code == 3 || reqcode == 0x2C14
  {
    NotReadyIsExact(reqcode, LeBytes(code, 2), rest);
    LeRoundTrip16(code);
    TwoBytes(LeBytes(code, 2));
  }

  /**
   * A reply is looked into if and only if it holds six bytes behind its header and is not the polling
   * sentinel. Any other ends the runner's cursor, and brings the callback loop nothing and does not stop it.
   */
  lemma ReadableIsExact(reqcode: nat, inner: Buffer, recordSize: nat)
    requires reqcode < U16_LIMIT
    ensures Readable(Msg.Message(reqcode, inner)) <==> |inner| >= 6 && reqcode != 0x2C14
    ensures |inner| < 6 || reqcode == 0x2C14 ==>
              && BlockOf(Body(Msg.Message(reqcode, inner)), recordSize) == Ok(Block([], [], true))
              && forall kind: ReplyKind, seen: seq<Item>, target: nat, keep: RowCallback ::
                   ProcessBody(Msg.Message(reqcode, inner), kind, recordSize, seen, target, keep) == (false, seen)
  {
    ReqcodeBack(reqcode, inner);
  }

  /** The reply is packed with this result code. */
  ghost predicate Answers(reply: Reply, code: nat) {
    exists reqcode: nat, rest: seq<Buffer> ::
      reqcode < U16_LIMIT && reqcode != 0x2C14 && reply == Body(Packed(reqcode, [LeBytes(code, 2)] + rest))
  }

  /** The server answers Execute and the polls with code 3, k times in all, and then with another code. */
  ghost predicate AnswersInTime(server: Server, log: seq<Request>, k: nat, code: nat) {
    && code < U16_LIMIT && code != 3
    && (forall j: nat :: j < k ==> Answers(server(log + Opening(j)), 3))
    && Answers(server(log + Opening(k)), code)
    && ReplyTo(server, log + Opening(k), SetToBegin).Body?
  }

  lemma ReadyWhenAnswered(server: Server, log: seq<Request>, k: nat, code: nat)
    requires AnswersInTime(server, log, k, code)
    ensures ReadyAt(server, log, k)
    ensures forall j: nat :: ReadyAt(server, log, j) ==> j == k
  {
    hide NotReady, Packed;
    forall j: nat | j <= k
      ensures server(log + Opening(j)).Body? && (NotReady(server(log + Opening(j)).body) <==> j < k)
    {
      var c := if j < k then 3 else code;
      assert Answers(server(log + Opening(j)), c);
      var reqcode: nat, rest: seq<Buffer> :|
        reqcode < U16_LIMIT && reqcode != 0x2C14 && server(log + Opening(j)) == Body(Packed(reqcode, [LeBytes(c, 2)] + rest));
      CodeDecides(reqcode, c, rest);
    }
    forall j: nat | ReadyAt(server, log, j)
      ensures j == k
    {
      assert server(log + Opening(j)).Body? && server(log + Opening(k)).Body?;
    }
  }

  lemma NotReadyBefore(server: Server, log: seq<Request>, k: nat, code: nat)
    requires AnswersInTime(server, log, k, code)
    ensures forall j: nat :: j < k ==> server(log + Opening(j)).Body? && NotReady(server(log + Opening(j)).body)
  {
    hide NotReady;
    ReadyWhenAnswered(server, log, k, code);
    assert ReadyAt(server, log, k);
  }

  /** On such a server a runner sends Execute, exactly k polls and SetToBegin if k is below 100; else it gives up after 99 polls and cleans up. */
  method OpenPolled(t: Transport, recordSize: nat, batchSize: nat, ghost k: nat, ghost code: nat)
    returns (r: Result<CursorRunner, CursorError>)
    requires AnswersInTime(t.server, t.log, k, code)
    modifies t
    ensures r.Ok? <==> k < 100
    ensures r.Ok? ==> t.log == old(t.log) + [ExecuteStatement] + Repeat(Receive, k) + [SetToBegin]
    ensures r.Err? ==> r.error == StillNotReady && t.log == old(t.log) + [ExecuteStatement] + Repeat(Receive, 99) + [CloseCursor, ResetStatement, RemoveAllTables]
  {
    hide ReadyAt, AnswersInTime, NotReady;
    ReadyWhenAnswered(t.server, t.log, k, code);
    NotReadyBefore(t.server, t.log, k, code);
    r := OpenRunner(t, recordSize, batchSize);
  }
}
