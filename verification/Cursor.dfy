/** Driving a cursor: the callback-driven loop and the block-at-a-time runner. */
module Cursor {
  import opened Wrappers
  import opened Bytes
  import opened Transports
  import opened Wire
  import opened Response

  const MAX_RECEIVE_POLLS: nat := 100
  const MIN_BODY: nat := PACK_STREAM_OFFSET + 6

  datatype CursorError = TransportLost | StillNotReady | Malformed(e: WireError)

  /** One delivered row with its bookmark, empty if the batch has none. */
  type Item = (Buffer, Buffer)

  function Items(rows: seq<Buffer>, bookmarks: seq<Buffer>): (r: seq<Item>)
    ensures |r| == |rows|
  {
    seq(|rows|, i requires 0 <= i < |rows| => (rows[i], if i < |bookmarks| then bookmarks[i] else []))
  }

  predicate InnerSaysNotReady(body: Buffer) {
    |body| >= MIN_BODY && LeValue(body[7..11]) == 2 && LeValue(body[11..13]) == RESULT_NOT_READY
  }

  predicate NotReady(body: Buffer) {
    BodyReqcode(body) == REQCODE_POLLING_SENTINEL || InnerSaysNotReady(body)
  }

  predicate Readable(body: Buffer) {
    |body| >= MIN_BODY && BodyReqcode(body) != REQCODE_POLLING_SENTINEL
  }

  // ----- the callback loop -----

  datatype ReplyKind = SingleRow | RecordBlock

  /** Whether to go on, decided by the rows delivered so far, the newest last. */
  type RowCallback = seq<Item> -> bool

  function ReadOne(kind: ReplyKind, body: Buffer, pos: nat, recordSize: nat): (r: BatchResult)
    ensures r.Ok? && r.value.Some? ==> pos < r.value.value.1
  {
    if kind.SingleRow? then ReadBatch(body, pos, recordSize) else ReadBlock(body, pos, recordSize)
  }

  /** Deliver rows until the target is met or the callback has had enough: (stopped, delivered). */
  function Deliver(items: seq<Item>, seen: seq<Item>, target: nat, keep: RowCallback): (bool, seq<Item>)
    decreases |items|
  {
    if items == [] then (false, seen)
    else if |seen| >= target then (true, seen)
    else
      var seen' := seen + [items[0]];
      if !keep(seen') then (true, seen') else Deliver(items[1..], seen', target, keep)
  }

  /** Every batch of a body from a position on; a batch that cannot be read ends the body quietly. */
  function ProcessFrom(body: Buffer, pos: nat, kind: ReplyKind, recordSize: nat, seen: seq<Item>, target: nat,
                       keep: RowCallback): (bool, seq<Item>)
    decreases |body| - pos
  {
    var batch := ReadOne(kind, body, pos, recordSize);
    if batch.Err? || batch.value.None? then (false, seen)
    else
      var (b, next) := batch.value.value;
      var (stop, seen') := Deliver(Items(b.rows, b.bookmarks), seen, target, keep);
      if stop || b.code != RESULT_OK then (true, seen')
      else if next >= |body| then (false, seen')
      else ProcessFrom(body, next, kind, recordSize, seen', target, keep)
  }

  function ProcessBody(body: Buffer, kind: ReplyKind, recordSize: nat, seen: seq<Item>, target: nat,
                       keep: RowCallback): (bool, seq<Item>)
  {
    if !Readable(body) then (false, seen) else ProcessFrom(body, PACK_STREAM_OFFSET, kind, recordSize, seen, target, keep)
  }

  method ProcessBodyOf(body: Buffer, kind: ReplyKind, recordSize: nat, seen: seq<Item>, target: nat, keep: RowCallback)
    returns (stop: bool, rowsSeen: seq<Item>)
    ensures (stop, rowsSeen) == ProcessBody(body, kind, recordSize, seen, target, keep)
  {
    rowsSeen := seen;
    if |body| < MIN_BODY { return false, rowsSeen; }
    if BodyReqcode(body) == REQCODE_POLLING_SENTINEL { return false, rowsSeen; }
    var walker := new Walker(body, PACK_STREAM_OFFSET);
    while true
      invariant walker.buf == body
      invariant ProcessBody(body, kind, recordSize, seen, target, keep)
             == ProcessFrom(body, walker.pos, kind, recordSize, rowsSeen, target, keep)
      decreases |body| - walker.pos
    {
      ghost var start := walker.pos;
      var batch: Result<Option<CursorBatch>, WireError>;
      if kind.SingleRow? {
        batch := ReadBatchFrom(walker, recordSize);
      } else {
        batch := ReadBlockFrom(walker, recordSize);
      }
      if batch.Err? || batch.value.None? { return false, rowsSeen; }
      var b := batch.value.value;
      stop, rowsSeen := DeliverRows(b.rows, b.bookmarks, rowsSeen, target, keep);
      if stop { return true, rowsSeen; }
      if b.code != RESULT_OK { return true, rowsSeen; }
      if walker.pos >= |body| { return false, rowsSeen; }
    }
  }

  method DeliverRows(rows: seq<Buffer>, bookmarks: seq<Buffer>, seen: seq<Item>, target: nat, keep: RowCallback)
    returns (stop: bool, rowsSeen: seq<Item>)
    ensures (stop, rowsSeen) == Deliver(Items(rows, bookmarks), seen, target, keep)
  {
    rowsSeen := seen;
    ghost var items := Items(rows, bookmarks);
    assert items[0..] == items;
    for i := 0 to |rows|
      invariant Deliver(items, seen, target, keep) == Deliver(items[i..], rowsSeen, target, keep)
    {
      if |rowsSeen| >= target { return true, rowsSeen; }
      var bookmark := [];
      if i < |bookmarks| { bookmark := bookmarks[i]; }
      assert items[i..][1..] == items[i + 1..];
      rowsSeen := rowsSeen + [(rows[i], bookmark)];
      var keepGoing := keep(rowsSeen);
      if !keepGoing { return true, rowsSeen; }
    }
    return false, rowsSeen;
  }

  // ----- the runner -----

  datatype Block = Block(rows: seq<Buffer>, bookmarks: seq<Buffer>, eoc: bool)

  /** What next_block makes of a reply: a malformed one throws, an unreadable or empty one ends the cursor. */
  function BlockOf(reply: Reply, recordSize: nat): Result<Block, CursorError> {
    if reply.Lost? then Err(TransportLost)
    else if !Readable(reply.body) then Ok(Block([], [], true))
    else
      match ReadBlock(reply.body, PACK_STREAM_OFFSET, recordSize)
      case Err(e) => Err(Malformed(e))
      case Ok(None) => Ok(Block([], [], true))
      case Ok(Some((b, _))) => Ok(Block(b.rows, b.bookmarks, b.code != RESULT_OK))
  }

  const CLEANUP: seq<Request> := [CloseCursor, ResetStatement, RemoveAllTables]

  class CursorRunner {
    const transport: Transport
    const batchSize: nat
    const recordSize: nat
    var firstBlock: bool
    var eoc: bool

    constructor (transport: Transport, batchSize: nat, recordSize: nat)
      ensures this.transport == transport && this.batchSize == batchSize && this.recordSize == recordSize
      ensures firstBlock && !eoc
    {
      this.transport := transport;
      this.batchSize := batchSize;
      this.recordSize := recordSize;
      firstBlock := true;
      eoc := false;
    }

    /** cleanup_server_cursor: three attempts in order, replies and exceptions ignored. */
    method Cleanup()
      modifies transport
      ensures transport.log == old(transport.log) + CLEANUP
    {
      var r := transport.SendRecv(CloseCursor);
      r := transport.SendRecv(ResetStatement);
      r := transport.SendRecv(RemoveAllTables);
    }

    /** next_block: one read request unless the cursor has ended. */
    method NextBlock() returns (r: Result<Block, CursorError>)
      modifies this, transport
      ensures old(eoc) ==> r == Ok(Block([], [], true)) && transport.log == old(transport.log) && eoc && firstBlock == old(firstBlock)
      ensures !old(eoc) ==>
                var req := if old(firstBlock) then ReadFirst(batchSize) else ReadNext(batchSize);
                var reply := ReplyTo(transport.server, old(transport.log), req);
                && transport.log == old(transport.log) + [req]
                && r == BlockOf(reply, recordSize)
                && eoc == (r.Ok? && r.value.eoc)
                && firstBlock == (old(firstBlock) && reply.Lost?)
    {
      if eoc { return Ok(Block([], [], true)); }
      var reply: Reply;
      if firstBlock {
        reply := transport.SendRecv(ReadFirst(batchSize));
        if reply.Lost? { return Err(TransportLost); }
        firstBlock := false;
      } else {
        reply := transport.SendRecv(ReadNext(batchSize));
        if reply.Lost? { return Err(TransportLost); }
      }
      var response := reply.body;
      if |response| < MIN_BODY || BodyReqcode(response) == REQCODE_POLLING_SENTINEL {
        eoc := true;
        return Ok(Block([], [], true));
      }
      var walker := new Walker(response, PACK_STREAM_OFFSET);
      var batch := ReadBlockFrom(walker, recordSize);
      if batch.Err? { return Err(Malformed(batch.error)); }
      if batch.value.None? {
        eoc := true;
        return Ok(Block([], [], true));
      }
      var b := batch.value.value;
      if b.code != RESULT_OK {
        eoc := true;
        return Ok(Block(b.rows, b.bookmarks, true));
      }
      return Ok(Block(b.rows, b.bookmarks, false));
    }
  }

  /** The requests of a constructor that got k polls in. */
  function Opening(k: nat): seq<Request> {
    [ExecuteStatement] + Repeat(Receive, k)
  }

  /** The k-th reply after Execute is the first that is ready, and SetToBegin then gets a reply. */
  predicate ReadyAt(server: Server, log: seq<Request>, k: nat) {
    && (forall j :: 0 <= j <= k ==> server(log + Opening(j)).Body?)
    && (forall j :: 0 <= j < k ==> NotReady(server(log + Opening(j)).body))
    && !NotReady(server(log + Opening(k)).body)
    && ReplyTo(server, log + Opening(k), SetToBegin).Body?
  }

  /**
   * The constructor: Execute, at most 99 polls, SetToBegin. It succeeds exactly when some reply is
   * ready in time. If Execute never completed nothing more is sent; if anything later throws, the
   * server's cursor is cleaned up before the exception leaves.
   */
  method OpenRunner(t: Transport, recordSize: nat, batchSize: nat) returns (r: Result<CursorRunner, CursorError>)
    modifies t
    ensures r.Ok? <==> exists k :: 0 <= k < MAX_RECEIVE_POLLS && ReadyAt(t.server, old(t.log), k)
    ensures r.Ok? ==>
              && fresh(r.value) && r.value.transport == t && r.value.recordSize == recordSize && r.value.batchSize == batchSize
              && r.value.firstBlock && !r.value.eoc
              && exists k :: 0 <= k < MAX_RECEIVE_POLLS && ReadyAt(t.server, old(t.log), k) && t.log == old(t.log) + Opening(k) + [SetToBegin]
    ensures (forall k: nat :: k < MAX_RECEIVE_POLLS ==>
               t.server(old(t.log) + Opening(k)).Body? && NotReady(t.server(old(t.log) + Opening(k)).body)) ==>
              r == Err(StillNotReady) && t.log == old(t.log) + Opening(MAX_RECEIVE_POLLS - 1) + CLEANUP
    ensures r.Err? && ReplyTo(t.server, old(t.log), ExecuteStatement).Lost? ==> t.log == old(t.log) + [ExecuteStatement]
    ensures r.Err? && !ReplyTo(t.server, old(t.log), ExecuteStatement).Lost? ==>
              exists k :: 0 <= k < MAX_RECEIVE_POLLS
                          && (t.log == old(t.log) + Opening(k) + CLEANUP
                              || t.log == old(t.log) + Opening(k) + [SetToBegin] + CLEANUP)
  {
    var runner := new CursorRunner(t, batchSize, recordSize);
    ghost var log0 := t.log;
    var reply := t.SendRecv(ExecuteStatement);
    assert t.log == log0 + Opening(0);
    if reply.Lost? { return Err(TransportLost); }
    var polls: nat := 0;
    while true
      invariant polls < MAX_RECEIVE_POLLS
      invariant runner.firstBlock && !runner.eoc
      invariant t.log == log0 + Opening(polls)
      invariant reply == t.server(log0 + Opening(polls)) && reply.Body?
      invariant forall j :: 0 <= j < polls ==> t.server(log0 + Opening(j)).Body? && NotReady(t.server(log0 + Opening(j)).body)
      decreases MAX_RECEIVE_POLLS - polls
    {
      var sentinel := BodyReqcode(reply.body) == REQCODE_POLLING_SENTINEL;
      var innerNotReady := InnerSaysNotReady(reply.body);
      if !sentinel && !innerNotReady { break; }
      if polls + 1 >= MAX_RECEIVE_POLLS {
        runner.Cleanup();
        return Err(StillNotReady);
      }
      assert log0 + Opening(polls) + [Receive] == log0 + Opening(polls + 1);
      reply := t.SendRecv(Receive);
      if reply.Lost? {
        runner.Cleanup();
        return Err(TransportLost);
      }
      polls := polls + 1;
    }
    reply := t.SendRecv(SetToBegin);
    if reply.Lost? {
      runner.Cleanup();
      return Err(TransportLost);
    }
    assert ReadyAt(t.server, log0, polls);
    return Ok(runner);
  }
}
