/** Servers that stream a result: what their replies to read requests add up to. */
module ServerStreams {
  import opened Wrappers
  import opened Transports
  import opened Response
  import opened Cursor

  /** A reply with a record block in it. */
  predicate HasBlock(reply: Reply, recordSize: nat) {
    && reply.Body? && Readable(reply.body)
    && ReadBlock(reply.body, PACK_STREAM_OFFSET, recordSize).Ok?
    && ReadBlock(reply.body, PACK_STREAM_OFFSET, recordSize).value.Some?
  }

  function BatchIn(reply: Reply, recordSize: nat): CursorBatch
    requires HasBlock(reply, recordSize)
  {
    ReadBlock(reply.body, PACK_STREAM_OFFSET, recordSize).value.value.0
  }

  function ItemsIn(reply: Reply, recordSize: nat): seq<Item> {
    if HasBlock(reply, recordSize) then
      Items(BatchIn(reply, recordSize).rows, BatchIn(reply, recordSize).bookmarks)
    else []
  }

  predicate IsLast(reply: Reply, recordSize: nat) {
    HasBlock(reply, recordSize) ==> BatchIn(reply, recordSize).code != RESULT_OK
  }

  // ----- sessions -----

  /** Nobody stops polling before a reply is ready; the reply to Execute itself need not be looked at. */
  predicate Polling(server: Server, log: seq<Request>, k: nat) {
    forall j :: 1 <= j < k ==> server(log + Opening(j)).Body? && NotReady(server(log + Opening(j)).body)
  }

  /** The polls of a statement that was prepared last in this log end with the k-th. */
  predicate IsReady(server: Server, log: seq<Request>, k: nat) {
    k < MAX_RECEIVE_POLLS && Polling(server, log, k) && server(log + Opening(k)).Body? && !NotReady(server(log + Opening(k)).body)
  }

  /** The cursor of that statement has just been opened. */
  ghost predicate IsOpening(server: Server, log: seq<Request>, base: seq<Request>) {
    server(base).Body? && exists k :: IsReady(server, log, k) && base == log + Opening(k) + [SetToBegin]
  }

  function ReadCount(base: seq<Request>, log: seq<Request>): nat {
    if |log| <= |base| then 0
    else ReadCount(base, log[..|log| - 1]) + (if IsRead(log[|log| - 1]) then 1 else 0)
  }

  /** The reads a cursor is for: rows are asked for, by ReadFirst once and by ReadNext from then on. */
  predicate IsNextRead(base: seq<Request>, log: seq<Request>, req: Request) {
    IsRead(req) && req.n > 0 && (req.ReadFirst? <==> ReadCount(base, log) == 0)
  }

  /** A session: since the cursor was opened there were only such reads, and blob requests. */
  predicate InSession(base: seq<Request>, log: seq<Request>) {
    if |log| <= |base| then log == base
    else
      var before, req := log[..|log| - 1], log[|log| - 1];
      InSession(base, before) && (IsBlobRequest(req) || IsNextRead(base, before, req))
  }

  /** The rows of all read replies of a session so far, in order. */
  function Delivered(server: Server, recordSize: nat, base: seq<Request>, log: seq<Request>): seq<Item> {
    if |log| <= |base| then []
    else
      var n := |log| - 1;
      Delivered(server, recordSize, base, log[..n]) + (if IsRead(log[n]) then ItemsIn(server(log), recordSize) else [])
  }

  /** No read of the session so far has been answered with the end of the cursor. */
  predicate Live(server: Server, recordSize: nat, base: seq<Request>, log: seq<Request>) {
    |log| <= |base|
    || (Live(server, recordSize, base, log[..|log| - 1]) && (IsRead(log[|log| - 1]) ==> !IsLast(server(log), recordSize)))
  }

  lemma OneMore(server: Server, recordSize: nat, base: seq<Request>, log: seq<Request>, req: Request)
    requires |base| <= |log|
    ensures Delivered(server, recordSize, base, log + [req])
         == Delivered(server, recordSize, base, log)
            + (if IsRead(req) then ItemsIn(ReplyTo(server, log, req), recordSize) else [])
    ensures Live(server, recordSize, base, log + [req])
            <==> Live(server, recordSize, base, log) && (IsRead(req) ==> !IsLast(ReplyTo(server, log, req), recordSize))
    ensures ReadCount(base, log + [req]) == ReadCount(base, log) + (if IsRead(req) then 1 else 0)
    ensures InSession(base, log + [req]) <==> InSession(base, log) && (IsBlobRequest(req) || IsNextRead(base, log, req))
  {
    var more := log + [req];
    assert more[..|more| - 1] == log;
  }

  lemma NotShorter(base: seq<Request>, log: seq<Request>)
    requires InSession(base, log)
    ensures |base| <= |log|
  {
  }

  /** Blob requests leave the stream where it is. */
  lemma {:induction false} OtherRequests(server: Server, recordSize: nat, base: seq<Request>, log: seq<Request>, others: seq<Request>)
    requires InSession(base, log) && OnlyBlobs(others)
    ensures Delivered(server, recordSize, base, log + others) == Delivered(server, recordSize, base, log)
    ensures Live(server, recordSize, base, log + others) <==> Live(server, recordSize, base, log)
    ensures ReadCount(base, log + others) == ReadCount(base, log)
    ensures InSession(base, log + others)
    decreases |others|
  {
    NotShorter(base, log);
    if others == [] {
      assert log + others == log;
    } else {
      var fewer, req := others[..|others| - 1], others[|others| - 1];
      OtherRequests(server, recordSize, base, log, fewer);
      assert log + others == log + fewer + [req];
      OneMore(server, recordSize, base, log + fewer, req);
    }
  }

  lemma BlobsKeepSession(base: seq<Request>, log: seq<Request>, others: seq<Request>)
    requires InSession(base, log) && OnlyBlobs(others)
    ensures InSession(base, log + others)
  {
    OtherRequests(_ => Lost, 0, base, log, others);
  }

  // ----- streaming servers -----

  /**
   * In a session opened at `base` the server streams `all`: it splits it into blocks in order, empty ones
   * allowed, ends it with a result code that is not OK no later than the limit-th read, and ends it only
   * when all is out. Of other sessions, and of requests outside any, nothing is said.
   */
  ghost predicate Streams(server: Server, recordSize: nat, all: seq<Item>, limit: nat, base: seq<Request>) {
    forall log: seq<Request>, req: Request {:trigger ReplyTo(server, log, req)} ::
      InSession(base, log) && IsNextRead(base, log, req) && Live(server, recordSize, base, log) ==>
        var reply := ReplyTo(server, log, req);
        var out := Delivered(server, recordSize, base, log) + ItemsIn(reply, recordSize);
        && HasBlock(reply, recordSize)
        && out <= all
        && (IsLast(reply, recordSize) ==> out == all)
        && (ReadCount(base, log) + 1 >= limit ==> IsLast(reply, recordSize))
  }

  /** Blocks are full until the rows run out, and one reply holds one batch. */
  ghost predicate FullBlocks(server: Server, recordSize: nat, all: seq<Item>, base: seq<Request>) {
    forall log: seq<Request>, req: Request {:trigger ReplyTo(server, log, req)} ::
      InSession(base, log) && IsNextRead(base, log, req) && Live(server, recordSize, base, log)
      && |Delivered(server, recordSize, base, log)| <= |all| ==>
        var reply := ReplyTo(server, log, req);
        var left := |all| - |Delivered(server, recordSize, base, log)|;
        && |ItemsIn(reply, recordSize)| == (if req.n < left then req.n else left)
        && (!IsLast(reply, recordSize) ==> |ItemsIn(reply, recordSize)| == req.n)
        && OneBatch(reply, recordSize)
  }

  /** The statement prepared last in this log has the result `all`: whenever its cursor is opened, that is streamed. */
  ghost predicate HasResult(server: Server, recordSize: nat, all: seq<Item>, limit: nat, log: seq<Request>) {
    forall base: seq<Request> :: IsOpening(server, log, base) ==> Streams(server, recordSize, all, limit, base)
  }

  ghost predicate InFullBlocks(server: Server, recordSize: nat, all: seq<Item>, log: seq<Request>) {
    forall base: seq<Request> :: IsOpening(server, log, base) ==> FullBlocks(server, recordSize, all, base)
  }

  /** Behind the first batch of the reply no further one can be read: at most padding is there. */
  predicate OneBatch(reply: Reply, recordSize: nat) {
    HasBlock(reply, recordSize) ==>
      var next := ReadBlock(reply.body, PACK_STREAM_OFFSET, recordSize).value.value.1;
      next >= |reply.body| || ReadBlock(reply.body, next, recordSize).Err? || ReadBlock(reply.body, next, recordSize).value.None?
  }

  /** Handshake replies carry no rows: nothing in them stops or feeds the callback loop. */
  predicate Quiet(reply: Reply, recordSize: nat) {
    reply.Body? &&
    (!Readable(reply.body)
     || var batch := ReadBatch(reply.body, PACK_STREAM_OFFSET, recordSize);
        batch.Err? || batch.value.None?
        || (var (b, next) := batch.value.value;
            && b.rows == [] && b.code == RESULT_OK
            && (next >= |reply.body| || ReadBatch(reply.body, next, recordSize).Err? || ReadBatch(reply.body, next, recordSize).value.None?)))
  }

  /** The handshake of the statement prepared last in this log, as far as it goes. */
  ghost predicate QuietHandshake(server: Server, recordSize: nat, log: seq<Request>) {
    && (forall k: nat :: k < MAX_RECEIVE_POLLS && Polling(server, log, k) ==> Quiet(server(log + Opening(k)), recordSize))
    && (forall k: nat :: IsReady(server, log, k) ==> Quiet(ReplyTo(server, log + Opening(k), SetToBegin), recordSize))
  }

  /** What one live read of a stream brings. */
  lemma {:induction false} ReadStep(server: Server, recordSize: nat, all: seq<Item>, limit: nat, base: seq<Request>,
                                    log: seq<Request>, req: Request)
    requires Streams(server, recordSize, all, limit, base) && InSession(base, log) && IsNextRead(base, log, req)
    requires Live(server, recordSize, base, log)
    ensures var reply := ReplyTo(server, log, req);
            var block := BlockOf(reply, recordSize);
            && block.Ok?
            && Items(block.value.rows, block.value.bookmarks) == ItemsIn(reply, recordSize)
            && block.value.eoc == IsLast(reply, recordSize)
            && Delivered(server, recordSize, base, log + [req]) == Delivered(server, recordSize, base, log) + ItemsIn(reply, recordSize)
            && Delivered(server, recordSize, base, log + [req]) <= all
            && (block.value.eoc ==> Delivered(server, recordSize, base, log + [req]) == all)
            && (!block.value.eoc ==> Live(server, recordSize, base, log + [req]))
            && ReadCount(base, log + [req]) == ReadCount(base, log) + 1
            && (ReadCount(base, log) + 1 >= limit ==> block.value.eoc)
            && InSession(base, log + [req])
  {
    NotShorter(base, log);
    OneMore(server, recordSize, base, log, req);
  }

  lemma JustOpened(server: Server, recordSize: nat, base: seq<Request>)
    ensures Delivered(server, recordSize, base, base) == [] && Live(server, recordSize, base, base)
    ensures ReadCount(base, base) == 0 && InSession(base, base)
  {
  }
}
