/** query_decoded: draining a runner into decoded rows, and its agreement with the callback loop. */
module Query {
  import opened Wrappers
  import opened Schema
  import opened Row
  import opened Transports
  import opened Cursor
  import opened ServerStreams
  import opened Client
  import opened BlobResolution
  import opened DecodedStream
  import opened DriveCursor

  const SIZE_MAX: nat := 0xFFFF_FFFF_FFFF_FFFF

  datatype QueryError =
    | ReadFailed(read: CursorError)
    | NoSchema(schema: SchemaError)
    | DecodeFailed(decode: ClientError)
    | NoCount
    | CountNotNumeric

  /** The client's settings for decoding rows and blobs. */
  datatype Settings = Settings(ieee: Ieee, slotLength: nat, lenient: bool)

  function DecodingOf(o: Settings, columns: seq<Column>): Decoding {
    Decoding(columns, o.ieee, o.slotLength, o.lenient)
  }

  /** A target of zero asks for everything. */
  function Wanted(target: nat): nat {
    if target == 0 then SIZE_MAX else target
  }

  function Take<T>(s: seq<T>, n: nat): seq<T> {
    s[..Min(n, |s|)]
  }

  // ----- statements -----

  /** What preparing a statement brings: the columns in the reply, or the exception of a reply that is lost or has none. */
  function Prepared(server: Server, log: seq<Request>, sql: string): (r: Result<seq<Column>, QueryError>)
    ensures r.Ok? ==> r.value != []
  {
    var reply := ReplyTo(server, log, Prepare(sql));
    if reply.Lost? then Err(ReadFailed(TransportLost))
    else
      match Parse(reply.body)
      case Err(e) => Err(NoSchema(e))
      case Ok((columns, _)) => Ok(columns)
  }

  function SizeOf(columns: seq<Column>): nat
    requires columns != []
  {
    RecordSize(columns).value
  }

  /** One of the first replies is ready, and SetToBegin gets a reply: what the runner's constructor needs. */
  ghost predicate Opens(server: Server, log: seq<Request>) {
    exists k :: 0 <= k < MAX_RECEIVE_POLLS && ReadyAt(server, log, k)
  }

  /** Preparing this statement in a session that has come to `log` gives a cursor that streams `all`. */
  ghost predicate Yields(server: Server, log: seq<Request>, sql: string, all: seq<Item>, limit: nat) {
    var p := Prepared(server, log, sql);
    p.Ok? ==> HasResult(server, SizeOf(p.value), all, limit, log + [Prepare(sql)])
  }

  /** And its blobs, if it has any, are stable as long as the cursor is open. */
  ghost predicate KeepsBlobs(server: Server, log: seq<Request>, sql: string, o: Settings, all: seq<Item>, store: BlobStore) {
    var p := Prepared(server, log, sql);
    p.Ok? ==> forall base: seq<Request> :: IsOpening(server, log + [Prepare(sql)], base) ==>
      StableFor(server, store, DecodingOf(o, p.value), all, base)
  }

  /** The statement can be prepared and its cursor opened, and then the rows of its result can be decoded. */
  ghost predicate Completes(server: Server, log: seq<Request>, sql: string, o: Settings, all: seq<Item>) {
    var p := Prepared(server, log, sql);
    && p.Ok? && Opens(server, log + [Prepare(sql)])
    && forall base: seq<Request> :: IsOpening(server, log + [Prepare(sql)], base) ==> Decodable(server, DecodingOf(o, p.value), all, base)
  }

  /**
   * start_streaming: prepare, parse the schema out of the reply, open the cursor. It succeeds exactly if the
   * reply holds columns and the cursor opens; without columns nothing further is sent.
   */
  method StartStreaming(t: Transport, sql: string, batch: nat) returns (r: Result<(seq<Column>, CursorRunner), QueryError>)
    modifies t
    ensures var (log, p) := (old(t.log) + [Prepare(sql)], Prepared(t.server, old(t.log), sql));
            && (p.Err? ==> r == Err(p.error) && t.log == log)
            && (p.Ok? ==> (r.Ok? <==> Opens(t.server, log)))
            && (p.Ok? && r.Err? && !ReplyTo(t.server, log, ExecuteStatement).Lost? ==> |t.log| >= 3 && t.log[|t.log| - 3..] == [CloseCursor, ResetStatement, RemoveAllTables])
            && (r.Ok? ==>
                  var (columns, runner) := r.value;
                  && p == Ok(columns) && fresh(runner) && runner.transport == t
                  && runner.recordSize == SizeOf(columns) && runner.batchSize == batch && runner.firstBlock && !runner.eoc
                  && IsOpening(t.server, log, t.log))
  {
    hide ReadyAt, Parse, IsReady;
    ghost var before := t.log;
    var reply := t.SendRecv(Prepare(sql));
    if reply.Lost? { return Err(ReadFailed(TransportLost)); }
    var schema := ParseSchema(reply.body);
    if schema.Err? { return Err(NoSchema(schema.error)); }
    var columns := schema.value.0;
    assert Prepared(t.server, before, sql) == Ok(columns);
    ghost var log := t.log;
    var runner := OpenRunner(t, RecordSize(columns).value, batch);
    if runner.Err? { return Err(ReadFailed(runner.error)); }
    ghost var k :| 0 <= k < MAX_RECEIVE_POLLS && ReadyAt(t.server, log, k) && t.log == log + Opening(k) + [SetToBegin];
    ReadyIsOpening(t.server, log, k);
    return Ok((columns, runner.value));
  }

  lemma ReadyIsOpening(server: Server, log: seq<Request>, k: nat)
    requires k < MAX_RECEIVE_POLLS && ReadyAt(server, log, k)
    ensures IsOpening(server, log, log + Opening(k) + [SetToBegin])
  {
    hide NotReady;
    assert IsReady(server, log, k);
  }

  // ----- streaming -----

  /**
   * Where a runner stands between two calls, in the session opened at `base`: it has delivered a prefix of
   * the result that its decoded batches account for, and it has ended exactly if that prefix is everything.
   */
  ghost predicate Between(c: CursorRunner, d: Decoding, all: seq<Item>, base: seq<Request>, batches: seq<Batch>)
    reads c, c.transport
  {
    Stands(c.transport.server, c.recordSize, c.firstBlock, c.eoc, c.transport.log, d, all, base, batches)
  }

  ghost predicate Stands(server: Server, recordSize: nat, firstBlock: bool, eoc: bool, log: seq<Request>, d: Decoding, all: seq<Item>,
                         base: seq<Request>, batches: seq<Batch>)
  {
    && AllDecoded(server, d, batches)
    && AllPartOf(batches, all, base)
    && RawRows(batches) <= all
    && (if eoc then RawRows(batches) == all
        else InSession(base, log)
             && (firstBlock <==> ReadCount(base, log) == 0)
             && Live(server, recordSize, base, log)
             && Delivered(server, recordSize, base, log) == RawRows(batches))
  }

  lemma NothingRead(c: CursorRunner, d: Decoding, all: seq<Item>)
    requires !c.eoc && c.firstBlock
    ensures Between(c, d, all, c.transport.log, [])
  {
    JustOpened(c.transport.server, c.recordSize, c.transport.log);
  }

  /** The next block of a stream, as it stands before it is decoded. */
  lemma BlockTaken(server: Server, recordSize: nat, first: bool, log: seq<Request>, n: nat, d: Decoding, all: seq<Item>, limit: nat,
                   base: seq<Request>, batches: seq<Batch>)
    requires n > 0 && Streams(server, recordSize, all, limit, base)
    requires Stands(server, recordSize, first, false, log, d, all, base, batches)
    ensures var req := if first then ReadFirst(n) else ReadNext(n);
            var block := Cursor.BlockOf(ReplyTo(server, log, req), recordSize);
            && block.Ok?
            && var items := Items(block.value.rows, block.value.bookmarks);
               && RawRows(batches) + items <= all && (block.value.eoc ==> RawRows(batches) + items == all)
               && InSession(base, log + [req]) && PartOf(Batch(log + [req], items), all, base)
               && ReadCount(base, log + [req]) == ReadCount(base, log) + 1
               && (!block.value.eoc ==>
                     && ReadCount(base, log) + 1 < limit && Live(server, recordSize, base, log + [req])
                     && Delivered(server, recordSize, base, log + [req]) == RawRows(batches) + items)
  {
    hide Streams, Cursor.BlockOf, Live, Delivered, ReadCount, InSession, PartOf, AllDecoded, AllPartOf, RawRows;
    var req := if first then ReadFirst(n) else ReadNext(n);
    ReadStep(server, recordSize, all, limit, base, log, req);
    var block := Cursor.BlockOf(ReplyTo(server, log, req), recordSize);
    NextPart(RawRows(batches), Batch(log + [req], Items(block.value.rows, block.value.bookmarks)), all, base);
  }

  lemma BlockHasReply(reply: Reply, recordSize: nat)
    requires Cursor.BlockOf(reply, recordSize).Ok?
    ensures reply.Body?
  {
  }

  /** Once the block is decoded, the stream stands behind it. */
  lemma BlockDecoded(server: Server, recordSize: nat, eoc: bool, d: Decoding, all: seq<Item>, base: seq<Request>,
                     batches: seq<Batch>, b: Batch, sent: seq<Request>)
    requires AllDecoded(server, d, batches) && AllPartOf(batches, all, base)
    requires DecodedRows(server, d, b).Ok? && PartOf(b, all, base) && OnlyBlobs(sent)
    requires RawRows(batches) + b.rows <= all && (eoc ==> RawRows(batches) + b.rows == all)
    requires InSession(base, b.log) && ReadCount(base, b.log) > 0
    requires !eoc ==> Live(server, recordSize, base, b.log) && Delivered(server, recordSize, base, b.log) == RawRows(batches) + b.rows
    ensures Stands(server, recordSize, false, eoc, b.log + sent, d, all, base, batches + [b])
    ensures Decoded(server, d, batches + [b]) == Decoded(server, d, batches) + DecodedRows(server, d, b).value
    ensures ReadCount(base, b.log + sent) == ReadCount(base, b.log)
  {
    hide Live, Delivered, ReadCount, InSession, PartOf, DecodedRows, Decoded, OnlyBlobs;
    OneMoreBatch(server, d, batches, b);
    OtherRequests(server, recordSize, base, b.log, sent);
  }

  /**
   * next_block and decode_batch_with_blobs, one after the other, as every consumer of a stream calls
   * them: the decoded rows of the next block and whether it was the last. An empty last block is not decoded.
   */
  method NextDecoded(c: CursorRunner, d: Decoding, ghost all: seq<Item>, ghost limit: nat, ghost base: seq<Request>,
                     ghost batches: seq<Batch>)
    returns (r: Result<(seq<Cells>, bool), QueryError>, ghost more: seq<Batch>)
    requires d.columns != [] && c.batchSize > 0 && !c.eoc
    requires Streams(c.transport.server, c.recordSize, all, limit, base)
    requires Between(c, d, all, base, batches)
    modifies c, c.transport
    ensures r.Ok? ==>
              var (cells, eoc) := r.value;
              && Between(c, d, all, base, more) && eoc == c.eoc
              && AllDecoded(c.transport.server, d, batches)
              && Decoded(c.transport.server, d, more) == Decoded(c.transport.server, d, batches) + cells
              && (!eoc ==> ReadCount(base, old(c.transport.log)) + 1 < limit
                           && ReadCount(base, c.transport.log) == ReadCount(base, old(c.transport.log)) + 1)
    ensures Decodable(c.transport.server, d, all, base) ==> r.Ok?
  {
    hide Streams, Cursor.BlockOf, Live, Delivered, DecodeBatch, ReadCount, Decodable, InSession, PartOf, OnlyBlobs, Decoded;
    ghost var server, size, log, first := c.transport.server, c.recordSize, c.transport.log, c.firstBlock;
    more := batches;
    var block := c.NextBlock();
    if block.Err? {
      if Decodable(server, d, all, base) {
        BlockTaken(server, size, first, log, c.batchSize, d, all, limit, base, batches);
        assert false;
      }
      return Err(ReadFailed(block.error)), more;
    }
    BlockTaken(server, size, first, log, c.batchSize, d, all, limit, base, batches);
    BlockHasReply(ReplyTo(server, log, if first then ReadFirst(c.batchSize) else ReadNext(c.batchSize)), size);
    var items := Items(block.value.rows, block.value.bookmarks);
    if block.value.rows == [] && block.value.eoc { return Ok(([], true)), more; }
    ghost var b := Batch(c.transport.log, items);
    if Decodable(server, d, all, base) {
      BatchDecodes(server, d, all, base, b);
    }
    ghost var sent := DecodeReadsNothing(server, b.log, d.columns, items, d.ieee, d.slotLength, d.lenient);
    var cells := DecodeBatchWithBlobs(c.transport, d.columns, items, d.ieee, d.slotLength, d.lenient);
    if cells.Err? { return Err(DecodeFailed(cells.error)), more; }
    BlockDecoded(server, size, block.value.eoc, d, all, base, batches, b, sent);
    more := batches + [b];
    return Ok((cells.value, block.value.eoc)), more;
  }

  lemma TakeMore<T>(s: seq<T>, more: seq<T>, n: nat)
    ensures Take(s + more, n) == Take(s, n) + Take(more, if n < |s| then 0 else n - |s|)
  {
  }

  /**
   * The loop of query_decoded: exactly the first `target` rows of the result (all of them for 0), each
   * decoded in its place. It ends because a streaming server ends its stream.
   */
  method QueryRows(c: CursorRunner, d: Decoding, target: nat, ghost all: seq<Item>, ghost limit: nat)
    returns (r: Result<seq<Cells>, QueryError>, ghost batches: seq<Batch>)
    requires d.columns != [] && c.batchSize > 0 && !c.eoc && c.firstBlock
    requires Streams(c.transport.server, c.recordSize, all, limit, c.transport.log)
    modifies c, c.transport
    ensures r.Ok? ==>
              && AllDecoded(c.transport.server, d, batches) && RawRows(batches) <= all
              && AllPartOf(batches, all, old(c.transport.log))
              && r.value == Take(Decoded(c.transport.server, d, batches), Wanted(target))
              && |r.value| == Min(Wanted(target), |all|)
    ensures Decodable(c.transport.server, d, all, old(c.transport.log)) ==> r.Ok?
  {
    hide Streams, Cursor.BlockOf, Live, Delivered, DecodeBatch, ReadCount, Decodable, InSession, PartOf;
    ghost var base := c.transport.log;
    NothingRead(c, d, all);
    batches := [];
    var rows: seq<Cells> := [];
    while |rows| < Wanted(target)
      invariant !c.eoc && Between(c, d, all, base, batches)
      invariant rows == Take(Decoded(c.transport.server, d, batches), Wanted(target))
      decreases limit - ReadCount(base, c.transport.log)
    {
      var next: Result<(seq<Cells>, bool), QueryError>;
      ghost var before := Decoded(c.transport.server, d, batches);
      next, batches := NextDecoded(c, d, all, limit, base, batches);
      if next.Err? { return Err(next.error), batches; }
      var (cells, eoc) := next.value;
      TakeMore(before, cells, Wanted(target));
      rows := rows + Take(cells, Wanted(target) - |rows|);
      if eoc { break; }
    }
    DecodedInPlace(c.transport.server, d, batches);
    return Ok(rows), batches;
  }

  /** The columns and the rows of a query, as query_decoded returns them. */
  datatype QueryResult = QueryResult(columns: seq<Column>, rows: seq<Cells>)

  /** What a query returned, by the session it was decoded in. */
  ghost predicate Holds(server: Server, log: seq<Request>, sql: string, o: Settings, all: seq<Item>, target: nat,
                        base: seq<Request>, batches: seq<Batch>, q: QueryResult)
  {
    var d := DecodingOf(o, q.columns);
    && Prepared(server, log, sql) == Ok(q.columns)
    && IsOpening(server, log + [Prepare(sql)], base)
    && AllDecoded(server, d, batches) && RawRows(batches) <= all && AllPartOf(batches, all, base)
    && q.rows == Take(Decoded(server, d, batches), Wanted(target))
    && |q.rows| == Min(Wanted(target), |all|)
  }

  /** query_decoded: prepare, open, drain, clean up whatever happened. */
  method RunQuery(t: Transport, sql: string, o: Settings, batch: nat, target: nat, ghost all: seq<Item>, ghost limit: nat)
    returns (r: Result<QueryResult, QueryError>, ghost base: seq<Request>, ghost batches: seq<Batch>)
    requires batch > 0 && Yields(t.server, t.log, sql, all, limit)
    modifies t
    ensures Prepared(t.server, old(t.log), sql).Err? ==> r == Err(Prepared(t.server, old(t.log), sql).error)
    ensures r.Ok? ==> Holds(t.server, old(t.log), sql, o, all, target, base, batches, r.value)
    ensures r.Ok? && target > 0 ==> |r.value.rows| == Min(target, |all|)
    ensures r.Ok? && target == 0 && |all| < 0x1_0000_0000_0000_0000 ==> |r.value.rows| == |all|
    ensures Completes(t.server, old(t.log), sql, o, all) ==> r.Ok?
    ensures Prepared(t.server, old(t.log), sql).Ok? && !ReplyTo(t.server, old(t.log) + [Prepare(sql)], ExecuteStatement).Lost? ==>
              |t.log| >= 3 && t.log[|t.log| - 3..] == [CloseCursor, ResetStatement, RemoveAllTables]
  {
    hide Streams, DecodeBatch, ReadyAt, Decodable, IsOpening, Prepared, PartOf, Opens;
    base, batches := [], [];
    var start := StartStreaming(t, sql, batch);
    if start.Err? { r := Err(start.error); return; }
    var (columns, runner) := start.value;
    base := t.log;
    var rows: Result<seq<Cells>, QueryError>;
    rows, batches := QueryRows(runner, DecodingOf(o, columns), target, all, limit);
    runner.Cleanup();
    r := if rows.Err? then Err(rows.error) else Ok(QueryResult(columns, rows.value));
  }

  // ----- agreement -----

  /** A server that becomes ready and answers the handshake opens a runner, at its first ready reply. */
  lemma CooperatingOpens(server: Server, recordSize: nat, log: seq<Request>)
    requires BecomesReady(server, log) && QuietHandshake(server, recordSize, log)
    ensures Opens(server, log)
  {
    hide NotReady, Quiet;
    var n: nat :| 1 <= n && IsReady(server, log, n);
    forall j: nat | j <= n
      ensures server(log + Opening(j)).Body?
    {
      QuietHasBody(server(log + Opening(j)), recordSize);
    }
    var k := if NotReady(server(log + Opening(0)).body) then n else 0;
    assert IsReady(server, log, k);
    QuietHasBody(ReplyTo(server, log + Opening(k), SetToBegin), recordSize);
    assert ReadyAt(server, log, k);
  }

  /** The same statement over the callback loop: prepare, parse the schema, drive. */
  method DriveQuery(t: Transport, sql: string, batch: nat, target: nat, keep: RowCallback, ghost all: seq<Item>, ghost limit: nat)
    returns (r: Result<(seq<Column>, seq<Item>), QueryError>)
    requires batch > 0
    modifies t
    ensures Prepared(t.server, old(t.log), sql).Err? ==> r == Err(Prepared(t.server, old(t.log), sql).error)
    ensures Prepared(t.server, old(t.log), sql).Ok?
            && Cooperating(t.server, SizeOf(Prepared(t.server, old(t.log), sql).value), target, all, limit,
                           old(t.log) + [Prepare(sql)]) ==>
              r == Ok((Prepared(t.server, old(t.log), sql).value, Heard(all, target, keep)))
  {
    hide Parse, Cooperating, Heard;
    ghost var before := t.log;
    var reply := t.SendRecv(Prepare(sql));
    if reply.Lost? { return Err(ReadFailed(TransportLost)); }
    var schema := ParseSchema(reply.body);
    if schema.Err? { return Err(NoSchema(schema.error)); }
    var columns := schema.value.0;
    assert Prepared(t.server, before, sql) == Ok(columns);
    var rows := Drive(t, RecordSize(columns).value, target, batch, keep, all, limit);
    return if rows.Err? then Err(ReadFailed(rows.error)) else Ok((columns, rows.value));
  }

  /**
   * On a server that meets its assumptions the callback loop and the runner see the same result: the loop
   * delivers the first `target` rows, or those up to the one after which the callback asks for no more, and a
   * query that completes holds exactly those rows decoded, and behind them the rest up to the target.
   * It completes whenever those rows can be decoded. A reply without columns fails both alike.
   */
  method FastAgreesWithSimple(server: Server, sql: string, o: Settings, batch: nat, target: nat, keep: RowCallback,
                              ghost all: seq<Item>, ghost limit: nat)
    returns (fast: Result<(seq<Column>, seq<Item>), QueryError>, simple: Result<QueryResult, QueryError>)
    requires batch > 0
    requires var p := Prepared(server, [], sql);
             p.Ok? ==> Cooperating(server, SizeOf(p.value), target, all, limit, [Prepare(sql)])
    ensures fast.Ok? <==> Prepared(server, [], sql).Ok?
    ensures fast.Ok? ==> fast.value == (Prepared(server, [], sql).value, Heard(all, target, keep))
    ensures fast.Err? ==> fast.error == Prepared(server, [], sql).error && simple == Err(fast.error)
    ensures fast.Ok? && DecodableIn(server, sql, o, all) ==> simple.Ok?
    ensures simple.Ok? ==>
              && fast.Ok? && fast.value.0 == simple.value.columns && |simple.value.rows| == Min(target, |all|) >= |fast.value.1|
              && (|fast.value.1| < |simple.value.rows| ==> !keep(fast.value.1))
              && forall i :: 0 <= i < |fast.value.1| ==> CellKept(fast.value.0, fast.value.1[i].0, o.ieee, simple.value.rows[i])
  {
    hide DecodeBatch, CellKept, HasResult, InFullBlocks, QuietHandshake, BecomesReady, Decodable, Opens, Prepared, IsOpening;
    var t1 := new Transport(server);
    assert [] + [Prepare(sql)] == [Prepare(sql)];
    fast := DriveQuery(t1, sql, batch, target, keep, all, limit);
    if Prepared(server, [], sql).Ok? {
      CooperatingOpens(server, SizeOf(Prepared(server, [], sql).value), [Prepare(sql)]);
    }
    var t2 := new Transport(server);
    ghost var base, batches;
    simple, base, batches := RunQuery(t2, sql, o, batch, target, all, limit);
    if simple.Ok? {
      DecodedInPlace(server, DecodingOf(o, simple.value.columns), batches);
    }
  }

  /** Whenever the statement's cursor is open, the rows of its result can be decoded. */
  ghost predicate DecodableIn(server: Server, sql: string, o: Settings, all: seq<Item>) {
    var p := Prepared(server, [], sql);
    p.Ok? && forall base: seq<Request> :: IsOpening(server, [Prepare(sql)], base) ==> Decodable(server, DecodingOf(o, p.value), all, base)
  }

  /**
   * Over stable blobs, if there are any, two queries that complete return the same columns and rows whatever
   * their batch sizes and however the server cut the result: those of the first `target` rows, blobs in
   * place. Both complete if the statement can be prepared and opened and its rows can be decoded.
   */
  method BatchSizeDoesNotMatter(server: Server, sql: string, o: Settings, batch1: nat, batch2: nat, target: nat,
                                store: BlobStore, ghost all: seq<Item>, ghost limit: nat)
    returns (one: Result<QueryResult, QueryError>, other: Result<QueryResult, QueryError>)
    requires batch1 > 0 && batch2 > 0
    requires Yields(server, [], sql, all, limit) && KeepsBlobs(server, [], sql, o, all, store)
    ensures Completes(server, [], sql, o, all) ==> one.Ok? && other.Ok?
    ensures one.Ok? && other.Ok? ==> one.value == other.value
    ensures one.Ok? ==>
              && |one.value.rows| == Min(if target == 0 then 0xFFFF_FFFF_FFFF_FFFF else target, |all|)
              && Prepared(server, [], sql) == Ok(one.value.columns)
              && forall i :: 0 <= i < |one.value.rows| ==> one.value.rows[i] == FinalRow(one.value.columns, all[i], o.ieee, store)
  {
    hide FinalRow, Yields, KeepsBlobs, Completes, Prepared;
    one := StableQuery(server, sql, o, batch1, target, store, all, limit);
    other := StableQuery(server, sql, o, batch2, target, store, all, limit);
  }

  method StableQuery(server: Server, sql: string, o: Settings, batch: nat, target: nat, store: BlobStore,
                     ghost all: seq<Item>, ghost limit: nat)
    returns (r: Result<QueryResult, QueryError>)
    requires batch > 0
    requires Yields(server, [], sql, all, limit) && KeepsBlobs(server, [], sql, o, all, store)
    ensures Completes(server, [], sql, o, all) ==> r.Ok?
    ensures r.Ok? ==>
              && |r.value.rows| == Min(Wanted(target), |all|) && Prepared(server, [], sql) == Ok(r.value.columns)
              && forall i :: 0 <= i < |r.value.rows| ==> r.value.rows[i] == FinalRow(r.value.columns, all[i], o.ieee, store)
  {
    hide FinalRow, Yields, StableFor, Completes, Prepared, IsOpening, PartOf;
    var t := new Transport(server);
    ghost var base, batches;
    r, base, batches := RunQuery(t, sql, o, batch, target, all, limit);
    if r.Ok? {
      StableStream(server, store, DecodingOf(o, r.value.columns), all, base, batches);
    }
  }
}
