/** The attached table scan: chunks of at most 2048 rows with synthesized row identifiers. */
module AttachedScan {
  import opened Wrappers
  import opened Schema
  import opened Row
  import opened Transports
  import C = Cursor
  import S = ServerStreams
  import opened Client
  import opened DecodedStream
  import opened Query
  import opened BlobResolution
  import opened Bytes

  const STANDARD_VECTOR_SIZE: nat := 2048

  /** What is written to one place of an output vector. */
  datatype OutCell = RowId(n: nat) | Null | Written(ft: FieldType, cell: Cell)

  /** What output column `position` shows of a row: none stands for a row identifier. */
  function Shown(position: Option<nat>, columns: seq<Column>, cells: Cells, id: nat): OutCell {
    if position.None? then RowId(id)
    else if position.value >= |columns| then Null
    else if position.value >= |cells| then Null
    else Written(columns[position.value].fieldType, cells[position.value])
  }

  /** One output vector per column, each with `size` entries. */
  datatype Chunk = Chunk(size: nat, columns: seq<seq<OutCell>>)

  function PositionOf(outputs: seq<Option<nat>>, c: nat): Option<nat> {
    if c < |outputs| then outputs[c] else None
  }

  predicate Shows(vector: seq<OutCell>, position: Option<nat>, columns: seq<Column>, rows: seq<Cells>, first: nat) {
    |vector| == |rows| && forall r :: 0 <= r < |rows| ==> vector[r] == Shown(position, columns, rows[r], first + r)
  }

  /** The chunk shows these rows, numbered from `first` on, in each of its columns. */
  predicate ChunkOf(chunk: Chunk, outputs: seq<Option<nat>>, columns: seq<Column>, rows: seq<Cells>, first: nat, width: nat) {
    && chunk.size == |rows| && |chunk.columns| == width
    && forall c :: 0 <= c < width ==> Shows(chunk.columns[c], PositionOf(outputs, c), columns, rows, first)
  }

  function Blank(n: nat): seq<Cells> {
    seq(n, _ => [])
  }

  class ScanState {
    const outputs: seq<Option<nat>>
    const d: Decoding
    const syntheticCount: bool
    var syntheticRemaining: nat
    const cursor: C.CursorRunner?
    var currentBatch: seq<Cells>
    var batchOffset: nat
    var totalEmitted: nat
    var exhausted: bool
    ghost const all: seq<C.Item>
    ghost const limit: nat
    ghost const base: seq<Request>
    ghost var batches: seq<Batch>

    /** A scan over a freshly opened cursor of a streaming server. */
    constructor Streaming(outputs: seq<Option<nat>>, d: Decoding, cursor: C.CursorRunner, ghost all: seq<C.Item>, ghost limit: nat)
      requires d.columns != [] && cursor.batchSize > 0 && !cursor.eoc && cursor.firstBlock
      requires S.Streams(cursor.transport.server, cursor.recordSize, all, limit, cursor.transport.log)
      ensures Valid() && !syntheticCount && this.cursor == cursor && totalEmitted == 0
      ensures this.outputs == outputs && this.d == d && this.all == all && this.limit == limit && base == cursor.transport.log
    {
      this.outputs, this.d, this.cursor, this.all, this.limit := outputs, d, cursor, all, limit;
      base := cursor.transport.log;
      syntheticCount, syntheticRemaining := false, 0;
      currentBatch, batchOffset, totalEmitted, exhausted, batches := [], 0, 0, false, [];
      new;
      hide S.Streams, S.Live, S.Delivered, Between;
      NothingRead(cursor, d, all);
    }

    /** A scan whose row count the server has already given; it has no cursor. */
    constructor Counted(outputs: seq<Option<nat>>, d: Decoding, count: nat)
      requires forall c :: 0 <= c < |outputs| ==> outputs[c].None?
      ensures Valid() && syntheticCount && totalEmitted == 0 && syntheticRemaining == count
      ensures this.outputs == outputs && this.d == d
    {
      this.outputs, this.d, this.cursor, this.all, this.limit, this.base := outputs, d, null, [], 0, [];
      syntheticCount, syntheticRemaining := true, count;
      currentBatch, batchOffset, totalEmitted, exhausted, batches := [], 0, 0, false, [];
    }

    ghost predicate CursorValid()
      reads `exhausted, `batches, cursor, if cursor == null then null else cursor.transport
    {
      cursor != null ==>
        && d.columns != [] && cursor.batchSize > 0 && exhausted == cursor.eoc
        && S.Streams(cursor.transport.server, cursor.recordSize, all, limit, base)
        && Between(cursor, d, all, base, batches)
    }

    /** The rows streamed so far. */
    ghost function Streamed(): seq<Cells>
      reads `exhausted, `batches, cursor, if cursor == null then null else cursor.transport
      requires CursorValid()
    {
      if cursor == null then [] else Decoded(cursor.transport.server, d, batches)
    }

    /** All rows the scan has taken in so far, the emitted ones first. */
    ghost function Rows(): seq<Cells>
      reads this, cursor, if cursor == null then null else cursor.transport
      requires CursorValid()
    {
      if syntheticCount then Blank(totalEmitted + syntheticRemaining) else Streamed()
    }

    ghost predicate Valid()
      reads this, cursor, if cursor == null then null else cursor.transport
    {
      && CursorValid()
      && (syntheticCount ==> cursor == null && forall c :: 0 <= c < |outputs| ==> outputs[c].None?)
      && batchOffset <= |currentBatch| && totalEmitted <= |Rows()|
      && (!syntheticCount ==> Rows()[totalEmitted..] == currentBatch[batchOffset..])
    }

    /** Nothing is left to emit: every row of the result has been. */
    ghost predicate Finished()
      reads this, cursor, if cursor == null then null else cursor.transport
      requires Valid()
    {
      && totalEmitted == |Rows()|
      && (cursor != null ==> exhausted && RawRows(batches) == all)
    }

    /** The rows of the result can be decoded, if they are streamed at all. */
    ghost predicate Answerable()
      reads this, cursor, if cursor == null then null else cursor.transport
    {
      cursor != null ==> Decodable(cursor.transport.server, d, all, base)
    }

    /** One turn of the pull loop: the rows of the next block, or the news that there are no more. */
    method Pull() returns (r: Result<(), QueryError>)
      requires Valid() && !syntheticCount && cursor != null && batchOffset >= |currentBatch| && !exhausted
      modifies this, cursor, cursor.transport
      ensures r.Ok? ==>
                && Valid() && totalEmitted == old(totalEmitted) && old(Rows()) <= Rows()
                && (exhausted || limit - S.ReadCount(base, old(cursor.transport.log)) > limit - S.ReadCount(base, cursor.transport.log) > 0)
      ensures Answerable() ==> r.Ok?
    {
      hide S.Streams, Between, Decoded, AllDecoded, S.ReadCount, Decodable;
      var next: Result<(seq<Cells>, bool), QueryError>;
      next, batches := NextDecoded(cursor, d, all, limit, base, batches);
      if next.Err? { return Err(next.error); }
      var (cells, eoc) := next.value;
      if eoc {
        exhausted := true;
        if cells == [] {
          return Ok(());
        }
      }
      currentBatch := cells;
      batchOffset := 0;
      return Ok(());
    }

    /** The pull loop: skip empty blocks until rows or the end of the cursor arrive. */
    method Refill() returns (r: Result<(), QueryError>)
      requires Valid() && !syntheticCount && cursor != null && batchOffset >= |currentBatch|
      modifies this, cursor, cursor.transport
      ensures r.Ok? ==>
                && Valid() && totalEmitted == old(totalEmitted) && old(Rows()) <= Rows()
                && (batchOffset >= |currentBatch| ==> exhausted)
      ensures Answerable() ==> r.Ok?
    {
      hide CursorValid, Streamed, S.ReadCount, Decodable;
      while batchOffset >= |currentBatch| && !exhausted
        invariant Valid() && totalEmitted == old(totalEmitted) && old(Rows()) <= Rows()
        decreases !exhausted, limit - S.ReadCount(base, cursor.transport.log)
      {
        r := Pull();
        if r.Err? { return; }
      }
      return Ok(());
    }

    /** A drained, exhausted scan is finished. */
    ghost method Done()
      requires Valid() && !syntheticCount && batchOffset >= |currentBatch| && (cursor == null || exhausted)
      ensures Finished()
    {
      hide S.Streams, Decoded;
    }

    /** One output vector. */
    method Column(c: nat, rows: seq<Cells>) returns (vector: seq<OutCell>)
      ensures Shows(vector, PositionOf(outputs, c), d.columns, rows, totalEmitted)
    {
      vector := [];
      var position := PositionOf(outputs, c);
      for r := 0 to |rows|
        invariant |vector| == r
        invariant forall k :: 0 <= k < r ==> vector[k] == Shown(position, d.columns, rows[k], totalEmitted + k)
      {
        vector := vector + [Shown(position, d.columns, rows[r], totalEmitted + r)];
      }
    }

    method Fill(rows: seq<Cells>, width: nat) returns (chunk: Chunk)
      ensures ChunkOf(chunk, outputs, d.columns, rows, totalEmitted, width)
    {
      var columns := [];
      for c := 0 to width
        invariant |columns| == c
        invariant forall k :: 0 <= k < c ==> Shows(columns[k], PositionOf(outputs, k), d.columns, rows, totalEmitted)
      {
        var vector := Column(c, rows);
        columns := columns + [vector];
      }
      return Chunk(|rows|, columns);
    }

    /** The synthetic path: nothing but row identifiers. */
    method EmitCount(width: nat) returns (chunk: Chunk)
      requires Valid() && syntheticCount
      modifies this
      ensures Valid() && Rows() == old(Rows())
      ensures chunk.size == (if 2048 < old(syntheticRemaining) then 2048 else old(syntheticRemaining))
      ensures totalEmitted == old(totalEmitted) + chunk.size && syntheticRemaining == old(syntheticRemaining) - chunk.size
      ensures ChunkOf(chunk, outputs, d.columns, Rows()[old(totalEmitted)..totalEmitted], old(totalEmitted), width)
    {
      var emit := if STANDARD_VECTOR_SIZE < syntheticRemaining then STANDARD_VECTOR_SIZE else syntheticRemaining;
      chunk := Fill(Blank(emit), width);
      syntheticRemaining := syntheticRemaining - emit;
      totalEmitted := totalEmitted + emit;
      assert Rows()[old(totalEmitted)..totalEmitted] == Blank(emit);
    }

    /** The next rows of the current batch. */
    method EmitBatch(width: nat) returns (chunk: Chunk)
      requires Valid() && !syntheticCount && batchOffset < |currentBatch|
      modifies `batchOffset, `totalEmitted
      ensures Valid() && Rows() == old(Rows())
      ensures chunk.size == (if 2048 < |currentBatch| - old(batchOffset) then 2048 else |currentBatch| - old(batchOffset))
      ensures 0 < chunk.size && totalEmitted == old(totalEmitted) + chunk.size
      ensures ChunkOf(chunk, outputs, d.columns, Rows()[old(totalEmitted)..totalEmitted], old(totalEmitted), width)
    {
      hide ChunkOf, CursorValid, Streamed;
      var available := |currentBatch| - batchOffset;
      var emit := if STANDARD_VECTOR_SIZE < available then STANDARD_VECTOR_SIZE else available;
      var rows := currentBatch[batchOffset..batchOffset + emit];
      ghost var left := Rows()[totalEmitted..];
      assert left == currentBatch[batchOffset..];
      assert left[..emit] == rows;
      chunk := Fill(rows, width);
      ChunkSize(chunk, outputs, d.columns, rows, totalEmitted, width);
      batchOffset := batchOffset + emit;
      totalEmitted := totalEmitted + emit;
      assert Rows()[totalEmitted..] == left[emit..];
      assert Rows()[old(totalEmitted)..totalEmitted] == rows;
    }

    method Nothing(width: nat) returns (chunk: Chunk)
      ensures ChunkOf(chunk, outputs, d.columns, [], totalEmitted, width)
    {
      return Chunk(0, seq(width, _ => []));
    }

    /**
     * Execute: the next rows in order, at most 2048, numbered from where the last chunk stopped. A
     * chunk is empty only when everything has been emitted, and from then on every chunk is.
     */
    method Execute(width: nat) returns (r: Result<Chunk, QueryError>)
      requires Valid()
      modifies this, cursor, if cursor == null then null else cursor.transport
      ensures r.Ok? ==>
                && Valid() && old(Rows()) <= Rows()
                && totalEmitted == old(totalEmitted) + r.value.size && r.value.size <= 2048
                && ChunkOf(r.value, outputs, d.columns, Rows()[old(totalEmitted)..totalEmitted], old(totalEmitted), width)
                && (r.value.size == 0 <==> Finished() && totalEmitted == old(totalEmitted))
                && (old(Finished()) ==> r.value.size == 0)
                && (syntheticCount ==> Rows() == old(Rows()))
      ensures Answerable() ==> r.Ok?
    {
      hide ChunkOf, CursorValid, Streamed, Decodable;
      if syntheticCount {
        var chunk := EmitCount(width);
        return Ok(chunk);
      }
      if batchOffset >= |currentBatch| {
        if exhausted || cursor == null {
          Done();
          assert Rows()[totalEmitted..totalEmitted] == [];
          var none := Nothing(width);
          return Ok(none);
        }
        var refilled := Refill();
        if refilled.Err? { return Err(refilled.error); }
        if batchOffset >= |currentBatch| {
          Done();
          assert Rows()[totalEmitted..totalEmitted] == [];
          var none := Nothing(width);
          return Ok(none);
        }
      }
      var chunk := EmitBatch(width);
      return Ok(chunk);
    }
  }

  lemma ChunkSize(chunk: Chunk, outputs: seq<Option<nat>>, columns: seq<Column>, rows: seq<Cells>, first: nat, width: nat)
    requires ChunkOf(chunk, outputs, columns, rows, first, width)
    ensures chunk.size == |rows|
  {
  }

  // ----- whole scans -----

  /** The first rows of a scan, column by column, as the engine accumulates them. */
  predicate Accumulated(vectors: seq<seq<OutCell>>, outputs: seq<Option<nat>>, columns: seq<Column>, rows: seq<Cells>, width: nat) {
    |vectors| == width && forall c :: 0 <= c < width ==> Shows(vectors[c], PositionOf(outputs, c), columns, rows, 0)
  }

  function Appended(vectors: seq<seq<OutCell>>, chunk: Chunk): (r: seq<seq<OutCell>>)
    requires |vectors| == |chunk.columns|
    ensures |r| == |vectors|
  {
    seq(|vectors|, c requires 0 <= c < |vectors| => vectors[c] + chunk.columns[c])
  }

  lemma ShowsConcat(a: seq<OutCell>, b: seq<OutCell>, position: Option<nat>, columns: seq<Column>, rows: seq<Cells>, more: seq<Cells>)
    requires Shows(a, position, columns, rows, 0) && Shows(b, position, columns, more, |rows|)
    ensures Shows(a + b, position, columns, rows + more, 0)
  {
  }

  lemma AppendChunk(vectors: seq<seq<OutCell>>, chunk: Chunk, outputs: seq<Option<nat>>, columns: seq<Column>, rows: seq<Cells>,
                    more: seq<Cells>, width: nat)
    requires Accumulated(vectors, outputs, columns, rows, width) && ChunkOf(chunk, outputs, columns, more, |rows|, width)
    ensures |vectors| == |chunk.columns| && Accumulated(Appended(vectors, chunk), outputs, columns, rows + more, width)
  {
    hide Shows;
    forall c | 0 <= c < width
      ensures Shows(Appended(vectors, chunk)[c], PositionOf(outputs, c), columns, rows + more, 0)
    {
      ShowsConcat(vectors[c], chunk.columns[c], PositionOf(outputs, c), columns, rows, more);
    }
  }

  /**
   * A whole scan: call Execute until it gives nothing. The chunks together show every row of the
   * result exactly once, in order, numbered 0, 1, 2 and so on, whatever blocks the rows came in. A scan
   * whose rows can be decoded completes.
   */
  method RunScan(s: ScanState, width: nat) returns (r: Result<seq<seq<OutCell>>, QueryError>)
    requires s.Valid() && s.totalEmitted == 0
    modifies s, s.cursor, if s.cursor == null then null else s.cursor.transport
    ensures r.Ok? ==> s.Valid() && s.Finished() && Accumulated(r.value, s.outputs, s.d.columns, s.Rows(), width)
    ensures r.Ok? && s.syntheticCount ==> |s.Rows()| == old(s.syntheticRemaining)
    ensures s.Answerable() ==> r.Ok?
  {
    hide ChunkOf, Accumulated, Decodable, ScanState.CursorValid, ScanState.Streamed;
    var vectors: seq<seq<OutCell>> := seq(width, _ => []);
    ghost var emitted: seq<Cells> := [];
    assert Accumulated(vectors, s.outputs, s.d.columns, [], width) by {
      NothingAccumulated(vectors, s.outputs, s.d.columns, width);
    }
    ghost var total := if s.syntheticCount then s.syntheticRemaining else |s.all|;
    while true
      invariant s.Valid() && emitted == s.Rows()[..s.totalEmitted]
      invariant Accumulated(vectors, s.outputs, s.d.columns, emitted, width)
      invariant s.syntheticCount ==> |s.Rows()| == old(s.syntheticRemaining)
      decreases total - s.totalEmitted
    {
      ghost var before := s.Rows();
      var chunk := s.Execute(width);
      if chunk.Err? { return Err(chunk.error); }
      WithinResult(s);
      ghost var more := s.Rows()[|emitted|..s.totalEmitted];
      AppendChunk(vectors, chunk.value, s.outputs, s.d.columns, emitted, more, width);
      vectors := Appended(vectors, chunk.value);
      assert s.Rows()[..s.totalEmitted] == emitted + more;
      emitted := emitted + more;
      if chunk.value.size == 0 {
        assert s.Rows()[..s.totalEmitted] == s.Rows();
        return Ok(vectors);
      }
    }
  }

  lemma NothingAccumulated(vectors: seq<seq<OutCell>>, outputs: seq<Option<nat>>, columns: seq<Column>, width: nat)
    requires |vectors| == width && forall c :: 0 <= c < width ==> vectors[c] == []
    ensures Accumulated(vectors, outputs, columns, [], width)
  {
  }

  /** No more is emitted than the result holds. */
  lemma WithinResult(s: ScanState)
    requires s.Valid()
    ensures s.totalEmitted <= if s.syntheticCount then |s.Rows()| else |s.all|
  {
    if s.cursor != null {
      DecodedInPlace(s.cursor.transport.server, s.d, s.batches);
    }
  }

  /** What the whole scan of a result shows in one output column, from the result's bytes and blobs alone. */
  function FullColumn(position: Option<nat>, d: Decoding, all: seq<C.Item>, store: BlobStore): seq<OutCell>
    requires d.columns != []
  {
    seq(|all|, i requires 0 <= i < |all| => Shown(position, d.columns, FinalRow(d.columns, all[i], d.ieee, store), i))
  }

  /** A row that does not decode is shown as a row of NULLs; its identifier is counted like any other. */
  lemma MalformedShowsNull(d: Decoding, raw: C.Item, store: BlobStore, p: nat, id: nat)
    requires d.columns != [] && DecodeRow(d.columns, raw.0, d.ieee).Err?
    ensures Shown(Some(p), d.columns, FinalRow(d.columns, raw, d.ieee, store), id) == Null
    ensures Shown(None, d.columns, FinalRow(d.columns, raw, d.ieee, store), id) == RowId(id)
  {
    hide DecodeRow;
  }

  lemma FinishedScan(s: ScanState, vectors: seq<seq<OutCell>>, width: nat, store: BlobStore)
    requires s.Valid() && s.Finished() && s.cursor != null && !s.syntheticCount
    requires Accumulated(vectors, s.outputs, s.d.columns, s.Rows(), width)
    requires s.d.columns != [] && StableFor(s.cursor.transport.server, store, s.d, s.all, s.base)
    ensures |vectors| == width
    ensures forall c :: 0 <= c < width ==> vectors[c] == FullColumn(PositionOf(s.outputs, c), s.d, s.all, store)
  {
    hide StableFor, FinalRow, S.Streams, Shown;
    StableStream(s.cursor.transport.server, store, s.d, s.all, s.base, s.batches);
    forall c | 0 <= c < width
      ensures vectors[c] == FullColumn(PositionOf(s.outputs, c), s.d, s.all, store)
    {
      assert Shows(vectors[c], PositionOf(s.outputs, c), s.d.columns, s.Rows(), 0);
    }
  }

  /** What every output column shows of a result. */
  predicate ShowsAll(vectors: seq<seq<OutCell>>, outputs: seq<Option<nat>>, d: Decoding, all: seq<C.Item>, store: BlobStore, width: nat)
    requires d.columns != []
  {
    |vectors| == width && forall c :: 0 <= c < width ==> vectors[c] == FullColumn(PositionOf(outputs, c), d, all, store)
  }

  /**
   * From the statement to the last chunk. Over any server whose cursor for this statement streams `all`, in
   * blocks of any size, empty ones included, a scan that completes shows exactly the rows of `all`, in order,
   * in the columns of the reply to the statement, with row identifiers 0, 1, 2 and so on. Neither the batch
   * size nor the server's blocks appear in the result. Blobs, if there are any, are assumed to be stable
   * while the cursor is open. The scan completes if the statement can be prepared and opened and its rows
   * can be decoded.
   */
  method StreamTable(server: Server, sql: string, o: Settings, batch: nat, outputs: seq<Option<nat>>, width: nat,
                     ghost store: BlobStore, ghost all: seq<C.Item>, ghost limit: nat)
    returns (r: Result<seq<seq<OutCell>>, QueryError>)
    requires batch > 0
    requires Yields(server, [], sql, all, limit) && KeepsBlobs(server, [], sql, o, all, store)
    ensures Prepared(server, [], sql).Err? ==> r == Err(Prepared(server, [], sql).error)
    ensures Completes(server, [], sql, o, all) ==> r.Ok?
    ensures r.Ok? ==>
              Prepared(server, [], sql).Ok?
              && ShowsAll(r.value, outputs, DecodingOf(o, Prepared(server, [], sql).value), all, store, width)
  {
    hide S.Streams, StableFor, FullColumn, Accumulated, Decodable, Prepared, S.IsOpening, Opens;
    var t := new Transport(server);
    assert [] + [Prepare(sql)] == [Prepare(sql)];
    var start := StartStreaming(t, sql, batch);
    if start.Err? { return Err(start.error); }
    var (columns, runner) := start.value;
    var s := new ScanState.Streaming(outputs, DecodingOf(o, columns), runner, all, limit);
    r := RunScan(s, width);
    if r.Ok? {
      FinishedScan(s, r.value, width, store);
    }
    runner.Cleanup();
  }

  // ----- counting instead of streaming -----

  /** The number in a cell; doubles are cut towards zero. A cast of an infinity or a NaN is undefined in C++ and gives none here. */
  function NumberIn(cell: Cell, ieee: Ieee): Option<int> {
    match cell
    case Int32Cell(v) => Some(v)
    case Int64Cell(v) => Some(v)
    case FloatCell(raw) => var x := ieee.read(raw); if x.Some? then Some(Trunc(x.value)) else None
    case CurrencyCell(v) => Some(Trunc(ieee.round(ieee.round(v as real) / 10_000.0)))
    case _ => None
  }

  /** What a COUNT result says: the number in the first column of its first row, nothing below zero. */
  function CountIn(d: Decoding, all: seq<C.Item>): Option<nat>
    requires d.columns != []
  {
    if all == [] then None
    else
      var cells := DecodeRow(d.columns, all[0].0, d.ieee);
      if cells.Err? || NumberIn(cells.value[0], d.ieee).None? then None
      else Some(if NumberIn(cells.value[0], d.ieee).value > 0 then NumberIn(cells.value[0], d.ieee).value else 0)
  }

  /**
   * An answer whose first row starts with a number counts that many rows, cut towards zero and none below it;
   * one whose first row starts otherwise is no count.
   */
  lemma {:induction false} CountOfAnswer(d: Decoding, cells: Cells, header: Buffer, mark: Buffer, doubles: Doubles, more: seq<C.Item>)
    requires d.columns != [] && Contiguous(d.columns, d.columns[0].rowOffset) && |header| == d.columns[0].rowOffset
    requires d.ieee == doubles.ieee
    requires |cells| == |d.columns| && forall i :: 0 <= i < |cells| ==> Encodable(d.columns[i], cells[i], doubles)
    ensures var count := CountIn(d, [(header + EncodeRow(d.columns, cells, doubles), mark)] + more);
            match cells[0]
            case Int32Cell(v) => count == Some(if v < 0 then 0 else v)
            case Int64Cell(v) => count == Some(if v < 0 then 0 else v)
            case FloatCell(raw) =>
              var x := d.ieee.read(raw);
              count == if x.None? then None else Some(if x.value < 0.0 then 0 else x.value.Floor)
            case CurrencyCell(_) => count.Some?
            case _ => count.None?
  {
    hide EncodeRow, DecodeRow;
    var row := header + EncodeRow(d.columns, cells, doubles);
    CellsBehindHeader(d.columns, cells, header, [], doubles);
    assert row + [] == row;
  }

  /** The first cell of a decoded COUNT result is the number its first raw row holds, if it holds one. */
  lemma FirstCell(d: Decoding, row: Buffer, cells: Cells)
    requires d.columns != [] && CellKept(d.columns, row, d.ieee, cells)
    ensures cells == [] <==> DecodeRow(d.columns, row, d.ieee).Err?
    ensures cells != [] ==> NumberIn(cells[0], d.ieee) == NumberIn(DecodeRow(d.columns, row, d.ieee).value[0], d.ieee)
  {
    hide DecodeRow;
  }

  /**
   * The COUNT path of a scan without real columns and filters, from the COUNT statement to the last chunk: as
   * many row identifiers as the server's answer says. If the query completes it succeeds exactly when the
   * answer's first row decodes and starts with a number.
   */
  method CountTable(server: Server, sql: string, o: Settings, batch: nat, outputs: seq<Option<nat>>, width: nat,
                    ghost all: seq<C.Item>, ghost limit: nat)
    returns (r: Result<seq<seq<OutCell>>, QueryError>)
    requires batch > 0 && forall c :: 0 <= c < |outputs| ==> outputs[c].None?
    requires Yields(server, [], sql, all, limit)
    ensures r.Ok? ==>
              && Prepared(server, [], sql).Ok?
              && var d := DecodingOf(o, Prepared(server, [], sql).value);
                 CountIn(d, all).Some? && Accumulated(r.value, outputs, d.columns, Blank(CountIn(d, all).value), width)
    ensures Completes(server, [], sql, o, all) ==>
              (r.Ok? <==> CountIn(DecodingOf(o, Prepared(server, [], sql).value), all).Some?)
  {
    hide Yields, Completes, Prepared, Accumulated, CellKept, DecodeRow, NumberIn, ChunkOf, S.IsOpening, PartOf;
    var t := new Transport(server);
    var q: Result<QueryResult, QueryError>;
    ghost var base, batches;
    q, base, batches := RunQuery(t, sql, o, batch, 1, all, limit);
    if q.Err? { return Err(q.error); }
    var d, rows := DecodingOf(o, q.value.columns), q.value.rows;
    DecodedInPlace(server, d, batches);
    if rows == [] { return Err(NoCount); }
    FirstCell(d, all[0].0, rows[0]);
    if rows[0] == [] { return Err(NoCount); }
    var n := NumberIn(rows[0][0], o.ieee);
    if n.None? { return Err(CountNotNumeric); }
    var count := if n.value > 0 then n.value else 0;
    var s := new ScanState.Counted(outputs, d, count);
    r := RunScan(s, width);
    assert s.Rows() == Blank(|s.Rows()|);
  }

  /**
   * If the server's count is the number of rows its table streams, counting gives the very vectors that
   * streaming the table gives; if it is not, and anything is asked for, it does not.
   */
  lemma CountingIsExact(counted: seq<seq<OutCell>>, streamed: seq<seq<OutCell>>, outputs: seq<Option<nat>>, d: Decoding,
                        answer: seq<C.Item>, table: Decoding, rows: seq<C.Item>, store: BlobStore, width: nat)
    requires forall c :: 0 <= c < |outputs| ==> outputs[c].None?
    requires d.columns != [] && table.columns != [] && CountIn(d, answer).Some?
    requires Accumulated(counted, outputs, d.columns, Blank(CountIn(d, answer).value), width)
    requires ShowsAll(streamed, outputs, table, rows, store, width)
    ensures counted == streamed <==> width == 0 || CountIn(d, answer) == Some(|rows|)
  {
    hide CountIn, FinalRow;
    var count := CountIn(d, answer).value;
    forall c | 0 <= c < width
      ensures counted[c] == streamed[c] <==> count == |rows|
    {
      assert Shows(counted[c], None, d.columns, Blank(count), 0);
      IdentifiersOnly(counted[c], streamed[c], d.columns, count, table, rows, store);
    }
    if width > 0 && count != |rows| {
      assert counted[0] != streamed[0];
    }
  }

  lemma IdentifiersOnly(a: seq<OutCell>, b: seq<OutCell>, columns: seq<Column>, count: nat, table: Decoding, rows: seq<C.Item>,
                        store: BlobStore)
    requires table.columns != [] && Shows(a, None, columns, Blank(count), 0) && b == FullColumn(None, table, rows, store)
    ensures a == b <==> count == |rows|
  {
    hide FinalRow;
  }

  /**
   * Both ways over one server: the COUNT statement and the table's own. If both can be prepared and opened and
   * their rows decoded, and the answer is a number, then counting gives the vectors of streaming if and only
   * if that number is the number of rows the table's cursor streams.
   */
  method CountAgainstScan(server: Server, countSql: string, sql: string, o: Settings, batch: nat, outputs: seq<Option<nat>>, width: nat,
                          ghost store: BlobStore, ghost answer: seq<C.Item>, ghost answerLimit: nat, ghost rows: seq<C.Item>,
                          ghost limit: nat)
    returns (counted: Result<seq<seq<OutCell>>, QueryError>, streamed: Result<seq<seq<OutCell>>, QueryError>)
    requires batch > 0 && forall c :: 0 <= c < |outputs| ==> outputs[c].None?
    requires Yields(server, [], countSql, answer, answerLimit)
    requires Yields(server, [], sql, rows, limit) && KeepsBlobs(server, [], sql, o, rows, store)
    ensures Completes(server, [], countSql, o, answer) && Completes(server, [], sql, o, rows)
            && CountIn(DecodingOf(o, Prepared(server, [], countSql).value), answer).Some? ==>
              && counted.Ok? && streamed.Ok?
              && (counted.value == streamed.value
                  <==> width == 0 || CountIn(DecodingOf(o, Prepared(server, [], countSql).value), answer) == Some(|rows|))
  {
    hide Yields, KeepsBlobs, Completes, Prepared, Accumulated, ShowsAll, CountIn;
    counted := CountTable(server, countSql, o, batch, outputs, width, answer, answerLimit);
    streamed := StreamTable(server, sql, o, batch, outputs, width, store, rows, limit);
    if counted.Ok? && streamed.Ok? {
      CountingIsExact(counted.value, streamed.value, outputs, DecodingOf(o, Prepared(server, [], countSql).value), answer,
                      DecodingOf(o, Prepared(server, [], sql).value), rows, store, width);
    }
  }
}
