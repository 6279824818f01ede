/** A streamed result as decoded batches: which row each decoded row comes from, and what its blobs hold. */
module DecodedStream {
  import opened Wrappers
  import opened Bytes
  import opened Schema
  import opened Row
  import opened Transports
  import opened ServerStreams
  import opened Client
  import opened BlobResolution
  import Blob

  /** How rows of one statement are decoded. */
  datatype Decoding = Decoding(columns: seq<Column>, ieee: Ieee, slotLength: nat, lenient: bool)

  /** One block handed to the decoder: the session's log at that moment and the rows of the block. */
  datatype Batch = Batch(log: seq<Request>, rows: seq<RawRow>)

  function DecodedRows(server: Server, d: Decoding, b: Batch): Result<seq<Cells>, ClientError> {
    DecodeBatch(server, b.log, d.columns, b.rows, d.ieee, d.slotLength, d.lenient).1
  }

  /** The raw rows of the batches in order. */
  function RawRows(batches: seq<Batch>): seq<RawRow> {
    if batches == [] then [] else RawRows(batches[..|batches| - 1]) + batches[|batches| - 1].rows
  }

  predicate AllDecoded(server: Server, d: Decoding, batches: seq<Batch>) {
    forall k :: 0 <= k < |batches| ==> DecodedRows(server, d, batches[k]).Ok?
  }

  /** The decoded rows of the batches in order. */
  function Decoded(server: Server, d: Decoding, batches: seq<Batch>): seq<Cells>
    requires AllDecoded(server, d, batches)
  {
    if batches == [] then []
    else Decoded(server, d, batches[..|batches| - 1]) + DecodedRows(server, d, batches[|batches| - 1]).value
  }

  lemma OneMoreBatch(server: Server, d: Decoding, batches: seq<Batch>, b: Batch)
    requires AllDecoded(server, d, batches) && DecodedRows(server, d, b).Ok?
    ensures AllDecoded(server, d, batches + [b])
    ensures Decoded(server, d, batches + [b]) == Decoded(server, d, batches) + DecodedRows(server, d, b).value
    ensures RawRows(batches + [b]) == RawRows(batches) + b.rows
  {
    hide DecodedRows;
    assert (batches + [b])[..|batches|] == batches;
  }

  /** Decoded row i comes from raw row i: none is dropped, added or moved, malformed ones included. */
  lemma {:induction false} DecodedInPlace(server: Server, d: Decoding, batches: seq<Batch>)
    requires d.columns != [] && AllDecoded(server, d, batches)
    ensures |Decoded(server, d, batches)| == |RawRows(batches)|
    ensures forall i :: 0 <= i < |RawRows(batches)| ==>
              CellKept(d.columns, RawRows(batches)[i].0, d.ieee, Decoded(server, d, batches)[i])
    decreases |batches|
  {
    hide DecodeBatch, CellKept;
    if batches != [] {
      var b := batches[|batches| - 1];
      DecodedInPlace(server, d, batches[..|batches| - 1]);
      RowsKeepTheirPlace(server, b.log, d.columns, b.rows, d.ieee, d.slotLength, d.lenient);
    }
  }

  // ----- servers whose blobs do not change -----

  /** What a blob is fetched by: record number, digest, key, field ordinal. */
  type BlobStore = (nat, Buffer, Buffer, nat) -> Buffer

  function PayloadOf(store: BlobStore, t: BlobTask): Buffer {
    store(t.phys, t.md5, t.pk, Ordinal(t))
  }

  predicate Fits(width: nat, task: BlobTask) {
    |task.md5| == Blob.MD5_LEN && |task.pk| == width && task.phys < U32_LIMIT
  }

  function LeastSlot(width: nat): nat {
    9 + Blob.MD5_LEN + 1 + width + 9
  }

  predicate GoodLength(width: nat, length: nat) {
    LeastSlot(width) <= length < U32_LIMIT
  }

  /** The task fetches a blob of one of these rows. */
  ghost predicate Named(columns: seq<Column>, rows: seq<RawRow>, ieee: Ieee, task: BlobTask)
    requires columns != []
  {
    exists raw: RawRow :: raw in rows && NamedBy(columns, raw, ieee, task)
  }

  predicate NamedBy(columns: seq<Column>, raw: RawRow, ieee: Ieee, task: BlobTask)
    requires columns != []
  {
    && task.col < |columns| && DecodeRow(columns, raw.0, ieee).Ok?
    && NeedsFetch(columns, raw.0, DecodeRow(columns, raw.0, ieee).value, task.col)
    && task == TaskFor(columns, raw, task.row, task.col)
  }

  ghost predicate AllNamed(columns: seq<Column>, rows: seq<RawRow>, ieee: Ieee, tasks: seq<BlobTask>)
    requires columns != []
  {
    forall k :: 0 <= k < |tasks| ==> Named(columns, rows, ieee, tasks[k])
  }

  /** In the session, whenever a long enough slot is sent for a blob of the result, the fetch brings the stored payload. */
  ghost predicate StableBlobs(server: Server, store: BlobStore, d: Decoding, all: seq<RawRow>, base: seq<Request>)
    requires d.columns != []
  {
    forall log: seq<Request>, task: BlobTask, length: nat {:trigger FetchTask(server, log, task, length)} ::
      InSession(base, log) && Named(d.columns, all, d.ieee, task) && GoodLength(d.columns[0].max, length) ==>
        var f := FetchTask(server, log, task, length);
        f.stored == Some(PayloadOf(store, task)) && GoodLength(d.columns[0].max, f.slotLength)
  }

  predicate HasBlobColumn(columns: seq<Column>) {
    exists c :: 0 <= c < |columns| && IsBlobShaped(columns[c].fieldType)
  }

  /** If the statement has blobs at all, they are stable in this session and its first slot is long enough for its key. */
  ghost predicate StableFor(server: Server, store: BlobStore, d: Decoding, all: seq<RawRow>, base: seq<Request>)
    requires d.columns != []
  {
    HasBlobColumn(d.columns) ==> StableBlobs(server, store, d, all, base) && GoodLength(d.columns[0].max, d.slotLength)
  }

  /** The row a client ends up with, from its bytes and the stored blobs alone. */
  function FinalRow(columns: seq<Column>, raw: RawRow, ieee: Ieee, store: BlobStore): Cells
    requires columns != []
  {
    var cells := DecodeRow(columns, raw.0, ieee);
    if cells.Err? then []
    else
      seq(|columns|, c requires 0 <= c < |columns| =>
        if !IsBlobCell(columns, cells.value, c) then cells.value[c]
        else if NeedsFetch(columns, raw.0, cells.value, c) then BytesCell(PayloadOf(store, TaskFor(columns, raw, 0, c)))
        else NullCell)
  }

  /**
   * What that row is, for a record of known cells behind a header: every cell as it was stored, a blob handle
   * that is not all zero replaced by the blob of the record number in the bookmark's last four bytes, the
   * digest in the header's bytes 9 to 24, the first column's bytes and the column's place counted from 1, and
   * a handle of zeros by NULL.
   */
  lemma {:induction false} FinalCells(columns: seq<Column>, cells: Cells, header: Buffer, mark: Buffer, doubles: Doubles, store: BlobStore)
    requires columns != [] && Contiguous(columns, columns[0].rowOffset) && |header| == columns[0].rowOffset >= 25
    requires |columns| < U16_LIMIT
    requires |cells| == |columns| && forall i :: 0 <= i < |columns| ==> Encodable(columns[i], cells[i], doubles)
    ensures var row := header + EncodeRow(columns, cells, doubles);
            var final := FinalRow(columns, (row, mark), doubles.ieee, store);
            var key := EncodeCell(columns[0], cells[0], doubles)[1..];
            && |final| == |columns|
            && forall c :: 0 <= c < |columns| ==>
                 final[c] == if !cells[c].HandleCell? then cells[c]
                             else if cells[c].handle == [0, 0, 0, 0, 0, 0, 0, 0] then NullCell
                             else BytesCell(store(Blob.PhysicalRecordNumber(mark), header[9..25], key, c + 1))
  {
    hide EncodeRow, DecodeRow, EncodeCell;
    var encoded := EncodeRow(columns, cells, doubles);
    var row := header + encoded;
    CellsBehindHeader(columns, cells, header, [], doubles);
    assert header + encoded + [] == row;
    FirstCellLeads(columns, cells, doubles);
    var key := EncodeCell(columns[0], cells[0], doubles)[1..];
    assert row[9..25] == header[9..25];
    assert row[|header| + 1..|header| + 1 + columns[0].max] == encoded[1..1 + columns[0].max] == key;
    forall c | 0 <= c < |columns|
      ensures FinalRow(columns, (row, mark), doubles.ieee, store)[c]
           == if !cells[c].HandleCell? then cells[c]
              else if cells[c].handle == [0, 0, 0, 0, 0, 0, 0, 0] then NullCell
              else BytesCell(store(Blob.PhysicalRecordNumber(mark), header[9..25], key, c + 1))
    {
      if cells[c].HandleCell? {
        HandleOfEight(columns[c], cells[c], doubles);
      }
    }
  }

  lemma {:induction false} FirstCellLeads(columns: seq<Column>, cells: Cells, doubles: Doubles)
    requires columns != [] && |cells| == |columns| && forall i :: 0 <= i < |columns| ==> Encodable(columns[i], cells[i], doubles)
    ensures |EncodeCell(columns[0], cells[0], doubles)| == 1 + columns[0].max
    ensures EncodeCell(columns[0], cells[0], doubles) <= EncodeRow(columns, cells, doubles)
  {
  }

  lemma HandleOfEight(c: Column, cell: Cell, doubles: Doubles)
    requires Encodable(c, cell, doubles) && cell.HandleCell?
    ensures |cell.handle| == 8 && (c.fieldType.Blob? || c.fieldType.Memo? || c.fieldType.Graphic?)
    ensures (exists k :: 0 <= k < |cell.handle| && cell.handle[k] != 0) <==> cell.handle != [0, 0, 0, 0, 0, 0, 0, 0]
  {
    if forall k :: 0 <= k < |cell.handle| ==> cell.handle[k] == 0 {
      assert cell.handle == [0, 0, 0, 0, 0, 0, 0, 0];
    }
  }

  lemma FetchKeepsSession(server: Server, base: seq<Request>, log: seq<Request>, task: BlobTask, length: nat)
    requires InSession(base, log) && |task.md5| == Blob.MD5_LEN
    ensures InSession(base, FetchTask(server, log, task, length).log)
  {
    hide FetchTask, InSession;
    var sent := FetchReadsNothing(server, log, task, length);
    BlobsKeepSession(base, log, sent);
  }

  lemma FlushKeepsSession(base: seq<Request>, log: seq<Request>)
    requires InSession(base, log)
    ensures InSession(base, log + [FreeAllBlobs])
  {
    hide InSession;
    FlushIsBlobRequest();
    BlobsKeepSession(base, log, [FreeAllBlobs]);
  }

  lemma NamedFits(columns: seq<Column>, rows: seq<RawRow>, ieee: Ieee, task: BlobTask)
    requires columns != [] && Named(columns, rows, ieee, task)
    ensures Fits(columns[0].max, task)
  {
    hide DecodeRow;
  }

  lemma {:induction false} StableFetches(server: Server, store: BlobStore, d: Decoding, all: seq<RawRow>, base: seq<Request>,
                                         log: seq<Request>, tasks: seq<BlobTask>, i: nat, length: nat)
    requires d.columns != [] && StableBlobs(server, store, d, all, base) && InSession(base, log)
    requires i <= |tasks| && AllNamed(d.columns, all, d.ieee, tasks) && GoodLength(d.columns[0].max, length)
    ensures forall k :: i <= k < |tasks| ==> Fetches(server, log, tasks, i, length)[k - i].stored == Some(PayloadOf(store, tasks[k]))
    decreases |tasks| - i
  {
    hide FetchTask, PayloadOf, InSession, Named;
    if i < |tasks| {
      var log' := if i > 0 && i % FLUSH_EVERY == 0 then log + [FreeAllBlobs] else log;
      FlushKeepsSession(base, log);
      var f := FetchTask(server, log', tasks[i], length);
      NamedFits(d.columns, all, d.ieee, tasks[i]);
      FetchKeepsSession(server, base, log', tasks[i], length);
      StableFetches(server, store, d, all, base, f.log, tasks, i + 1, f.slotLength);
    }
  }

  /** The tasks of a batch fetch blobs of its rows. */
  lemma TasksNamed(columns: seq<Column>, rows: seq<RawRow>, all: seq<RawRow>, ieee: Ieee)
    requires columns != [] && forall raw :: raw in rows ==> raw in all
    ensures AllNamed(columns, all, ieee, AllTasks(columns, rows, ieee))
  {
    hide DecodeRow, NeedsFetch, AllTasks;
    TasksAscend(columns, rows, ieee);
    var ts := AllTasks(columns, rows, ieee);
    forall k | 0 <= k < |ts|
      ensures Named(columns, all, ieee, ts[k])
    {
      assert ts[k] in ts;
      AddressedIsNamed(columns, rows, ieee, ts[k]);
    }
  }

  lemma AddressedIsNamed(columns: seq<Column>, rows: seq<RawRow>, ieee: Ieee, t: BlobTask)
    requires columns != [] && Addresses(columns, rows, ieee, t)
    ensures t.row < |rows| && NamedBy(columns, rows[t.row], ieee, t)
  {
    hide DecodeRow, NeedsFetch;
  }

  /** Without a blob column there is nothing to fetch. */
  lemma TasksNeedBlobs(columns: seq<Column>, rows: seq<RawRow>, ieee: Ieee)
    requires columns != []
    ensures HasBlobColumn(columns) || AllTasks(columns, rows, ieee) == []
  {
    hide DecodeRow, AllTasks;
    TasksAscend(columns, rows, ieee);
    var ts := AllTasks(columns, rows, ieee);
    if ts != [] {
      assert ts[0] in ts;
      AddressedIsBlob(columns, rows, ieee, ts[0]);
    }
  }

  /** A cell whose handle names no record, or that holds no handle at all, has no task. */
  lemma NoTaskNoChange(columns: seq<Column>, rows: seq<RawRow>, ieee: Ieee, i: nat, c: nat)
    requires columns != [] && i < |rows| && c < |columns| && DecodeRow(columns, rows[i].0, ieee).Ok?
    requires !NeedsFetch(columns, rows[i].0, DecodeRow(columns, rows[i].0, ieee).value, c)
    ensures Untouched(AllTasks(columns, rows, ieee), 0, i, c)
  {
    hide DecodeRow;
    TasksAscend(columns, rows, ieee);
    var ts := AllTasks(columns, rows, ieee);
    forall k | 0 <= k < |ts|
      ensures !(ts[k].row == i && ts[k].col == c)
    {
      assert Addresses(columns, rows, ieee, ts[k]);
    }
  }

  /** A block of the result `all`, handed to the decoder in the session opened at `base`. */
  predicate PartOf(b: Batch, all: seq<RawRow>, base: seq<Request>) {
    InSession(base, b.log) && forall raw :: raw in b.rows ==> raw in all
  }

  /** Over stable blobs a decoded batch is a function of its rows: earlier requests do not matter. */
  lemma StableBatch(server: Server, store: BlobStore, d: Decoding, all: seq<RawRow>, base: seq<Request>, b: Batch)
    requires d.columns != [] && StableFor(server, store, d, all, base) && PartOf(b, all, base)
    requires DecodedRows(server, d, b).Ok?
    ensures var out := DecodedRows(server, d, b).value;
            |out| == |b.rows| && forall i :: 0 <= i < |b.rows| ==> out[i] == FinalRow(d.columns, b.rows[i], d.ieee, store)
  {
    hide DecodeRow, Resolve, FetchTask, Addresses, NeedsFetch, StableFor, PartOf;
    var out := DecodedRows(server, d, b).value;
    RowsKeepTheirPlace(server, b.log, d.columns, b.rows, d.ieee, d.slotLength, d.lenient);
    forall i | 0 <= i < |b.rows|
      ensures out[i] == FinalRow(d.columns, b.rows[i], d.ieee, store)
    {
      var cells := DecodeRow(d.columns, b.rows[i].0, d.ieee);
      assert CellKept(d.columns, b.rows[i].0, d.ieee, out[i]);
      if cells.Ok? {
        forall c | 0 <= c < |d.columns|
          ensures out[i][c] == FinalRow(d.columns, b.rows[i], d.ieee, store)[c]
        {
          StableCell(server, store, d, all, base, b, i, c);
        }
      }
    }
  }

  lemma StableCell(server: Server, store: BlobStore, d: Decoding, all: seq<RawRow>, base: seq<Request>, b: Batch, i: nat, c: nat)
    requires d.columns != [] && StableFor(server, store, d, all, base) && PartOf(b, all, base)
    requires DecodedRows(server, d, b).Ok?
    requires i < |b.rows| && c < |d.columns| && DecodeRow(d.columns, b.rows[i].0, d.ieee).Ok?
    ensures var out := DecodedRows(server, d, b).value;
            i < |out| && c < |out[i]| && out[i][c] == FinalRow(d.columns, b.rows[i], d.ieee, store)[c]
  {
    hide DecodeRow, DecodedRows, StableFor, PartOf, IsBlobCell, PayloadOf, NeedsFetch;
    if NeedsFetch(d.columns, b.rows[i].0, DecodeRow(d.columns, b.rows[i].0, d.ieee).value, c) {
      FetchedCell(server, store, d, all, base, b, i, c);
      NeedsBlobCell(d.columns, b.rows[i].0, DecodeRow(d.columns, b.rows[i].0, d.ieee).value, c);
    } else {
      UnfetchedCell(server, d, b, i, c);
    }
  }

  lemma NeedsBlobCell(columns: seq<Column>, row: Buffer, cells: Cells, col: nat)
    requires columns != [] && col < |columns| == |cells| && NeedsFetch(columns, row, cells, col)
    ensures IsBlobCell(columns, cells, col)
  {
  }

  lemma FetchedCell(server: Server, store: BlobStore, d: Decoding, all: seq<RawRow>, base: seq<Request>, b: Batch, i: nat, c: nat)
    requires d.columns != [] && StableFor(server, store, d, all, base) && PartOf(b, all, base)
    requires DecodedRows(server, d, b).Ok?
    requires i < |b.rows| && c < |d.columns| && DecodeRow(d.columns, b.rows[i].0, d.ieee).Ok?
    requires NeedsFetch(d.columns, b.rows[i].0, DecodeRow(d.columns, b.rows[i].0, d.ieee).value, c)
    ensures var out := DecodedRows(server, d, b).value;
            i < |out| && c < |out[i]| && out[i][c] == BytesCell(PayloadOf(store, TaskFor(d.columns, b.rows[i], 0, c)))
  {
    hide DecodeRow, DecodeBatch, Fetches, AllTasks, StableFor, PartOf;
    var k := PayloadOfCell(server, b.log, d.columns, b.rows, d.ieee, d.slotLength, d.lenient, i, c);
    StableTask(server, store, d, all, base, b, k);
    TaskKey(d.columns, b.rows[i], i, c);
  }

  lemma TaskKey(columns: seq<Column>, raw: RawRow, i: nat, c: nat)
    requires columns != [] && |raw.0| >= 25 && |raw.0| >= FirstOffset(columns) + 1 + columns[0].max
    ensures var t, u := TaskFor(columns, raw, i, c), TaskFor(columns, raw, 0, c);
            t.phys == u.phys && t.md5 == u.md5 && t.pk == u.pk && Ordinal(t) == Ordinal(u)
  {
  }

  lemma StableTask(server: Server, store: BlobStore, d: Decoding, all: seq<RawRow>, base: seq<Request>, b: Batch, k: nat)
    requires d.columns != [] && StableFor(server, store, d, all, base) && PartOf(b, all, base)
    requires k < |AllTasks(d.columns, b.rows, d.ieee)|
    ensures var tasks := AllTasks(d.columns, b.rows, d.ieee);
            Fetches(server, b.log, tasks, 0, d.slotLength)[k].stored == Some(PayloadOf(store, tasks[k]))
  {
    hide DecodeRow, Fetches, StableBlobs, AllTasks, HasBlobColumn, InSession, Named;
    var tasks := AllTasks(d.columns, b.rows, d.ieee);
    TasksNeedBlobs(d.columns, b.rows, d.ieee);
    TasksNamed(d.columns, b.rows, all, d.ieee);
    StableFetches(server, store, d, all, base, b.log, tasks, 0, d.slotLength);
    assert Fetches(server, b.log, tasks, 0, d.slotLength)[k - 0].stored == Some(PayloadOf(store, tasks[k]));
  }

  lemma UnfetchedCell(server: Server, d: Decoding, b: Batch, i: nat, c: nat)
    requires d.columns != [] && DecodedRows(server, d, b).Ok?
    requires i < |b.rows| && c < |d.columns| && DecodeRow(d.columns, b.rows[i].0, d.ieee).Ok?
    requires !NeedsFetch(d.columns, b.rows[i].0, DecodeRow(d.columns, b.rows[i].0, d.ieee).value, c)
    ensures var out := DecodedRows(server, d, b).value;
            var cells := DecodeRow(d.columns, b.rows[i].0, d.ieee).value;
            i < |out| && c < |out[i]| && out[i][c] == if IsBlobCell(d.columns, cells, c) then NullCell else cells[c]
  {
    hide DecodeRow, DecodeBatch, Fetches, NeedsFetch, AllTasks;
    var cells := DecodeRow(d.columns, b.rows[i].0, d.ieee).value;
    BatchLands(server, b.log, d.columns, b.rows, d.ieee, d.slotLength, d.lenient);
    NoTaskNoChange(d.columns, b.rows, d.ieee, i, c);
    var blanked := AllCells(d.columns, b.rows, d.ieee);
    assert blanked[i][c] == Blanked(d.columns, cells)[c];
  }

  ghost predicate AllPartOf(batches: seq<Batch>, all: seq<RawRow>, base: seq<Request>) {
    forall k :: 0 <= k < |batches| ==> PartOf(batches[k], all, base)
  }

  /** So over stable blobs the whole stream is: it does not depend on how the server cut it into blocks. */
  lemma {:induction false} StableStream(server: Server, store: BlobStore, d: Decoding, all: seq<RawRow>, base: seq<Request>,
                                        batches: seq<Batch>)
    requires d.columns != [] && StableFor(server, store, d, all, base) && AllPartOf(batches, all, base)
    requires AllDecoded(server, d, batches)
    ensures |Decoded(server, d, batches)| == |RawRows(batches)|
    ensures forall i :: 0 <= i < |RawRows(batches)| ==>
              Decoded(server, d, batches)[i] == FinalRow(d.columns, RawRows(batches)[i], d.ieee, store)
    decreases |batches|
  {
    hide DecodedRows, FinalRow, StableFor, PartOf;
    if batches != [] {
      StableStream(server, store, d, all, base, batches[..|batches| - 1]);
      StableBatch(server, store, d, all, base, batches[|batches| - 1]);
    }
  }

  // ----- when decoding completes -----

  ghost predicate FlushesAnswered(server: Server, base: seq<Request>) {
    forall log: seq<Request> :: InSession(base, log) ==> ReplyTo(server, log, FreeAllBlobs).Body?
  }

  /** The request asks for a blob of one of these rows, in a slot long enough for its key. */
  ghost predicate Asks(d: Decoding, rows: seq<RawRow>, req: Request)
    requires d.columns != []
  {
    && req.OpenBlob? && GoodLength(d.columns[0].max, |req.slot|)
    && exists task: BlobTask :: Named(d.columns, rows, d.ieee, task)
         && req == OpenBlob(Ordinal(task), req.slot) && Blob.Slot(task.phys, task.md5, task.pk, |req.slot|) == Ok(req.slot)
  }

  /** In the session releases get a reply, and requests for blobs of the result a payload and a slot that is long enough again. */
  ghost predicate BlobsAnswered(server: Server, d: Decoding, all: seq<RawRow>, base: seq<Request>)
    requires d.columns != []
  {
    forall log: seq<Request>, req: Request {:trigger ReplyTo(server, log, req)} :: InSession(base, log) ==>
      var reply := ReplyTo(server, log, req);
      && (req.FreeBlob? ==> reply.Body?)
      && (Asks(d, all, req) ==>
            && reply.Body? && Blob.ParseReply(reply.body).Ok?
            && GoodLength(d.columns[0].max, |Blob.ParseReply(reply.body).value.slotEcho|))
  }

  /**
   * What it takes to decode the result in this session: flushes that get a reply, if there are blobs to
   * fetch; and unless decoding is lenient also rows that decode and blob requests that are answered.
   */
  ghost predicate Decodable(server: Server, d: Decoding, all: seq<RawRow>, base: seq<Request>) {
    && d.columns != []
    && (HasBlobColumn(d.columns) ==> FlushesAnswered(server, base))
    && (d.lenient
        || (AllDecode(d.columns, all, d.ieee)
            && (HasBlobColumn(d.columns) ==> BlobsAnswered(server, d, all, base) && GoodLength(d.columns[0].max, d.slotLength))))
  }

  lemma FetchAnswered(server: Server, d: Decoding, all: seq<RawRow>, base: seq<Request>, log: seq<Request>, task: BlobTask, length: nat)
    requires d.columns != [] && BlobsAnswered(server, d, all, base) && InSession(base, log)
    requires Named(d.columns, all, d.ieee, task) && GoodLength(d.columns[0].max, length)
    ensures var f := FetchTask(server, log, task, length); !f.failed && GoodLength(d.columns[0].max, f.slotLength)
  {
    hide BlobsAnswered, Open, InSession, Named;
    OpenAnswered(server, d, all, base, log, task, length);
    var (log1, first) := Open(server, log, task, length);
    var echoed := |first.value.slotEcho|;
    OpenAnswered(server, d, all, base, log1, task, echoed);
    var (log2, outcome) := if echoed != length then Open(server, log1, task, echoed) else (log1, first);
    ReleaseAnswered(server, d, all, base, log2, FreeBlob(Ordinal(task), outcome.value.slotEcho));
  }

  lemma OpenAnswered(server: Server, d: Decoding, all: seq<RawRow>, base: seq<Request>, log: seq<Request>, task: BlobTask, length: nat)
    requires d.columns != [] && BlobsAnswered(server, d, all, base) && InSession(base, log)
    requires Named(d.columns, all, d.ieee, task) && GoodLength(d.columns[0].max, length)
    ensures var (log', outcome) := Open(server, log, task, length);
            && outcome.Some? && GoodLength(d.columns[0].max, |outcome.value.slotEcho|) && InSession(base, log')
  {
    hide Blob.Slot, Blob.ParseReply, InSession, Named;
    NamedFits(d.columns, all, d.ieee, task);
    var slot := Blob.Slot(task.phys, task.md5, task.pk, length);
    SlotHasLength(task, length);
    SlotFits(task, length);
    var req := OpenBlob(Ordinal(task), slot.value);
    assert Asks(d, all, req);
    var reply := ReplyTo(server, log, req);
    assert reply == server(log + [req]);
    assert OnlyBlobs([req]);
    BlobsKeepSession(base, log, [req]);
  }

  lemma SlotFits(task: BlobTask, length: nat)
    requires Blob.SlotLength(task.pk) <= length
    ensures Blob.Slot(task.phys, task.md5, task.pk, length).Ok?
  {
  }

  lemma ReleaseAnswered(server: Server, d: Decoding, all: seq<RawRow>, base: seq<Request>, log: seq<Request>, req: Request)
    requires d.columns != [] && BlobsAnswered(server, d, all, base) && InSession(base, log) && req.FreeBlob?
    ensures server(log + [req]).Body?
  {
    assert ReplyTo(server, log, req).Body?;
  }

  /** The fetch loop ends with rows: leniently whatever happens to the fetches, strictly if they are answered. */
  lemma {:induction false} ResolveCompletes(server: Server, d: Decoding, all: seq<RawRow>, base: seq<Request>, log: seq<Request>,
                                            tasks: seq<BlobTask>, i: nat, length: nat, decoded: seq<Cells>)
    requires d.columns != [] && i <= |tasks| && InRange(tasks, decoded) && AllNamed(d.columns, all, d.ieee, tasks)
    requires InSession(base, log) && FlushesAnswered(server, base)
    requires d.lenient || (BlobsAnswered(server, d, all, base) && GoodLength(d.columns[0].max, length))
    ensures Resolve(server, log, tasks, i, length, decoded, d.lenient).1.Ok?
    decreases |tasks| - i
  {
    hide FetchTask, BlobsAnswered, InSession, Named;
    if i < |tasks| {
      var flush := i > 0 && i % FLUSH_EVERY == 0;
      var log' := if flush then log + [FreeAllBlobs] else log;
      FlushKeepsSession(base, log);
      assert ReplyTo(server, log, FreeAllBlobs).Body?;
      var f := FetchTask(server, log', tasks[i], length);
      NamedFits(d.columns, all, d.ieee, tasks[i]);
      FetchKeepsSession(server, base, log', tasks[i], length);
      if !d.lenient {
        FetchAnswered(server, d, all, base, log', tasks[i], length);
      }
      ResolveCompletes(server, d, all, base, f.log, tasks, i + 1, f.slotLength, Store(decoded, tasks[i], f.stored));
    }
  }

  /** So every block of the result decodes, whatever the session did before. */
  lemma BatchDecodes(server: Server, d: Decoding, all: seq<RawRow>, base: seq<Request>, b: Batch)
    requires Decodable(server, d, all, base) && PartOf(b, all, base)
    ensures DecodedRows(server, d, b).Ok?
  {
    hide DecodeRow, Resolve, FlushesAnswered, BlobsAnswered, HasBlobColumn, Addresses, AllTasks, InSession, Named;
    var tasks, cells := AllTasks(d.columns, b.rows, d.ieee), AllCells(d.columns, b.rows, d.ieee);
    TasksInRange(d.columns, b.rows, d.ieee);
    TasksNamed(d.columns, b.rows, all, d.ieee);
    TasksNeedBlobs(d.columns, b.rows, d.ieee);
    assert !d.lenient ==> AllDecode(d.columns, b.rows, d.ieee) by {
      forall i | 0 <= i < |b.rows| && AllDecode(d.columns, all, d.ieee)
        ensures DecodeRow(d.columns, b.rows[i].0, d.ieee).Ok?
      {
        assert b.rows[i] in all;
      }
    }
    if HasBlobColumn(d.columns) {
      ResolveCompletes(server, d, all, base, b.log, tasks, 0, d.slotLength, cells);
    } else {
      NothingLeft(server, b.log, tasks, 0, d.slotLength, cells, d.lenient);
    }
  }

  /** A piece of the result that starts where others end. */
  lemma NextPart(before: seq<RawRow>, b: Batch, all: seq<RawRow>, base: seq<Request>)
    requires InSession(base, b.log) && before + b.rows <= all
    ensures PartOf(b, all, base)
  {
    hide InSession;
    forall raw | raw in b.rows
      ensures raw in all
    {
      var i :| 0 <= i < |b.rows| && b.rows[i] == raw;
      assert all[|before| + i] == (before + b.rows)[|before| + i] == raw;
    }
  }
}
