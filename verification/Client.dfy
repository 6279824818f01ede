/** Decoding a batch of rows, with blob columns fetched over the live transport. */
module Client {
  import opened Wrappers
  import opened Bytes
  import opened Schema
  import opened Row
  import opened Transports
  import Blob

  datatype ClientError = BadRow(row: nat) | BlobFetchFailed | TransportFailed

  /** A row with its bookmark, empty if it has none. */
  type RawRow = (Buffer, Buffer)

  type Cells = seq<Cell>

  const FLUSH_EVERY: nat := 50

  predicate IsBlobShaped(ft: FieldType) {
    ft.Blob? || ft.Memo? || ft.Graphic?
  }

  // ----- rows -----

  function FirstOffset(columns: seq<Column>): nat
    requires columns != []
  {
    columns[0].rowOffset
  }

  function EndOffset(columns: seq<Column>): nat
    requires columns != []
  {
    columns[|columns| - 1].rowOffset + 1 + columns[|columns| - 1].max as int
  }

  /** The column data of a row, behind its record header; nothing if the last column precedes the first. */
  function ColumnData(columns: seq<Column>, row: Buffer): Buffer
    requires columns != [] && |row| >= EndOffset(columns)
  {
    if FirstOffset(columns) <= EndOffset(columns) then row[FirstOffset(columns)..EndOffset(columns)] else []
  }

  /** One row's cells, if it is long enough and decodes. */
  function DecodeRow(columns: seq<Column>, row: Buffer, ieee: Ieee): (r: Result<Cells, RowError>)
    requires columns != []
    ensures r.Ok? ==> |r.value| == |columns| && |row| >= EndOffset(columns)
  {
    if |row| < EndOffset(columns) then Err(Truncated) else DecodeRecord(ColumnData(columns, row), columns, ieee)
  }

  /**
   * Where the cells are: behind a record header of as many bytes as the first column's offset, whatever the
   * header and whatever follows the last column.
   */
  lemma {:induction false} CellsBehindHeader(columns: seq<Column>, cells: Cells, header: Buffer, tail: Buffer, doubles: Doubles)
    requires columns != [] && Contiguous(columns, columns[0].rowOffset) && |header| == columns[0].rowOffset
    requires |cells| == |columns| && forall i :: 0 <= i < |columns| ==> Encodable(columns[i], cells[i], doubles)
    ensures DecodeRow(columns, header + EncodeRow(columns, cells, doubles) + tail, doubles.ieee) == Ok(cells)
  {
    hide EncodeRow, DecodeRecord, Encodable;
    var encoded := EncodeRow(columns, cells, doubles);
    var row := header + encoded + tail;
    RecordSizeIsEnd(columns, columns[0].rowOffset, cells, doubles);
    RowRoundTrip(columns, cells, doubles);
    assert row[|header|..|header| + |encoded|] == encoded;
  }

  /** A row that ends before the last of its cells does is truncated. */
  lemma {:induction false} ShortRowIsTruncated(columns: seq<Column>, cells: Cells, row: Buffer, doubles: Doubles)
    requires columns != [] && Contiguous(columns, columns[0].rowOffset)
    requires |cells| == |columns| && forall i :: 0 <= i < |columns| ==> Encodable(columns[i], cells[i], doubles)
    requires |row| < columns[0].rowOffset + |EncodeRow(columns, cells, doubles)|
    ensures DecodeRow(columns, row, doubles.ieee) == Err(Truncated)
  {
    RecordSizeIsEnd(columns, columns[0].rowOffset, cells, doubles);
  }

  /** A deferred fetch: which cell it fills and what names the record. */
  datatype BlobTask = BlobTask(row: nat, col: nat, md5: Buffer, pk: Buffer, phys: nat)

  function TaskFor(columns: seq<Column>, raw: RawRow, row: nat, col: nat): BlobTask
    requires columns != [] && |raw.0| >= 25 && |raw.0| >= FirstOffset(columns) + 1 + columns[0].max
  {
    BlobTask(row, col, raw.0[9..25], raw.0[FirstOffset(columns) + 1..FirstOffset(columns) + 1 + columns[0].max],
             Blob.PhysicalRecordNumber(raw.1))
  }

  predicate IsBlobCell(columns: seq<Column>, cells: Cells, col: nat)
    requires col < |columns| == |cells|
  {
    IsBlobShaped(columns[col].fieldType) && cells[col].HandleCell?
  }

  /** A handle that is not all zero, in a row long enough to name its record. */
  predicate NeedsFetch(columns: seq<Column>, row: Buffer, cells: Cells, col: nat)
    requires columns != [] && col < |columns| == |cells|
  {
    IsBlobCell(columns, cells, col) && (exists k :: 0 <= k < |cells[col].handle| && cells[col].handle[k] != 0)
    && |row| >= 25 && |row| >= FirstOffset(columns) + 1 + columns[0].max
  }

  /** The row with every handle of a blob column replaced by NULL until its payload arrives. */
  function Blanked(columns: seq<Column>, cells: Cells): (r: Cells)
    requires |columns| == |cells|
    ensures |r| == |cells|
  {
    seq(|cells|, i requires 0 <= i < |cells| => if IsBlobCell(columns, cells, i) then NullCell else cells[i])
  }

  /** The fetches of one row, for its columns from col on. */
  function RowTasks(columns: seq<Column>, raw: RawRow, cells: Cells, row: nat, col: nat): seq<BlobTask>
    requires columns != [] && |columns| == |cells| && col <= |columns|
    decreases |columns| - col
  {
    if col == |columns| then []
    else
      (if NeedsFetch(columns, raw.0, cells, col) then [TaskFor(columns, raw, row, col)] else [])
      + RowTasks(columns, raw, cells, row, col + 1)
  }

  /** The cells a row contributes: none at all if it is malformed. */
  function RowCells(columns: seq<Column>, raw: RawRow, ieee: Ieee): Cells
    requires columns != []
  {
    var cells := DecodeRow(columns, raw.0, ieee);
    if cells.Err? then [] else Blanked(columns, cells.value)
  }

  function TasksOf(columns: seq<Column>, raw: RawRow, row: nat, ieee: Ieee): seq<BlobTask>
    requires columns != []
  {
    var cells := DecodeRow(columns, raw.0, ieee);
    if cells.Err? then [] else RowTasks(columns, raw, cells.value, row, 0)
  }

  function AllCells(columns: seq<Column>, rows: seq<RawRow>, ieee: Ieee): (r: seq<Cells>)
    requires columns != []
    ensures |r| == |rows| && forall i :: 0 <= i < |rows| ==> r[i] == RowCells(columns, rows[i], ieee)
  {
    seq(|rows|, i requires 0 <= i < |rows| => RowCells(columns, rows[i], ieee))
  }

  function AllTasks(columns: seq<Column>, rows: seq<RawRow>, ieee: Ieee): seq<BlobTask>
    requires columns != []
  {
    if rows == [] then []
    else AllTasks(columns, rows[..|rows| - 1], ieee) + TasksOf(columns, rows[|rows| - 1], |rows| - 1, ieee)
  }

  predicate AllDecode(columns: seq<Column>, rows: seq<RawRow>, ieee: Ieee)
    requires columns != []
  {
    forall i :: 0 <= i < |rows| ==> DecodeRow(columns, rows[i].0, ieee).Ok?
  }

  // ----- fetches -----

  /** The log after one task, the slot length from then on, the payload it stored, and whether it threw. */
  datatype Fetch = Fetch(log: seq<Request>, slotLength: nat, stored: Option<Buffer>, failed: bool)

  function Ordinal(task: BlobTask): nat {
    (task.col + 1) % U16_LIMIT
  }

  /** One OpenBlob: build the slot, send it, parse the reply. */
  function Open(server: Server, log: seq<Request>, task: BlobTask, length: nat): (seq<Request>, Option<Blob.Outcome>) {
    var slot := Blob.Slot(task.phys, task.md5, task.pk, length);
    if slot.Err? then (log, None)
    else
      var log' := log + [OpenBlob(Ordinal(task), slot.value)];
      var reply := server(log');
      if reply.Lost? || Blob.ParseReply(reply.body).Err? then (log', None)
      else (log', Some(Blob.ParseReply(reply.body).value))
  }

  /** Open, once more with the echoed slot length if it differs, store, release. */
  function FetchTask(server: Server, log: seq<Request>, task: BlobTask, length: nat): Fetch {
    var (log1, first) := Open(server, log, task, length);
    if first.None? then Fetch(log1, length, None, true)
    else
      var echoed := |first.value.slotEcho|;
      var (log2, outcome) := if echoed != length then Open(server, log1, task, echoed) else (log1, first);
      if outcome.None? then Fetch(log2, echoed, None, true)
      else
        var log3 := log2 + [FreeBlob(Ordinal(task), outcome.value.slotEcho)];
        Fetch(log3, echoed, Some(outcome.value.payload), server(log3).Lost?)
  }

  function Store(decoded: seq<Cells>, task: BlobTask, stored: Option<Buffer>): (r: seq<Cells>)
    requires task.row < |decoded| && task.col < |decoded[task.row]|
    ensures |r| == |decoded| && forall i :: 0 <= i < |r| ==> |r[i]| == |decoded[i]|
  {
    if stored.None? then decoded else decoded[task.row := decoded[task.row][task.col := BytesCell(stored.value)]]
  }

  predicate InRange(tasks: seq<BlobTask>, decoded: seq<Cells>) {
    forall k :: 0 <= k < |tasks| ==> tasks[k].row < |decoded| && tasks[k].col < |decoded[tasks[k].row]|
  }

  /** The fetch loop from the i-th task on. A failed fetch throws unless decoding is lenient; a failed flush always does. */
  function Resolve(server: Server, log: seq<Request>, tasks: seq<BlobTask>, i: nat, length: nat, decoded: seq<Cells>,
                   lenient: bool): (seq<Request>, Result<seq<Cells>, ClientError>)
    requires i <= |tasks| && InRange(tasks, decoded)
    decreases |tasks| - i
  {
    if i == |tasks| then (log, Ok(decoded))
    else
      var flush := i > 0 && i % FLUSH_EVERY == 0;
      var log' := if flush then log + [FreeAllBlobs] else log;
      if flush && server(log').Lost? then (log', Err(TransportFailed))
      else
        var f := FetchTask(server, log', tasks[i], length);
        if f.failed && !lenient then (f.log, Err(BlobFetchFailed))
        else Resolve(server, f.log, tasks, i + 1, f.slotLength, Store(decoded, tasks[i], f.stored), lenient)
  }

  /** The first row that does not decode. */
  function FirstBad(columns: seq<Column>, rows: seq<RawRow>, ieee: Ieee): nat
    requires columns != []
  {
    if rows == [] || DecodeRow(columns, rows[0].0, ieee).Err? then 0 else 1 + FirstBad(columns, rows[1..], ieee)
  }

  /** decode_batch_with_blobs as a function: the session's log after it, and the decoded rows or the exception. */
  function DecodeBatch(server: Server, log: seq<Request>, columns: seq<Column>, rows: seq<RawRow>, ieee: Ieee,
                       slotLength: nat, lenient: bool): (seq<Request>, Result<seq<Cells>, ClientError>)
  {
    if columns == [] then (log, Ok([]))
    else if !lenient && !AllDecode(columns, rows, ieee) then (log, Err(BadRow(FirstBad(columns, rows, ieee))))
    else
      TasksInRange(columns, rows, ieee);
      Resolve(server, log, AllTasks(columns, rows, ieee), 0, slotLength, AllCells(columns, rows, ieee), lenient)
  }

  // ----- tasks address distinct cells in range -----

  predicate Before(a: BlobTask, b: BlobTask) {
    a.row < b.row || (a.row == b.row && a.col < b.col)
  }

  predicate Ascending(ts: seq<BlobTask>) {
    forall j, k :: 0 <= j < k < |ts| ==> Before(ts[j], ts[k])
  }

  /** The task addresses a blob handle of a row that decoded, and takes its key and digest from that row. */
  predicate Addresses(columns: seq<Column>, rows: seq<RawRow>, ieee: Ieee, t: BlobTask)
    requires columns != []
  {
    && t.row < |rows| && t.col < |columns|
    && DecodeRow(columns, rows[t.row].0, ieee).Ok?
    && NeedsFetch(columns, rows[t.row].0, DecodeRow(columns, rows[t.row].0, ieee).value, t.col)
    && t == TaskFor(columns, rows[t.row], t.row, t.col)
  }

  lemma AscendingConcat(a: seq<BlobTask>, b: seq<BlobTask>)
    requires Ascending(a) && Ascending(b)
    requires forall j, k :: 0 <= j < |a| && 0 <= k < |b| ==> Before(a[j], b[k])
    ensures Ascending(a + b)
  {
  }

  predicate FromRow(columns: seq<Column>, raw: RawRow, cells: Cells, row: nat, col: nat, t: BlobTask)
    requires columns != [] && |columns| == |cells|
  {
    && col <= t.col < |columns| && NeedsFetch(columns, raw.0, cells, t.col) && t == TaskFor(columns, raw, row, t.col)
  }

  /** The tasks of a row: one for each column that needs one, in column order. */
  lemma {:induction false} RowTasksAscend(columns: seq<Column>, raw: RawRow, cells: Cells, row: nat, col: nat)
    requires columns != [] && |columns| == |cells| && col <= |columns|
    ensures var ts := RowTasks(columns, raw, cells, row, col);
            && Ascending(ts) && (forall k :: 0 <= k < |ts| ==> FromRow(columns, raw, cells, row, col, ts[k]))
            && forall c :: col <= c < |columns| && NeedsFetch(columns, raw.0, cells, c) ==> TaskFor(columns, raw, row, c) in ts
    decreases |columns| - col
  {
    if col < |columns| {
      RowTasksAscend(columns, raw, cells, row, col + 1);
      var rest := RowTasks(columns, raw, cells, row, col + 1);
      var head := if NeedsFetch(columns, raw.0, cells, col) then [TaskFor(columns, raw, row, col)] else [];
      assert RowTasks(columns, raw, cells, row, col) == head + rest;
      AscendingConcat(head, rest);
    }
  }

  lemma AddressesPrefix(columns: seq<Column>, rows: seq<RawRow>, n: nat, ieee: Ieee, t: BlobTask)
    requires columns != [] && n <= |rows| && Addresses(columns, rows[..n], ieee, t)
    ensures Addresses(columns, rows, ieee, t)
  {
    hide NeedsFetch, DecodeRow;
    assert rows[..n][t.row] == rows[t.row];
  }

  /**
   * Tasks ascend strictly by row and column, so no two address the same cell; each addresses a handle
   * in a blob column of a row that decoded.
   */
  lemma {:induction false} TasksAscend(columns: seq<Column>, rows: seq<RawRow>, ieee: Ieee)
    requires columns != []
    ensures Ascending(AllTasks(columns, rows, ieee))
    ensures forall t :: t in AllTasks(columns, rows, ieee) ==> Addresses(columns, rows, ieee, t)
    decreases |rows|
  {
    hide DecodeRow, NeedsFetch, Addresses;
    if rows != [] {
      var n := |rows| - 1;
      TasksAscend(columns, rows[..n], ieee);
      var a, b := AllTasks(columns, rows[..n], ieee), TasksOf(columns, rows[n], n, ieee);
      forall t | t in a
        ensures Addresses(columns, rows, ieee, t) && t.row < n
      {
        AddressesPrefix(columns, rows, n, ieee, t);
        RowOf(columns, rows[..n], ieee, t);
      }
      LastTasks(columns, rows, ieee);
      AscendingConcat(a, b);
    }
  }

  lemma RowOf(columns: seq<Column>, rows: seq<RawRow>, ieee: Ieee, t: BlobTask)
    requires columns != [] && Addresses(columns, rows, ieee, t)
    ensures t.row < |rows|
  {
    hide DecodeRow, NeedsFetch;
  }

  lemma LastTasks(columns: seq<Column>, rows: seq<RawRow>, ieee: Ieee)
    requires columns != [] && rows != []
    ensures var ts := TasksOf(columns, rows[|rows| - 1], |rows| - 1, ieee);
            Ascending(ts) && forall t :: t in ts ==> Addresses(columns, rows, ieee, t) && t.row == |rows| - 1
  {
    hide DecodeRow, NeedsFetch;
    var n := |rows| - 1;
    var cells := DecodeRow(columns, rows[n].0, ieee);
    if cells.Ok? {
      RowTasksAscend(columns, rows[n], cells.value, n, 0);
    }
  }

  lemma TasksInRange(columns: seq<Column>, rows: seq<RawRow>, ieee: Ieee)
    requires columns != []
    ensures InRange(AllTasks(columns, rows, ieee), AllCells(columns, rows, ieee))
  {
    hide DecodeRow, Blanked, NeedsFetch;
    TasksAscend(columns, rows, ieee);
    var tasks, cells := AllTasks(columns, rows, ieee), AllCells(columns, rows, ieee);
    forall k | 0 <= k < |tasks|
      ensures tasks[k].row < |cells| && tasks[k].col < |cells[tasks[k].row]|
    {
      assert Addresses(columns, rows, ieee, tasks[k]);
    }
  }

  // ----- the method -----

  method AllZero(handle: Buffer) returns (zero: bool)
    ensures zero <==> forall k :: 0 <= k < |handle| ==> handle[k] == 0
  {
    for i := 0 to |handle|
      invariant forall k :: 0 <= k < i ==> handle[k] == 0
    {
      if handle[i] != 0 { return false; }
    }
    return true;
  }

  lemma {:induction false} RowTasksFront(columns: seq<Column>, raw: RawRow, cells: Cells, row: nat, col: nat, done: seq<BlobTask>)
    requires columns != [] && |columns| == |cells| && col < |columns|
    ensures done + RowTasks(columns, raw, cells, row, col)
         == (if NeedsFetch(columns, raw.0, cells, col) then done + [TaskFor(columns, raw, row, col)] else done)
            + RowTasks(columns, raw, cells, row, col + 1)
  {
    hide NeedsFetch, TaskFor;
  }

  /** The columns of one decoded row: note what is to be fetched, blank what cannot be emitted. */
  method CollectTasks(columns: seq<Column>, raw: RawRow, decodedRow: Cells, row: nat, tasks: seq<BlobTask>)
    returns (cells: Cells, blobTasks: seq<BlobTask>)
    requires columns != [] && |columns| == |decodedRow|
    ensures cells == Blanked(columns, decodedRow)
    ensures blobTasks == tasks + RowTasks(columns, raw, decodedRow, row, 0)
  {
    cells, blobTasks := decodedRow, tasks;
    for col := 0 to |columns|
      invariant |cells| == |columns|
      invariant forall i :: 0 <= i < col ==> cells[i] == Blanked(columns, decodedRow)[i]
      invariant forall i :: col <= i < |cells| ==> cells[i] == decodedRow[i]
      invariant blobTasks + RowTasks(columns, raw, decodedRow, row, col) == tasks + RowTasks(columns, raw, decodedRow, row, 0)
    {
      RowTasksFront(columns, raw, decodedRow, row, col, blobTasks);
      if IsBlobShaped(columns[col].fieldType) && cells[col].HandleCell? {
        var allZero := AllZero(cells[col].handle);
        if !allZero && |raw.0| >= 25 && |raw.0| >= FirstOffset(columns) + 1 + columns[0].max {
          blobTasks := blobTasks + [TaskFor(columns, raw, row, col)];
        }
        cells := cells[col := NullCell];
      }
    }
  }

  lemma {:induction false} FirstBadIs(columns: seq<Column>, rows: seq<RawRow>, ieee: Ieee, i: nat)
    requires columns != [] && i < |rows| && AllDecode(columns, rows[..i], ieee) && DecodeRow(columns, rows[i].0, ieee).Err?
    ensures FirstBad(columns, rows, ieee) == i && !AllDecode(columns, rows, ieee)
    decreases i
  {
    hide DecodeRow;
    if i > 0 {
      assert rows[..i][0] == rows[0];
      assert rows[1..][..i - 1] == rows[..i][1..];
      FirstBadIs(columns, rows[1..], ieee, i - 1);
    }
  }

  lemma OneMoreRow(columns: seq<Column>, rows: seq<RawRow>, ieee: Ieee, i: nat)
    requires columns != [] && i < |rows|
    ensures AllCells(columns, rows[..i + 1], ieee) == AllCells(columns, rows[..i], ieee) + [RowCells(columns, rows[i], ieee)]
    ensures AllTasks(columns, rows[..i + 1], ieee) == AllTasks(columns, rows[..i], ieee) + TasksOf(columns, rows[i], i, ieee)
    ensures AllDecode(columns, rows[..i + 1], ieee) <==> AllDecode(columns, rows[..i], ieee) && DecodeRow(columns, rows[i].0, ieee).Ok?
  {
    hide RowCells, TasksOf, DecodeRow;
    assert rows[..i + 1][..i] == rows[..i];
    assert rows[..i + 1][i] == rows[i];
    assert forall k :: 0 <= k < i ==> rows[..i + 1][k] == rows[..i][k];
  }

  method DecodeRowOf(columns: seq<Column>, row: Buffer, ieee: Ieee) returns (r: Result<Cells, RowError>)
    requires columns != []
    ensures r == DecodeRow(columns, row, ieee)
  {
    hide DecodeRecord;
    if |row| < EndOffset(columns) { return Err(Truncated); }
    r := DecodeRecordOf(ColumnData(columns, row), columns, ieee);
  }

  /** build_slot and fetch_blob. */
  method OpenOne(t: Transport, task: BlobTask, length: nat) returns (r: Option<Blob.Outcome>)
    requires |task.md5| == Blob.MD5_LEN
    modifies t
    ensures (t.log, r) == Open(t.server, old(t.log), task, length)
  {
    hide Blob.Slot, Blob.ParseReply;
    var slot := Blob.BuildSlot(task.phys, task.md5, task.pk, length);
    if slot.Err? { return None; }
    var reply := t.SendRecv(OpenBlob(Ordinal(task), slot.value));
    if reply.Lost? { return None; }
    var outcome := Blob.ParseOpenBlobResponse(reply.body);
    if outcome.Err? { return None; }
    return Some(outcome.value);
  }

  /** One task of the fetch loop, inside its try block. */
  method FetchOne(t: Transport, task: BlobTask, slotLength: nat, decoded: seq<Cells>)
    returns (cells: seq<Cells>, effective: nat, failed: bool)
    requires |task.md5| == Blob.MD5_LEN && task.row < |decoded| && task.col < |decoded[task.row]|
    modifies t
    ensures var f := FetchTask(t.server, old(t.log), task, slotLength);
            t.log == f.log && effective == f.slotLength && failed == f.failed && cells == Store(decoded, task, f.stored)
  {
    hide Open;
    cells, effective := decoded, slotLength;
    var outcome := OpenOne(t, task, effective);
    if outcome.None? { return cells, effective, true; }
    if |outcome.value.slotEcho| != effective {
      effective := |outcome.value.slotEcho|;
      outcome := OpenOne(t, task, effective);
      if outcome.None? { return cells, effective, true; }
    }
    cells := cells[task.row := cells[task.row][task.col := BytesCell(outcome.value.payload)]];
    var reply := t.SendRecv(FreeBlob(Ordinal(task), outcome.value.slotEcho));
    return cells, effective, reply.Lost?;
  }

  /** The fetch loop; every fifty tasks the server is told to drop all open blobs. */
  method ResolveBlobs(t: Transport, tasks: seq<BlobTask>, slotLength: nat, blanked: seq<Cells>, lenient: bool)
    returns (r: Result<seq<Cells>, ClientError>)
    requires InRange(tasks, blanked) && forall k :: 0 <= k < |tasks| ==> |tasks[k].md5| == Blob.MD5_LEN
    modifies t
    ensures (t.log, r) == Resolve(t.server, old(t.log), tasks, 0, slotLength, blanked, lenient)
  {
    hide FetchTask;
    var decoded, effective := blanked, slotLength;
    for i := 0 to |tasks|
      invariant InRange(tasks, decoded)
      invariant Resolve(t.server, old(t.log), tasks, 0, slotLength, blanked, lenient)
             == Resolve(t.server, t.log, tasks, i, effective, decoded, lenient)
    {
      if i > 0 && i % FLUSH_EVERY == 0 {
        var reply := t.SendRecv(FreeAllBlobs);
        if reply.Lost? { return Err(TransportFailed); }
      }
      var failed: bool;
      decoded, effective, failed := FetchOne(t, tasks[i], effective, decoded);
      if failed && !lenient { return Err(BlobFetchFailed); }
    }
    return Ok(decoded);
  }

  /** decode_batch_with_blobs. */
  method DecodeBatchWithBlobs(t: Transport, columns: seq<Column>, rows: seq<RawRow>, ieee: Ieee, slotLength: nat, lenient: bool)
    returns (r: Result<seq<Cells>, ClientError>)
    modifies t
    ensures (t.log, r) == DecodeBatch(t.server, old(t.log), columns, rows, ieee, slotLength, lenient)
  {
    hide DecodeRow, Blanked, Addresses, Resolve;
    if columns == [] { return Ok([]); }
    var decoded: seq<Cells>, tasks: seq<BlobTask> := [], [];
    for i := 0 to |rows|
      invariant t.log == old(t.log)
      invariant decoded == AllCells(columns, rows[..i], ieee) && tasks == AllTasks(columns, rows[..i], ieee)
      invariant lenient || AllDecode(columns, rows[..i], ieee)
    {
      OneMoreRow(columns, rows, ieee, i);
      var cells := DecodeRowOf(columns, rows[i].0, ieee);
      if cells.Err? {
        if !lenient {
          FirstBadIs(columns, rows, ieee, i);
          return Err(BadRow(i));
        }
        decoded := decoded + [[]];
        assert tasks == tasks + [];
      } else {
        var blanked: Cells;
        blanked, tasks := CollectTasks(columns, rows[i], cells.value, |decoded|, tasks);
        decoded := decoded + [blanked];
      }
    }
    assert rows[..|rows|] == rows;
    TasksInRange(columns, rows, ieee);
    DigestsFit(columns, rows, ieee);
    r := ResolveBlobs(t, tasks, slotLength, decoded, lenient);
  }

  lemma DigestsFit(columns: seq<Column>, rows: seq<RawRow>, ieee: Ieee)
    requires columns != []
    ensures var ts := AllTasks(columns, rows, ieee); forall k :: 0 <= k < |ts| ==> |ts[k].md5| == Blob.MD5_LEN
  {
    hide DecodeRow;
    TasksAscend(columns, rows, ieee);
    var ts := AllTasks(columns, rows, ieee);
    forall k | 0 <= k < |ts|
      ensures |ts[k].md5| == Blob.MD5_LEN
    {
      assert Addresses(columns, rows, ieee, ts[k]);
    }
  }
}
