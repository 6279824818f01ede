/** What decoding a batch promises: rows keep their place, payloads reach their cells, lenient agrees with strict. */
module BlobResolution {
  import opened Wrappers
  import opened Bytes
  import opened Schema
  import opened Row
  import opened Transports
  import opened Client
  import Blob

  // ----- requests -----

  /**
   * One task sends at most two OpenBlobs. The first slot has the current length; a second is sent only
   * when the server echoed another length, and its slot has exactly the echoed length. What is stored is
   * the payload of the last reply, and exactly then a FreeBlob of the slot it echoed follows. The fetch fails
   * if and only if nothing was stored or the release got no reply.
   */
  lemma FetchRequests(server: Server, log: seq<Request>, task: BlobTask, length: nat)
    returns (opens: seq<Request>, frees: seq<Request>)
    requires |task.md5| == Blob.MD5_LEN
    ensures FetchTask(server, log, task, length).log == log + opens + frees
    ensures |opens| <= 2 && forall k :: 0 <= k < |opens| ==> opens[k].OpenBlob? && opens[k].ordinal == Ordinal(task)
    ensures |opens| >= 1 ==> |opens[0].slot| == length
    ensures |opens| == 2 ==>
              var reply := server(log + [opens[0]]);
              && reply.Body? && Blob.ParseReply(reply.body).Ok?
              && var echoed := |Blob.ParseReply(reply.body).value.slotEcho|;
                 echoed != length && |opens[1].slot| == echoed == FetchTask(server, log, task, length).slotLength
    ensures if FetchTask(server, log, task, length).stored.None? then frees == []
            else |frees| == 1 && frees[0].FreeBlob? && frees[0].ordinal == Ordinal(task)
    ensures FetchTask(server, log, task, length).stored.Some? ==>
              var reply := server(log + opens);
              && opens != [] && reply.Body? && Blob.ParseReply(reply.body).Ok?
              && FetchTask(server, log, task, length).stored.value == Blob.ParseReply(reply.body).value.payload
              && frees[0].slot == Blob.ParseReply(reply.body).value.slotEcho
    ensures FetchTask(server, log, task, length).failed
            <==> FetchTask(server, log, task, length).stored.None? || server(log + opens + frees).Lost?
  {
    hide Blob.ParseReply, Blob.Slot;
    SlotHasLength(task, length);
    var (log1, first) := Open(server, log, task, length);
    opens := log1[|log|..];
    frees := [];
    if first.Some? {
      var echoed := |first.value.slotEcho|;
      SlotHasLength(task, echoed);
      var (log2, outcome) := if echoed != length then Open(server, log1, task, echoed) else (log1, first);
      opens := log2[|log|..];
      assert log + opens == log2;
      if outcome.Some? {
        frees := [FreeBlob(Ordinal(task), outcome.value.slotEcho)];
      }
    }
  }

  lemma SlotHasLength(task: BlobTask, length: nat)
    requires |task.md5| == Blob.MD5_LEN
    ensures var slot := Blob.Slot(task.phys, task.md5, task.pk, length);
            slot.Ok? ==> |slot.value| == length
  {
    hide LeBytes;
  }

  lemma FetchReadsNothing(server: Server, log: seq<Request>, task: BlobTask, length: nat) returns (sent: seq<Request>)
    requires |task.md5| == Blob.MD5_LEN
    ensures FetchTask(server, log, task, length).log == log + sent && OnlyBlobs(sent)
  {
    hide FetchTask;
    var opens, frees := FetchRequests(server, log, task, length);
    sent := opens + frees;
    assert log + opens + frees == log + sent;
  }

  /** Resolving blobs only ever adds requests that read no rows, so the cursor stays where it is. */
  lemma {:induction false} ResolveReadsNothing(server: Server, log: seq<Request>, tasks: seq<BlobTask>, i: nat, length: nat,
                                               decoded: seq<Cells>, lenient: bool)
    returns (sent: seq<Request>)
    requires i <= |tasks| && InRange(tasks, decoded)
    requires forall k :: 0 <= k < |tasks| ==> |tasks[k].md5| == Blob.MD5_LEN
    ensures Resolve(server, log, tasks, i, length, decoded, lenient).0 == log + sent && OnlyBlobs(sent)
    decreases |tasks| - i
  {
    hide FetchTask, OnlyBlobs, InRange, Store;
    sent := [];
    BlobsJoin(log, [], []);
    if i < |tasks| {
      var flush := if i > 0 && i % FLUSH_EVERY == 0 then [FreeAllBlobs] else [];
      var log' := if i > 0 && i % FLUSH_EVERY == 0 then log + [FreeAllBlobs] else log;
      assert log' == log + flush;
      FlushIsBlobRequest();
      sent := flush;
      if flush == [] || !server(log').Lost? {
        var fetched := FetchReadsNothing(server, log', tasks[i], length);
        var f := FetchTask(server, log', tasks[i], length);
        BlobsJoin(log, flush, fetched);
        sent := flush + fetched;
        if !f.failed || lenient {
          TaskInRange(tasks, i, decoded);
          StoreInRange(tasks, i, decoded, f.stored);
          var rest := ResolveReadsNothing(server, f.log, tasks, i + 1, f.slotLength, Store(decoded, tasks[i], f.stored), lenient);
          BlobsJoin(log, sent, rest);
          sent := sent + rest;
        }
      }
    }
  }

  /** What the k-th task sends: first a FreeAllBlobs if it is one of every fifty, then requests for its own blob only. */
  predicate ForTask(task: BlobTask, k: nat, sent: seq<Request>) {
    var due := k > 0 && k % 50 == 0;
    && (due ==> sent != [] && sent[0] == FreeAllBlobs)
    && forall r :: (if due then 1 else 0) <= r < |sent| ==> (sent[r].OpenBlob? || sent[r].FreeBlob?) && sent[r].ordinal == Ordinal(task)
  }

  function Laid(parts: seq<seq<Request>>): seq<Request> {
    if parts == [] then [] else parts[0] + Laid(parts[1..])
  }

  /** A fetch loop that completes sends its tasks' requests one task after the other, with a flush before every fiftieth. */
  lemma {:induction false} FlushesEveryFifty(server: Server, log: seq<Request>, tasks: seq<BlobTask>, i: nat, length: nat,
                                             decoded: seq<Cells>, lenient: bool)
    returns (parts: seq<seq<Request>>)
    requires i <= |tasks| && InRange(tasks, decoded)
    requires forall k :: 0 <= k < |tasks| ==> |tasks[k].md5| == Blob.MD5_LEN
    requires Resolve(server, log, tasks, i, length, decoded, lenient).1.Ok?
    ensures Resolve(server, log, tasks, i, length, decoded, lenient).0 == log + Laid(parts)
    ensures |parts| == |tasks| - i && forall k :: i <= k < |tasks| ==> ForTask(tasks[k], k, parts[k - i])
    decreases |tasks| - i
  {
    hide FetchTask, Resolve, InRange, Store, ForTask, Laid;
    if i == |tasks| {
      NothingSent(server, log, tasks, i, length, decoded, lenient);
      return [];
    }
    ResolveStep(server, log, tasks, i, length, decoded, lenient);
    TaskInRange(tasks, i, decoded);
    var log' := if i > 0 && i % FLUSH_EVERY == 0 then log + [FreeAllBlobs] else log;
    var f := FetchTask(server, log', tasks[i], length);
    var part := TaskSends(server, log, tasks[i], i, length);
    var rest := FlushesEveryFifty(server, f.log, tasks, i + 1, f.slotLength, Store(decoded, tasks[i], f.stored), lenient);
    parts := [part] + rest;
    LaidFirst(log, part, rest);
    forall k | i <= k < |tasks|
      ensures ForTask(tasks[k], k, parts[k - i])
    {
      if k > i {
        assert parts[k - i] == rest[k - (i + 1)];
      }
    }
  }

  lemma NothingSent(server: Server, log: seq<Request>, tasks: seq<BlobTask>, i: nat, length: nat, decoded: seq<Cells>, lenient: bool)
    requires i == |tasks| && InRange(tasks, decoded)
    ensures Resolve(server, log, tasks, i, length, decoded, lenient).0 == log + Laid([])
  {
    assert log + [] == log;
  }

  lemma LaidFirst(log: seq<Request>, part: seq<Request>, rest: seq<seq<Request>>)
    ensures log + Laid([part] + rest) == log + part + Laid(rest)
  {
    assert ([part] + rest)[1..] == rest;
    assert log + (part + Laid(rest)) == log + part + Laid(rest);
  }

  lemma TaskSends(server: Server, log: seq<Request>, task: BlobTask, k: nat, length: nat) returns (sent: seq<Request>)
    requires |task.md5| == Blob.MD5_LEN
    ensures var log' := if k > 0 && k % FLUSH_EVERY == 0 then log + [FreeAllBlobs] else log;
            FetchTask(server, log', task, length).log == log + sent
    ensures ForTask(task, k, sent)
  {
    hide FetchTask;
    var flush := if k > 0 && k % FLUSH_EVERY == 0 then [FreeAllBlobs] else [];
    var log' := if k > 0 && k % FLUSH_EVERY == 0 then log + [FreeAllBlobs] else log;
    var opens, frees := FetchRequests(server, log', task, length);
    sent := flush + opens + frees;
    assert log' + opens + frees == log + sent;
  }

  lemma BlobsJoin(log: seq<Request>, a: seq<Request>, b: seq<Request>)
    ensures log + a + b == log + (a + b) && log + [] == log
    ensures OnlyBlobs(a) && OnlyBlobs(b) ==> OnlyBlobs(a + b)
    ensures OnlyBlobs([])
  {
  }

  lemma FlushIsBlobRequest()
    ensures OnlyBlobs([FreeAllBlobs]) && OnlyBlobs([])
  {
  }

  lemma StoreInRange(tasks: seq<BlobTask>, i: nat, decoded: seq<Cells>, stored: Option<Buffer>)
    requires i < |tasks| && InRange(tasks, decoded) && tasks[i].row < |decoded| && tasks[i].col < |decoded[tasks[i].row]|
    ensures InRange(tasks, Store(decoded, tasks[i], stored))
  {
  }

  /** Decoding a batch reads no rows: only blob requests are sent. */
  lemma DecodeReadsNothing(server: Server, log: seq<Request>, columns: seq<Column>, rows: seq<RawRow>, ieee: Ieee, slotLength: nat,
                           lenient: bool)
    returns (sent: seq<Request>)
    ensures DecodeBatch(server, log, columns, rows, ieee, slotLength, lenient).0 == log + sent && OnlyBlobs(sent)
  {
    hide DecodeRow, Resolve;
    sent := [];
    assert log == log + sent;
    if columns != [] && (lenient || AllDecode(columns, rows, ieee)) {
      TasksInRange(columns, rows, ieee);
      DigestsFit(columns, rows, ieee);
      sent := ResolveReadsNothing(server, log, AllTasks(columns, rows, ieee), 0, slotLength, AllCells(columns, rows, ieee), lenient);
    }
  }

  // ----- strict and lenient -----

  lemma {:induction false} ResolveStrictIsLenient(server: Server, log: seq<Request>, tasks: seq<BlobTask>, i: nat, length: nat, decoded: seq<Cells>)
    requires i <= |tasks| && InRange(tasks, decoded)
    requires Resolve(server, log, tasks, i, length, decoded, false).1.Ok?
    ensures Resolve(server, log, tasks, i, length, decoded, true) == Resolve(server, log, tasks, i, length, decoded, false)
    decreases |tasks| - i
  {
    hide FetchTask;
    if i < |tasks| {
      var log' := if i > 0 && i % FLUSH_EVERY == 0 then log + [FreeAllBlobs] else log;
      var f := FetchTask(server, log', tasks[i], length);
      ResolveStrictIsLenient(server, f.log, tasks, i + 1, f.slotLength, Store(decoded, tasks[i], f.stored));
    }
  }

  /** A strict run that completes is the lenient run on the same replies: same requests, same rows. */
  lemma StrictIsLenient(server: Server, log: seq<Request>, columns: seq<Column>, rows: seq<RawRow>, ieee: Ieee, slotLength: nat)
    requires DecodeBatch(server, log, columns, rows, ieee, slotLength, false).1.Ok?
    ensures DecodeBatch(server, log, columns, rows, ieee, slotLength, true)
         == DecodeBatch(server, log, columns, rows, ieee, slotLength, false)
  {
    hide DecodeRow, Resolve;
    if columns != [] {
      TasksInRange(columns, rows, ieee);
      ResolveStrictIsLenient(server, log, AllTasks(columns, rows, ieee), 0, slotLength, AllCells(columns, rows, ieee));
    }
  }

  // ----- payloads -----

  /** The fetches of a run that is not cut short, one per task. */
  function Fetches(server: Server, log: seq<Request>, tasks: seq<BlobTask>, i: nat, length: nat): (r: seq<Fetch>)
    requires i <= |tasks|
    ensures |r| == |tasks| - i
    decreases |tasks| - i
  {
    if i == |tasks| then []
    else
      var log' := if i > 0 && i % FLUSH_EVERY == 0 then log + [FreeAllBlobs] else log;
      var f := FetchTask(server, log', tasks[i], length);
      [f] + Fetches(server, f.log, tasks, i + 1, f.slotLength)
  }

  function Landed(before: Cell, f: Fetch): Cell {
    if f.stored.None? then before else BytesCell(f.stored.value)
  }

  predicate Untouched(tasks: seq<BlobTask>, i: nat, row: nat, col: nat) {
    forall k :: i <= k < |tasks| ==> !(tasks[k].row == row && tasks[k].col == col)
  }

  predicate SameShape(a: seq<Cells>, b: seq<Cells>) {
    |a| == |b| && forall i :: 0 <= i < |a| ==> |a[i]| == |b[i]|
  }

  /** Payloads are where the tasks from the i-th on address them; every other cell is as before. */
  predicate AllLanded(tasks: seq<BlobTask>, i: nat, before: seq<Cells>, fs: seq<Fetch>, out: seq<Cells>)
    requires i + |fs| == |tasks| && InRange(tasks, before)
  {
    && SameShape(out, before)
    && (forall k :: i <= k < |tasks| ==>
          out[tasks[k].row][tasks[k].col] == Landed(before[tasks[k].row][tasks[k].col], fs[k - i]))
    && forall r, c :: 0 <= r < |before| && 0 <= c < |before[r]| && Untouched(tasks, i, r, c) ==> out[r][c] == before[r][c]
  }

  lemma ResolveStep(server: Server, log: seq<Request>, tasks: seq<BlobTask>, i: nat, length: nat, decoded: seq<Cells>, lenient: bool)
    requires i < |tasks| && InRange(tasks, decoded)
    requires Resolve(server, log, tasks, i, length, decoded, lenient).1.Ok?
    ensures var log' := if i > 0 && i % FLUSH_EVERY == 0 then log + [FreeAllBlobs] else log;
            var f := FetchTask(server, log', tasks[i], length);
            && InRange(tasks, Store(decoded, tasks[i], f.stored))
            && Resolve(server, log, tasks, i, length, decoded, lenient)
               == Resolve(server, f.log, tasks, i + 1, f.slotLength, Store(decoded, tasks[i], f.stored), lenient)
  {
    hide FetchTask;
  }

  /** Each payload lands in the cell its task addresses; every other cell is left alone. */
  lemma {:induction false} PayloadsLand(server: Server, log: seq<Request>, tasks: seq<BlobTask>, i: nat, length: nat,
                                        decoded: seq<Cells>, lenient: bool)
    requires i <= |tasks| && InRange(tasks, decoded) && Ascending(tasks)
    requires Resolve(server, log, tasks, i, length, decoded, lenient).1.Ok?
    ensures AllLanded(tasks, i, decoded, Fetches(server, log, tasks, i, length),
                      Resolve(server, log, tasks, i, length, decoded, lenient).1.value)
    decreases |tasks| - i
  {
    hide FetchTask, Resolve, InRange, Ascending, Store;
    if i < |tasks| {
      ResolveStep(server, log, tasks, i, length, decoded, lenient);
      var log' := if i > 0 && i % FLUSH_EVERY == 0 then log + [FreeAllBlobs] else log;
      var f := FetchTask(server, log', tasks[i], length);
      TaskInRange(tasks, i, decoded);
      var stored := Store(decoded, tasks[i], f.stored);
      PayloadsLand(server, f.log, tasks, i + 1, f.slotLength, stored, lenient);
      var fs := Fetches(server, f.log, tasks, i + 1, f.slotLength);
      assert Fetches(server, log, tasks, i, length) == [f] + fs;
      hide AllLanded, Fetches;
      LandingStep(tasks, i, decoded, f, fs, Resolve(server, log, tasks, i, length, decoded, lenient).1.value);
    } else {
      NothingLeft(server, log, tasks, i, length, decoded, lenient);
    }
  }

  lemma TaskInRange(tasks: seq<BlobTask>, i: nat, decoded: seq<Cells>)
    requires i < |tasks| && InRange(tasks, decoded)
    ensures tasks[i].row < |decoded| && tasks[i].col < |decoded[tasks[i].row]|
  {
  }

  lemma NothingLeft(server: Server, log: seq<Request>, tasks: seq<BlobTask>, i: nat, length: nat, decoded: seq<Cells>, lenient: bool)
    requires i == |tasks| && InRange(tasks, decoded)
    ensures Resolve(server, log, tasks, i, length, decoded, lenient) == (log, Ok(decoded))
  {
  }

  /** If later payloads land on top of this one's row as they should, then so does this one. */
  lemma LandingStep(tasks: seq<BlobTask>, i: nat, decoded: seq<Cells>, f: Fetch, fs: seq<Fetch>, out: seq<Cells>)
    requires i < |tasks| && InRange(tasks, decoded) && Ascending(tasks) && i + 1 + |fs| == |tasks|
    requires InRange(tasks, Store(decoded, tasks[i], f.stored))
    requires AllLanded(tasks, i + 1, Store(decoded, tasks[i], f.stored), fs, out)
    ensures AllLanded(tasks, i, decoded, [f] + fs, out)
  {
    hide Landed;
    var stored := Store(decoded, tasks[i], f.stored);
    forall k | i <= k < |tasks|
      ensures out[tasks[k].row][tasks[k].col] == Landed(decoded[tasks[k].row][tasks[k].col], ([f] + fs)[k - i])
    {
      if k > i {
        assert Before(tasks[i], tasks[k]);
        assert stored[tasks[k].row][tasks[k].col] == decoded[tasks[k].row][tasks[k].col];
        assert ([f] + fs)[k - i] == fs[k - (i + 1)];
      } else {
        assert Untouched(tasks, i + 1, tasks[i].row, tasks[i].col) by {
          assert forall m :: i < m < |tasks| ==> Before(tasks[i], tasks[m]);
        }
        StoredIsLanded(decoded, tasks[i], f);
      }
    }
    forall r, c | 0 <= r < |decoded| && 0 <= c < |decoded[r]| && Untouched(tasks, i, r, c)
      ensures out[r][c] == decoded[r][c]
    {
      assert Untouched(tasks, i + 1, r, c);
      assert stored[r][c] == decoded[r][c];
    }
  }

  lemma StoredIsLanded(decoded: seq<Cells>, task: BlobTask, f: Fetch)
    requires task.row < |decoded| && task.col < |decoded[task.row]|
    ensures Store(decoded, task, f.stored)[task.row][task.col] == Landed(decoded[task.row][task.col], f)
  {
  }

  // ----- the batch -----

  /** What cell (row, col) of the output may be: the decoded value, or for a blob handle NULL or a payload. */
  predicate CellKept(columns: seq<Column>, row: Buffer, ieee: Ieee, out: Cells)
    requires columns != []
  {
    var cells := DecodeRow(columns, row, ieee);
    if cells.Err? then out == []
    else
      && |out| == |columns|
      && forall c :: 0 <= c < |columns| ==>
           if IsBlobCell(columns, cells.value, c) then out[c].NullCell? || out[c].BytesCell? else out[c] == cells.value[c]
  }

  /** A decoded batch is its blanked rows with the payloads landed. */
  lemma BatchLands(server: Server, log: seq<Request>, columns: seq<Column>, rows: seq<RawRow>, ieee: Ieee, slotLength: nat, lenient: bool)
    requires columns != [] && DecodeBatch(server, log, columns, rows, ieee, slotLength, lenient).1.Ok?
    ensures InRange(AllTasks(columns, rows, ieee), AllCells(columns, rows, ieee))
    ensures AllLanded(AllTasks(columns, rows, ieee), 0, AllCells(columns, rows, ieee),
                      Fetches(server, log, AllTasks(columns, rows, ieee), 0, slotLength),
                      DecodeBatch(server, log, columns, rows, ieee, slotLength, lenient).1.value)
  {
    hide Resolve, DecodeRow, Addresses, AllLanded, Fetches, AllTasks, AllCells;
    TasksInRange(columns, rows, ieee);
    TasksAscend(columns, rows, ieee);
    PayloadsLand(server, log, AllTasks(columns, rows, ieee), 0, slotLength, AllCells(columns, rows, ieee), lenient);
  }

  /**
   * Output row i is made from input row i alone, however many rows before it were malformed: its other
   * cells are as decoded and its blob cells hold NULL or a payload. A row that does not decode is empty.
   */
  lemma RowsKeepTheirPlace(server: Server, log: seq<Request>, columns: seq<Column>, rows: seq<RawRow>, ieee: Ieee, slotLength: nat,
                           lenient: bool)
    requires columns != [] && DecodeBatch(server, log, columns, rows, ieee, slotLength, lenient).1.Ok?
    ensures var out := DecodeBatch(server, log, columns, rows, ieee, slotLength, lenient).1.value;
            |out| == |rows| && forall i :: 0 <= i < |rows| ==> CellKept(columns, rows[i].0, ieee, out[i])
  {
    hide DecodeBatch, DecodeRow, Fetches, CellKept, RowCells;
    BatchLands(server, log, columns, rows, ieee, slotLength, lenient);
    var out := DecodeBatch(server, log, columns, rows, ieee, slotLength, lenient).1.value;
    forall i | 0 <= i < |rows|
      ensures CellKept(columns, rows[i].0, ieee, out[i])
    {
      RowKept(columns, rows, ieee, Fetches(server, log, AllTasks(columns, rows, ieee), 0, slotLength), out, i);
    }
  }

  lemma RowKept(columns: seq<Column>, rows: seq<RawRow>, ieee: Ieee, fs: seq<Fetch>, out: seq<Cells>, i: nat)
    requires columns != [] && i < |rows| && |fs| == |AllTasks(columns, rows, ieee)|
    requires InRange(AllTasks(columns, rows, ieee), AllCells(columns, rows, ieee))
    requires AllLanded(AllTasks(columns, rows, ieee), 0, AllCells(columns, rows, ieee), fs, out)
    ensures |out| == |rows| && CellKept(columns, rows[i].0, ieee, out[i])
  {
    hide DecodeRow, AllTasks, Addresses;
    var tasks, decoded := AllTasks(columns, rows, ieee), AllCells(columns, rows, ieee);
    var cells := DecodeRow(columns, rows[i].0, ieee);
    assert |out[i]| == |decoded[i]|;
    if cells.Ok? {
      forall c | 0 <= c < |columns|
        ensures if IsBlobCell(columns, cells.value, c) then out[i][c].NullCell? || out[i][c].BytesCell? else out[i][c] == cells.value[c]
      {
        assert decoded[i][c] == Blanked(columns, cells.value)[c];
        if !Untouched(tasks, 0, i, c) {
          var k :| 0 <= k < |tasks| && tasks[k].row == i && tasks[k].col == c;
          TasksAscend(columns, rows, ieee);
          AddressedIsBlob(columns, rows, ieee, tasks[k]);
          assert out[i][c] == Landed(decoded[i][c], fs[k - 0]);
        }
      }
    }
  }

  lemma AddressedIsBlob(columns: seq<Column>, rows: seq<RawRow>, ieee: Ieee, t: BlobTask)
    requires columns != [] && Addresses(columns, rows, ieee, t)
    ensures t.row < |rows| && t.col < |columns| && DecodeRow(columns, rows[t.row].0, ieee).Ok?
    ensures IsBlobCell(columns, DecodeRow(columns, rows[t.row].0, ieee).value, t.col)
  {
    hide DecodeRow;
  }

  /** No unresolved handle is left in a blob column. */
  lemma NoHandleLeft(server: Server, log: seq<Request>, columns: seq<Column>, rows: seq<RawRow>, ieee: Ieee, slotLength: nat,
                     lenient: bool, i: nat, c: nat)
    requires columns != [] && DecodeBatch(server, log, columns, rows, ieee, slotLength, lenient).1.Ok?
    requires i < |rows| && c < |columns| && IsBlobShaped(columns[c].fieldType)
    ensures var out := DecodeBatch(server, log, columns, rows, ieee, slotLength, lenient).1.value;
            |out| == |rows| && (c < |out[i]| ==> !out[i][c].HandleCell?)
  {
    hide DecodeRow, DecodeBatch;
    RowsKeepTheirPlace(server, log, columns, rows, ieee, slotLength, lenient);
    assert CellKept(columns, rows[i].0, ieee, DecodeBatch(server, log, columns, rows, ieee, slotLength, lenient).1.value[i]);
  }

  /** Every handle that names a record has a task of its own, and the payload of that task is in its cell. */
  lemma PayloadOfCell(server: Server, log: seq<Request>, columns: seq<Column>, rows: seq<RawRow>, ieee: Ieee, slotLength: nat,
                      lenient: bool, i: nat, c: nat)
    returns (k: nat)
    requires columns != [] && DecodeBatch(server, log, columns, rows, ieee, slotLength, lenient).1.Ok?
    requires i < |rows| && c < |columns| && DecodeRow(columns, rows[i].0, ieee).Ok?
    requires columns[c].fieldType in {Blob, Memo, Graphic} && DecodeRow(columns, rows[i].0, ieee).value[c].HandleCell?
    requires exists z :: 0 <= z < |DecodeRow(columns, rows[i].0, ieee).value[c].handle| && DecodeRow(columns, rows[i].0, ieee).value[c].handle[z] != 0
    requires |rows[i].0| >= 25 && |rows[i].0| >= columns[0].rowOffset + 1 + columns[0].max
    ensures var tasks := AllTasks(columns, rows, ieee);
            var out := DecodeBatch(server, log, columns, rows, ieee, slotLength, lenient).1.value;
            && k < |tasks| && tasks[k] == TaskFor(columns, rows[i], i, c)
            && (forall k' :: 0 <= k' < |tasks| && tasks[k'].row == i && tasks[k'].col == c ==> k' == k)
            && |out| == |rows| && c < |out[i]|
            && out[i][c] == Landed(NullCell, Fetches(server, log, tasks, 0, slotLength)[k])
  {
    hide DecodeBatch, DecodeRow, Fetches, RowCells, AllTasks, Landed;
    assert NeedsFetch(columns, rows[i].0, DecodeRow(columns, rows[i].0, ieee).value, c);
    hide NeedsFetch;
    var tasks := AllTasks(columns, rows, ieee);
    k := OwnTask(columns, rows, ieee, i, c);
    BatchLands(server, log, columns, rows, ieee, slotLength, lenient);
    BlankedHandle(columns, rows[i], ieee, c);
    assert AllCells(columns, rows, ieee)[i] == RowCells(columns, rows[i], ieee);
    var out := DecodeBatch(server, log, columns, rows, ieee, slotLength, lenient).1.value;
    assert out[tasks[k].row][tasks[k].col]
        == Landed(AllCells(columns, rows, ieee)[i][c], Fetches(server, log, tasks, 0, slotLength)[k - 0]);
  }

  lemma OwnTask(columns: seq<Column>, rows: seq<RawRow>, ieee: Ieee, i: nat, c: nat) returns (k: nat)
    requires columns != [] && i < |rows| && c < |columns| && DecodeRow(columns, rows[i].0, ieee).Ok?
    requires NeedsFetch(columns, rows[i].0, DecodeRow(columns, rows[i].0, ieee).value, c)
    ensures var tasks := AllTasks(columns, rows, ieee);
            && k < |tasks| && tasks[k] == TaskFor(columns, rows[i], i, c)
            && (forall k' :: 0 <= k' < |tasks| && tasks[k'].row == i && tasks[k'].col == c ==> k' == k)
  {
    hide DecodeRow, Addresses, AllTasks;
    var tasks := AllTasks(columns, rows, ieee);
    EveryHandleHasATask(columns, rows, ieee, i, c);
    TasksAscend(columns, rows, ieee);
    k :| 0 <= k < |tasks| && tasks[k] == TaskFor(columns, rows[i], i, c);
    forall k' | 0 <= k' < |tasks| && tasks[k'].row == i && tasks[k'].col == c
      ensures k' == k
    {
      assert k < k' ==> Before(tasks[k], tasks[k']);
      assert k' < k ==> Before(tasks[k'], tasks[k]);
    }
  }

  lemma BlankedHandle(columns: seq<Column>, raw: RawRow, ieee: Ieee, c: nat)
    requires columns != [] && c < |columns| && DecodeRow(columns, raw.0, ieee).Ok?
    requires NeedsFetch(columns, raw.0, DecodeRow(columns, raw.0, ieee).value, c)
    ensures |RowCells(columns, raw, ieee)| == |columns| && RowCells(columns, raw, ieee)[c] == NullCell
  {
    hide DecodeRow;
  }

  lemma {:induction false} EveryHandleHasATask(columns: seq<Column>, rows: seq<RawRow>, ieee: Ieee, i: nat, c: nat)
    requires columns != [] && i < |rows| && c < |columns| && DecodeRow(columns, rows[i].0, ieee).Ok?
    requires NeedsFetch(columns, rows[i].0, DecodeRow(columns, rows[i].0, ieee).value, c)
    ensures TaskFor(columns, rows[i], i, c) in AllTasks(columns, rows, ieee)
    decreases |rows|
  {
    hide DecodeRow, NeedsFetch, RowTasks;
    var n := |rows| - 1;
    if i < n {
      assert rows[..n][i] == rows[i];
      EveryHandleHasATask(columns, rows[..n], ieee, i, c);
    } else {
      RowTasksAscend(columns, rows[n], DecodeRow(columns, rows[n].0, ieee).value, n, 0);
    }
  }
}
