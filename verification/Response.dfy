/** Cursor responses: single-row batches with size locking, and record blocks with bookmarks. */
module Response {
  import opened Wrappers
  import opened Bytes
  import opened Wire
  import opened CursorInfos

  const RESULT_OK: nat := 0x0000
  const RESULT_NOT_READY: nat := 0x0003
  const RESULT_END_OF_CURSOR: nat := 0x2202
  const REQCODE_POLLING_SENTINEL: nat := 0x2C14
  const PACK_STREAM_OFFSET: nat := 7

  function BodyReqcode(body: Buffer): nat {
    if |body| < 3 then 0 else LeValue(body[1..3])
  }

  /** One server batch; bookmarks[i], where there are any, belongs to rows[i]. */
  datatype CursorBatch = CursorBatch(code: nat, info: CursorInfo, rows: seq<Buffer>, bookmarks: seq<Buffer>)

  type BatchResult = Result<Option<(CursorBatch, nat)>, WireError>

  /** The result code and cursor info every batch starts with. */
  function ReadHead(buf: Buffer, pos: nat): (r: Result<Option<(nat, CursorInfo, nat)>, WireError>)
    ensures r.Ok? && r.value.Some? ==> pos < r.value.value.2 <= |buf|
  {
    var unit :- UnitAt(buf, pos);
    if unit.None? then Ok(None)
    else if |unit.value.0| != 2 then Err(WrongLength)
    else
      var info :- ReadInfo(buf, unit.value.1);
      Ok(Some((LeValue(unit.value.0), info.0, info.1)))
  }

  // ----- single-row batches -----

  /** A unit is a row if it has the locked size, or, before any row, is within 2 of the schema's. */
  predicate IsRow(len: nat, expected: nat, locked: Option<nat>) {
    if locked.Some? then len == locked.value
    else (if expected > 2 then expected - 2 else 0) <= len <= expected + 2
  }

  function Prefixed(acc: seq<Buffer>, r: Result<(seq<Buffer>, nat), WireError>): Result<(seq<Buffer>, nat), WireError> {
    match r
    case Ok(rows) => Ok((acc + rows.0, rows.1))
    case Err(e) => Err(e)
  }

  /** The rows from a position, and the position of the first unit that is not one. */
  function ReadRows(buf: Buffer, pos: nat, expected: nat, locked: Option<nat>): (r: Result<(seq<Buffer>, nat), WireError>)
    ensures r.Ok? ==> r.value.1 >= pos
    decreases |buf| - pos
  {
    var unit :- UnitAt(buf, pos);
    if unit.None? || !IsRow(|unit.value.0|, expected, locked) then Ok(([], pos))
    else
      var (row, next) := unit.value;
      Prefixed([row], ReadRows(buf, next, expected, Some(|row|)))
  }

  function ReadBatch(buf: Buffer, pos: nat, expected: nat): (r: BatchResult)
    ensures r.Ok? && r.value.Some? ==> pos < r.value.value.1
  {
    var head :- ReadHead(buf, pos);
    if head.None? then Ok(None)
    else
      var (code, info, next) := head.value;
      if code != RESULT_OK then Ok(Some((CursorBatch(code, info, [], []), next)))
      else
        var rows :- ReadRows(buf, next, expected, None);
        Ok(Some((CursorBatch(code, info, rows.0, []), rows.1)))
  }

  method ReadHeadFrom(w: Walker) returns (r: Result<Option<(nat, CursorInfo)>, WireError>)
    modifies w
    ensures match ReadHead(w.buf, old(w.pos))
            case Err(e) => r == Err(e)
            case Ok(None) => r == Ok(None) && w.pos == old(w.pos)
            case Ok(Some((code, info, next))) => r == Ok(Some((code, info))) && w.pos == next
  {
    var unit := w.NextUnit();
    if unit.Err? { return Err(unit.error); }
    if unit.value.None? { return Ok(None); }
    if |unit.value.value| != 2 { return Err(WrongLength); }
    var info := Read(w);
    if info.Err? { return Err(info.error); }
    return Ok(Some((LeValue(unit.value.value), info.value)));
  }

  /** The row loop of read_batch: lock the first row's size, seek back over the unit that ends the rows. */
  method ReadRowsFrom(w: Walker, expected: nat) returns (r: Result<seq<Buffer>, WireError>)
    modifies w
    ensures match ReadRows(w.buf, old(w.pos), expected, None)
            case Err(e) => r == Err(e)
            case Ok((rows, next)) => r == Ok(rows) && w.pos == next
  {
    var rows := [];
    var locked: Option<nat> := None;
    ghost var all := ReadRows(w.buf, w.pos, expected, None);
    PrefixedEmpty(all);
    while true
      invariant all == Prefixed(rows, ReadRows(w.buf, w.pos, expected, locked))
      decreases |w.buf| - w.pos
    {
      var saved := w.pos;
      var unit := w.NextUnit();
      if unit.Err? { return Err(unit.error); }
      if unit.value.None? { break; }
      var row := unit.value.value;
      var matches: bool;
      if locked.Some? {
        matches := |row| == locked.value;
      } else {
        var lo := if expected > 2 then expected - 2 else 0;
        var hi := expected + 2;
        matches := lo <= |row| <= hi;
        if matches { locked := Some(|row|); }
      }
      if !matches {
        w.Seek(saved);
        break;
      }
      PrefixedStep(rows, row, ReadRows(w.buf, w.pos, expected, locked));
      rows := rows + [row];
    }
    assert rows + [] == rows;
    return Ok(rows);
  }

  lemma PrefixedEmpty(r: Result<(seq<Buffer>, nat), WireError>)
    ensures Prefixed([], r) == r
  {
    if r.Ok? {
      assert [] + r.value.0 == r.value.0;
    }
  }

  lemma PrefixedStep(acc: seq<Buffer>, row: Buffer, r: Result<(seq<Buffer>, nat), WireError>)
    ensures Prefixed(acc, Prefixed([row], r)) == Prefixed(acc + [row], r)
  {
    if r.Ok? {
      assert acc + ([row] + r.value.0) == acc + [row] + r.value.0;
    }
  }

  /** read_batch. */
  method ReadBatchFrom(w: Walker, expected: nat) returns (r: Result<Option<CursorBatch>, WireError>)
    modifies w
    ensures match ReadBatch(w.buf, old(w.pos), expected)
            case Err(e) => r == Err(e)
            case Ok(None) => r == Ok(None) && w.pos == old(w.pos)
            case Ok(Some((batch, next))) => r == Ok(Some(batch)) && w.pos == next
  {
    var head := ReadHeadFrom(w);
    if head.Err? { return Err(head.error); }
    if head.value.None? { return Ok(None); }
    var (code, info) := head.value.value;
    if code == RESULT_OK {
      var rows := ReadRowsFrom(w, expected);
      if rows.Err? { return Err(rows.error); }
      return Ok(Some(CursorBatch(code, info, rows.value, [])));
    }
    return Ok(Some(CursorBatch(code, info, [], [])));
  }

  // ----- record blocks -----

  /** n consecutive slices of one size. */
  function Slices(b: Buffer, size: nat, n: nat): (r: seq<Buffer>)
    requires |b| == n * size
    ensures |r| == n
    decreases n
  {
    if n == 0 then []
    else
      assert |b| == size + (n - 1) * size;
      [b[..size]] + Slices(b[size..], size, n - 1)
  }

  function Concat(parts: seq<Buffer>): Buffer {
    if parts == [] then [] else parts[0] + Concat(parts[1..])
  }

  /** The slices tile the buffer: laid end to end they are the buffer again, each of the given size. */
  lemma {:induction false} SlicesTile(b: Buffer, size: nat, n: nat)
    requires |b| == n * size
    ensures Concat(Slices(b, size, n)) == b
    ensures forall i :: 0 <= i < n ==> |Slices(b, size, n)[i]| == size
    decreases n
  {
    if n > 0 {
      assert |b| == size + (n - 1) * size;
      SlicesTile(b[size..], size, n - 1);
      assert b == b[..size] + b[size..];
    }
  }

  /** Slicing undoes concatenation of parts of one size. */
  lemma {:induction false} SlicesOfConcat(parts: seq<Buffer>, size: nat)
    requires forall i :: 0 <= i < |parts| ==> |parts[i]| == size
    ensures |Concat(parts)| == |parts| * size
    ensures Slices(Concat(parts), size, |parts|) == parts
  {
    if parts != [] {
      SlicesOfConcat(parts[1..], size);
      assert |parts| * size == size + (|parts| - 1) * size;
      assert Concat(parts)[size..] == Concat(parts[1..]);
      assert parts == [parts[0]] + parts[1..];
    }
  }

  /** The i-th slice is the i-th part of the buffer, i sizes from its start. */
  lemma {:induction false} SliceAt(b: Buffer, size: nat, n: nat, i: nat)
    requires |b| == n * size && i < n
    ensures 0 <= i * size <= i * size + size <= |b|
    ensures Slices(b, size, n)[i] == b[i * size..i * size + size]
    decreases n
  {
    OneFewer(size, n);
    if i > 0 {
      SliceAt(b[size..], size, n - 1, i - 1);
      OneFewer(size, i);
      ShiftedSlice(b, size, (i - 1) * size);
    }
  }

  lemma OneFewer(size: nat, n: nat)
    requires n > 0
    ensures n * size == size + (n - 1) * size && (n - 1) * size >= 0
  {
  }

  lemma ShiftedSlice(b: Buffer, size: nat, at: nat)
    requires size + at + size <= |b|
    ensures b[size..][at..at + size] == b[size + at..size + at + size]
  {
  }

  /** The rows of a packed buffer: accepted only if they divide it evenly into sizes near the schema's. */
  function SplitRows(rb: Buffer, count: nat, expected: nat): (r: seq<Buffer>)
    ensures r == [] || |r| == count
  {
    if count > 0 && |rb| % count == 0 then
      var size := |rb| / count;
      if (if expected > 32 then expected - 32 else 0) <= size <= expected + 32
      then assert |rb| == count * size; Slices(rb, size, count) else []
    else []
  }

  /** One bookmark for every accepted row. */
  function SplitBookmarks(bb: Buffer, count: nat, rows: nat): (r: seq<Buffer>)
    requires rows == 0 || rows == count
    ensures r == [] || |r| == rows
  {
    if count > 0 && rows > 0 && |bb| % count == 0
    then assert |bb| == count * (|bb| / count); Slices(bb, |bb| / count, count) else []
  }

  /** Row buffer, then bookmark buffer, of a block of n rows. */
  function ReadBuffers(buf: Buffer, pos: nat, n: nat, expected: nat): (r: Result<(seq<Buffer>, seq<Buffer>, nat), WireError>)
    ensures r.Ok? ==> pos <= r.value.2
  {
    var rb :- UnitAt(buf, pos);
    if rb.None? then Ok(([], [], pos))
    else
      var rows := SplitRows(rb.value.0, n, expected);
      var bb :- UnitAt(buf, rb.value.1);
      if bb.None? then Ok((rows, [], rb.value.1))
      else Ok((rows, SplitBookmarks(bb.value.0, n, |rows|), bb.value.1))
  }

  function ReadBlock(buf: Buffer, pos: nat, expected: nat): (r: BatchResult)
    ensures r.Ok? && r.value.Some? ==> pos < r.value.value.1
  {
    var head :- ReadHead(buf, pos);
    if head.None? then Ok(None)
    else
      var (code, info, p0) := head.value;
      var count :- UnitAt(buf, p0);
      if count.None? then Ok(Some((CursorBatch(code, info, [], []), p0)))
      else if |count.value.0| != 4 then Ok(Some((CursorBatch(code, info, [], []), count.value.1)))
      else
        var parts :- ReadBuffers(buf, count.value.1, LeValue(count.value.0), expected);
        Ok(Some((CursorBatch(code, info, parts.0, parts.1), parts.2)))
  }

  method Slice(b: Buffer, size: nat, count: nat, n: nat) returns (r: seq<Buffer>)
    requires |b| == count * size && n <= count
    ensures r == Slices(b, size, count)[..n]
  {
    r := [];
    for i := 0 to n
      invariant r == Slices(b, size, count)[..i]
    {
      SliceAt(b, size, count, i);
      r := r + [b[i * size..i * size + size]];
    }
  }

  method SplitRowsOf(rb: Buffer, rowCount: nat, expected: nat) returns (r: seq<Buffer>)
    ensures r == SplitRows(rb, rowCount, expected)
  {
    if rowCount > 0 && |rb| % rowCount == 0 {
      var size := |rb| / rowCount;
      var lo := if expected > 32 then expected - 32 else 0;
      var hi := expected + 32;
      if lo <= size <= hi {
        r := Slice(rb, size, rowCount, rowCount);
        return;
      }
    }
    return [];
  }

  method SplitBookmarksOf(bb: Buffer, rowCount: nat, rows: nat) returns (r: seq<Buffer>)
    requires rows == 0 || rows == rowCount
    ensures r == SplitBookmarks(bb, rowCount, rows)
  {
    if rowCount > 0 && |bb| % rowCount == 0 {
      var perRow := |bb| / rowCount;
      r := Slice(bb, perRow, rowCount, rows);
      return;
    }
    return [];
  }

  method ReadBuffersFrom(w: Walker, rowCount: nat, expected: nat) returns (r: Result<(seq<Buffer>, seq<Buffer>), WireError>)
    modifies w
    ensures match ReadBuffers(w.buf, old(w.pos), rowCount, expected)
            case Err(e) => r == Err(e)
            case Ok((rows, bookmarks, next)) => r == Ok((rows, bookmarks)) && w.pos == next
  {
    var rb := w.NextUnit();
    if rb.Err? { return Err(rb.error); }
    if rb.value.None? { return Ok(([], [])); }
    var rows := SplitRowsOf(rb.value.value, rowCount, expected);
    var bb := w.NextUnit();
    if bb.Err? { return Err(bb.error); }
    if bb.value.None? { return Ok((rows, [])); }
    var bookmarks := SplitBookmarksOf(bb.value.value, rowCount, |rows|);
    return Ok((rows, bookmarks));
  }

  /** read_record_block_batch: rows and bookmarks are cut out of one buffer each. */
  method ReadBlockFrom(w: Walker, expected: nat) returns (r: Result<Option<CursorBatch>, WireError>)
    modifies w
    ensures match ReadBlock(w.buf, old(w.pos), expected)
            case Err(e) => r == Err(e)
            case Ok(None) => r == Ok(None) && w.pos == old(w.pos)
            case Ok(Some((batch, next))) => r == Ok(Some(batch)) && w.pos == next
  {
    var head := ReadHeadFrom(w);
    if head.Err? { return Err(head.error); }
    if head.value.None? { return Ok(None); }
    var (code, info) := head.value.value;
    var count := w.NextUnit();
    if count.Err? { return Err(count.error); }
    if count.value.None? || |count.value.value| != 4 { return Ok(Some(CursorBatch(code, info, [], []))); }
    var parts := ReadBuffersFrom(w, LeValue(count.value.value), expected);
    if parts.Err? { return Err(parts.error); }
    return Ok(Some(CursorBatch(code, info, parts.value.0, parts.value.1)));
  }
}
