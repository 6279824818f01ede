/** What the server packs into a cursor response is what the batch readers give back. */
module BatchRoundTrip {
  import opened Wrappers
  import opened Bytes
  import opened Wire
  import opened CursorInfos
  import opened Response

  // ----- single-row batches -----

  /** The result code and cursor info every batch starts with. */
  function Head(code: nat, info: CursorInfo): Buffer {
    Pack(LeBytes(code, 2)) + PackAll(InfoUnits(info))
  }

  /** A batch as the server packs it, in front of what follows. */
  function EncodeBatch(b: CursorBatch, rest: Buffer): Buffer {
    Head(b.code, b.info) + (PackAll(b.rows) + rest)
  }

  function EncodeBatches(bs: seq<CursorBatch>): Buffer {
    if bs == [] then [] else EncodeBatch(bs[0], EncodeBatches(bs[1..]))
  }

  /** Rows of one size, near the size the schema gives; none unless the result code is OK; no bookmarks. */
  predicate SingleRowBatch(b: CursorBatch, expected: nat) {
    && b.code < U16_LIMIT && b.info.Fits() && b.bookmarks == []
    && (b.code != RESULT_OK ==> b.rows == [])
    && (b.rows != [] ==> RowsOfSize(b.rows, |b.rows[0]|) && expected <= |b.rows[0]| + 2 && |b.rows[0]| <= expected + 2)
  }

  predicate RowsOfSize(rows: seq<Buffer>, size: nat) {
    size < U32_LIMIT && forall i :: 0 <= i < |rows| ==> |rows[i]| == size
  }

  /** Batches in one body, as the multi-batch loop reads them: up to a code that is not OK, or the end. */
  function ReadBatches(buf: Buffer, pos: nat, expected: nat): Result<seq<CursorBatch>, WireError>
    decreases |buf| - pos
  {
    var batch :- ReadBatch(buf, pos, expected);
    if batch.None? then Ok([])
    else
      var (b, next) := batch.value;
      if b.code != RESULT_OK || next >= |buf| then Ok([b])
      else
        var rest :- ReadBatches(buf, next, expected);
        Ok([b] + rest)
  }

  /** A place where the rows of a batch end: nothing is left, or a unit of two bytes, a result code, is next. */
  ghost predicate EndsRows(rest: Buffer) {
    rest == [] || exists h: Buffer, tail: Buffer :: |h| == 2 && rest == Pack(h) + tail
  }

  lemma RowStep(buf: Buffer, pos: nat, row: Buffer, next: nat, expected: nat, locked: Option<nat>)
    requires UnitAt(buf, pos) == Ok(Some((row, next)))
    ensures ReadRows(buf, pos, expected, locked)
         == if IsRow(|row|, expected, locked) then Prefixed([row], ReadRows(buf, next, expected, Some(|row|)))
            else Ok(([], pos))
  {
  }

  lemma RowsEnd(buf: Buffer, pos: nat, rest: Buffer, expected: nat, locked: Option<nat>)
    requires expected >= 5 && EndsRows(rest)
    requires pos <= |buf| && buf[pos..] == rest
    requires locked.Some? ==> locked.value >= 3
    ensures ReadRows(buf, pos, expected, locked) == Ok(([], pos))
  {
    if rest == [] {
      UnitAtEnd(buf, pos);
    } else {
      var h: Buffer, tail: Buffer :| |h| == 2 && rest == Pack(h) + tail;
      UnitRoundTrip(buf, pos, h, tail);
      RowStep(buf, pos, h, pos + 6, expected, locked);
    }
  }

  lemma {:induction false} RowsRoundTrip(buf: Buffer, pos: nat, rows: seq<Buffer>, size: nat, rest: Buffer,
                                         expected: nat, locked: Option<nat>)
    requires expected >= 5 && EndsRows(rest)
    requires pos <= |buf| && buf[pos..] == PackAll(rows) + rest
    requires locked.Some? ==> locked.value >= 3
    requires RowsOfSize(rows, size) && (rows != [] ==> IsRow(size, expected, locked))
    ensures ReadRows(buf, pos, expected, locked) == Ok((rows, |buf| - |rest|))
    ensures |rest| <= |buf| && buf[|buf| - |rest|..] == rest
    decreases |rows|
  {
    hide Pack, UnitAt, EndsRows;
    assert |buf[pos..]| == |buf| - pos;
    if rows == [] {
      assert buf[pos..] == rest;
      RowsEnd(buf, pos, rest, expected, locked);
    } else {
      var next := pos + 4 + size;
      assert buf[pos..] == Pack(rows[0]) + (PackAll(rows[1..]) + rest);
      UnitRoundTrip(buf, pos, rows[0], PackAll(rows[1..]) + rest);
      RowStep(buf, pos, rows[0], next, expected, locked);
      RowsRoundTrip(buf, next, rows[1..], size, rest, expected, Some(size));
      assert rows == [rows[0]] + rows[1..];
    }
  }

  lemma HeadStarts(code: nat, info: CursorInfo, rest: Buffer)
    ensures Head(code, info) + rest == Pack(LeBytes(code, 2)) + (PackAll(InfoUnits(info)) + rest)
  {
  }

  lemma HeadRoundTrip(buf: Buffer, pos: nat, code: nat, info: CursorInfo, rest: Buffer)
    requires code < U16_LIMIT && info.Fits()
    requires pos <= |buf| && buf[pos..] == Head(code, info) + rest
    ensures ReadHead(buf, pos) == Ok(Some((code, info, |buf| - |rest|)))
    ensures |rest| <= |buf| && buf[|buf| - |rest|..] == rest
  {
    HeadStarts(code, info, rest);
    UnitRoundTrip(buf, pos, LeBytes(code, 2), PackAll(InfoUnits(info)) + rest);
    LeRoundTrip16(code);
    InfoRoundTrip(buf, pos + 6, info, rest);
  }

  lemma BatchStep(buf: Buffer, pos: nat, code: nat, info: CursorInfo, next: nat, expected: nat)
    requires ReadHead(buf, pos) == Ok(Some((code, info, next)))
    ensures code != RESULT_OK ==> ReadBatch(buf, pos, expected) == Ok(Some((CursorBatch(code, info, [], []), next)))
    ensures code == RESULT_OK ==>
              match ReadRows(buf, next, expected, None)
              case Ok((rows, after)) => ReadBatch(buf, pos, expected) == Ok(Some((CursorBatch(code, info, rows, []), after)))
              case Err(e) => ReadBatch(buf, pos, expected) == Err(e)
  {
  }

  lemma BatchReads(buf: Buffer, pos: nat, b: CursorBatch, rest: Buffer, expected: nat)
    requires expected >= 5 && SingleRowBatch(b, expected) && EndsRows(rest)
    requires pos <= |buf| && buf[pos..] == EncodeBatch(b, rest)
    ensures ReadBatch(buf, pos, expected) == Ok(Some((b, |buf| - |rest|)))
    ensures |rest| <= |buf| && buf[|buf| - |rest|..] == rest
  {
    hide ReadHead, ReadBatch, Head;
    var body := PackAll(b.rows) + rest;
    HeadRoundTrip(buf, pos, b.code, b.info, body);
    BodyReads(buf, pos, b, |buf| - |body|, rest, expected);
  }

  lemma BodyReads(buf: Buffer, pos: nat, b: CursorBatch, p: nat, rest: Buffer, expected: nat)
    requires expected >= 5 && SingleRowBatch(b, expected) && EndsRows(rest)
    requires ReadHead(buf, pos) == Ok(Some((b.code, b.info, p)))
    requires p <= |buf| && buf[p..] == PackAll(b.rows) + rest
    ensures ReadBatch(buf, pos, expected) == Ok(Some((b, |buf| - |rest|)))
    ensures |rest| <= |buf| && buf[|buf| - |rest|..] == rest
  {
    hide ReadHead, ReadBatch, ReadRows;
    BatchStep(buf, pos, b.code, b.info, p, expected);
    if b.code == RESULT_OK {
      RowsRoundTrip(buf, p, b.rows, if b.rows == [] then 0 else |b.rows[0]|, rest, expected, None);
    } else {
      assert PackAll(b.rows) + rest == rest;
      assert |buf[p..]| == |rest|;
    }
  }

  lemma BatchesStep(buf: Buffer, pos: nat, b: CursorBatch, next: nat, expected: nat)
    requires ReadBatch(buf, pos, expected) == Ok(Some((b, next)))
    ensures b.code != RESULT_OK || next >= |buf| ==> ReadBatches(buf, pos, expected) == Ok([b])
    ensures b.code == RESULT_OK && next < |buf| && ReadBatches(buf, next, expected).Ok? ==>
              ReadBatches(buf, pos, expected) == Ok([b] + ReadBatches(buf, next, expected).value)
  {
  }

  /** The encoding of batches either is empty or starts with a result code, so it ends the rows before it. */
  lemma EncodingEndsRows(bs: seq<CursorBatch>)
    ensures EndsRows(EncodeBatches(bs))
    ensures bs != [] ==> |EncodeBatches(bs)| > 0
  {
    if bs != [] {
      var b := bs[0];
      HeadStarts(b.code, b.info, PackAll(b.rows) + EncodeBatches(bs[1..]));
    }
  }

  /**
   * Any list of batches, packed one after another, is read back unchanged: neither the size lock
   * nor the seek-back confuses a row with the next batch's result code, as long as a record has
   * at least five bytes.
   */
  lemma {:induction false} BatchesRoundTrip(buf: Buffer, pos: nat, bs: seq<CursorBatch>, expected: nat)
    requires expected >= 5 && forall i :: 0 <= i < |bs| ==> SingleRowBatch(bs[i], expected)
    requires forall i :: 0 <= i < |bs| - 1 ==> bs[i].code == RESULT_OK
    requires pos <= |buf| && buf[pos..] == EncodeBatches(bs)
    ensures ReadBatches(buf, pos, expected) == Ok(bs)
    decreases |bs|
  {
    hide ReadInfo, ReadRows, EncodeBatch, SingleRowBatch;
    if bs == [] {
      UnitAtEnd(buf, pos);
    } else {
      hide ReadBatch;
      var rest := EncodeBatches(bs[1..]);
      EncodingEndsRows(bs[1..]);
      BatchReads(buf, pos, bs[0], rest, expected);
      var next := |buf| - |rest|;
      if |bs| > 1 {
        BatchesRoundTrip(buf, next, bs[1..], expected);
      } else {
        assert bs[1..] == [] && rest == [];
      }
      BatchesStep(buf, pos, bs[0], next, expected);
      assert bs == [bs[0]] + bs[1..];
      if |bs| > 1 {
        assert bs[0].code == RESULT_OK;
        assert next < |buf|;
        assert ReadBatches(buf, pos, expected) == Ok(bs);
      } else {
        assert bs == [bs[0]];
        assert next >= |buf|;
        assert ReadBatches(buf, pos, expected) == Ok(bs);
      }
    }
  }

  /**
   * Five is exact. Below it a result code has the size of a row, so no bytes whatever are read as a
   * batch without rows that another batch follows: the first would have swallowed the second's code.
   */
  lemma {:induction false} ShortRecordsAreAmbiguous(buf: Buffer, pos: nat, expected: nat)
    requires expected < 5
    ensures var r := ReadBatches(buf, pos, expected);
            r.Ok? ==> forall i :: 0 <= i < |r.value| - 1 ==> r.value[i].rows != []
    decreases |buf| - pos
  {
    hide ReadBatch;
    var batch := ReadBatch(buf, pos, expected);
    if batch.Ok? && batch.value.Some? {
      var (b, next) := batch.value.value;
      if b.code == RESULT_OK && next < |buf| {
        ShortRecordsAreAmbiguous(buf, next, expected);
        var rest := ReadBatches(buf, next, expected);
        if rest.Ok? && rest.value != [] {
          CodeBehindRows(buf, pos, expected);
          FirstBatch(buf, next, expected);
          HeadIsTwoBytes(buf, next, expected);
        }
      }
    }
  }

  /** A batch that ends without rows stands before a unit that is no row, or before none. */
  lemma CodeBehindRows(buf: Buffer, pos: nat, expected: nat)
    requires ReadBatch(buf, pos, expected).Ok? && ReadBatch(buf, pos, expected).value.Some?
    ensures var (b, next) := ReadBatch(buf, pos, expected).value.value;
            b.code == RESULT_OK && b.rows == [] ==>
              UnitAt(buf, next).Ok? && (UnitAt(buf, next).value.Some? ==> !IsRow(|UnitAt(buf, next).value.value.0|, expected, None))
  {
    hide ReadHead, UnitAt, IsRow;
  }

  lemma HeadIsTwoBytes(buf: Buffer, pos: nat, expected: nat)
    requires ReadBatch(buf, pos, expected).Ok? && ReadBatch(buf, pos, expected).value.Some?
    ensures UnitAt(buf, pos).Ok? && UnitAt(buf, pos).value.Some? && |UnitAt(buf, pos).value.value.0| == 2
  {
    hide UnitAt, ReadRows;
  }

  lemma FirstBatch(buf: Buffer, pos: nat, expected: nat)
    ensures ReadBatches(buf, pos, expected).Ok? && ReadBatches(buf, pos, expected).value != [] ==>
              ReadBatch(buf, pos, expected).Ok? && ReadBatch(buf, pos, expected).value.Some?
  {
    hide ReadBatch;
  }

  /**
   * For any bytes at all: the rows read have one size, the locked one or one within 2 of the schema's, and
   * the unit behind them, if there is one, has another.
   */
  lemma {:induction false} RowsAreMaximal(buf: Buffer, pos: nat, expected: nat, locked: Option<nat>)
    requires ReadRows(buf, pos, expected, locked).Ok?
    ensures var (rows, next) := ReadRows(buf, pos, expected, locked).value;
            var near := (n: nat) => expected <= n + 2 && n <= expected + 2;
            && (forall i :: 0 <= i < |rows| ==> if locked.Some? then |rows[i]| == locked.value else |rows[i]| == |rows[0]| && near(|rows[0]|))
            && UnitAt(buf, next).Ok?
            && (UnitAt(buf, next).value.Some? ==>
                  var n := |UnitAt(buf, next).value.value.0|;
                  if locked.Some? then n != locked.value else if rows != [] then n != |rows[0]| else !near(n))
    decreases |buf| - pos
  {
    var unit := UnitAt(buf, pos).value;
    if unit.Some? && IsRow(|unit.value.0|, expected, locked) {
      var (row, next) := unit.value;
      RowsAreMaximal(buf, next, expected, Some(|row|));
    }
  }

  /**
   * Padding after a batch: an uncompressed reply keeps the envelope's zero padding, and a batch of
   * rows with one, two or three pad bytes behind it is refused, while four or more, or none, are harmless.
   */
  lemma PaddedBatch(buf: Buffer, pos: nat, b: CursorBatch, pad: nat, expected: nat)
    requires expected >= 5 && SingleRowBatch(b, expected) && b.code == RESULT_OK && pad < 8
    requires pos <= |buf| && buf[pos..] == EncodeBatch(b, Zeros(pad))
    ensures ReadBatch(buf, pos, expected) == (if 1 <= pad <= 3 then Err(NoLength) else Ok(Some((b, |buf| - pad))))
  {
    hide ReadHead, Head, ReadRows, UnitAt, IsRow;
    HeadRoundTrip(buf, pos, b.code, b.info, PackAll(b.rows) + Zeros(pad));
    var p := |buf| - |PackAll(b.rows) + Zeros(pad)|;
    BatchStep(buf, pos, b.code, b.info, p, expected);
    PaddedRows(buf, p, b.rows, if b.rows == [] then 0 else |b.rows[0]|, pad, expected, None);
  }

  lemma PadUnit(buf: Buffer, pos: nat, pad: nat)
    requires pad < 8 && pos <= |buf| && buf[pos..] == Zeros(pad)
    ensures UnitAt(buf, pos) == if pad == 0 then Ok(None) else if pad < 4 then Err(NoLength) else Ok(Some(([], pos + 4)))
  {
    assert |buf| - pos == |buf[pos..]| == pad;
    if pad >= 4 {
      assert buf[pos..pos + 4] == buf[pos..][..4] == [0, 0, 0, 0];
      ZeroLength();
    }
  }

  lemma {:induction false} PaddedRows(buf: Buffer, pos: nat, rows: seq<Buffer>, size: nat, pad: nat,
                                      expected: nat, locked: Option<nat>)
    requires expected >= 5 && pad < 8
    requires pos <= |buf| && buf[pos..] == PackAll(rows) + Zeros(pad)
    requires locked.Some? ==> locked.value >= 3
    requires RowsOfSize(rows, size) && (rows != [] ==> IsRow(size, expected, locked))
    ensures ReadRows(buf, pos, expected, locked) == (if 1 <= pad <= 3 then Err(NoLength) else Ok((rows, |buf| - pad)))
    decreases |rows|
  {
    if rows == [] {
      assert buf[pos..] == Zeros(pad);
      assert |buf| - pos == |buf[pos..]| == pad;
      PadUnit(buf, pos, pad);
      if pad >= 4 {
        RowStep(buf, pos, [], pos + 4, expected, locked);
      }
    } else {
      assert buf[pos..] == Pack(rows[0]) + (PackAll(rows[1..]) + Zeros(pad));
      UnitRoundTrip(buf, pos, rows[0], PackAll(rows[1..]) + Zeros(pad));
      RowStep(buf, pos, rows[0], pos + 4 + size, expected, locked);
      PaddedRows(buf, pos + 4 + size, rows[1..], size, pad, expected, Some(size));
      assert rows == [rows[0]] + rows[1..];
    }
  }

  lemma ZeroLength()
    ensures LeValue([0, 0, 0, 0]) == 0
  {
    LeRoundTrip32(0);
    assert LeBytes(0, 4) == [0, 0, 0, 0];
  }

  // ----- record blocks -----

  /** A record block as the server packs it: count, all rows in one unit, all bookmarks in another. */
  function EncodeBlock(b: CursorBatch, rest: Buffer): Buffer {
    Head(b.code, b.info) + (Pack(LeBytes(|b.rows|, 4)) + (Pack(Concat(b.rows)) + (Pack(Concat(b.bookmarks)) + rest)))
  }

  predicate BlockBatch(b: CursorBatch, expected: nat) {
    && b.code < U16_LIMIT && b.info.Fits() && |b.bookmarks| == |b.rows| < U32_LIMIT
    && |Concat(b.rows)| < U32_LIMIT && |Concat(b.bookmarks)| < U32_LIMIT
    && (forall i :: 0 <= i < |b.rows| ==>
          |b.rows[i]| == |b.rows[0]| && (if expected > 32 then expected - 32 else 0) <= |b.rows[i]| <= expected + 32)
    && (forall i :: 0 <= i < |b.bookmarks| ==> |b.bookmarks[i]| == |b.bookmarks[0]|)
  }

  lemma MultipleBounds(n: nat, x: int)
    requires n > 0
    ensures x >= 1 ==> n * x >= n
    ensures x <= -1 ==> n * x <= -(n as int)
  {
    if x >= 1 {
      assert n * (x - 1) >= 0;
    } else {
      assert n * (-x) == -(n * x);
      if x <= -1 {
        assert n * (-x - 1) >= 0;
      }
    }
  }

  lemma EvenSplit(n: nat, k: nat)
    requires n > 0
    ensures (n * k) / n == k && (n * k) % n == 0
  {
    var q := (n * k) / n;
    assert n * k == n * q + (n * k) % n;
    assert n * (k - q) == n * k - n * q;
    MultipleBounds(n, k - q);
  }

  lemma SplitRowsRoundTrip(rows: seq<Buffer>, expected: nat)
    requires forall i :: 0 <= i < |rows| ==>
               |rows[i]| == |rows[0]| && (if expected > 32 then expected - 32 else 0) <= |rows[i]| <= expected + 32
    ensures SplitRows(Concat(rows), |rows|, expected) == rows
  {
    if rows != [] {
      SlicesOfConcat(rows, |rows[0]|);
      EvenSplit(|rows|, |rows[0]|);
    }
  }

  lemma SplitBookmarksRoundTrip(marks: seq<Buffer>)
    requires forall i :: 0 <= i < |marks| ==> |marks[i]| == |marks[0]|
    ensures SplitBookmarks(Concat(marks), |marks|, |marks|) == marks
  {
    if marks != [] {
      SlicesOfConcat(marks, |marks[0]|);
      EvenSplit(|marks|, |marks[0]|);
    }
  }

  lemma BlockStep(buf: Buffer, pos: nat, b: CursorBatch, p: nat, next: nat, expected: nat)
    requires ReadHead(buf, pos) == Ok(Some((b.code, b.info, p)))
    requires |b.rows| < U32_LIMIT && UnitAt(buf, p) == Ok(Some((LeBytes(|b.rows|, 4), p + 8)))
    requires ReadBuffers(buf, p + 8, |b.rows|, expected) == Ok((b.rows, b.bookmarks, next))
    ensures ReadBlock(buf, pos, expected) == Ok(Some((b, next)))
  {
    LeRoundTrip32(|b.rows|);
  }

  lemma BuffersRoundTrip(buf: Buffer, pos: nat, b: CursorBatch, rest: Buffer, expected: nat)
    requires BlockBatch(b, expected)
    requires pos <= |buf| && buf[pos..] == Pack(Concat(b.rows)) + (Pack(Concat(b.bookmarks)) + rest)
    ensures ReadBuffers(buf, pos, |b.rows|, expected) == Ok((b.rows, b.bookmarks, |buf| - |rest|))
  {
    UnitRoundTrip(buf, pos, Concat(b.rows), Pack(Concat(b.bookmarks)) + rest);
    var q := pos + 4 + |Concat(b.rows)|;
    UnitRoundTrip(buf, q, Concat(b.bookmarks), rest);
    assert |buf[q + 4 + |Concat(b.bookmarks)|..]| == |rest|;
    SplitRowsRoundTrip(b.rows, expected);
    SplitBookmarksRoundTrip(b.bookmarks);
  }

  /** A block of rows with their bookmarks is read back unchanged, whatever follows it, padding included. */
  lemma BlockRoundTrip(buf: Buffer, pos: nat, b: CursorBatch, rest: Buffer, expected: nat)
    requires BlockBatch(b, expected)
    requires pos <= |buf| && buf[pos..] == EncodeBlock(b, rest)
    ensures ReadBlock(buf, pos, expected) == Ok(Some((b, |buf| - |rest|)))
  {
    hide ReadHead, ReadBuffers, ReadBlock, Head, UnitAt;
    var count := LeBytes(|b.rows|, 4);
    var t1 := Pack(Concat(b.rows)) + (Pack(Concat(b.bookmarks)) + rest);
    HeadRoundTrip(buf, pos, b.code, b.info, Pack(count) + t1);
    var p := |buf| - |Pack(count) + t1|;
    UnitRoundTrip(buf, p, count, t1);
    BuffersRoundTrip(buf, p + 8, b, rest, expected);
    BlockStep(buf, pos, b, p, |buf| - |rest|, expected);
  }

  /** A block without a row count of four bytes has no rows, nor has one that ends there. */
  lemma RowlessBlocks(buf: Buffer, pos: nat, code: nat, info: CursorInfo, count: Buffer, rest: Buffer, expected: nat)
    requires code < U16_LIMIT && info.Fits() && |count| < U32_LIMIT && pos <= |buf|
    ensures buf[pos..] == Head(code, info) ==> ReadBlock(buf, pos, expected) == Ok(Some((CursorBatch(code, info, [], []), |buf|)))
    ensures buf[pos..] == Head(code, info) + Pack(count) ==> ReadBlock(buf, pos, expected) == Ok(Some((CursorBatch(code, info, [], []), |buf|)))
    ensures buf[pos..] == Head(code, info) + (Pack(count) + rest) && |count| != 4 ==>
              ReadBlock(buf, pos, expected) == Ok(Some((CursorBatch(code, info, [], []), |buf| - |rest|)))
  {
    hide ReadHead, Head, UnitAt, Pack, LeBytes, LeValue, SplitRows, SplitBookmarks;
    assert Head(code, info) + [] == Head(code, info) && Pack(count) + [] == Pack(count);
    if buf[pos..] == Head(code, info) {
      HeadRoundTrip(buf, pos, code, info, []);
      UnitAtEnd(buf, |buf|);
    }
    if buf[pos..] == Head(code, info) + Pack(count) {
      HeadRoundTrip(buf, pos, code, info, Pack(count));
      UnitRoundTrip(buf, |buf| - |Pack(count)|, count, []);
      UnitAtEnd(buf, |buf|);
    }
    if buf[pos..] == Head(code, info) + (Pack(count) + rest) && |count| != 4 {
      HeadRoundTrip(buf, pos, code, info, Pack(count) + rest);
      UnitRoundTrip(buf, |buf| - |Pack(count) + rest|, count, rest);
    }
  }

  lemma SplitRowsTile(rb: Buffer, n: nat, expected: nat)
    requires SplitRows(rb, n, expected) != []
    ensures var rows := SplitRows(rb, n, expected);
            && |rows| == n && Concat(rows) == rb
            && forall i :: 0 <= i < n ==> |rows[i]| == |rows[0]| && expected <= |rows[i]| + 32 && |rows[i]| <= expected + 32
  {
    assert |rb| == n * (|rb| / n);
    SlicesTile(rb, |rb| / n, n);
  }

  lemma SplitBookmarksTile(bb: Buffer, n: nat, rows: nat)
    requires rows == 0 || rows == n
    requires SplitBookmarks(bb, n, rows) != []
    ensures var marks := SplitBookmarks(bb, n, rows);
            |marks| == rows && Concat(marks) == bb && forall i :: 0 <= i < rows ==> |marks[i]| == |marks[0]|
  {
    assert |bb| == n * (|bb| / n);
    SlicesTile(bb, |bb| / n, n);
  }

  /**
   * Tiling, for any bytes at all: accepted rows are the row buffer cut in order into parts of one
   * size, and there are either no bookmarks or exactly one per row, tiling the bookmark buffer.
   */
  lemma BuffersTile(buf: Buffer, pos: nat, n: nat, expected: nat)
    requires ReadBuffers(buf, pos, n, expected).Ok?
    ensures var (rows, marks, _) := ReadBuffers(buf, pos, n, expected).value;
            var rb := UnitAt(buf, pos).value;
            && (rows != [] ==>
                  && |rows| == n && rb.Some? && Concat(rows) == rb.value.0
                  && forall i :: 0 <= i < n ==> |rows[i]| == |rows[0]| && expected <= |rows[i]| + 32 && |rows[i]| <= expected + 32)
            && (marks != [] ==>
                  && |marks| == |rows| && rb.Some? && UnitAt(buf, rb.value.1).Ok? && UnitAt(buf, rb.value.1).value.Some?
                  && Concat(marks) == UnitAt(buf, rb.value.1).value.value.0
                  && forall i :: 0 <= i < |rows| ==> |marks[i]| == |marks[0]|)
  {
    var rb := UnitAt(buf, pos).value;
    if rb.Some? {
      var rows := SplitRows(rb.value.0, n, expected);
      if rows != [] {
        SplitRowsTile(rb.value.0, n, expected);
      }
      var bb := UnitAt(buf, rb.value.1).value;
      if bb.Some? && SplitBookmarks(bb.value.0, n, |rows|) != [] {
        SplitBookmarksTile(bb.value.0, n, |rows|);
      }
    }
  }
}
