/** Result tables as a server stores them, and their replies byte for byte: the schema, a block of rows, a blob. */
module SampleTables {
  import opened Wrappers
  import opened Bytes
  import opened Wire
  import opened Transports
  import opened Response
  import opened CursorInfos
  import opened BatchRoundTrip
  import opened Cursor
  import opened ServerStreams
  import opened DecodedStream
  import opened Polls
  import opened Schema
  import Row
  import Msg

  /**
   * The result of a statement: its columns and rows, bookmarks of one size, the blobs behind its handles, and
   * how many polls its cursor takes to be ready.
   */
  datatype Table = Table(columns: seq<Column>, rows: seq<Item>, markSize: nat, info: CursorInfo, blobs: BlobStore, delay: nat) {
    /** The size of a record. */
    function Width(): nat {
      if columns == [] then 0 else Row.RecordSize(columns).value
    }

    /** Small enough for replies, and ready in time. */
    ghost predicate Fits() {
      && 0 < |columns| < U16_LIMIT && ColumnsFit(columns, 1)
      && info.Fits() && delay < MAX_RECEIVE_POLLS
      && |rows| < U32_LIMIT && |rows| * Width() < U32_LIMIT && |rows| * markSize < U32_LIMIT
      && (forall i :: 0 <= i < |rows| ==> |rows[i].0| == Width() && |rows[i].1| == markSize)
      && (forall phys: nat, md5: Buffer, pk: Buffer, ordinal: nat :: |blobs(phys, md5, pk, ordinal)| < U32_LIMIT)
    }
  }

  /** What a column block can say of a column. */
  predicate ColumnFits(c: Column, ord: nat) {
    && c.ord == ord && 1 <= |c.name| <= MAX_NAME && c.rowOffset < U16_LIMIT
    && c.fieldType == FieldTypeFromSub(c.subRaw, c.byteA8, c.byte250)
  }

  predicate ColumnsFit(columns: seq<Column>, ord: nat) {
    forall i :: 0 <= i < |columns| ==> ColumnFits(columns[i], ord + i)
  }

  // ----- the schema -----

  /** A column block, zero where nothing is known to be. */
  function ColumnBlock(c: Column): (b: Buffer)
    ensures |c.name| <= MAX_NAME ==> |b| == STRIDE
  {
    [0x03, 0x00, 0x00] + LeBytes(c.ord, 2) + [|c.name| % 256] + c.name + Zeros(if |c.name| <= MAX_NAME then MAX_NAME - |c.name| else 0)
    + [c.subRaw, c.byteA8, c.decl, 0, 0, c.max, 0, 0] + LeBytes(c.rowOffset, 2)
    + Zeros(0x250 - 0xB1) + [c.byte250] + Zeros(STRIDE - 0x251)
  }

  lemma BlockHolds(c: Column)
    requires ColumnFits(c, c.ord) && c.ord < U16_LIMIT
    ensures Schema.BlockOf(ColumnBlock(c), c)
  {
    hide LeBytes;
    var front: Buffer := [0x03, 0x00, 0x00] + LeBytes(c.ord, 2) + [|c.name|];
    var name := c.name + Zeros(MAX_NAME - |c.name|);
    assert |c.name| % 256 == |c.name|;
    var meta: Buffer := [c.subRaw, c.byteA8, c.decl, 0, 0, c.max, 0, 0] + LeBytes(c.rowOffset, 2);
    var back := Zeros(0x250 - 0xB1) + [c.byte250] + Zeros(STRIDE - 0x251);
    var b := ColumnBlock(c);
    assert b == front + name + meta + back;
    assert |front| == 6 && |name| == MAX_NAME && |meta| == 10;
    FrontOf(front, c);
    assert b[..6] == front && b[6..6 + |c.name|] == c.name;
    assert b[..3] == front[..3] && b[3..5] == front[3..5];
    assert b[0xA7..0xB1] == meta;
    MetaOf(b[0xA7..0xB1], c);
    assert b[0xAF..0xB1] == b[0xA7..0xB1][8..10];
  }

  lemma FrontOf(front: Buffer, c: Column)
    requires |c.name| <= MAX_NAME && front == [0x03, 0x00, 0x00] + LeBytes(c.ord, 2) + [|c.name|]
    ensures front[..3] == [0x03, 0x00, 0x00] && front[3..5] == LeBytes(c.ord, 2) && front[5] == |c.name|
  {
  }

  lemma MetaOf(meta: Buffer, c: Column)
    requires meta == [c.subRaw, c.byteA8, c.decl, 0, 0, c.max, 0, 0] + LeBytes(c.rowOffset, 2)
    ensures meta[0] == c.subRaw && meta[1] == c.byteA8 && meta[2] == c.decl && meta[5] == c.max && meta[8..10] == LeBytes(c.rowOffset, 2)
  {
  }

  function Blocks(columns: seq<Column>): Buffer {
    if columns == [] then [] else ColumnBlock(columns[0]) + Blocks(columns[1..])
  }

  /** The reply to Prepare: a header, then a block for each column. */
  function SchemaBody(columns: seq<Column>): Buffer {
    Zeros(7) + Blocks(columns)
  }

  lemma {:induction false} BlocksLaidOut(payload: Buffer, off: nat, columns: seq<Column>, ord: nat)
    requires ColumnsFit(columns, ord) && ord + |columns| <= U16_LIMIT
    requires off <= |payload| && payload[off..] == Blocks(columns)
    ensures LaidOut(payload, off, columns, ord) && |payload| == off + STRIDE * |columns|
    decreases |columns|
  {
    hide ColumnBlock, Schema.BlockOf;
    if columns != [] {
      assert columns[0].ord == ord + 0;
      BlockHolds(columns[0]);
      assert payload[off..off + STRIDE] == payload[off..][..STRIDE];
      assert payload[off + STRIDE..] == payload[off..][STRIDE..];
      assert forall i :: 0 <= i < |columns| - 1 ==> columns[1..][i] == columns[i + 1];
      assert ColumnsFit(columns[1..], ord + 1);
      BlocksLaidOut(payload, off + STRIDE, columns[1..], ord + 1);
    }
  }

  /** What parse_schema makes of that reply. */
  lemma SchemaBack(columns: seq<Column>)
    requires 0 < |columns| < U16_LIMIT && ColumnsFit(columns, 1)
    ensures Parse(SchemaBody(columns)) == Ok((columns, 7 + STRIDE * |columns|))
  {
    hide Parse, LaidOut, Schema.BlockOf, ColumnBlock;
    var payload := SchemaBody(columns);
    assert payload[7..] == Blocks(columns);
    BlocksLaidOut(payload, 7, columns, 1);
    forall i | 0 <= i < 7
      ensures !MarkerAt(payload, i)
    {
      assert payload[i] == 0;
      if MarkerAt(payload, i) {
        MarkerStarts(payload, i);
      }
    }
    SchemaRoundTrip(payload, 7, columns);
  }

  lemma MarkerStarts(payload: Buffer, i: nat)
    requires MarkerAt(payload, i)
    ensures payload[i] == 3
  {
    assert payload[i..i + 5][0] == payload[i];
  }

  // ----- rows -----

  function Firsts(items: seq<Item>): (r: seq<Buffer>)
    ensures |r| == |items|
  {
    seq(|items|, i requires 0 <= i < |items| => items[i].0)
  }

  function Seconds(items: seq<Item>): (r: seq<Buffer>)
    ensures |r| == |items|
  {
    seq(|items|, i requires 0 <= i < |items| => items[i].1)
  }

  /** The rows from p to q as one block, marked as the end of the cursor if they are the last. */
  function BatchOf(t: Table, p: nat, q: nat): CursorBatch
    requires p <= q <= |t.rows|
  {
    CursorBatch(if q == |t.rows| then RESULT_END_OF_CURSOR else RESULT_OK, t.info, Firsts(t.rows[p..q]), Seconds(t.rows[p..q]))
  }

  function BlockReply(t: Table, p: nat, q: nat): Reply
    requires p <= q <= |t.rows|
  {
    Body(Msg.Message(0, EncodeBlock(BatchOf(t, p, q), [])))
  }

  lemma {:induction false} ConcatLength(parts: seq<Buffer>, size: nat)
    requires forall i :: 0 <= i < |parts| ==> |parts[i]| == size
    ensures |Concat(parts)| == |parts| * size
  {
    if parts != [] {
      ConcatLength(parts[1..], size);
      assert |parts| * size == size + (|parts| - 1) * size;
    }
  }

  lemma FewerIsLess(a: nat, b: nat, size: nat)
    requires a <= b
    ensures a * size <= b * size
  {
  }

  lemma BatchFits(t: Table, p: nat, q: nat)
    requires t.Fits() && p <= q <= |t.rows|
    ensures BlockBatch(BatchOf(t, p, q), t.Width())
  {
    var part := t.rows[p..q];
    assert forall i :: 0 <= i < |part| ==> part[i] == t.rows[p + i];
    ConcatLength(Firsts(part), t.Width());
    ConcatLength(Seconds(part), t.markSize);
    FewerIsLess(|part|, |t.rows|, t.Width());
    FewerIsLess(|part|, |t.rows|, t.markSize);
  }

  lemma ItemsBack(items: seq<Item>)
    ensures Items(Firsts(items), Seconds(items)) == items
  {
  }

  /** A reply to a read is one block of exactly the rows it stands for. */
  lemma BlockReplied(t: Table, p: nat, q: nat)
    requires t.Fits() && p <= q <= |t.rows|
    ensures var reply := BlockReply(t, p, q);
            && HasBlock(reply, t.Width()) && OneBatch(reply, t.Width())
            && ItemsIn(reply, t.Width()) == t.rows[p..q]
            && (IsLast(reply, t.Width()) <==> q == |t.rows|)
  {
    hide ReadBlock, EncodeBlock, LeBytes, LeValue;
    var b := BatchOf(t, p, q);
    var body := BlockReply(t, p, q).body;
    BatchFits(t, p, q);
    BlockRoundTrip(body, PACK_STREAM_OFFSET, b, [], t.Width());
    ItemsBack(t.rows[p..q]);
    BlockIsReadable(t, p, q);
  }

  lemma BlockIsReadable(t: Table, p: nat, q: nat)
    requires t.Fits() && p <= q <= |t.rows|
    ensures Readable(BlockReply(t, p, q).body)
  {
    hide LeBytes, LeValue, Concat, InfoUnits;
    var inner := EncodeBlock(BatchOf(t, p, q), []);
    var body := BlockReply(t, p, q).body;
    LeRoundTrip16(0);
    assert body[1..3] == LeBytes(0, 2);
    HeadIsLong(BatchOf(t, p, q).code, t.info);
  }

  lemma HeadIsLong(code: nat, info: CursorInfo)
    ensures |Head(code, info)| >= 6
  {
  }

  // ----- handshake and blobs -----

  /** A poll's reply: result code 0 when the cursor is ready, else in turn the polling code and result code 3. */
  function PollReply(ready: bool, k: nat): (r: Reply)
    ensures r.Body?
  {
    Body(if ready then Packed(0, [LeBytes(0, 2)])
         else if k % 2 == 0 then Packed(REQCODE_POLLING_SENTINEL, [])
         else Packed(0, [LeBytes(RESULT_NOT_READY, 2)]))
  }

  lemma PollReplied(ready: bool, k: nat, recordSize: nat)
    ensures Quiet(PollReply(ready, k), recordSize) && (NotReady(PollReply(ready, k).body) <==> !ready)
  {
    hide LeBytes, LeValue, NotReady, Packed, Quiet;
    NotReadyIsExact(REQCODE_POLLING_SENTINEL, [], []);
    CodeDecides(0, 0, []);
    CodeDecides(0, RESULT_NOT_READY, []);
    assert [LeBytes(0, 2)] + [] == [LeBytes(0, 2)] && [LeBytes(RESULT_NOT_READY, 2)] + [] == [LeBytes(RESULT_NOT_READY, 2)];
    SentinelIsQuiet(recordSize);
    CodeIsQuiet(0, recordSize);
    CodeIsQuiet(RESULT_NOT_READY, recordSize);
  }

  lemma SentinelIsQuiet(recordSize: nat)
    ensures Quiet(Body(Packed(REQCODE_POLLING_SENTINEL, [])), recordSize)
  {
  }

  /** A reply that ends behind its result code brings no rows. */
  lemma CodeIsQuiet(code: nat, recordSize: nat)
    requires code < U16_LIMIT
    ensures Quiet(Body(Packed(0, [LeBytes(code, 2)])), recordSize)
  {
    hide LeBytes, LeValue, ReadRows;
    var body := Packed(0, [LeBytes(code, 2)]);
    PackOne(LeBytes(code, 2));
    assert body[7..] == Wire.Pack(LeBytes(code, 2)) + [];
    UnitRoundTrip(body, 7, LeBytes(code, 2), []);
    assert |body| == 13;
    assert UnitAt(body, 13) == Ok(None);
    assert ReadInfo(body, 13).Err?;
    assert ReadHead(body, 7).Err?;
  }

  function BlobReply(slot: Buffer, payload: Buffer): (r: Reply)
    ensures r.Body?
  {
    Body(Msg.Message(0, PackAll([slot, LeBytes(|payload|, 4), payload])))
  }
}
