/** The column blocks of a schema response: 772 bytes each, numbered from 1. */
module Schema {
  import opened Wrappers
  import opened Bytes

  datatype FieldType =
    | Calculated | String | Date | Blob | Memo | Graphic | Boolean | Smallint | Integer | AutoInc
    | Currency | Float | BytesField | Time | DateTime | VarBytes | Largeint | Unknown

  datatype Column = Column(
    ord: nat,
    name: Buffer,
    fieldType: FieldType,
    subRaw: Byte,
    byteA8: Byte,
    byte250: Byte,
    decl: Byte,
    max: Byte,
    rowOffset: nat)

  datatype SchemaError = NoMarker | NoColumns

  const STRIDE: nat := 772
  const MAX_NAME: nat := 161

  function FieldTypeFromSub(sub: Byte, a8: Byte, b250: Byte): FieldType {
    match sub
    case 0 => Calculated
    case 1 => String
    case 2 => Date
    case 3 => if a8 == 0x00 then Blob else if a8 == 0x16 then Memo else if a8 == 0x1A then Graphic else Unknown
    case 4 => Boolean
    case 5 => Smallint
    case 6 => if a8 == 0x1D then AutoInc else Integer
    case 7 => if b250 == 0x0A then Currency else Float
    case 9 => BytesField
    case 10 => Time
    case 11 => DateTime
    case 15 => VarBytes
    case 18 => Largeint
    case _ => Unknown
  }

  /** Which codes stand for a type: its own sub-type code, and where several types share one, the byte that tells them apart. */
  predicate Denotes(sub: Byte, a8: Byte, b250: Byte, ft: FieldType) {
    match ft
    case Calculated => sub == 0
    case String => sub == 1
    case Date => sub == 2
    case Blob => sub == 3 && a8 == 0x00
    case Memo => sub == 3 && a8 == 0x16
    case Graphic => sub == 3 && a8 == 0x1A
    case Boolean => sub == 4
    case Smallint => sub == 5
    case Integer => sub == 6 && a8 != 0x1D
    case AutoInc => sub == 6 && a8 == 0x1D
    case Currency => sub == 7 && b250 == 0x0A
    case Float => sub == 7 && b250 != 0x0A
    case BytesField => sub == 9
    case Time => sub == 10
    case DateTime => sub == 11
    case VarBytes => sub == 15
    case Largeint => sub == 18
    case Unknown => sub in {8, 12, 13, 14, 16, 17} || sub > 18 || (sub == 3 && a8 !in {0x00, 0x16, 0x1A})
  }

  /** Every triple of codes denotes exactly one type, the one it is read as. */
  lemma TypesAreDenoted(sub: Byte, a8: Byte, b250: Byte, ft: FieldType)
    ensures Denotes(sub, a8, b250, ft) <==> FieldTypeFromSub(sub, a8, b250) == ft
  {
  }

  /** Marker, ordinal 1 and a non-zero name length. */
  predicate MarkerAt(payload: Buffer, i: nat) {
    i + 6 <= |payload| && payload[i..i + 5] == [0x03, 0x00, 0x00, 0x01, 0x00] && payload[i + 5] > 0
  }

  /** One block; none if it does not start with the marker or has no name. */
  function ParseBlock(block: Buffer): Option<Column>
    requires |block| == STRIDE
  {
    if block[..3] != [0x03, 0x00, 0x00] || block[5] == 0 then None
    else
      var len: int := block[5];
      Some(Column(LeValue(block[3..5]), block[6..6 + len], FieldTypeFromSub(block[0xA7], block[0xA8], block[0x250]),
                  block[0xA7], block[0xA8], block[0x250], block[0xA9], block[0xAC], LeValue(block[0xAF..0xB1])))
  }

  /** Consecutive blocks with consecutive ordinals, and the offset of the first byte that is none. */
  function ParseBlocks(payload: Buffer, off: nat, ord: nat): (r: (seq<Column>, nat))
    decreases |payload| - off
  {
    if off + STRIDE > |payload| then ([], off)
    else
      var col := ParseBlock(payload[off..off + STRIDE]);
      if col.None? || col.value.ord != ord then ([], off)
      else
        var (rest, end) := ParseBlocks(payload, off + STRIDE, (ord + 1) % U16_LIMIT);
        ([col.value] + rest, end)
  }

  /** The first marker from an offset on. */
  function FirstMarker(payload: Buffer, from: nat): (r: Option<nat>)
    ensures r.Some? ==> r.value >= from && MarkerAt(payload, r.value) && forall i :: from <= i < r.value ==> !MarkerAt(payload, i)
    ensures r.None? ==> forall i :: from <= i ==> !MarkerAt(payload, i)
    decreases |payload| - from
  {
    if from + 6 > |payload| then None
    else if MarkerAt(payload, from) then Some(from)
    else FirstMarker(payload, from + 1)
  }

  /** parse_schema as a function. */
  function Parse(payload: Buffer): Result<(seq<Column>, nat), SchemaError> {
    var first := FirstMarker(payload, 0);
    if first.None? then Err(NoMarker)
    else
      var (columns, end) := ParseBlocks(payload, first.value, 1);
      if columns == [] then Err(NoColumns) else Ok((columns, end))
  }

  method FindFirstBlockStart(payload: Buffer) returns (r: Result<nat, SchemaError>)
    ensures r == if FirstMarker(payload, 0).None? then Err(NoMarker) else Ok(FirstMarker(payload, 0).value)
  {
    var i := 0;
    while i + 6 <= |payload|
      invariant FirstMarker(payload, 0) == FirstMarker(payload, i)
      decreases |payload| - i
    {
      if payload[i..i + 5] == [0x03, 0x00, 0x00, 0x01, 0x00] && payload[i + 5] > 0 {
        return Ok(i);
      }
      i := i + 1;
    }
    return Err(NoMarker);
  }

  /** parse_schema: the columns from the first marker on, and the offset just past the last block. */
  method ParseSchema(payload: Buffer) returns (r: Result<(seq<Column>, nat), SchemaError>)
    ensures r == Parse(payload)
  {
    var first := FindFirstBlockStart(payload);
    if first.Err? { return Err(first.error); }
    var columns: seq<Column> := [];
    var off := first.value;
    var expected: nat := 1;
    ghost var all := ParseBlocks(payload, off, expected);
    assert columns + all.0 == all.0;
    while off + STRIDE <= |payload|
      invariant all == (columns + ParseBlocks(payload, off, expected).0, ParseBlocks(payload, off, expected).1)
      decreases |payload| - off
    {
      var col := ParseBlock(payload[off..off + STRIDE]);
      if col.None? { break; }
      if col.value.ord != expected { break; }
      ghost var rest := ParseBlocks(payload, off + STRIDE, (expected + 1) % U16_LIMIT).0;
      assert columns + ([col.value] + rest) == columns + [col.value] + rest;
      columns := columns + [col.value];
      expected := (expected + 1) % U16_LIMIT;
      off := off + STRIDE;
    }
    assert columns + [] == columns;
    if columns == [] { return Err(NoColumns); }
    return Ok((columns, off));
  }

  // ----- round trip -----

  /** A block that carries a column: its bytes outside the named places may be anything. */
  predicate BlockOf(block: Buffer, c: Column) {
    && |block| == STRIDE && 1 <= |c.name| <= MAX_NAME && c.ord < U16_LIMIT && c.rowOffset < U16_LIMIT
    && block[..3] == [0x03, 0x00, 0x00] && block[3..5] == LeBytes(c.ord, 2) && block[5] == |c.name|
    && block[6..6 + |c.name|] == c.name
    && block[0xA7] == c.subRaw && block[0xA8] == c.byteA8 && block[0xA9] == c.decl && block[0xAC] == c.max
    && block[0xAF..0xB1] == LeBytes(c.rowOffset, 2) && block[0x250] == c.byte250
    && c.fieldType == FieldTypeFromSub(c.subRaw, c.byteA8, c.byte250)
  }

  lemma BlockParses(block: Buffer, c: Column)
    requires BlockOf(block, c)
    ensures ParseBlock(block) == Some(c)
  {
    LeRoundTrip16(c.ord);
    LeRoundTrip16(c.rowOffset);
  }

  /** The columns from the k-th on, laid out as consecutive blocks with ordinals k+1, k+2 and so on. */
  predicate LaidOut(payload: Buffer, off: nat, columns: seq<Column>, ord: nat)
    decreases |columns|
  {
    columns == []
    || (off + STRIDE <= |payload| && BlockOf(payload[off..off + STRIDE], columns[0]) && columns[0].ord == ord
        && LaidOut(payload, off + STRIDE, columns[1..], ord + 1))
  }

  /** What follows is not one more block with the next ordinal. */
  predicate Stops(payload: Buffer, off: nat, ord: nat) {
    off + STRIDE > |payload| || ParseBlock(payload[off..off + STRIDE]).None?
    || ParseBlock(payload[off..off + STRIDE]).value.ord != ord % U16_LIMIT
  }

  lemma {:induction false} BlocksParse(payload: Buffer, off: nat, columns: seq<Column>, ord: nat)
    requires LaidOut(payload, off, columns, ord) && ord + |columns| <= U16_LIMIT
    requires Stops(payload, off + STRIDE * |columns|, ord + |columns|)
    ensures ParseBlocks(payload, off, ord % U16_LIMIT) == (columns, off + STRIDE * |columns|)
    decreases |columns|
  {
    if columns != [] {
      BlockParses(payload[off..off + STRIDE], columns[0]);
      BlocksParse(payload, off + STRIDE, columns[1..], ord + 1);
      assert columns == [columns[0]] + columns[1..];
    }
  }

  /**
   * For any 1 to 65535 columns laid out as blocks behind a prefix without an earlier marker and in
   * front of a tail that does not continue the ordinals, parse_schema returns exactly those columns and
   * the offset just past the last one.
   */
  lemma SchemaRoundTrip(payload: Buffer, first: nat, columns: seq<Column>)
    requires 1 <= |columns| < U16_LIMIT && LaidOut(payload, first, columns, 1)
    requires Stops(payload, first + STRIDE * |columns|, 1 + |columns|)
    requires forall i :: 0 <= i < first ==> !MarkerAt(payload, i)
    ensures Parse(payload) == Ok((columns, first + STRIDE * |columns|))
  {
    hide BlockOf, ParseBlock;
    BlocksParse(payload, first, columns, 1);
    FirstBlockIsMarked(payload, first, columns[0]);
  }

  lemma FirstBlockIsMarked(payload: Buffer, first: nat, c: Column)
    requires first + STRIDE <= |payload| && BlockOf(payload[first..first + STRIDE], c) && c.ord == 1
    ensures MarkerAt(payload, first)
  {
    hide FieldTypeFromSub;
    var block := payload[first..first + STRIDE];
    SliceOfSlice(payload, first, first + STRIDE, 0, 3);
    SliceOfSlice(payload, first, first + STRIDE, 3, 5);
    assert payload[first..first + 5] == payload[first..first + 3] + payload[first + 3..first + 5];
    LittleOne();
    assert payload[first + 5] == block[5];
  }

  lemma LittleOne()
    ensures LeBytes(1, 2) == [1, 0]
  {
    assert LeBytes(0, 1) == [0];
  }

  /** Whatever is parsed is numbered from 1 without a gap and ends one stride after its last block. */
  lemma {:induction false} ParsedAreNumbered(payload: Buffer, off: nat, ord: nat)
    requires ord < U16_LIMIT
    ensures var (columns, end) := ParseBlocks(payload, off, ord);
            && end == off + STRIDE * |columns|
            && (columns != [] ==> end <= |payload|)
            && forall i :: 0 <= i < |columns| ==> columns[i].ord == (ord + i) % U16_LIMIT
    decreases |payload| - off
  {
    var (columns, end) := ParseBlocks(payload, off, ord);
    if columns != [] {
      var next := (ord + 1) % U16_LIMIT;
      ParsedAreNumbered(payload, off + STRIDE, next);
      var (rest, _) := ParseBlocks(payload, off + STRIDE, next);
      forall i | 0 <= i < |columns|
        ensures columns[i].ord == (ord + i) % U16_LIMIT
      {
        if i > 0 {
          assert columns[i] == rest[i - 1];
          WrapAdd(ord, i - 1);
        }
      }
    }
  }

  lemma WrapAdd(ord: nat, i: nat)
    ensures ((ord + 1) % U16_LIMIT + i) % U16_LIMIT == (ord + 1 + i) % U16_LIMIT
  {
  }
}
