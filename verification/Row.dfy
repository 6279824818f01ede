/** Row records: one null byte and a fixed-width value per column, decoded by field type. */
module Row {
  import opened Wrappers
  import opened Bytes
  import opened Schema

  /** CellValue. A double is kept as the bytes or the scaled integer it comes from. */
  datatype Cell =
    | NullCell
    | TextCell(text: Buffer)
    | Int32Cell(i32: int)
    | Int64Cell(i64: int)
    | FloatCell(raw: Buffer)
    | CurrencyCell(tenThousandths: int)
    | BoolCell(b: bool)
    | BytesCell(bytes: Buffer)
    | HandleCell(handle: Buffer)

  datatype RowError = EmptySchema | Truncated | BadNullFlag | UnsupportedField

  /** What an 8-byte IEEE double stands for, none for infinities and NaNs; and how the result of an operation is rounded. */
  datatype Ieee = Ieee(read: Buffer -> Option<real>, round: real -> real)

  const ROUNDING: real := 1.0 / 9_007_199_254_740_992.0

  /** All that is used of rounding to 53 bits: the error is at most one part in 2^53, or 2^-53 near zero. */
  ghost predicate RoundsNearly(round: real -> real) {
    forall x: real {:trigger round(x)} :: Fabs(x) <= 1.0e20 ==> Fabs(round(x) - x) <= (1.0 + Fabs(x)) * ROUNDING
  }

  // ----- numbers -----

  /** static_cast from unsigned to signed: two's complement. */
  function Signed(n: nat, limit: nat): int {
    if 2 * n >= limit then n - limit else n
  }

  function Unsigned(v: int, limit: nat): nat
    requires -(limit as int) <= 2 * v < limit
  {
    if v < 0 then v + limit else v
  }

  const DATE_TO_EPOCH: int := 719162
  const DELPHI_TO_UNIX_DAYS: int := 25569
  const MICROS_PER_DAY: int := 86_400_000_000
  const INT32_LIMIT: int := 0x8000_0000
  const INT64_LIMIT: int := 0x8000_0000_0000_0000

  function DateDays(days: nat): Cell {
    var shifted := days - DATE_TO_EPOCH;
    if shifted < -INT32_LIMIT || shifted >= INT32_LIMIT then NullCell else Int32Cell(shifted)
  }

  /** trunc: towards zero. */
  function Trunc(x: real): int {
    if x >= 0.0 then x.Floor else -((-x).Floor)
  }

  function Fabs(x: real): real {
    if x < 0.0 then -x else x
  }

  /** llround: to the nearest integer, halves away from zero. */
  function LlRound(x: real): int {
    if x >= 0.0 then (x + 0.5).Floor else -((0.5 - x).Floor)
  }

  /** A Delphi date-time as microseconds since 1970; none past the overflow guards. Two operations round. */
  function DateTimeMicros(serial: real, round: real -> real): Option<int> {
    var whole := Trunc(serial);
    if whole > 100_000_000 || whole < -100_000_000 then None
    else
      var frac := round(serial - whole as real);
      var dayMicros := LlRound(round(Fabs(frac) * 86_400_000_000.0));
      var unixDays := whole - DELPHI_TO_UNIX_DAYS;
      if unixDays > 0x100_0000_0000 || unixDays < -0x100_0000_0000 then None
      else Some(unixDays * MICROS_PER_DAY + dayMicros)
  }

  /** What rounding does to the time of day: far less than a hundredth of a microsecond. */
  lemma DayMicrosNearly(frac: real, round: real -> real)
    requires RoundsNearly(round) && Fabs(frac) < 1.0
    ensures Fabs(round(Fabs(round(frac)) * 86_400_000_000.0) - Fabs(frac) * 86_400_000_000.0) < 0.01
  {
    var g := round(frac);
    assert Fabs(g - frac) <= 2.0 * ROUNDING;
    var p := Fabs(g) * 86_400_000_000.0;
    assert Fabs(p - Fabs(frac) * 86_400_000_000.0) <= 2.0 * ROUNDING * 86_400_000_000.0;
    assert Fabs(round(p) - p) <= (1.0 + Fabs(p)) * ROUNDING;
  }

  /** The first overflow guard suffices: the second never fires and the result fits in 64 bits. */
  lemma DateTimeFits(serial: real, round: real -> real)
    requires RoundsNearly(round)
    ensures DateTimeMicros(serial, round).None? <==> Trunc(serial) > 100_000_000 || Trunc(serial) < -100_000_000
    ensures DateTimeMicros(serial, round).Some? ==> -INT64_LIMIT <= DateTimeMicros(serial, round).value < INT64_LIMIT
  {
    hide RoundsNearly;
    var frac := serial - Trunc(serial) as real;
    assert Fabs(frac) < 1.0;
    DayMicrosNearly(frac, round);
    var scaled := round(Fabs(round(frac)) * 86_400_000_000.0);
    assert -0.01 < scaled < 86_400_000_000.01;
    assert 0 <= LlRound(scaled) <= 86_400_000_001;
  }

  /** The serial number of a time of day; before 1899 the time counts away from zero. */
  function Serial(days: int, micros: nat): real {
    var f := micros as real / 86_400_000_000.0;
    if days >= 0 then days as real + f else days as real - f
  }

  const TOLERANCE: real := 0.49 / 86_400_000_000.0

  /** A stored serial number close enough to the true one: less than 0.49 microseconds off, and exact at midnight. */
  predicate Near(x: real, days: int, micros: nat) {
    Fabs(x - Serial(days, micros)) < TOLERANCE && (micros == 0 ==> x == Serial(days, micros))
  }

  /** Every microsecond of every day in range is recovered from its serial number, rounded in storage and on the way. */
  lemma DateTimeRoundTrip(days: int, micros: nat, x: real, round: real -> real)
    requires RoundsNearly(round)
    requires -100_000_000 <= days <= 100_000_000 && micros < MICROS_PER_DAY && Near(x, days, micros)
    ensures DateTimeMicros(x, round) == Some((days - DELPHI_TO_UNIX_DAYS) * MICROS_PER_DAY + micros)
  {
    hide RoundsNearly;
    var off := WholeDays(days, micros, x);
    DayMicrosNearly(x - days as real, round);
    var f := micros as real / 86_400_000_000.0;
    RoundsTo(off, f, micros, round(Fabs(round(x - days as real)) * 86_400_000_000.0));
  }

  /** The day is not lost to rounding, and the time of day is close to the true one. */
  lemma WholeDays(days: int, micros: nat, x: real) returns (off: real)
    requires micros < MICROS_PER_DAY && Near(x, days, micros)
    ensures 0.0 <= off < 1.0 && Fabs(off - micros as real / 86_400_000_000.0) < TOLERANCE
    ensures Trunc(x) == days && Fabs(x - days as real) == off
  {
    var f := micros as real / 86_400_000_000.0;
    assert f * 86_400_000_000.0 == micros as real;
    assert micros > 0 ==> f >= 2.0 * TOLERANCE;
    assert f + TOLERANCE < 1.0;
    off := if days >= 0 then x - days as real else days as real - x;
    assert 0.0 <= off < 1.0 && Fabs(off - f) < TOLERANCE;
    if days >= 0 {
      assert x.Floor == days;
    } else {
      assert (-x).Floor == -days;
    }
  }

  lemma RoundsTo(off: real, f: real, micros: nat, scaled: real)
    requires f * 86_400_000_000.0 == micros as real && Fabs(off - f) < TOLERANCE
    requires Fabs(scaled - off * 86_400_000_000.0) < 0.01
    ensures LlRound(scaled) == micros
  {
    assert -0.49 < off * 86_400_000_000.0 - micros as real < 0.49;
    assert -0.5 < scaled - micros as real < 0.5;
  }

  // ----- decoding -----

  /** The bytes before the first zero. */
  function UpToZero(b: Buffer): Buffer {
    if b == [] || b[0] == 0 then [] else [b[0]] + UpToZero(b[1..])
  }

  function DecodeField(c: Column, bytes: Buffer, ieee: Ieee): Result<Cell, RowError>
    requires |bytes| == c.max
  {
    match c.fieldType
    case Calculated => Ok(NullCell)
    case String => Ok(TextCell(UpToZero(bytes)))
    case Date => Ok(if c.max < 4 then NullCell else DateDays(LeValue(bytes[..4])))
    case DateTime =>
      if c.max < 8 || ieee.read(bytes[..8]).None? then Ok(NullCell)
      else
        var micros := DateTimeMicros(ieee.read(bytes[..8]).value, ieee.round);
        Ok(if micros.None? then NullCell else Int64Cell(micros.value))
    case Time => Ok(if c.max < 4 then NullCell else Int64Cell(LeValue(bytes[..4]) * 1000))
    case Integer => Ok(if c.max < 4 then NullCell else Int32Cell(Signed(LeValue(bytes[..4]), U32_LIMIT)))
    case AutoInc => Ok(if c.max < 4 then NullCell else Int32Cell(Signed(LeValue(bytes[..4]), U32_LIMIT)))
    case Smallint => Ok(if c.max < 2 then NullCell else Int32Cell(Signed(LeValue(bytes[..2]), U16_LIMIT)))
    case Largeint => Ok(if c.max < 8 then NullCell else Int64Cell(Signed(LeValue(bytes[..8]), U64_LIMIT)))
    case Boolean => Ok(if c.max < 2 then NullCell else BoolCell(LeValue(bytes[..2]) != 0))
    case Float => Ok(if c.max < 8 then NullCell else FloatCell(bytes[..8]))
    case Currency => Ok(if c.max < 8 then NullCell else CurrencyCell(Signed(LeValue(bytes[..8]), U64_LIMIT)))
    case Blob => Ok(if c.max < 8 then NullCell else HandleCell(bytes[..8]))
    case Memo => Ok(if c.max < 8 then NullCell else HandleCell(bytes[..8]))
    case Graphic => Ok(if c.max < 8 then NullCell else HandleCell(bytes[..8]))
    case BytesField => Ok(BytesCell(bytes))
    case VarBytes => Ok(BytesCell(bytes))
    case Unknown => Err(UnsupportedField)
  }

  /** One column of a record; an offset below the first column's wraps around and lies past any end. */
  function DecodeColumn(record: Buffer, first: nat, c: Column, ieee: Ieee): Result<Cell, RowError> {
    if c.rowOffset < first || c.rowOffset - first >= |record| then Err(Truncated)
    else
      var at := c.rowOffset - first;
      if record[at] == 0 then Ok(NullCell)
      else if record[at] != 1 then Err(BadNullFlag)
      else if at + 1 + c.max > |record| then Err(Truncated)
      else DecodeField(c, record[at + 1..at + 1 + c.max], ieee)
  }

  function DecodeColumns(record: Buffer, first: nat, columns: seq<Column>, ieee: Ieee): (r: Result<seq<Cell>, RowError>)
    ensures r.Ok? ==> |r.value| == |columns|
  {
    if columns == [] then Ok([])
    else
      var cell :- DecodeColumn(record, first, columns[0], ieee);
      var rest :- DecodeColumns(record, first, columns[1..], ieee);
      Ok([cell] + rest)
  }

  function DecodeRecord(record: Buffer, columns: seq<Column>, ieee: Ieee): (r: Result<seq<Cell>, RowError>)
    ensures r.Ok? ==> |r.value| == |columns|
  {
    if columns == [] then Err(EmptySchema) else DecodeColumns(record, columns[0].rowOffset, columns, ieee)
  }

  lemma {:induction false} DecodeColumnsAppend(record: Buffer, first: nat, a: seq<Column>, b: seq<Column>, ieee: Ieee)
    ensures DecodeColumns(record, first, a + b, ieee)
         == match DecodeColumns(record, first, a, ieee)
            case Err(e) => Err(e)
            case Ok(x) =>
              match DecodeColumns(record, first, b, ieee)
              case Err(e) => Err(e)
              case Ok(y) => Ok(x + y)
  {
    hide DecodeColumn;
    if a == [] {
      assert a + b == b;
      if DecodeColumns(record, first, b, ieee).Ok? {
        assert [] + DecodeColumns(record, first, b, ieee).value == DecodeColumns(record, first, b, ieee).value;
      }
    } else {
      DecodeColumnsAppend(record, first, a[1..], b, ieee);
      assert (a + b)[1..] == a[1..] + b && (a + b)[0] == a[0];
      var cell := DecodeColumn(record, first, a[0], ieee);
      var x, y := DecodeColumns(record, first, a[1..], ieee), DecodeColumns(record, first, b, ieee);
      if cell.Ok? && x.Ok? && y.Ok? {
        assert [cell.value] + (x.value + y.value) == [cell.value] + x.value + y.value;
      }
    }
  }

  method DecodeString(bytes: Buffer) returns (r: Cell)
    ensures r == TextCell(UpToZero(bytes))
  {
    var end := |bytes|;
    for i := 0 to |bytes|
      invariant forall k :: 0 <= k < i ==> bytes[k] != 0
      invariant end == |bytes|
    {
      if bytes[i] == 0 {
        end := i;
        break;
      }
    }
    UpToZeroIs(bytes, end);
    return TextCell(bytes[..end]);
  }

  lemma {:induction false} UpToZeroIs(b: Buffer, end: nat)
    requires end <= |b| && (end < |b| ==> b[end] == 0)
    requires forall k :: 0 <= k < end ==> b[k] != 0
    ensures UpToZero(b) == b[..end]
  {
    if end > 0 {
      UpToZeroIs(b[1..], end - 1);
      assert b[..end] == [b[0]] + b[1..][..end - 1];
    }
  }

  /** decode_record: columns in order, stopping at the first that cannot be read. */
  method DecodeRecordOf(record: Buffer, columns: seq<Column>, ieee: Ieee) returns (r: Result<seq<Cell>, RowError>)
    ensures r == DecodeRecord(record, columns, ieee)
  {
    hide DecodeColumn, DecodeColumns;
    if columns == [] { return Err(EmptySchema); }
    var first := columns[0].rowOffset;
    var out: seq<Cell> := [];
    NoColumns(record, first, ieee);
    for i := 0 to |columns|
      invariant DecodeColumns(record, first, columns[..i], ieee) == Ok(out)
    {
      ColumnStep(record, first, columns, i, ieee);
      var cell := DecodeColumnOf(record, first, columns[i], ieee);
      if cell.Err? { return Err(cell.error); }
      out := out + [cell.value];
    }
    assert columns[..|columns|] == columns;
    return Ok(out);
  }

  /** One turn of the loop: the null byte, then the value. */
  method DecodeColumnOf(record: Buffer, first: nat, c: Column, ieee: Ieee) returns (r: Result<Cell, RowError>)
    ensures r == DecodeColumn(record, first, c, ieee)
  {
    if c.rowOffset < first || c.rowOffset - first >= |record| { return Err(Truncated); }
    var at := c.rowOffset - first;
    var flag := record[at];
    if flag == 0 { return Ok(NullCell); }
    if flag != 1 { return Err(BadNullFlag); }
    if at + 1 + c.max > |record| { return Err(Truncated); }
    var bytes := record[at + 1..at + 1 + c.max];
    if c.fieldType.String? {
      var cell := DecodeString(bytes);
      return Ok(cell);
    }
    return DecodeField(c, bytes, ieee);
  }

  lemma NoColumns(record: Buffer, first: nat, ieee: Ieee)
    ensures DecodeColumns(record, first, [], ieee) == Ok([])
  {
  }

  lemma ColumnStep(record: Buffer, first: nat, columns: seq<Column>, i: nat, ieee: Ieee)
    requires i < |columns| && DecodeColumns(record, first, columns[..i], ieee).Ok?
    ensures DecodeColumn(record, first, columns[i], ieee).Ok? ==>
              DecodeColumns(record, first, columns[..i + 1], ieee)
              == Ok(DecodeColumns(record, first, columns[..i], ieee).value + [DecodeColumn(record, first, columns[i], ieee).value])
    ensures DecodeColumn(record, first, columns[i], ieee).Err? ==>
              DecodeColumns(record, first, columns, ieee) == Err(DecodeColumn(record, first, columns[i], ieee).error)
  {
    hide DecodeColumn;
    var one := [columns[i]];
    assert one[1..] == [];
    assert DecodeColumns(record, first, [], ieee) == Ok([]);
    var cell := DecodeColumn(record, first, columns[i], ieee);
    assert cell.Ok? ==> [cell.value] + [] == [cell.value];
    DecodeColumnsAppend(record, first, columns[..i], one, ieee);
    assert columns[..i + 1] == columns[..i] + one;
    DecodeColumnsAppend(record, first, columns[..i + 1], columns[i + 1..], ieee);
    assert columns == columns[..i + 1] + columns[i + 1..];
  }

  // ----- round trip -----

  /** Columns that follow each other without gap or overlap, from a given offset on. */
  predicate Contiguous(columns: seq<Column>, off: nat) {
    columns == [] || (columns[0].rowOffset == off && Contiguous(columns[1..], off + 1 + columns[0].max))
  }

  predicate ZeroFree(s: Buffer) {
    forall i :: 0 <= i < |s| ==> s[i] != 0
  }

  /** How doubles are read, and how a writer stores a serial number. */
  datatype Doubles = Doubles(ieee: Ieee, write: real -> Buffer)

  function MicrosDays(v: int): int {
    v / MICROS_PER_DAY + DELPHI_TO_UNIX_DAYS
  }

  /** A time whose serial number the writer stores in eight bytes, close enough to it. */
  ghost predicate Storable(v: int, doubles: Doubles) {
    var days, micros := MicrosDays(v), v % MICROS_PER_DAY;
    var raw := doubles.write(Serial(days, micros));
    && -100_000_000 <= days <= 100_000_000
    && RoundsNearly(doubles.ieee.round)
    && |raw| == 8 && doubles.ieee.read(raw).Some? && Near(doubles.ieee.read(raw).value, days, micros)
  }

  /** Cells a column can hold without loss. */
  ghost predicate Encodable(c: Column, cell: Cell, doubles: Doubles) {
    c.max < 256 &&
    match cell
    case NullCell => true
    case TextCell(s) => c.fieldType.String? && |s| <= c.max && ZeroFree(s)
    case Int32Cell(v) =>
      ((c.fieldType.Integer? || c.fieldType.AutoInc?) && c.max >= 4 && -INT32_LIMIT <= v < INT32_LIMIT)
      || (c.fieldType.Smallint? && c.max >= 2 && -0x8000 <= v < 0x8000)
      || (c.fieldType.Date? && c.max >= 4 && -DATE_TO_EPOCH <= v < INT32_LIMIT)
    case Int64Cell(v) =>
      (c.fieldType.Largeint? && c.max >= 8 && -INT64_LIMIT <= v < INT64_LIMIT)
      || (c.fieldType.Time? && c.max >= 4 && v % 1000 == 0 && 0 <= v / 1000 < U32_LIMIT)
      || (c.fieldType.DateTime? && c.max >= 8 && Storable(v, doubles))
    case FloatCell(raw) => c.fieldType.Float? && c.max >= 8 && |raw| == 8
    case CurrencyCell(v) => c.fieldType.Currency? && c.max >= 8 && -INT64_LIMIT <= v < INT64_LIMIT
    case BoolCell(_) => c.fieldType.Boolean? && c.max >= 2
    case BytesCell(b) => (c.fieldType.BytesField? || c.fieldType.VarBytes?) && |b| == c.max
    case HandleCell(h) => (c.fieldType.Blob? || c.fieldType.Memo? || c.fieldType.Graphic?) && c.max >= 8 && |h| == 8
  }

  ghost function ValueBytes(c: Column, cell: Cell, doubles: Doubles): (b: Buffer)
    requires Encodable(c, cell, doubles)
    ensures |b| <= c.max
  {
    match cell
    case NullCell => []
    case TextCell(s) => s
    case Int32Cell(v) =>
      if c.fieldType.Date? then LeBytes(v + DATE_TO_EPOCH, 4)
      else if c.fieldType.Smallint? then LeBytes(Unsigned(v, U16_LIMIT), 2)
      else LeBytes(Unsigned(v, U32_LIMIT), 4)
    case Int64Cell(v) =>
      if c.fieldType.Time? then LeBytes(v / 1000, 4)
      else if c.fieldType.DateTime? then doubles.write(Serial(MicrosDays(v), v % MICROS_PER_DAY))
      else LeBytes(Unsigned(v, U64_LIMIT), 8)
    case FloatCell(raw) => raw
    case CurrencyCell(v) => LeBytes(Unsigned(v, U64_LIMIT), 8)
    case BoolCell(b) => if b then [0xFF, 0xFF] else [0, 0]
    case BytesCell(b) => b
    case HandleCell(h) => h
  }

  /** The null byte and the zero-padded value. */
  ghost function EncodeCell(c: Column, cell: Cell, doubles: Doubles): (b: Buffer)
    requires Encodable(c, cell, doubles)
    ensures |b| == 1 + c.max
  {
    var v := ValueBytes(c, cell, doubles);
    [if cell.NullCell? then 0 else 1] + v + Zeros(c.max - |v|)
  }

  ghost function EncodeRow(columns: seq<Column>, cells: seq<Cell>, doubles: Doubles): Buffer
    requires |cells| == |columns| && forall i :: 0 <= i < |columns| ==> Encodable(columns[i], cells[i], doubles)
  {
    if columns == [] then [] else EncodeCell(columns[0], cells[0], doubles) + EncodeRow(columns[1..], cells[1..], doubles)
  }

  lemma {:induction false} UpToZeroPadded(s: Buffer, pad: nat)
    requires ZeroFree(s)
    ensures UpToZero(s + Zeros(pad)) == s
  {
    UpToZeroIs(s + Zeros(pad), |s|);
  }

  lemma FieldRoundTrip(c: Column, cell: Cell, doubles: Doubles)
    requires Encodable(c, cell, doubles) && !cell.NullCell?
    ensures DecodeField(c, EncodeCell(c, cell, doubles)[1..], doubles.ieee) == Ok(cell)
  {
    hide LeBytes, LeValue, UpToZero, Storable, Serial, DateTimeMicros, MicrosDays;
    var v := ValueBytes(c, cell, doubles);
    var bytes := EncodeCell(c, cell, doubles)[1..];
    assert EncodeCell(c, cell, doubles) == [1] + v + Zeros(c.max - |v|);
    assert bytes == v + Zeros(c.max - |v|);
    assert bytes[..|v|] == v;
    assert |v| == c.max ==> bytes == v;
    PowersOf256();
    match cell
    case TextCell(s) => UpToZeroPadded(s, c.max - |s|);
    case Int32Cell(n) =>
      if c.fieldType.Date? {
        LeRoundTrip(n + DATE_TO_EPOCH, 4);
      } else if c.fieldType.Smallint? {
        LeRoundTrip(Unsigned(n, U16_LIMIT), 2);
      } else {
        LeRoundTrip(Unsigned(n, U32_LIMIT), 4);
      }
    case Int64Cell(n) =>
      if c.fieldType.Time? {
        LeRoundTrip(n / 1000, 4);
      } else if c.fieldType.DateTime? {
        StoredDateTime(n, doubles);
      } else {
        LeRoundTrip(Unsigned(n, U64_LIMIT), 8);
      }
    case CurrencyCell(n) => LeRoundTrip(Unsigned(n, U64_LIMIT), 8);
    case BoolCell(b) => BoolBytes();
    case _ =>
  }

  lemma StoredDateTime(v: int, doubles: Doubles)
    requires Storable(v, doubles)
    ensures var raw := doubles.write(Serial(MicrosDays(v), v % MICROS_PER_DAY));
            |raw| == 8 && doubles.ieee.read(raw).Some? && DateTimeMicros(doubles.ieee.read(raw).value, doubles.ieee.round) == Some(v)
  {
    hide Near, Serial, DateTimeMicros;
    var days, micros := MicrosDays(v), v % MICROS_PER_DAY;
    DateTimeRoundTrip(days, micros, doubles.ieee.read(doubles.write(Serial(days, micros))).value, doubles.ieee.round);
  }

  lemma BoolBytes()
    ensures LeValue([0xFF, 0xFF]) == 0xFFFF && LeValue([0, 0]) == 0
  {
    assert [0xFF as Byte, 0xFF][1..] == [0xFF as Byte] && [0 as Byte, 0][1..] == [0 as Byte];
    assert LeValue([0xFF]) == 0xFF && LeValue([0]) == 0;
  }

  lemma ColumnRoundTrip(pre: Buffer, c: Column, cell: Cell, rest: Buffer, first: nat, doubles: Doubles)
    requires Encodable(c, cell, doubles) && c.rowOffset == first + |pre|
    ensures DecodeColumn(pre + EncodeCell(c, cell, doubles) + rest, first, c, doubles.ieee) == Ok(cell)
  {
    hide DecodeField, Encodable, ValueBytes;
    var head := EncodeCell(c, cell, doubles);
    var record := pre + head + rest;
    var at := |pre|;
    assert record[at] == head[0];
    assert record[at + 1..at + 1 + c.max] == head[1..];
    if !cell.NullCell? {
      FieldRoundTrip(c, cell, doubles);
    }
  }

  lemma {:induction false} ColumnsRoundTrip(pre: Buffer, first: nat, columns: seq<Column>, cells: seq<Cell>, doubles: Doubles)
    requires |cells| == |columns| && forall i :: 0 <= i < |columns| ==> Encodable(columns[i], cells[i], doubles)
    requires Contiguous(columns, first + |pre|)
    ensures DecodeColumns(pre + EncodeRow(columns, cells, doubles), first, columns, doubles.ieee) == Ok(cells)
    decreases |columns|
  {
    hide DecodeColumn, Encodable, EncodeCell;
    if columns != [] {
      var head, rest := EncodeCell(columns[0], cells[0], doubles), EncodeRow(columns[1..], cells[1..], doubles);
      assert pre + EncodeRow(columns, cells, doubles) == pre + head + rest;
      ColumnRoundTrip(pre, columns[0], cells[0], rest, first, doubles);
      ColumnsRoundTrip(pre + head, first, columns[1..], cells[1..], doubles);
      assert cells == [cells[0]] + cells[1..];
    }
  }

  /** Encoding a row and decoding it is the identity, for any schema of contiguous columns. */
  lemma {:induction false} RowRoundTrip(columns: seq<Column>, cells: seq<Cell>, doubles: Doubles)
    requires columns != [] && Contiguous(columns, columns[0].rowOffset)
    requires |cells| == |columns| && forall i :: 0 <= i < |columns| ==> Encodable(columns[i], cells[i], doubles)
    ensures DecodeRecord(EncodeRow(columns, cells, doubles), columns, doubles.ieee) == Ok(cells)
  {
    ColumnsRoundTrip([], columns[0].rowOffset, columns, cells, doubles);
    assert [] + EncodeRow(columns, cells, doubles) == EncodeRow(columns, cells, doubles);
  }

  /** compute_record_size; a schema has at least one column. */
  function RecordSize(columns: seq<Column>): Result<nat, RowError> {
    if columns == [] then Err(EmptySchema)
    else
      var last := columns[|columns| - 1];
      Ok(last.rowOffset + last.max + 1)
  }

  /** The record size is where the last contiguous column ends. */
  lemma {:induction false} RecordSizeIsEnd(columns: seq<Column>, off: nat, cells: seq<Cell>, doubles: Doubles)
    requires columns != [] && Contiguous(columns, off)
    requires |cells| == |columns| && forall i :: 0 <= i < |columns| ==> Encodable(columns[i], cells[i], doubles)
    ensures RecordSize(columns) == Ok(off + |EncodeRow(columns, cells, doubles)|)
    decreases |columns|
  {
    if |columns| > 1 {
      RecordSizeIsEnd(columns[1..], off + 1 + columns[0].max, cells[1..], doubles);
    } else {
      assert columns[1..] == [];
    }
  }

  lemma {:induction false} ContiguousRanges(columns: seq<Column>, off: nat, i: nat, j: nat)
    requires Contiguous(columns, off) && i < j < |columns|
    ensures off <= columns[i].rowOffset
    ensures columns[i].rowOffset + 1 + columns[i].max <= columns[j].rowOffset
    decreases |columns|
  {
    if i > 0 {
      ContiguousRanges(columns[1..], off + 1 + columns[0].max, i - 1, j - 1);
    } else if j > 1 {
      ContiguousRanges(columns[1..], off + 1 + columns[0].max, 0, j - 1);
    }
  }

  /**
   * No column reads another's bytes: changing the null byte or value of one contiguous column,
   * in any way, leaves what every other column decodes to unchanged.
   */
  lemma ColumnsAreIndependent(columns: seq<Column>, i: nat, j: nat, record: Buffer, other: Buffer, ieee: Ieee)
    requires i < |columns| && j < |columns| && i != j && Contiguous(columns, columns[0].rowOffset)
    requires |record| == |other|
    requires var at := columns[i].rowOffset - columns[0].rowOffset;
             forall k :: 0 <= k < |record| && !(at <= k < at + 1 + columns[i].max) ==> record[k] == other[k]
    ensures DecodeColumn(record, columns[0].rowOffset, columns[j], ieee) == DecodeColumn(other, columns[0].rowOffset, columns[j], ieee)
  {
    hide DecodeField;
    if i < j {
      ContiguousRanges(columns, columns[0].rowOffset, i, j);
    } else {
      ContiguousRanges(columns, columns[0].rowOffset, j, i);
    }
    var first, c := columns[0].rowOffset, columns[j];
    var at := c.rowOffset - first;
    if c.rowOffset >= first && at + 1 + c.max <= |record| {
      assert record[at + 1..at + 1 + c.max] == other[at + 1..at + 1 + c.max];
    }
  }
}
