/** Scans over the sample server: counting a table and streaming it give the same vectors, and any SELECT can be answered. */
module SampleScans {
  import opened Wrappers
  import opened Bytes
  import opened Schema
  import opened Row
  import opened Transports
  import opened Client
  import opened DecodedStream
  import opened Query
  import opened AttachedScan
  import opened SampleTables
  import opened SampleServer
  import opened DbisamSql
  import opened Statements
  import Projection
  import TableScan

  const COUNT_COLUMN: Column := Column(1, [0x43], Integer, 6, 0, 0, 0, 4, 0)

  /** The one row of a COUNT statement's result: its null byte and the number. */
  function CountRow(n: nat): (row: Buffer)
    ensures |row| == 5
  {
    [1] + LeBytes(n, 4)
  }

  function CountResult(n: nat, like: Table): Table
    requires n < INT32_LIMIT
  {
    Table([COUNT_COLUMN], [(CountRow(n), [])], 0, like.info, (_, _, _, _) => [], 0)
  }

  lemma CountFits(n: nat, like: Table)
    requires n < INT32_LIMIT && like.Fits()
    ensures CountResult(n, like).Fits()
  {
    var t := CountResult(n, like);
    assert ColumnFits(COUNT_COLUMN, 1);
    assert t.Width() == 5;
  }

  /** The count can be read off the row. */
  lemma CountDecodes(n: nat, ieee: Ieee)
    requires n < INT32_LIMIT
    ensures DecodeRow([COUNT_COLUMN], CountRow(n), ieee) == Ok([Int32Cell(n)])
  {
    hide LeBytes;
    var columns, cells, doubles := [COUNT_COLUMN], [Int32Cell(n)], Doubles(ieee, _ => []);
    assert columns[1..] == [] && cells[1..] == [];
    assert Contiguous(columns, 0);
    assert EncodeCell(COUNT_COLUMN, Int32Cell(n), doubles) == CountRow(n);
    assert EncodeRow(columns, cells, doubles) == CountRow(n) + [] == CountRow(n);
    RowRoundTrip(columns, cells, doubles);
    assert CountRow(n)[0..5] == CountRow(n);
  }

  /**
   * For every table that fits into replies: a server that knows it and a COUNT statement over it, and refuses
   * reads outside a session, lets both the counted and the streamed scan complete, with the same vectors.
   */
  method CountedAsStreamed(t: Table, countSql: string, sql: string, o: Settings, batch: nat, outputs: seq<Option<nat>>, width: nat)
    returns (counted: Result<seq<seq<OutCell>>, QueryError>, streamed: Result<seq<seq<OutCell>>, QueryError>)
    requires t.Fits() && |t.rows| < INT32_LIMIT && countSql != sql
    requires batch > 0 && forall c :: 0 <= c < |outputs| ==> outputs[c].None?
    requires HasBlobColumn(t.columns) ==> GoodLength(t.columns[0].max, o.slotLength)
    requires o.lenient || AllDecode(t.columns, t.rows, o.ieee)
    ensures counted.Ok? && streamed.Ok? && counted.value == streamed.value
  {
    hide Yields, KeepsBlobs, Completes, Prepared, Serve, Serves, CountResult, CountIn;
    var answer := CountResult(|t.rows|, t);
    var db := map[countSql := answer, sql := t];
    BothServed(t, countSql, sql, o);
    counted, streamed := CountAgainstScan(Serve(db), countSql, sql, o, batch, outputs, width,
                                          t.blobs, answer.rows, |answer.rows| + 1, t.rows, |t.rows| + 1);
  }

  lemma BothServed(t: Table, countSql: string, sql: string, o: Settings)
    requires t.Fits() && |t.rows| < INT32_LIMIT && countSql != sql
    requires HasBlobColumn(t.columns) ==> GoodLength(t.columns[0].max, o.slotLength)
    requires o.lenient || AllDecode(t.columns, t.rows, o.ieee)
    ensures var answer := CountResult(|t.rows|, t);
            var db := map[countSql := answer, sql := t];
            && Yields(Serve(db), [], countSql, answer.rows, |answer.rows| + 1)
            && Yields(Serve(db), [], sql, t.rows, |t.rows| + 1) && KeepsBlobs(Serve(db), [], sql, o, t.rows, t.blobs)
            && Completes(Serve(db), [], countSql, o, answer.rows) && Completes(Serve(db), [], sql, o, t.rows)
            && CountIn(DecodingOf(o, Prepared(Serve(db), [], countSql).value), answer.rows) == Some(|t.rows|)
  {
    hide Yields, KeepsBlobs, Completes, Prepared, Serve, CountResult, CountIn, AllDecode, HasBlobColumn;
    var answer := CountResult(|t.rows|, t);
    var db := map[countSql := answer, sql := t];
    CountFits(|t.rows|, t);
    CountAnswer(|t.rows|, t, o);
    assert t.columns != [] by { assert t.Fits(); }
    assert Serves(db);
    SampleServes(db, countSql, o);
    SampleServes(db, sql, o);
  }

  lemma CountAnswer(n: nat, like: Table, o: Settings)
    requires n < INT32_LIMIT
    ensures var t := CountResult(n, like);
            && t.columns != [] && AllDecode(t.columns, t.rows, o.ieee) && !HasBlobColumn(t.columns)
            && CountIn(DecodingOf(o, t.columns), t.rows) == Some(n)
  {
    hide CountRow, DecodeRow;
    CountDecodes(n, o.ieee);
  }

  /**
   * What a table scan assumes of its statement is met as well, for every statement over a table and columns
   * of a database: by a server that has, for its text, a table of the selected types whose rows decode to the
   * chosen cells of the rows asked for.
   */
  lemma SampleAnswersSelect(tables: Db, sql: string, o: Settings, db: TableScan.Database, dialect: Dialect)
    requires Serves(tables) && sql in tables && TableScan.Sound(db)
    requires ReadStatement(sql).Some? && TableScan.Known(db, ReadStatement(sql).value)
    requires HasBlobColumn(tables[sql].columns) ==> GoodLength(tables[sql].columns[0].max, o.slotLength)
    requires var (t, st) := (tables[sql], ReadStatement(sql).value);
             var s := db[st.table];
             var (select, rows) := (TableScan.Places(s.table, st.columns), TableScan.Asked(s, st, dialect));
             && t.columns != [] && Projection.Answers(s.table, select, t.columns) && AllDecode(t.columns, t.rows, o.ieee)
             && |t.rows| == |rows|
             && forall k :: 0 <= k < |rows| ==> FinalRow(t.columns, t.rows[k], o.ieee, t.blobs) == TableScan.Chosen(rows[k], select)
    ensures TableScan.AnswersSelect(Serve(tables), sql, o, db, dialect, tables[sql].blobs)
  {
    hide Serve, Yields, KeepsBlobs, Completes, Prepared, FinalRow, AllDecode, Projection.Answers, ReadStatement, TableScan.Asked;
    var (t, st) := (tables[sql], ReadStatement(sql).value);
    var s := db[st.table];
    SampleServes(tables, sql, o);
    assert TableScan.IsAnswer(Serve(tables), sql, o, s.table, TableScan.Places(s.table, st.columns), TableScan.Asked(s, st, dialect),
                              t.blobs, t.rows, |t.rows| + 1);
  }

  /** A text it does not know it refuses, as the scan assumes of texts that are no statement. */
  lemma SampleRefuses(tables: Db, sql: string, o: Settings, db: TableScan.Database, dialect: Dialect, store: BlobStore)
    requires TableScan.Sound(db) && sql !in tables && ReadStatement(sql).None?
    ensures TableScan.AnswersSelect(Serve(tables), sql, o, db, dialect, store)
  {
    hide ReadStatement;
  }
}
