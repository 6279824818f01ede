/** A whole scan of an attached table: from projection and filters to the vectors the engine sees. */
module TableScan {
  import opened Wrappers
  import opened Schema
  import R = Row
  import opened Transports
  import C = Cursor
  import opened Client
  import opened DecodedStream
  import opened Query
  import opened FilterAst
  import opened FilterRender
  import opened FilterSetMeaning
  import opened DbisamSql
  import opened Projection
  import opened DbisamParsing
  import opened FilterMeaning
  import opened Statements
  import Optimizer
  import E = ExprMeaning
  import A = AttachedScan

  datatype ScanError = FilterFailed(filter: FilterError) | QueryFailed(query: QueryError)

  // ----- what the database holds -----

  /** A table has a type for every name, no name twice, and its columns are numbered below the row identifier. */
  predicate WellNamed(table: Table) {
    && |table.types| == |table.names| <= COLUMN_IDENTIFIER_ROW_ID
    && forall i, j :: 0 <= i < j < |table.names| ==> table.names[i] != table.names[j]
  }

  /** A row of the table: one final cell for every column. */
  predicate RowsOf(table: Table, contents: seq<Cells>) {
    forall k :: 0 <= k < |contents| ==> |contents[k]| == |table.names|
  }

  /** A table and its rows, and all of them by name. */
  datatype Stored = Stored(table: Table, rows: seq<Cells>)

  type Database = map<string, Stored>

  predicate Sound(db: Database) {
    forall name :: name in db ==> WellNamed(db[name].table) && RowsOf(db[name].table, db[name].rows)
  }

  /** The stored value of a cell, as far as conditions can look into it: text is its bytes, that of memos included. */
  function ValueIn(ft: FieldType, cell: R.Cell): Value {
    match cell
    case NullCell => Null
    case TextCell(s) => FilterAst.Text(s)
    case Int32Cell(v) => Int(v)
    case Int64Cell(v) => Int(v)
    case BoolCell(b) => Bool(b)
    case BytesCell(b) => if ft.Memo? then FilterAst.Text(b) else Unsupported
    case _ => Unsupported
  }

  function Place(names: seq<string>, name: string): (c: nat)
    ensures c <= |names| && (c < |names| ==> names[c] == name)
    ensures c == |names| ==> name !in names
  {
    if names == [] || names[0] == name then 0 else 1 + Place(names[1..], name)
  }

  /** A row as the server evaluates conditions on it: its stored values by column name. */
  function RowOf(table: Table, cells: Cells): DbisamSql.Row {
    (name: string) =>
      var c := Place(table.names, name);
      if c < |table.names| && c < |table.types| && c < |cells| then ValueIn(table.types[c], cells[c]) else Null
  }

  lemma {:induction false} NamePlace(names: seq<string>, c: nat)
    requires c < |names| && forall i, j :: 0 <= i < j < |names| ==> names[i] != names[j]
    ensures Place(names, names[c]) == c
    decreases c
  {
    if c > 0 {
      NamePlace(names[1..], c - 1);
    }
  }

  // ----- what a statement asks for -----

  /** The columns named exist in the table named. */
  predicate Known(db: Database, st: Statement) {
    st.table in db && forall p :: 0 <= p < |st.columns| ==> st.columns[p] in db[st.table].table.names
  }

  /** The columns a statement selects. */
  function Places(table: Table, columns: seq<string>): (select: seq<nat>)
    requires forall p :: 0 <= p < |columns| ==> columns[p] in table.names
    ensures |select| == |columns|
    ensures forall p :: 0 <= p < |select| ==> select[p] < |table.names| && table.names[select[p]] == columns[p]
  {
    seq(|columns|, p requires 0 <= p < |columns| => Place(table.names, columns[p]))
  }

  ghost function Meets(table: Table, condition: Option<Tree>, dialect: Dialect): Cells -> bool {
    cells => condition.Some? ==> IsTrue(DbisamEval(condition.value, RowOf(table, cells), dialect))
  }

  /** The rows a statement asks for: those that meet its condition, in order, or the first `top` of them. */
  ghost function Asked(s: Stored, st: Statement, dialect: Dialect): (asked: seq<Cells>)
    ensures RowsOf(s.table, s.rows) ==> RowsOf(s.table, asked)
  {
    SelectedFrom(Meets(s.table, st.condition, dialect), s.rows);
    var rows := Optimizer.Selected(Meets(s.table, st.condition, dialect), s.rows);
    assert forall k :: 0 <= k < |rows| ==> rows[k] in s.rows;
    if 0 < st.top < |rows| then rows[..st.top] else rows
  }

  lemma {:induction false} SelectedFrom(p: Cells -> bool, rows: seq<Cells>)
    ensures forall cells :: cells in Optimizer.Selected(p, rows) ==> cells in rows
  {
    if rows != [] {
      SelectedFrom(p, rows[..|rows| - 1]);
    }
  }

  function Chosen(cells: Cells, select: seq<nat>): Cells
    requires forall p :: 0 <= p < |select| ==> select[p] < |cells|
  {
    seq(|select|, p requires 0 <= p < |select| => cells[select[p]])
  }

  // ----- what the server is taken to do -----

  /** The statement completes, in the selected columns, and its result is these rows, blobs in place. */
  ghost predicate IsAnswer(server: Server, sql: string, o: Settings, table: Table, select: seq<nat>, rows: seq<Cells>, store: BlobStore,
                           all: seq<C.Item>, limit: nat)
    requires RowsOf(table, rows) && forall p :: 0 <= p < |select| ==> select[p] < |table.names|
  {
    && Completes(server, [], sql, o, all) && Yields(server, [], sql, all, limit) && KeepsBlobs(server, [], sql, o, all, store)
    && Answers(table, select, Prepared(server, [], sql).value)
    && |all| == |rows|
    && forall k :: 0 <= k < |all| ==> FinalRow(Prepared(server, [], sql).value, all[k], o.ieee, store) == Chosen(rows[k], select)
  }

  /**
   * The server reads the text. One that is no statement it refuses; a statement over tables and columns it
   * has it answers with the rows asked for. Of any other nothing is assumed.
   */
  ghost predicate AnswersSelect(server: Server, sql: string, o: Settings, db: Database, dialect: Dialect, store: BlobStore)
    requires Sound(db)
  {
    match ReadStatement(sql)
    case None => Prepared(server, [], sql).Err?
    case Some(st) =>
      Known(db, st) ==>
        var s := db[st.table];
        exists all: seq<C.Item>, limit: nat ::
          IsAnswer(server, sql, o, s.table, Places(s.table, st.columns), Asked(s, st, dialect), store, all, limit)
  }

  function CountText(name: string): string {
    "SELECT COUNT(*) FROM " + Enclosed(name, '"')
  }

  ghost predicate IsCount(server: Server, sql: string, o: Settings, count: nat, all: seq<C.Item>, limit: nat) {
    && Completes(server, [], sql, o, all) && Yields(server, [], sql, all, limit)
    && A.CountIn(DecodingOf(o, Prepared(server, [], sql).value), all) == Some(count)
  }

  /** A count over a table it has the server answers with the number of its rows. */
  ghost predicate AnswersCount(server: Server, sql: string, o: Settings, db: Database) {
    var counted := ReadCount(sql);
    counted.Some? && counted.value in db ==>
      exists all: seq<C.Item>, limit: nat :: IsCount(server, sql, o, |db[counted.value].rows|, all, limit)
  }

  // ----- what a scan is to show -----

  ghost function Passes(table: Table, parts: seq<Tree>, dialect: Dialect): Cells -> bool {
    cells => E.AllTrue(parts, RowOf(table, cells), dialect)
  }

  /** The rows all filters that can be sent include, under the hint the plan walk left. */
  ghost function Kept(s: Stored, columnIds: seq<nat>, filters: seq<(nat, Filter)>, hint: Optimizer.Hint, dialect: Dialect):
    (kept: seq<Cells>)
    ensures RowsOf(s.table, s.rows) ==> RowsOf(s.table, kept)
  {
    SelectedFrom(Passes(s.table, Parts(s.table, columnIds, filters), dialect), s.rows);
    var rows := Optimizer.Selected(Passes(s.table, Parts(s.table, columnIds, filters), dialect), s.rows);
    assert forall k :: 0 <= k < |rows| ==> rows[k] in s.rows;
    Optimizer.ScanRows(rows, hint)
  }

  /** What passes a test, by position: no row twice, none out of order, none left out. */
  predicate Picked(rows: seq<Cells>, ks: seq<nat>, kept: seq<Cells>) {
    && (forall i, j :: 0 <= i < j < |ks| ==> ks[i] < ks[j])
    && |kept| == |ks| && forall i :: 0 <= i < |ks| ==> ks[i] < |rows| && kept[i] == rows[ks[i]]
  }

  lemma {:induction false} SelectedArePicked(p: Cells -> bool, rows: seq<Cells>) returns (ks: seq<nat>)
    ensures Picked(rows, ks, Optimizer.Selected(p, rows))
    ensures forall k: nat :: k in ks <==> k < |rows| && p(rows[k])
  {
    hide Picked, Optimizer.Selected;
    LastSelected(p, rows);
    if rows == [] {
      NothingPicked();
      return [];
    }
    var n := |rows| - 1;
    ks := SelectedArePicked(p, rows[..n]);
    OneMorePicked(rows, ks, Optimizer.Selected(p, rows[..n]));
    assert forall k :: 0 <= k < n ==> rows[..n][k] == rows[k];
    if p(rows[n]) {
      ks := ks + [n];
    }
  }

  lemma LastSelected(p: Cells -> bool, rows: seq<Cells>)
    ensures rows == [] ==> Optimizer.Selected(p, rows) == []
    ensures rows != [] ==>
              var kept := Optimizer.Selected(p, rows[..|rows| - 1]);
              Optimizer.Selected(p, rows) == if p(rows[|rows| - 1]) then kept + [rows[|rows| - 1]] else kept
  {
  }

  lemma NothingPicked()
    ensures Picked([], [], [])
  {
  }

  lemma OneMorePicked(rows: seq<Cells>, ks: seq<nat>, kept: seq<Cells>)
    requires rows != [] && Picked(rows[..|rows| - 1], ks, kept)
    ensures Picked(rows, ks, kept) && Picked(rows, ks + [|rows| - 1], kept + [rows[|rows| - 1]])
  {
  }

  lemma {:induction false} SelectedAlike(p: Cells -> bool, q: Cells -> bool, rows: seq<Cells>)
    requires forall cells :: p(cells) == q(cells)
    ensures Optimizer.Selected(p, rows) == Optimizer.Selected(q, rows)
  {
    if rows != [] {
      SelectedAlike(p, q, rows[..|rows| - 1]);
    }
  }

  /** The statement a scan sends, as the server reads it, asks for exactly the rows and columns the scan is to show. */
  lemma StatementAsksForKept(db: Database, name: string, select: seq<nat>, columnIds: seq<nat>, filters: seq<(nat, Filter)>,
                             hint: Optimizer.Hint, dialect: Dialect)
    requires Sound(db) && name in db
    requires select != [] && forall p :: 0 <= p < |select| ==> select[p] < |db[name].table.names|
    requires CompleteAll(Parts(db[name].table, columnIds, filters))
    ensures var s := db[name];
            var read := ReadStatement(SelectText(s.table, name, select, Condition(s.table, columnIds, filters), Top(hint.limit, hint.hard)));
            && read.Some? && Known(db, read.value) && read.value.table == name
            && Places(s.table, read.value.columns) == select
            && Asked(s, read.value, dialect) == Kept(s, columnIds, filters, hint, dialect)
  {
    hide ReadStatement, SelectText, Condition, RowOf;
    var s := db[name];
    SelectIsRead(s.table, name, select, columnIds, filters, Top(hint.limit, hint.hard));
    var st := WantedStatement(s.table, name, select, columnIds, filters, Top(hint.limit, hint.hard));
    forall p | 0 <= p < |select|
      ensures Place(s.table.names, st.columns[p]) == select[p]
    {
      NamePlace(s.table.names, select[p]);
    }
    var parts := Parts(s.table, columnIds, filters);
    forall cells: Cells
      ensures Meets(s.table, st.condition, dialect)(cells) == Passes(s.table, parts, dialect)(cells)
    {
      if parts != [] {
        E.GroupedMeaning(And, parts, RowOf(s.table, cells), dialect);
      }
    }
    SelectedAlike(Meets(s.table, st.condition, dialect), Passes(s.table, parts, dialect), s.rows);
  }

  // ----- the scan -----

  /** Output i shows its own table column of every row, or row identifiers 0, 1, 2 and so on. */
  predicate ShowsColumns(vectors: seq<seq<A.OutCell>>, table: Table, columnIds: seq<nat>, rows: seq<Cells>)
    requires WellNamed(table) && RowsOf(table, rows)
  {
    && |vectors| == |columnIds|
    && forall i :: 0 <= i < |columnIds| ==> ShowsColumn(vectors[i], table, columnIds[i], rows)
  }

  predicate ShowsColumn(vector: seq<A.OutCell>, table: Table, cid: nat, rows: seq<Cells>)
    requires WellNamed(table) && RowsOf(table, rows)
  {
    && |vector| == |rows|
    && forall k :: 0 <= k < |rows| ==>
         vector[k] == if IsReal(table, cid) then A.Written(table.types[cid], rows[k][cid]) else A.RowId(k)
  }

  lemma StreamedColumns(vectors: seq<seq<A.OutCell>>, table: Table, columnIds: seq<nat>, select: seq<nat>, outputs: seq<Option<nat>>,
                        d: Decoding, all: seq<C.Item>, rows: seq<Cells>, store: BlobStore)
    requires WellNamed(table) && RowsOf(table, rows) && d.columns != [] && |all| == |rows|
    requires Maps(table, columnIds, select, outputs) && Answers(table, select, d.columns)
    requires forall p :: 0 <= p < |select| ==> select[p] < |table.names|
    requires forall k :: 0 <= k < |all| ==> FinalRow(d.columns, all[k], d.ieee, store) == Chosen(rows[k], select)
    requires A.ShowsAll(vectors, outputs, d, all, store, |columnIds|)
    ensures ShowsColumns(vectors, table, columnIds, rows)
  {
    hide FinalRow;
    forall i | 0 <= i < |columnIds|
      ensures ShowsColumn(vectors[i], table, columnIds[i], rows)
    {
      assert vectors[i] == A.FullColumn(A.PositionOf(outputs, i), d, all, store);
    }
  }

  lemma CountedColumns(vectors: seq<seq<A.OutCell>>, table: Table, columnIds: seq<nat>, outputs: seq<Option<nat>>,
                       columns: seq<Column>, rows: seq<Cells>)
    requires WellNamed(table) && RowsOf(table, rows) && Maps(table, columnIds, [], outputs)
    requires A.Accumulated(vectors, outputs, columns, A.Blank(|rows|), |columnIds|)
    ensures ShowsColumns(vectors, table, columnIds, rows)
  {
    forall i | 0 <= i < |columnIds|
      ensures ShowsColumn(vectors[i], table, columnIds[i], rows)
    {
      assert A.Shows(vectors[i], A.PositionOf(outputs, i), columns, A.Blank(|rows|), 0);
    }
  }

  /** Nothing is projected but row identifiers, and there are no filters. */
  predicate OnlyCounts(table: Table, columnIds: seq<nat>, filters: seq<(nat, Filter)>) {
    filters == [] && forall i :: 0 <= i < |columnIds| ==> columnIds[i] >= |table.names|
  }

  lemma CountedAreOnlyCounts(table: Table, columnIds: seq<nat>, filters: seq<(nat, Filter)>)
    requires WellNamed(table)
    ensures IsCounted(table, columnIds, filters != []) <==> table.names != [] && OnlyCounts(table, columnIds, filters)
  {
    NoRealColumns(table, columnIds);
  }

  lemma {:induction false} NoRealColumns(table: Table, columnIds: seq<nat>)
    ensures RealColumns(table, columnIds) == [] <==> forall i :: 0 <= i < |columnIds| ==> !IsReal(table, columnIds[i])
  {
    if columnIds != [] {
      NoRealColumns(table, columnIds[..|columnIds| - 1]);
    }
  }

  /**
   * DbisamAttachedScanInitGlobal and every Execute after it. Over a server that reads the one statement the
   * scan sends and answers it out of its database, output i shows table column columnIds[i] of every row
   * kept, in order, and row identifiers are 0, 1, 2 and so on; whatever projection, blob key injection, driver
   * column or count lies between. A scan that only counts shows as many identifiers as the table has rows, its
   * hint notwithstanding. A table without columns shows nothing. The scan fails exactly when a filter the
   * engine relies on has no rendering, and then sends nothing, or when a filter holds an empty connective,
   * and then the server refuses the statement.
   */
  method ScanTable(server: Server, table: Table, name: string, columnIds: seq<nat>, filters: seq<(nat, Filter)>,
                   limitHint: nat, limitHardCap: bool, o: Settings, batch: nat,
                   ghost store: BlobStore, ghost db: Database, ghost dialect: Dialect)
    returns (r: Result<seq<seq<A.OutCell>>, ScanError>)
    requires batch > 0 && Sound(db) && name in db && db[name].table == table
    requires OnlyCounts(table, columnIds, filters) ==> AnswersCount(server, CountText(name), o, db)
    requires !OnlyCounts(table, columnIds, filters) && table.names != [] && AllRender(table, columnIds, filters) ==>
               var condition := Condition(table, columnIds, filters);
               AnswersSelect(server, SelectText(table, name, SelectOf(table, columnIds), condition, Top(limitHint, limitHardCap)),
                             o, db, dialect, store)
    ensures r.Ok? <==> table.names == [] || (AllRender(table, columnIds, filters) && CompleteAll(Parts(table, columnIds, filters)))
    ensures r.Err? ==> (r.error.FilterFailed? <==> !AllRender(table, columnIds, filters))
    ensures r.Ok? && table.names != [] ==>
              ShowsColumns(r.value, table, columnIds,
                           if OnlyCounts(table, columnIds, filters) then db[name].rows
                           else Kept(db[name], columnIds, filters, Optimizer.Hint(limitHint, limitHardCap), dialect))
    ensures r.Ok? && table.names == [] ==> r.value == seq(|columnIds|, _ => [])
  {
    hide Maps, IsCounted, AllRender, Kept, Yields, KeepsBlobs, Completes, A.ShowsAll, A.Accumulated, ShowsColumns, Condition, SelectText;
    hide Prepared, FinalRow, Answers, A.CountIn, Asked, ReadStatement, OnlyCounts, Parts, Complete, ReadCount, Places, Known;
    ghost var s := db[name];
    var plan := PlanScan(table, columnIds, filters != []);
    CountedAreOnlyCounts(table, columnIds, filters);
    match plan {
      case CountRows(outputs) =>
        NothingFiltered(table, columnIds, filters);
        CountReads(name);
        ghost var all: seq<C.Item>, limit: nat :| IsCount(server, CountText(name), o, |s.rows|, all, limit);
        NoneMapped(table, columnIds, outputs);
        var quoted := QuoteDbisamIdent(name);
        var counted := A.CountTable(server, "SELECT COUNT(*) FROM " + quoted, o, batch, outputs, |columnIds|, all, limit);
        CountedColumns(counted.value, table, columnIds, outputs, Prepared(server, [], CountText(name)).value, s.rows);
        return Ok(counted.value);
      case NothingToRead(_) =>
        return Ok(seq(|columnIds|, _ => []));
      case Stream(select, outputs) =>
        var sql := ScanSql(table, name, select, columnIds, filters, limitHint, limitHardCap);
        if sql.Err? { return Err(FilterFailed(sql.error)); }
        var n := RequestSize(limitHint, batch);
        ghost var hint := Optimizer.Hint(limitHint, limitHardCap);
        SelectIsRead(table, name, select, columnIds, filters, Top(limitHint, limitHardCap));
        ghost var rows: seq<Cells>, all: seq<C.Item>, limit: nat := [], [], 0;
        if CompleteAll(Parts(table, columnIds, filters)) {
          StatementAsksForKept(db, name, select, columnIds, filters, hint, dialect);
          rows := Kept(s, columnIds, filters, hint, dialect);
          all, limit :| IsAnswer(server, sql.value, o, table, select, rows, store, all, limit);
        } else {
          Refused(server, sql.value, o, store);
        }
        var streamed := A.StreamTable(server, sql.value, o, n, outputs, |columnIds|, store, all, limit);
        if streamed.Err? { return Err(QueryFailed(streamed.error)); }
        StreamedColumns(streamed.value, table, columnIds, select, outputs, DecodingOf(o, Prepared(server, [], sql.value).value),
                        all, rows, store);
        return Ok(streamed.value);
    }
  }

  /** Of a statement that is not even prepared nothing need be assumed. */
  lemma Refused(server: Server, sql: string, o: Settings, store: BlobStore)
    requires Prepared(server, [], sql).Err?
    ensures Yields(server, [], sql, [], 0) && KeepsBlobs(server, [], sql, o, [], store)
  {
  }

  lemma NothingFiltered(table: Table, columnIds: seq<nat>, filters: seq<(nat, Filter)>)
    requires OnlyCounts(table, columnIds, filters)
    ensures AllRender(table, columnIds, filters) && CompleteAll(Parts(table, columnIds, filters))
  {
  }

  lemma NoneMapped(table: Table, columnIds: seq<nat>, outputs: seq<Option<nat>>)
    requires Maps(table, columnIds, [], outputs)
    ensures forall c :: 0 <= c < |outputs| ==> outputs[c].None?
  {
  }

  // ----- which rows are kept -----

  /** What the engine sees of the scan's i-th column in a row. */
  function Seen(table: Table, columnIds: seq<nat>, cells: Cells): nat -> Value {
    (i: nat) =>
      if i < |columnIds| && columnIds[i] < |table.names| && columnIds[i] < |table.types| && columnIds[i] < |cells|
      then Displayed(ValueIn(table.types[columnIds[i]], cells[columnIds[i]])) else Null
  }

  /**
   * A scan keeps every row all of its filters are TRUE on, of what the engine would see, and of the others
   * only rows that satisfy every filter with the parts the engine still applies itself taken as TRUE; each
   * at most once and in order. A hard hint cuts that to the first rows, any other hint leaves it alone. For
   * filters whose shapes and texts are plain.
   */
  lemma KeptByFilters(s: Stored, columnIds: seq<nat>, filters: seq<(nat, Filter)>, hint: Optimizer.Hint, dialect: Dialect,
                      unseen: nat -> bool)
    returns (ks: seq<nat>, kept: seq<Cells>)
    requires WellNamed(s.table) && RowsOf(s.table, s.rows)
    requires AllRender(s.table, columnIds, filters)
    requires forall i :: 0 <= i < |filters| && FilterRenders(filters[i].1) ==> Plain(filters[i].1)
    ensures CompleteAll(Parts(s.table, columnIds, filters))
    ensures Kept(s, columnIds, filters, hint, dialect) == if hint.hard && 0 < hint.limit < |kept| then kept[..hint.limit] else kept
    ensures Picked(s.rows, ks, kept)
    ensures forall k :: 0 <= k < |s.rows| && AllFilters(filters, Seen(s.table, columnIds, s.rows[k]), unseen) ==> k in ks
    ensures forall k :: k in ks ==> k < |s.rows| && AllMandatory(filters, Seen(s.table, columnIds, s.rows[k]), unseen)
  {
    hide Plain, AllRender, AllFilters, AllMandatory, RowOf, Seen, Parts, Complete, E.AllTrue;
    var parts := Parts(s.table, columnIds, filters);
    var p := Passes(s.table, parts, dialect);
    kept := Optimizer.Selected(p, s.rows);
    ks := SelectedArePicked(p, s.rows);
    RowIsKept(s.table, columnIds, filters, dialect, unseen, []);
    forall k | 0 <= k < |s.rows|
      ensures AllFilters(filters, Seen(s.table, columnIds, s.rows[k]), unseen) ==> k in ks
      ensures k in ks ==> AllMandatory(filters, Seen(s.table, columnIds, s.rows[k]), unseen)
    {
      RowIsKept(s.table, columnIds, filters, dialect, unseen, s.rows[k]);
    }
  }

  predicate AllFilters(filters: seq<(nat, Filter)>, seen: nat -> Value, unseen: nat -> bool) {
    forall i :: 0 <= i < |filters| ==> FilterTrue(filters[i].1, seen(filters[i].0), unseen)
  }

  predicate AllMandatory(filters: seq<(nat, Filter)>, seen: nat -> Value, unseen: nat -> bool) {
    forall i :: 0 <= i < |filters| ==> MandatoryTrue(filters[i].1, seen(filters[i].0), unseen)
  }

  lemma RowIsKept(table: Table, columnIds: seq<nat>, filters: seq<(nat, Filter)>, dialect: Dialect, unseen: nat -> bool, cells: Cells)
    requires WellNamed(table) && AllRender(table, columnIds, filters)
    requires forall i :: 0 <= i < |filters| && FilterRenders(filters[i].1) ==> Plain(filters[i].1)
    ensures CompleteAll(Parts(table, columnIds, filters))
    ensures AllFilters(filters, Seen(table, columnIds, cells), unseen) ==> Passes(table, Parts(table, columnIds, filters), dialect)(cells)
    ensures Passes(table, Parts(table, columnIds, filters), dialect)(cells) ==> AllMandatory(filters, Seen(table, columnIds, cells), unseen)
  {
    hide Plain, Essential, MemberText, FilterTrue, MandatoryTrue, FilterRenders, Faithful, Displayed, ValueIn, RowOf, Seen, Complete, E.AllTrue;
    hide MemberTrees;
    var names, seen, row := ColumnNames(table, columnIds), Seen(table, columnIds, cells), RowOf(table, cells);
    forall i | 0 <= i < |filters| && FilterRender.Named(filters[i].0, names)
      ensures seen(filters[i].0) == Displayed(row(names[filters[i].0]))
      ensures FilterRenders(filters[i].1) ==> Faithful(filters[i].1, row(names[filters[i].0]), dialect)
    {
      SeenByName(table, columnIds, cells, filters[i].0);
      if FilterRenders(filters[i].1) {
        PlainIsFaithful(filters[i].1, row(names[filters[i].0]), dialect);
      }
    }
    MemberTreesMeaning(filters, names, seen, row, dialect, unseen);
  }

  lemma SeenByName(table: Table, columnIds: seq<nat>, cells: Cells, i: nat)
    requires WellNamed(table) && FilterRender.Named(i, ColumnNames(table, columnIds))
    ensures Seen(table, columnIds, cells)(i) == Displayed(RowOf(table, cells)(ColumnNames(table, columnIds)[i]))
  {
    hide ValueIn;
    NamePlace(table.names, columnIds[i]);
  }
}
