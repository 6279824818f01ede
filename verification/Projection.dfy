/** Planning an attached scan: the SELECT list, where each output column finds its value, what is pushed down. */
module Projection {
  import opened Wrappers
  import opened Schema
  import opened FilterAst
  import opened FilterRender
  import opened FilterMeaning
  import opened DbisamSql
  import opened Client
  import opened AttachedScan
  import DbisamParsing
  import FilterSetMeaning
  import Statements

  const COLUMN_IDENTIFIER_ROW_ID: nat := 0xFFFF_FFFF_FFFF_FFFF

  datatype Table = Table(names: seq<string>, types: seq<FieldType>)

  /** A column the table has; the row identifier pseudo-column is none. */
  predicate IsReal(table: Table, cid: nat) {
    cid != COLUMN_IDENTIFIER_ROW_ID && cid < |table.names|
  }

  predicate IsBlobColumn(table: Table, cid: nat) {
    cid < |table.types| && IsBlobShaped(table.types[cid])
  }

  function RealColumns(table: Table, columnIds: seq<nat>): seq<nat> {
    if columnIds == [] then []
    else
      var n := |columnIds| - 1;
      RealColumns(table, columnIds[..n]) + (if IsReal(table, columnIds[n]) then [columnIds[n]] else [])
  }

  /** How the rows of a scan are obtained. */
  datatype ScanPlan =
    | CountRows(outputs: seq<Option<nat>>)
    | NothingToRead(outputs: seq<Option<nat>>)
    | Stream(select: seq<nat>, outputs: seq<Option<nat>>)

  predicate NeedsKey(table: Table, columnIds: seq<nat>) {
    exists i :: 0 <= i < |columnIds| && IsBlobColumn(table, columnIds[i])
  }

  /** Output i finds its own table column in the SELECT list; row identifiers find nothing. */
  predicate Maps(table: Table, columnIds: seq<nat>, select: seq<nat>, outputs: seq<Option<nat>>) {
    && |outputs| == |columnIds|
    && (forall i :: 0 <= i < |columnIds| ==>
          if IsReal(table, columnIds[i]) then outputs[i].Some? && outputs[i].value < |select| && select[outputs[i].value] == columnIds[i]
          else outputs[i].None?)
    && forall i, j :: 0 <= i < j < |columnIds| && outputs[i].Some? && outputs[j].Some? ==> outputs[i].value < outputs[j].value
  }

  /** The first test of the two loops over the projection: is a blob column among them? */
  method FindBlobColumn(table: Table, columnIds: seq<nat>) returns (needsKey: bool)
    ensures needsKey == NeedsKey(table, columnIds)
  {
    for i := 0 to |columnIds|
      invariant forall k :: 0 <= k < i ==> !IsBlobColumn(table, columnIds[k])
    {
      if IsBlobColumn(table, columnIds[i]) { return true; }
    }
    return false;
  }

  /** The second: is table column 0 the first column that will be selected? */
  method KeyLeads(table: Table, columnIds: seq<nat>) returns (leads: bool)
    ensures leads <==> RealColumns(table, columnIds) != [] && RealColumns(table, columnIds)[0] == 0
  {
    leads := false;
    for i := 0 to |columnIds|
      invariant !leads && RealColumns(table, columnIds[..i]) == []
    {
      PrefixOfReal(table, columnIds, i);
      if !IsReal(table, columnIds[i]) { continue; }
      return columnIds[i] == 0;
    }
    assert columnIds[..|columnIds|] == columnIds;
  }

  lemma {:induction false} PrefixOfReal(table: Table, columnIds: seq<nat>, i: nat)
    requires i < |columnIds|
    ensures RealColumns(table, columnIds[..i + 1])
         == RealColumns(table, columnIds[..i]) + (if IsReal(table, columnIds[i]) then [columnIds[i]] else [])
    ensures RealColumns(table, columnIds[..i + 1]) <= RealColumns(table, columnIds)
    decreases |columnIds|
  {
    assert columnIds[..i + 1][..i] == columnIds[..i];
    if i + 1 == |columnIds| {
      assert columnIds[..i + 1] == columnIds;
    } else {
      var n := |columnIds| - 1;
      PrefixOfReal(table, columnIds[..n], i);
      assert columnIds[..n][..i + 1] == columnIds[..i + 1];
    }
  }

  lemma MapsStep(table: Table, columnIds: seq<nat>, i: nat, select: seq<nat>, outputs: seq<Option<nat>>)
    requires i < |columnIds| && Maps(table, columnIds[..i], select, outputs)
    ensures IsReal(table, columnIds[i]) ==> Maps(table, columnIds[..i + 1], select + [columnIds[i]], outputs + [Some(|select|)])
    ensures !IsReal(table, columnIds[i]) ==> Maps(table, columnIds[..i + 1], select, outputs + [None])
  {
    hide IsReal;
    var was, now := columnIds[..i], columnIds[..i + 1];
    assert now == was + [columnIds[i]];
  }

  /** The two passes: the SELECT list behind what was injected, and the position of each output column. */
  method BuildSelect(table: Table, columnIds: seq<nat>, injected: seq<nat>) returns (select: seq<nat>, outputs: seq<Option<nat>>)
    ensures Maps(table, columnIds, select, outputs)
    ensures select == injected + RealColumns(table, columnIds)
    ensures table.names == [] ==> RealColumns(table, columnIds) == []
  {
    hide Maps;
    select, outputs := injected, [];
    NothingMapped(table, select);
    for i := 0 to |columnIds|
      invariant Maps(table, columnIds[..i], select, outputs)
      invariant select == injected + RealColumns(table, columnIds[..i])
      invariant table.names == [] ==> RealColumns(table, columnIds[..i]) == []
    {
      PrefixOfReal(table, columnIds, i);
      MapsStep(table, columnIds, i, select, outputs);
      if !IsReal(table, columnIds[i]) {
        outputs := outputs + [None];
        continue;
      }
      outputs := outputs + [Some(|select|)];
      select := select + [columnIds[i]];
    }
    assert columnIds[..|columnIds|] == columnIds;
  }

  lemma NothingMapped(table: Table, select: seq<nat>)
    ensures Maps(table, [], select, [])
  {
  }

  /** With no column selected, a driver column may be added: nobody reads it. */
  lemma DriverColumn(table: Table, columnIds: seq<nat>, outputs: seq<Option<nat>>)
    requires Maps(table, columnIds, [], outputs)
    ensures Maps(table, columnIds, [0], outputs)
  {
  }

  /** The SELECT list: the real columns, behind table column 0 if a blob needs its key and it does not lead; never empty. */
  function SelectOf(table: Table, columnIds: seq<nat>): (select: seq<nat>)
    ensures select != []
    ensures table.names != [] ==> forall p :: 0 <= p < |select| ==> select[p] < |table.names|
  {
    var columns := RealColumns(table, columnIds);
    RealColumnsExist(table, columnIds);
    if columns == [] then [0]
    else if NeedsKey(table, columnIds) && columns[0] != 0 then [0] + columns
    else columns
  }

  lemma {:induction false} RealColumnsExist(table: Table, columnIds: seq<nat>)
    ensures forall p :: 0 <= p < |RealColumns(table, columnIds)| ==> RealColumns(table, columnIds)[p] < |table.names|
  {
    if columnIds != [] {
      RealColumnsExist(table, columnIds[..|columnIds| - 1]);
    }
  }

  /** A scan without real columns and filters is counted by the server. */
  predicate IsCounted(table: Table, columnIds: seq<nat>, hasFilters: bool) {
    RealColumns(table, columnIds) == [] && !(NeedsKey(table, columnIds) && table.names != []) && table.names != [] && !hasFilters
  }

  /**
   * The projection part of DbisamAttachedScanInitGlobal. Every real output column reads the SELECT
   * position holding exactly its own table column and row identifiers read none. If any projected
   * column is a blob, table column 0 is at position 0, injected at most once. A projection without
   * real columns is counted by the server unless filters remain.
   */
  method PlanScan(table: Table, columnIds: seq<nat>, hasFilters: bool) returns (plan: ScanPlan)
    ensures plan.Stream? ==> Maps(table, columnIds, plan.select, plan.outputs) && plan.select != []
    ensures !plan.Stream? ==> Maps(table, columnIds, [], plan.outputs)
    ensures table.names != [] ==>
              |plan.outputs| == |columnIds|
              && forall i :: 0 <= i < |columnIds| ==>
                   (plan.outputs[i].Some? <==> columnIds[i] != 0xFFFF_FFFF_FFFF_FFFF && columnIds[i] < |table.names|)
    ensures plan.CountRows? <==> IsCounted(table, columnIds, hasFilters)
    ensures plan.NothingToRead? <==> table.names == []
    ensures plan.Stream? ==>
              forall i :: 0 <= i < |columnIds| && columnIds[i] < |table.types| && table.types[columnIds[i]] in {Blob, Memo, Graphic} ==>
                plan.select[0] == 0
    ensures plan.Stream? ==>
              var columns := RealColumns(table, columnIds);
              plan.select == columns
              || (plan.select == [0] + columns && (columns == [] || (columns[0] != 0 && NeedsKey(table, columnIds))))
    ensures plan.Stream? ==> plan.select == SelectOf(table, columnIds)
  {
    assert forall i :: 0 <= i < |columnIds| && columnIds[i] < |table.types| && table.types[columnIds[i]] in {Blob, Memo, Graphic} ==>
             NeedsKey(table, columnIds);
    hide Maps, NeedsKey;
    var needsKey := FindBlobColumn(table, columnIds);
    var keyLeads := KeyLeads(table, columnIds);
    var injected := needsKey && !keyLeads && table.names != [];
    var select: seq<nat>, outputs: seq<Option<nat>>;
    select, outputs := BuildSelect(table, columnIds, if injected then [0] else []);
    if select == [] && table.names != [] && !hasFilters { return CountRows(outputs); }
    if select == [] {
      if table.names == [] { return NothingToRead(outputs); }
      DriverColumn(table, columnIds, outputs);
      select := [0];
    }
    return Stream(select, outputs);
  }

  /** The statement's own schema lists the selected columns in order. */
  predicate Answers(table: Table, select: seq<nat>, columns: seq<Column>) {
    && |columns| == |select|
    && forall p :: 0 <= p < |select| ==> select[p] < |table.types| && columns[p].fieldType == table.types[select[p]]
  }

  /** So what output i shows of a row is the value at the position of its own table column, in that column's type. */
  lemma OutputShowsItsColumn(table: Table, columnIds: seq<nat>, select: seq<nat>, outputs: seq<Option<nat>>, columns: seq<Column>,
                             cells: Cells, i: nat, id: nat)
    returns (p: nat)
    requires Maps(table, columnIds, select, outputs) && Answers(table, select, columns) && |cells| == |columns|
    requires i < |columnIds| && IsReal(table, columnIds[i])
    ensures p < |select| && select[p] == columnIds[i]
    ensures Shown(PositionOf(outputs, i), columns, cells, id) == Written(table.types[columnIds[i]], cells[p])
  {
    p := outputs[i].value;
  }

  // ----- what is pushed down -----

  /** The names filters are rendered with: those of the scan's columns, empty for a row identifier. */
  function ColumnNames(table: Table, columnIds: seq<nat>): (names: seq<string>)
    ensures |names| == |columnIds|
    ensures forall i :: 0 <= i < |columnIds| ==> names[i] == if columnIds[i] < |table.names| then table.names[columnIds[i]] else ""
  {
    seq(|columnIds|, i requires 0 <= i < |columnIds| => if columnIds[i] < |table.names| then table.names[columnIds[i]] else "")
  }

  method FilterNames(table: Table, columnIds: seq<nat>) returns (names: seq<string>)
    ensures names == ColumnNames(table, columnIds)
  {
    names := [];
    for i := 0 to |columnIds|
      invariant |names| == i
      invariant forall k :: 0 <= k < i ==> names[k] == if columnIds[k] < |table.names| then table.names[columnIds[k]] else ""
    {
      names := names + [if columnIds[i] < |table.names| then table.names[columnIds[i]] else ""];
    }
  }

  /** The texts of the SELECT list. */
  function Quoted(table: Table, select: seq<nat>): seq<string>
    requires forall p :: 0 <= p < |select| ==> select[p] < |table.names|
  {
    seq(|select|, p requires 0 <= p < |select| => Enclosed(table.names[select[p]], '"'))
  }

  lemma {:induction false} QuotedSnoc(table: Table, select: seq<nat>, p: nat)
    requires forall k :: 0 <= k < |select| ==> select[k] < |table.names|
    requires p < |select|
    ensures Quoted(table, select[..p + 1]) == Quoted(table, select[..p]) + [Enclosed(table.names[select[p]], '"')]
  {
  }

  /** A statement over a table, with a condition and a row cap if there are any. */
  function SelectText(table: Table, name: string, select: seq<nat>, condition: string, top: nat): string
    requires forall p :: 0 <= p < |select| ==> select[p] < |table.names|
  {
    "SELECT " + Join(Quoted(table, select), ", ") + " FROM " + Enclosed(name, '"')
    + (if condition == "" then "" else " WHERE " + condition) + (if top > 0 then " TOP " + Digits(top) else "")
  }

  /** The WHERE condition of a scan's filters, and whether the engine can rely on it. */
  function Condition(table: Table, columnIds: seq<nat>, filters: seq<(nat, Filter)>): string {
    Join(MemberTexts(filters, ColumnNames(table, columnIds)), " AND ")
  }

  // ----- the statement read back -----

  function NamesOf(table: Table, select: seq<nat>): (names: seq<string>)
    requires forall p :: 0 <= p < |select| ==> select[p] < |table.names|
    ensures |names| == |select| && forall p :: 0 <= p < |select| ==> names[p] == table.names[select[p]]
  {
    seq(|select|, p requires 0 <= p < |select| => table.names[select[p]])
  }

  /** The trees of the filters that reach the WHERE clause. */
  function Parts(table: Table, columnIds: seq<nat>, filters: seq<(nat, Filter)>): seq<Tree> {
    FilterSetMeaning.MemberTrees(filters, ColumnNames(table, columnIds))
  }

  /** What a scan asks for: the selected names, the table, the conjunction of its filters if any is sent, and the cap. */
  function WantedStatement(table: Table, name: string, select: seq<nat>, columnIds: seq<nat>, filters: seq<(nat, Filter)>, top: nat):
    Statements.Statement
    requires forall p :: 0 <= p < |select| ==> select[p] < |table.names|
  {
    var parts := Parts(table, columnIds, filters);
    Statements.Statement(NamesOf(table, select), name, if parts == [] then None else Some(Grouped(And, parts)), top)
  }

  lemma QuotedAreSpelled(table: Table, select: seq<nat>)
    requires forall p :: 0 <= p < |select| ==> select[p] < |table.names|
    ensures Quoted(table, select) == SpellAll(Statements.Idents(NamesOf(table, select)))
  {
    hide Enclosed;
    var ts := Statements.Idents(NamesOf(table, select));
    assert forall p :: 0 <= p < |select| ==> SpellAll(ts)[p] == Enclosed(table.names[select[p]], '"');
  }

  /**
   * Read back, the statement of a scan asks for exactly the selected names in order, from the table of that
   * name, under the conjunction of the trees of all filters that reach it, or under none, and for at most as
   * many rows as the cap says. It cannot be read exactly if a filter in it holds an empty connective.
   */
  lemma SelectIsRead(table: Table, name: string, select: seq<nat>, columnIds: seq<nat>, filters: seq<(nat, Filter)>, top: nat)
    requires select != [] && forall p :: 0 <= p < |select| ==> select[p] < |table.names|
    ensures Statements.ReadStatement(SelectText(table, name, select, Condition(table, columnIds, filters), top))
         == if DbisamParsing.CompleteAll(Parts(table, columnIds, filters))
            then Some(WantedStatement(table, name, select, columnIds, filters, top)) else None
  {
    hide Statements.ReadStatement, Join, Enclosed, Quoted, Digits, Spell, MemberTexts, FilterSetMeaning.MemberTrees, Grouped;
    hide DbisamParsing.Complete, DbisamParsing.Shaped, Spellable;
    var names, parts := ColumnNames(table, columnIds), Parts(table, columnIds, filters);
    var st := WantedStatement(table, name, select, columnIds, filters, top);
    QuotedAreSpelled(table, select);
    FilterSetMeaning.MemberTextsAreSpellings(filters, names);
    JoinEmpty(MemberTexts(filters, names), " AND ");
    if parts != [] {
      FilterSetMeaning.JoinedTextIsSpelling(filters, names);
    }
    assert SelectText(table, name, select, Condition(table, columnIds, filters), top) == Statements.StatementText(st);
    Statements.StatementReads(st);
  }

  predicate AllRender(table: Table, columnIds: seq<nat>, filters: seq<(nat, Filter)>) {
    forall i :: 0 <= i < |filters| && Essential(filters[i].1) ==> MemberText(filters[i], ColumnNames(table, columnIds)).Some?
  }

  function Top(limitHint: nat, limitHardCap: bool): nat {
    if limitHardCap then limitHint else 0
  }

  /**
   * The statement of a scan: the quoted SELECT list, the WHERE clause of the rendered filters if there is
   * any, and a trailing TOP exactly for a hard hint. It fails exactly when a filter the engine relies on
   * has no rendering over the scan's columns; filters on row identifiers have none.
   */
  method ScanSql(table: Table, name: string, select: seq<nat>, columnIds: seq<nat>, filters: seq<(nat, Filter)>,
                 limitHint: nat, limitHardCap: bool)
    returns (sql: Result<string, FilterError>)
    requires forall p :: 0 <= p < |select| ==> select[p] < |table.names|
    ensures sql.Ok? <==> AllRender(table, columnIds, filters)
    ensures sql.Ok? ==>
              sql.value == SelectText(table, name, select, Condition(table, columnIds, filters), Top(limitHint, limitHardCap))
  {
    hide MemberTexts, MemberText, Essential, Join;
    var list := SelectList(table, select);
    var text := "SELECT " + list;
    var quoted := QuoteDbisamIdent(name);
    text := text + " FROM " + quoted;
    var filterNames := FilterNames(table, columnIds);
    var rendered, applied := RenderDbisamFilterSet(filters, filterNames);
    if rendered.Err? { return Err(rendered.error); }
    var before := text;
    text := text + (if rendered.value == "" then "" else " WHERE " + rendered.value);
    text := text + (if limitHint > 0 && limitHardCap then " TOP " + Digits(limitHint) else "");
    assert before == "SELECT " + list + " FROM " + quoted;
    return Ok(text);
  }

  method SelectList(table: Table, select: seq<nat>) returns (text: string)
    requires forall p :: 0 <= p < |select| ==> select[p] < |table.names|
    ensures text == Join(Quoted(table, select), ", ")
  {
    text := "";
    for p := 0 to |select|
      invariant text == Join(Quoted(table, select[..p]), ", ")
    {
      QuotedSnoc(table, select, p);
      var quoted := QuoteDbisamIdent(table.names[select[p]]);
      JoinSnoc(Quoted(table, select[..p]), quoted, ", ");
      if p > 0 { text := text + ", "; }
      text := text + quoted;
    }
    assert select[..|select|] == select;
  }

  /** The size of record block requests: a hint only ever shrinks it, and never to nothing. */
  method RequestSize(limitHint: nat, batchSize: nat) returns (n: nat)
    requires batchSize > 0
    ensures 0 < n <= batchSize && (limitHint > 0 ==> n <= limitHint)
    ensures limitHint == 0 || limitHint >= batchSize ==> n == batchSize
  {
    return if limitHint > 0 && limitHint < batchSize then limitHint else batchSize;
  }

  /** A column binding of an expression, by position in the scan, and which positions are virtual. */
  datatype Scan = Scan(columns: nat, virtualColumns: set<nat>)

  /**
   * DbisamPushdownExpression, the accept test that makes the engine drop its own filter. The probe is a
   * dummy column, yet what it accepts renders for every column at scan time, and what renders for any
   * column is accepted.
   */
  method PushdownExpression(scan: Scan, bindings: seq<nat>, e: Expr) returns (accept: bool)
    ensures accept ==> bindings != [] && bindings[0] < scan.columns && bindings[0] !in scan.virtualColumns
    ensures accept ==> forall name: string :: ExprText(e, Enclosed(name, '"')).Some?
    ensures bindings != [] && bindings[0] < scan.columns && bindings[0] !in scan.virtualColumns ==>
              forall name: string :: ExprText(e, Enclosed(name, '"')).Some? ==> accept
  {
    if bindings == [] { return false; }
    if bindings[0] >= scan.columns || bindings[0] in scan.virtualColumns { return false; }
    var q := QuoteDbisamIdent("probe");
    var text := RenderDbisamExpression(e, q);
    forall name: string
      ensures ExprText(e, Enclosed(name, '"')).Some? <==> text.Some?
    {
      RenderabilityIgnoresColumn(e, name, "probe");
    }
    return text.Some?;
  }
}
