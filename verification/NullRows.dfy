/**
 * When rendered text keeps an expression's meaning. The NULL row decides; this module says when for
 * each shape: values, truth values as operands, lists, two sides that use the column.
 */
module NullRows {
  import opened Wrappers
  import opened Bytes
  import opened FilterAst
  import opened DbisamSql
  import opened FilterRender
  import opened FilterMeaning
  import opened TextPushdown
  import opened CutLists
  import opened ExprMeaning
  import Transcoding = Text

  // ----- the NULL row decides -----

  /** Both sides agree on including the NULL row. */
  predicate NullSame(e: Expr, d: Dialect)
    requires Renderable(e)
  {
    IsTrue(Server(e, Null, d)) <==> IsTrue(AnsiEval(e, Null))
  }

  /** On every row whose column is not NULL a condition is TRUE on both sides or on neither. */
  lemma {:induction false} AgreesOffNull(e: Expr, v: Value, d: Dialect)
    requires Renderable(e) && Condition(e) && !v.Null? && ReadAlike(e, v)
    ensures IsTrue(Server(e, v, d)) <==> IsTrue(AnsiEval(e, Displayed(v)))
  {
    hide AsciiValue, Displayed, TextSafe;
    if BoolShaped(e) && !ValueExpr(e) {
      OperandMatches(e, v, d);
    } else if ValueExpr(e) {
      ValuesMatch(e, v);
    } else {
      var cs := e.children;
      var xs, ys := ServerAll(cs, v, d), AnsiEvalAll(cs, Displayed(v));
      forall i | 0 <= i < |cs|
        ensures IsTrue(xs[i]) <==> ys[i] == Bool(true)
      {
        ChildReadsAlike(e, v, i);
        AgreesOffNull(cs[i], v, d);
      }
      ConjunctionTrue(e.kind, ys);
    }
  }

  /** On every such row the rendered tree of a truth value has that very value: no restriction on operands or lists. */
  lemma SameOffNull(e: Expr, name: string, row: Row, d: Dialect)
    requires Renderable(e) && BoolShaped(e) && !row(name).Null? && ReadAlike(e, row(name))
    ensures DbisamEval(Intended(e, name), row, d) == AnsiEval(e, Displayed(row(name)))
  {
    hide AnsiEval, Server, Intended, DbisamEval, Displayed, ReadAlike;
    TreeEvaluates(e, name, row, d);
    OperandMatches(e, row(name), d);
    if ValueExpr(e) {
      ConstantIs(e);
      ConstantValue(e, Displayed(row(name)));
      ConstantValue(e, row(name));
      ServerOfConstant(e, row(name), d);
    }
  }

  lemma ServerOfConstant(e: Expr, v: Value, d: Dialect)
    requires Renderable(e) && ValueExpr(e)
    ensures Server(e, v, d) == StoredValue(e, v)
  {
  }

  lemma ChildReadsAlike(e: Expr, v: Value, i: nat)
    requires e.Conjunction? && i < |e.children| && Renderable(e) && ReadAlike(e, v)
    ensures ReadAlike(e.children[i], v)
  {
    hide AsciiValue;
  }

  lemma ConjunctionTrue(kind: ConjKind, vs: seq<Value>)
    requires vs != []
    ensures IsTrue(AnsiConj(kind, vs))
            <==> if kind.And? then forall i :: 0 <= i < |vs| ==> vs[i] == Bool(true) else Bool(true) in vs
  {
    if kind.Or? && Bool(true) !in vs {
      assert vs[0] in vs;
    }
  }

  /**
   * On every row that is not NULL, and on the NULL row if NullSame says so: the text of a condition,
   * lexed, parsed and evaluated by the server on the stored bytes, includes the row exactly when the
   * source is TRUE, not FALSE and not NULL, of what the row is shown as.
   */
  lemma RenderedTextKeepsMeaning(e: Expr, name: string, row: Row, d: Dialect)
    requires Condition(e) && ExprText(e, Enclosed(name, '"')).Some?
    requires Renderable(e) ==> ReadAlike(e, row(name)) && (row(name).Null? ==> NullSame(e, d))
    ensures WhereTrue(ExprText(e, Enclosed(name, '"')).value, row, d) <==> IsTrue(AnsiEval(e, Displayed(row(name))))
  {
    hide ReadAlike, Server, AnsiEval, Intended;
    ExprTextIsSpelling(e, name);
    ExprTextParses(e, name);
    TreeEvaluates(e, name, row, d);
    if !row(name).Null? {
      AgreesOffNull(e, row(name), d);
    }
  }

  /** The text of the expression includes every row exactly when the source is TRUE on it. */
  ghost predicate KeepsMeaning(e: Expr, name: string, d: Dialect)
    requires Renderable(e)
  {
    ExprTextIsSpelling(e, name);
    forall row: Row :: WhereTrue(ExprText(e, Enclosed(name, '"')).value, row, d) <==> IsTrue(AnsiEval(e, Displayed(row(name))))
  }

  /** So for a condition whose text is compared alike, all rows are decided by one. */
  lemma NullRowDecides(e: Expr, name: string, d: Dialect)
    requires Renderable(e) && Condition(e) && ConstantsAgree(e) && TextSafe(e)
    ensures KeepsMeaning(e, name, d) <==> NullSame(e, d)
  {
    hide ConstantsAgree, TextSafe, Server, AnsiEval, Intended, WhereTrue, ExprText;
    ExprTextIsSpelling(e, name);
    if NullSame(e, d) {
      forall row: Row
        ensures WhereTrue(ExprText(e, Enclosed(name, '"')).value, row, d) <==> IsTrue(AnsiEval(e, Displayed(row(name))))
      {
        RenderedTextKeepsMeaning(e, name, row, d);
      }
    } else {
      DifferentRow(e, Null, name, d);
    }
  }

  /** One stored value on which the two sides differ is enough to lose the meaning. */
  lemma DifferentRow(e: Expr, v: Value, name: string, d: Dialect)
    requires Renderable(e) && Condition(e) && IsTrue(Server(e, v, d)) != IsTrue(AnsiEval(e, Displayed(v)))
    ensures !KeepsMeaning(e, name, d)
  {
    hide AnsiEval, StoredValue, Displayed, Server, Intended;
    var row: Row := _ => v;
    assert row(name) == v;
    ExprTextParses(e, name);
    TreeEvaluates(e, name, row, d);
  }

  // ----- values on the NULL row -----

  /** On the NULL row a value expression over the column is NULL on both sides, any other has its constant. */
  lemma NullValue(e: Expr, d: Dialect)
    requires Renderable(e) && ValueExpr(e) && ConstantsAgree(e)
    ensures Server(e, Null, d) == AnsiEval(e, Null) && (AnsiEval(e, Null).Null? <==> UsesColumn(e))
  {
    hide AnsiEval, StoredValue;
    ValuesMatch(e, Null);
    if UsesColumn(e) {
      NonTextAgrees(e, Null);
    }
  }

  // ----- two sides that use the column -----

  /**
   * Two column-dependent sides: kept if and only if the encoding of text does not disturb the two cuts,
   * and NULL against NULL is not true to the server, which `<>` makes sure of by its compensation.
   */
  lemma TwoColumnSides(op: CmpOp, l: Expr, r: Expr, name: string, d: Dialect)
    requires Renderable(Comparison(op, l, r)) && ValueExpr(l) && ValueExpr(r) && UsesColumn(l) && UsesColumn(r)
    ensures KeepsMeaning(Comparison(op, l, r), name, d) <==> SafeCuts(op, Width(l), Width(r)) && (op.Ne? || !d.bothNull(op))
  {
    hide AnsiEval, StoredValue, KeepsMeaning, SafeCuts, Displayed, TextSafe, ServerCuts, DuckCuts;
    var e := Comparison(op, l, r);
    if SafeCuts(op, Width(l), Width(r)) {
      TwoCutsAreSafe(op, l, r);
      NullValue(l, d);
      NullValue(r, d);
      assert AnsiEval(e, Null) == AnsiCompare(op, AnsiEval(l, Null), AnsiEval(r, Null)) by { ComparisonIs(op, l, r); }
      NullRowDecides(e, name, d);
    } else {
      CutsAreExact(op, Width(l), Width(r));
      var b: Buffer :| ServerCuts(op, b, Width(l), Width(r)) != DuckCuts(op, b, Width(l), Width(r));
      CutOutcomes(op, l, r, b, d);
      DifferentRow(e, FilterAst.Text(b), name, d);
    }
  }

  lemma TwoCutsAreSafe(op: CmpOp, l: Expr, r: Expr)
    requires Renderable(Comparison(op, l, r)) && ValueExpr(l) && ValueExpr(r) && UsesColumn(l) && UsesColumn(r)
    requires SafeCuts(op, Width(l), Width(r))
    ensures ConstantsAgree(Comparison(op, l, r)) && TextSafe(Comparison(op, l, r))
  {
    hide SafeCuts;
  }

  lemma CutOutcomes(op: CmpOp, l: Expr, r: Expr, b: Buffer, d: Dialect)
    requires Renderable(Comparison(op, l, r)) && ValueExpr(l) && ValueExpr(r) && UsesColumn(l) && UsesColumn(r)
    ensures IsTrue(Server(Comparison(op, l, r), FilterAst.Text(b), d)) <==> ServerCuts(op, b, Width(l), Width(r))
    ensures IsTrue(AnsiEval(Comparison(op, l, r), Displayed(FilterAst.Text(b)))) <==> DuckCuts(op, b, Width(l), Width(r))
  {
    hide StoredValue, Displayed, Compare, CutBytes, CutChars;
    CutOf(l, b);
    CutOf(r, b);
  }

  lemma ComparisonIs(op: CmpOp, l: Expr, r: Expr)
    ensures AnsiEval(Comparison(op, l, r), Null) == AnsiCompare(op, AnsiEval(l, Null), AnsiEval(r, Null))
  {
  }

  /** One side at most: always kept. */
  lemma OneColumnSide(op: CmpOp, l: Expr, r: Expr, name: string, d: Dialect)
    requires var e := Comparison(op, l, r); Renderable(e) && ConstantsAgree(e) && TextSafe(e)
    requires ValueExpr(l) && ValueExpr(r) && !(UsesColumn(l) && UsesColumn(r))
    ensures KeepsMeaning(Comparison(op, l, r), name, d)
  {
    hide AnsiEval, StoredValue, KeepsMeaning;
    var e := Comparison(op, l, r);
    NullValue(l, d);
    NullValue(r, d);
    ComparisonIs(op, l, r);
    NullRowDecides(e, name, d);
  }

  /**
   * The column, or LEFT of it, against a text: kept if and only if the text is safe under the operator
   * and the width LEFT leaves.
   */
  lemma TextComparison(op: CmpOp, l: Expr, u: Buffer, name: string, d: Dialect)
    requires Renderable(Comparison(op, l, Const(FilterAst.Text(u)))) && ValueExpr(l) && UsesColumn(l)
    requires Transcoding.WellFormed(u)
    ensures KeepsMeaning(Comparison(op, l, Const(FilterAst.Text(u))), name, d) <==> SafeLiteral(op, u, Width(l))
  {
    hide AnsiEval, StoredValue, KeepsMeaning, SafeLiteral, Displayed, ServerSays, DuckSays, Server;
    var r := Const(FilterAst.Text(u));
    ConstantIs(r);
    if SafeLiteral(op, u, Width(l)) {
      OneColumnSide(op, l, r, name, d);
    } else {
      LiteralIsExact(op, u, Width(l));
      var b: Buffer :| ServerSays(op, b, Width(l), u) != DuckSays(op, b, Width(l), u);
      ServerText(op, l, u, b, d);
      DuckText(op, l, u, b);
      DifferentRow(Comparison(op, l, r), FilterAst.Text(b), name, d);
    }
  }

  lemma ConstantIs(r: Expr)
    requires r.Const? && Renderable(r)
    ensures StoredValue(r, Null) == AnsiEval(r, Null) == r.v
  {
  }

  lemma ServerText(op: CmpOp, l: Expr, u: Buffer, b: Buffer, d: Dialect)
    requires Renderable(Comparison(op, l, Const(FilterAst.Text(u)))) && ValueExpr(l) && UsesColumn(l)
    ensures IsTrue(Server(Comparison(op, l, Const(FilterAst.Text(u))), FilterAst.Text(b), d)) <==> ServerSays(op, b, Width(l), u)
  {
    hide AnsiEval, Displayed, Compare, CutBytes;
    CutOf(l, b);
  }

  lemma DuckText(op: CmpOp, l: Expr, u: Buffer, b: Buffer)
    requires Renderable(Comparison(op, l, Const(FilterAst.Text(u)))) && ValueExpr(l) && UsesColumn(l)
    ensures IsTrue(AnsiEval(Comparison(op, l, Const(FilterAst.Text(u))), Displayed(FilterAst.Text(b)))) <==> DuckSays(op, b, Width(l), u)
  {
    hide StoredValue, Displayed, Compare, CutChars;
    CutOf(l, b);
  }

  function TextConstants(us: seq<Buffer>): (es: seq<Expr>)
    ensures |es| == |us| && forall i :: 0 <= i < |us| ==> es[i] == Const(FilterAst.Text(us[i]))
  {
    seq(|us|, i requires 0 <= i < |us| => Const(FilterAst.Text(us[i])))
  }

  /** The column, or LEFT of it, in or not in a list of texts: kept if and only if every text of the list is safe. */
  lemma TextLists(kind: OperatorKind, l: Expr, us: seq<Buffer>, name: string, d: Dialect)
    requires (kind.In? || kind.NotIn?) && Renderable(l) && ValueExpr(l) && UsesColumn(l)
    requires us != [] && forall i :: 0 <= i < |us| ==> Transcoding.WellFormed(us[i])
    ensures var e := Operator(kind, [l] + TextConstants(us));
            Renderable(e)
            && (KeepsMeaning(e, name, d) <==> forall i :: 0 <= i < |us| ==> SafeLiteral(Eq, us[i], Width(l)))
  {
    hide AnsiEval, StoredValue, KeepsMeaning, SafeLiteral, Displayed, CutBytes, CutChars, Server;
    var operands := [l] + TextConstants(us);
    var e := Operator(kind, operands);
    assert forall i :: 0 < i < |operands| ==> operands[i] == Const(FilterAst.Text(us[i - 1]));
    assert operands[0] == l && Renderable(e);
    CutListIsExact(us, Width(l));
    if forall i :: 0 <= i < |us| ==> SafeLiteral(Eq, us[i], Width(l)) {
      forall i | 0 < i < |operands|
        ensures ConstantsAgree(operands[i]) && SafePair(Eq, l, operands[i])
      {
        ConstantIs(operands[i]);
      }
      ValueLists(kind, operands, name, d);
    } else {
      var b: Buffer :| (CutBytes(b, Width(l)) in us) != (CutChars(Transcoding.Decode(b), Width(l)) in us);
      ServerList(kind, l, us, b, d);
      DuckList(kind, l, us, b);
      DifferentRow(e, FilterAst.Text(b), name, d);
    }
  }

  lemma ServerList(kind: OperatorKind, l: Expr, us: seq<Buffer>, b: Buffer, d: Dialect)
    requires (kind.In? || kind.NotIn?) && us != [] && ValueExpr(l) && UsesColumn(l)
    requires Renderable(Operator(kind, [l] + TextConstants(us)))
    ensures Renderable(l)
    ensures IsTrue(Server(Operator(kind, [l] + TextConstants(us)), FilterAst.Text(b), d))
            <==> (CutBytes(b, Width(l)) in us) == kind.In?
  {
    hide AnsiEval, Displayed, CutBytes;
    var v := FilterAst.Text(b);
    var operands := [l] + TextConstants(us);
    assert operands[0] == l && Renderable(l) && operands[1..] == TextConstants(us);
    CutOf(l, b);
    var items := ServerAll(operands[1..], v, d);
    assert forall i :: 0 <= i < |us| ==> items[i] == FilterAst.Text(us[i]);
    assert Member(FilterAst.Text(CutBytes(b, Width(l))), items) <==> CutBytes(b, Width(l)) in us;
  }

  lemma DuckList(kind: OperatorKind, l: Expr, us: seq<Buffer>, b: Buffer)
    requires (kind.In? || kind.NotIn?) && us != [] && Renderable(l) && ValueExpr(l) && UsesColumn(l)
    ensures IsTrue(AnsiEval(Operator(kind, [l] + TextConstants(us)), Displayed(FilterAst.Text(b))))
            <==> (CutChars(Transcoding.Decode(b), Width(l)) in us) == kind.In?
  {
    hide StoredValue, Displayed, CutChars, AnsiEval;
    var v := Displayed(FilterAst.Text(b));
    var operands := [l] + TextConstants(us);
    assert operands[0] == l && operands[1..] == TextConstants(us);
    CutOf(l, b);
    var items := AnsiEvalAll(operands[1..], v);
    forall i | 0 <= i < |us|
      ensures items[i] == FilterAst.Text(us[i])
    {
      ConstantShown(FilterAst.Text(us[i]), v);
    }
    ListIs(kind, operands, v);
    TextProbe(CutChars(Transcoding.Decode(b), Width(l)), us, items);
  }

  lemma ConstantShown(c: Value, cv: Value)
    ensures AnsiEval(Const(c), cv) == c
  {
  }

  lemma TextProbe(c: Buffer, us: seq<Buffer>, items: seq<Value>)
    requires |items| == |us| && forall i :: 0 <= i < |us| ==> items[i] == FilterAst.Text(us[i])
    ensures AnsiIn(FilterAst.Text(c), items) == Bool(c in us)
  {
    if c in us {
      var i :| 0 <= i < |us| && us[i] == c;
      assert items[i] == FilterAst.Text(c);
    }
  }

  // ----- truth values as operands -----

  /**
   * IS NULL and IS NOT NULL of a truth value: to the server it is never NULL, so they are kept
   * exactly if it is not NULL on the NULL row.
   */
  lemma NullTestOfCondition(b: Expr, negated: bool, name: string, d: Dialect)
    requires BoolShaped(b)
    requires var e := Operator(if negated then IsNotNull else IsNull, [b]); Renderable(e) && ConstantsAgree(e) && TextSafe(e)
    ensures KeepsMeaning(Operator(if negated then IsNotNull else IsNull, [b]), name, d) <==> !AnsiEval(b, Null).Null?
  {
    hide AnsiEval, KeepsMeaning, StoredValue;
    var e := Operator(if negated then IsNotNull else IsNull, [b]);
    assert e.operands[0] == b;
    assert Renderable(b);
    ServerIsBool(b, Null, d);
    NullTestIs(b, negated);
    NullRowDecides(e, name, d);
  }

  lemma NullTestIs(b: Expr, negated: bool)
    ensures AnsiEval(Operator(if negated then IsNotNull else IsNull, [b]), Null) == Bool(AnsiEval(b, Null).Null? != negated)
  {
  }

  /** What is never NULL to the server: a truth value, or a constant. */
  predicate NeverNull(e: Expr) {
    BoolShaped(e) || (ValueExpr(e) && !UsesColumn(e))
  }

  /**
   * Any comparison whose sides are truth values or constants, in either order. It is kept if and only if,
   * on the NULL row, it comes out false to the server where either side is NULL under ANSI logic, and
   * alike where neither is.
   */
  lemma ComparedConditions(op: CmpOp, l: Expr, r: Expr, name: string, d: Dialect)
    requires NeverNull(l) && NeverNull(r)
    requires var e := Comparison(op, l, r); Renderable(e) && ConstantsAgree(e) && TextSafe(e)
    ensures var (x, y) := (AnsiEval(l, Null), AnsiEval(r, Null));
            var outcome := Compare(op, Server(l, Null, d), Server(r, Null, d));
            KeepsMeaning(Comparison(op, l, r), name, d)
            <==> if x.Null? || y.Null? then !outcome else outcome == Compare(op, x, y)
  {
    hide AnsiEval, KeepsMeaning, StoredValue;
    var e := Comparison(op, l, r);
    NotNullOperand(l, d);
    NotNullOperand(r, d);
    ComparisonIs(op, l, r);
    NullRowDecides(e, name, d);
  }

  lemma NotNullOperand(r: Expr, d: Dialect)
    requires Renderable(r) && ConstantsAgree(r) && NeverNull(r)
    ensures !Server(r, Null, d).Null?
  {
    hide AnsiEval, StoredValue;
    if BoolShaped(r) {
      ServerIsBool(r, Null, d);
    } else {
      NullValue(r, d);
    }
  }

  /** A truth value under ANSI logic is TRUE, FALSE or NULL. */
  lemma {:induction false} ConditionIsBoolOrNull(e: Expr, v: Value)
    requires BoolShaped(e)
    ensures AnsiEval(e, v).Bool? || AnsiEval(e, v).Null?
  {
  }

  /** What an operand that keeps its own meaning is to the server on the NULL row: NULL counts as FALSE. */
  function NullAsFalse(v: Value): Value {
    if v.Null? then Bool(false) else v
  }

  /**
   * If the operands keep their own meaning, that can be read off their ANSI values: with NULL read as
   * FALSE the comparison must come out false wherever one of them is NULL. So `b <> TRUE` and `b = FALSE`
   * let the NULL row in exactly if b is NULL on it, while `b = TRUE` and `b <> FALSE` are always kept.
   */
  lemma ComparedKeptConditions(op: CmpOp, l: Expr, r: Expr, name: string, d: Dialect)
    requires NeverNull(l) && NeverNull(r)
    requires var e := Comparison(op, l, r); Renderable(e) && ConstantsAgree(e) && TextSafe(e)
    requires (BoolShaped(l) ==> NullSame(l, d)) && (BoolShaped(r) ==> NullSame(r, d))
    ensures var (x, y) := (AnsiEval(l, Null), AnsiEval(r, Null));
            KeepsMeaning(Comparison(op, l, r), name, d)
            <==> (x.Null? || y.Null? ==> !Compare(op, NullAsFalse(x), NullAsFalse(y)))
  {
    hide AnsiEval, KeepsMeaning, StoredValue, Server;
    ComparedConditions(op, l, r, name, d);
    KeptOperand(l, d);
    KeptOperand(r, d);
  }

  /** What an operand is to the server on the NULL row: a truth value that keeps its own meaning has NULL read as FALSE. */
  function AsServer(e: Expr): Value {
    if BoolShaped(e) then NullAsFalse(AnsiEval(e, Null)) else AnsiEval(e, Null)
  }

  lemma KeptOperand(e: Expr, d: Dialect)
    requires Renderable(e) && ConstantsAgree(e) && Operand(e) && (BoolShaped(e) ==> NullSame(e, d))
    ensures Server(e, Null, d) == AsServer(e)
    ensures ValueExpr(e) && !UsesColumn(e) ==> AsServer(e) == NullAsFalse(AnsiEval(e, Null)) == AnsiEval(e, Null)
  {
    hide AnsiEval, StoredValue, Server;
    if BoolShaped(e) {
      ServerIsBool(e, Null, d);
      ConditionIsBoolOrNull(e, Null);
    }
    if ValueExpr(e) {
      NullValue(e, d);
    }
  }

  /** A truth value against the column, in either order: the column's NULL is compensated under `<>` and excludes the row otherwise, so it is always kept. */
  lemma ConditionAgainstColumn(op: CmpOp, l: Expr, r: Expr, name: string, d: Dialect)
    requires (BoolShaped(l) && ValueExpr(r) && UsesColumn(r)) || (ValueExpr(l) && UsesColumn(l) && BoolShaped(r))
    requires var e := Comparison(op, l, r); Renderable(e) && ConstantsAgree(e) && TextSafe(e)
    ensures KeepsMeaning(Comparison(op, l, r), name, d)
  {
    hide AnsiEval, KeepsMeaning, StoredValue;
    var (b, c) := if ValueExpr(r) && UsesColumn(r) then (l, r) else (r, l);
    NotNullOperand(b, d);
    NullValue(c, d);
    ComparisonIs(op, l, r);
    NullRowDecides(Comparison(op, l, r), name, d);
  }

  // ----- lists -----

  /** Some item of the list uses the column. */
  predicate ColumnInList(items: seq<Expr>)
    requires forall i :: 0 <= i < |items| ==> ValueExpr(items[i])
  {
    exists i :: 0 <= i < |items| && UsesColumn(items[i])
  }

  /** The constant is among the constants of the list. */
  predicate Listed(probe: Expr, items: seq<Expr>)
    requires forall i :: 0 <= i < |items| ==> ValueExpr(items[i])
  {
    exists i :: 0 <= i < |items| && !UsesColumn(items[i]) && AnsiEval(items[i], Null) == AnsiEval(probe, Null)
  }

  /**
   * A list of any values. IN is always kept. NOT IN is kept if and only if its probe uses the column,
   * so that it is compensated, or no item of the list does, or the probe is one of the list's constants.
   */
  lemma ValueLists(kind: OperatorKind, operands: seq<Expr>, name: string, d: Dialect)
    requires kind.In? || kind.NotIn?
    requires var e := Operator(kind, operands); Renderable(e) && ConstantsAgree(e) && TextSafe(e)
    requires forall i :: 0 <= i < |operands| ==> ValueExpr(operands[i])
    ensures KeepsMeaning(Operator(kind, operands), name, d)
            <==> kind.In? || UsesColumn(operands[0]) || !ColumnInList(operands[1..]) || Listed(operands[0], operands[1..])
  {
    hide AnsiEval, KeepsMeaning, StoredValue;
    var e := Operator(kind, operands);
    var probe, items := operands[0], operands[1..];
    var xs, ys := ServerAll(items, Null, d), AnsiEvalAll(items, Null);
    NullValue(probe, d);
    forall i | 0 <= i < |items|
      ensures xs[i] == ys[i] && (ys[i].Null? <==> UsesColumn(items[i]))
    {
      assert items[i] == operands[i + 1];
      NullValue(items[i], d);
    }
    assert xs == ys;
    ListIs(kind, operands, Null);
    NullList(AnsiEval(probe, Null), ys);
    NullRowDecides(e, name, d);
  }

  lemma ListIs(kind: OperatorKind, operands: seq<Expr>, cv: Value)
    requires operands != [] && (kind.In? || kind.NotIn?)
    ensures var v, vs := AnsiEval(operands[0], cv), AnsiEvalAll(operands[1..], cv);
            AnsiEval(Operator(kind, operands), cv) == if kind.NotIn? then AnsiNot(AnsiIn(v, vs)) else AnsiIn(v, vs)
  {
  }

  lemma NullList(p: Value, vs: seq<Value>)
    ensures IsTrue(AnsiIn(p, vs)) <==> !p.Null? && Member(p, vs)
    ensures IsTrue(AnsiNot(AnsiIn(p, vs))) <==> !p.Null? && !Member(p, vs) && Null !in vs
    ensures Null in vs <==> exists i :: 0 <= i < |vs| && vs[i].Null?
  {
    assert Member(p, vs) <==> p in vs;
  }

  /** Every operand of a list, as the server and as ANSI logic have it on the NULL row. */
  function AllAsServer(es: seq<Expr>): (vs: seq<Value>)
    ensures |vs| == |es| && forall i :: 0 <= i < |es| ==> vs[i] == AsServer(es[i])
  {
    seq(|es|, i requires 0 <= i < |es| => AsServer(es[i]))
  }

  /**
   * A list with truth values as probe or items, values among them or not. Against a probe that uses the
   * column it is always kept. Any other is kept if and only if, on the NULL row, the server finds the probe
   * exactly where ANSI logic is sure of it: IN is TRUE on both sides or on neither, and so is NOT IN.
   */
  lemma TruthLists(kind: OperatorKind, operands: seq<Expr>, name: string, d: Dialect)
    requires kind.In? || kind.NotIn?
    requires var e := Operator(kind, operands); Renderable(e) && ConstantsAgree(e) && TextSafe(e)
    requires forall i :: 0 <= i < |operands| ==> Operand(operands[i])
    ensures var probe, items := operands[0], operands[1..];
            var y, ys := AnsiEval(probe, Null), AnsiEvalAll(items, Null);
            var found := Member(Server(probe, Null, d), ServerAll(items, Null, d));
            KeepsMeaning(Operator(kind, operands), name, d)
            <==> || (ValueExpr(probe) && UsesColumn(probe))
                 || (if kind.In? then found <==> !y.Null? && Member(y, ys)
                     else !found <==> !y.Null? && !Member(y, ys) && Null !in ys)
  {
    hide AnsiEval, KeepsMeaning, StoredValue;
    var e := Operator(kind, operands);
    var probe := operands[0];
    if ValueExpr(probe) {
      NullValue(probe, d);
    } else {
      NotNullOperand(probe, d);
    }
    ListIs(kind, operands, Null);
    NullList(AnsiEval(probe, Null), AnsiEvalAll(operands[1..], Null));
    NullRowDecides(e, name, d);
  }

  /**
   * If the truth values in it keep their own meaning that can be read off their ANSI values, NULL taken as
   * FALSE: so `b NOT IN (TRUE)` lets the NULL row in exactly if b is NULL on it, and `b IN (FALSE)` too.
   */
  lemma KeptTruthLists(kind: OperatorKind, operands: seq<Expr>, name: string, d: Dialect)
    requires kind.In? || kind.NotIn?
    requires var e := Operator(kind, operands); Renderable(e) && ConstantsAgree(e) && TextSafe(e)
    requires forall i :: 0 <= i < |operands| ==> Operand(operands[i]) && (BoolShaped(operands[i]) ==> NullSame(operands[i], d))
    ensures var probe, items := operands[0], operands[1..];
            var y, ys := AnsiEval(probe, Null), AnsiEvalAll(items, Null);
            var found := Member(AsServer(probe), AllAsServer(items));
            KeepsMeaning(Operator(kind, operands), name, d)
            <==> || (ValueExpr(probe) && UsesColumn(probe))
                 || (if kind.In? then found <==> !y.Null? && Member(y, ys)
                     else !found <==> !y.Null? && !Member(y, ys) && Null !in ys)
  {
    hide AnsiEval, KeepsMeaning, StoredValue, Server, NullSame, AsServer;
    var items := operands[1..];
    var xs := ServerAll(items, Null, d);
    forall i | 0 <= i < |items|
      ensures xs[i] == AllAsServer(items)[i]
    {
      assert items[i] == operands[i + 1];
      KeptOperand(items[i], d);
    }
    assert xs == AllAsServer(items);
    KeptOperand(operands[0], d);
    TruthLists(kind, operands, name, d);
  }

  // ----- conjunctions -----

  /** A conjunction of conditions that keep their meaning keeps its own. */
  lemma ConjunctionsKeep(kind: ConjKind, children: seq<Expr>, d: Dialect)
    requires children != [] && RenderableAll(children) && forall i :: 0 <= i < |children| ==> NullSame(children[i], d)
    ensures NullSame(Conjunction(kind, children), d)
  {
    var xs, ys := ServerAll(children, Null, d), AnsiEvalAll(children, Null);
    forall i | 0 <= i < |children|
      ensures IsTrue(xs[i]) <==> ys[i] == Bool(true)
    {
      assert NullSame(children[i], d);
    }
    ConjunctionTrue(kind, ys);
  }

  // ----- a fragment for every dialect -----

  /** Shapes that are kept whatever the server makes of NULL against NULL. */
  predicate InFragment(e: Expr) {
    match e
    case Comparison(op, l, r) => ValueExpr(l) && ValueExpr(r) && (op.Ne? || !UsesColumn(l) || !UsesColumn(r))
    case Conjunction(_, children) => children != [] && forall i :: 0 <= i < |children| ==> InFragment(children[i])
    case Operator(kind, operands) =>
      && operands != [] && (forall i :: 0 <= i < |operands| ==> ValueExpr(operands[i]))
      && (kind.NotIn? ==> UsesColumn(operands[0]) || !ColumnInList(operands[1..]) || Listed(operands[0], operands[1..]))
    case _ => ValueExpr(e)
  }

  lemma {:induction false} FragmentIsKept(e: Expr, d: Dialect)
    requires Renderable(e) && InFragment(e) && ConstantsAgree(e)
    ensures Condition(e) && NullSame(e, d)
  {
    hide AnsiEval, StoredValue;
    match e
    case Comparison(op, l, r) =>
      NullValue(l, d);
      NullValue(r, d);
      ComparisonIs(op, l, r);
    case Conjunction(kind, children) =>
      forall i | 0 <= i < |children|
        ensures Condition(children[i]) && NullSame(children[i], d)
      {
        FragmentIsKept(children[i], d);
      }
      ConjunctionsKeep(kind, children, d);
    case Operator(kind, operands) =>
      FragmentOperator(kind, operands, d);
    case _ => NullValue(e, d);
  }

  lemma FragmentOperator(kind: OperatorKind, operands: seq<Expr>, d: Dialect)
    requires var e := Operator(kind, operands); Renderable(e) && InFragment(e) && ConstantsAgree(e)
    ensures NullSame(Operator(kind, operands), d)
  {
    hide AnsiEval, StoredValue;
    NullValue(operands[0], d);
    if kind.In? || kind.NotIn? {
      var items := operands[1..];
      var xs, ys := ServerAll(items, Null, d), AnsiEvalAll(items, Null);
      forall i | 0 <= i < |items|
        ensures xs[i] == ys[i] && (ys[i].Null? <==> UsesColumn(items[i]))
      {
        assert items[i] == operands[i + 1];
        NullValue(items[i], d);
      }
      assert xs == ys;
      ListIs(kind, operands, Null);
      NullList(AnsiEval(operands[0], Null), ys);
    } else {
      assert operands == [operands[0]];
      NullTestIs(operands[0], kind.IsNotNull?);
    }
  }
}
