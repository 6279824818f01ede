/**
 * What rendered expressions mean. The server evaluates the intended tree on the bytes it stores,
 * under its own NULL rules; DuckDB evaluates the source on what those bytes are shown as, under ANSI
 * logic. On rows that are not NULL the two agree wherever they compare text alike; what is left is
 * decided by the NULL row alone.
 */
module ExprMeaning {
  import opened Wrappers
  import opened Bytes
  import opened FilterAst
  import opened DbisamSql
  import opened DbisamParsing
  import opened FilterMeaning
  import opened TextPushdown
  import Transcoding = Text

  // ----- shapes -----

  /** A column, a constant, or LEFT of one. */
  predicate ValueExpr(e: Expr) {
    match e
    case Const(_) => true
    case ColumnRef => true
    case Function(_, args) => |args| == 2 && ValueExpr(args[0])
    case _ => false
  }

  predicate UsesColumn(e: Expr)
    requires ValueExpr(e)
  {
    match e
    case Const(_) => false
    case ColumnRef => true
    case Function(_, args) => UsesColumn(args[0])
  }

  /** A truth value: comparisons, tests and lists over values and truth values, and their conjunctions. */
  predicate BoolShaped(e: Expr) {
    match e
    case Const(v) => v.Bool?
    case Comparison(_, l, r) => (ValueExpr(l) || BoolShaped(l)) && (ValueExpr(r) || BoolShaped(r))
    case Conjunction(_, children) => children != [] && forall i :: 0 <= i < |children| ==> BoolShaped(children[i])
    case Operator(_, operands) => forall i :: 0 <= i < |operands| ==> ValueExpr(operands[i]) || BoolShaped(operands[i])
    case _ => false
  }

  predicate Operand(e: Expr) {
    ValueExpr(e) || BoolShaped(e)
  }

  /** What may stand as a filter: a truth value, a bare value, or a conjunction of filters. */
  predicate Condition(e: Expr) {
    Operand(e)
    || (e.Conjunction? && e.children != [] && forall i :: 0 <= i < |e.children| ==> Condition(e.children[i]))
  }

  // ----- what the server makes of an expression -----

  /** A value expression over a stored value, LEFT counting bytes. */
  function StoredValue(e: Expr, v: Value): Value
    requires Renderable(e) && ValueExpr(e)
  {
    match e
    case Const(c) => c
    case ColumnRef => v
    case Function(_, args) => LeftStored(StoredValue(args[0], v), args[1].v.i)
  }

  /** An added IS NOT NULL, on every side that is no constant. */
  predicate Guarded(e: Expr, v: Value) {
    e.Const? || !v.Null?
  }

  predicate Member(p: Value, items: seq<Value>) {
    exists i :: 0 <= i < |items| && items[i] == p
  }

  /** The outcome of the rendered text on a stored value, read off the source expression. */
  function Server(e: Expr, v: Value, d: Dialect): Value
    requires Renderable(e)
    decreases e, 1
  {
    if ValueExpr(e) then StoredValue(e, v)
    else
      match e
      case Comparison(op, l, r) =>
        var (x, y) := (Server(l, v, d), Server(r, v, d));
        Bool(DbisamCompare(op, x, y, d) && (op.Ne? ==> Guarded(l, x) && Guarded(r, y)))
      case Conjunction(kind, children) =>
        var vs := ServerAll(children, v, d);
        Bool(if kind.And? then forall i :: 0 <= i < |vs| ==> IsTrue(vs[i]) else exists i :: 0 <= i < |vs| && IsTrue(vs[i]))
      case Operator(kind, operands) =>
        var x := Server(operands[0], v, d);
        if kind.IsNull? then Bool(x.Null?)
        else if kind.IsNotNull? then Bool(!x.Null?)
        else
          var items := ServerAll(operands[1..], v, d);
          if kind.In? then Bool(!x.Null? && Member(x, items))
          else Bool((x.Null? || !Member(x, items)) && Guarded(operands[0], x))
      case _ => Null
  }

  function ServerAll(es: seq<Expr>, v: Value, d: Dialect): (vs: seq<Value>)
    requires RenderableAll(es)
    ensures |vs| == |es|
    ensures forall i :: 0 <= i < |es| ==> vs[i] == Server(es[i], v, d)
    decreases es, 0
  {
    if es == [] then [] else [Server(es[0], v, d)] + ServerAll(es[1..], v, d)
  }

  lemma {:induction false} ServerIsBool(e: Expr, v: Value, d: Dialect)
    requires Renderable(e) && BoolShaped(e)
    ensures Server(e, v, d).Bool?
  {
  }

  // ----- the tree evaluates to that -----

  ghost predicate AllTrue(ts: seq<Tree>, row: Row, d: Dialect) {
    forall i :: 0 <= i < |ts| ==> IsTrue(DbisamEval(ts[i], row, d))
  }

  ghost predicate SomeTrue(ts: seq<Tree>, row: Row, d: Dialect) {
    exists i :: 0 <= i < |ts| && IsTrue(DbisamEval(ts[i], row, d))
  }

  lemma GroupedMeaning(kind: ConjKind, ts: seq<Tree>, row: Row, d: Dialect)
    requires ts != []
    ensures CompleteAll(ts) <==> Complete(Grouped(kind, ts))
    ensures IsTrue(DbisamEval(Grouped(kind, ts), row, d))
            <==> if kind.And? then AllTrue(ts, row, d) else SomeTrue(ts, row, d)
    ensures (forall i :: 0 <= i < |ts| ==> DbisamEval(ts[i], row, d).Bool?) ==> DbisamEval(Grouped(kind, ts), row, d).Bool?
  {
    if |ts| == 1 {
      assert AllTrue(ts, row, d) <==> IsTrue(DbisamEval(ts[0], row, d));
      assert SomeTrue(ts, row, d) <==> IsTrue(DbisamEval(ts[0], row, d));
    } else {
      assert AllTrue(ts, row, d) <==> forall i :: 0 <= i < |ts| ==> IsTrue(DbisamEval(ts[i], row, d));
    }
  }

  /** Adding an IS NOT NULL part narrows a condition to the rows where that side is not NULL. */
  lemma EvalParts(ts: seq<Tree>, e: Expr, t: Tree, row: Row, d: Dialect)
    requires Complete(t)
    ensures CompleteAll(ts) ==> CompleteAll(ts + NotNullPart(e, t))
    ensures AllTrue(ts + NotNullPart(e, t), row, d) <==> AllTrue(ts, row, d) && Guarded(e, DbisamEval(t, row, d))
    ensures (forall i :: 0 <= i < |ts| ==> DbisamEval(ts[i], row, d).Bool?) ==>
              forall i :: 0 <= i < |ts + NotNullPart(e, t)| ==> DbisamEval((ts + NotNullPart(e, t))[i], row, d).Bool?
  {
    var more := ts + NotNullPart(e, t);
    assert forall i :: 0 <= i < |ts| ==> more[i] == ts[i];
    if !e.Const? {
      assert more[|ts|] == NullTest(true, t);
      assert IsTrue(DbisamEval(more[|ts|], row, d)) <==> !DbisamEval(t, row, d).Null?;
    }
  }

  lemma SingleTrue(t: Tree, row: Row, d: Dialect)
    ensures AllTrue([t], row, d) <==> IsTrue(DbisamEval(t, row, d))
    ensures CompleteAll([t]) <==> Complete(t)
  {
    var one := [t];
    assert one[0] == t;
    assert CompleteAll(one) ==> Complete(one[0]);
    assert AllTrue(one, row, d) ==> IsTrue(DbisamEval(one[0], row, d));
  }

  /** The compensated parts of `<>` and of NOT IN: a first condition, and IS NOT NULL where a side is no constant. */
  lemma CompensatedEval(first: Tree, l: Expr, lt: Tree, r: Expr, rt: Tree, row: Row, d: Dialect)
    requires Complete(first) && Complete(lt) && Complete(rt) && DbisamEval(first, row, d).Bool?
    ensures var t := Paren(Grouped(And, [first] + NotNullPart(l, lt) + NotNullPart(r, rt)));
            && Complete(t)
            && DbisamEval(t, row, d)
               == Bool(IsTrue(DbisamEval(first, row, d)) && Guarded(l, DbisamEval(lt, row, d)) && Guarded(r, DbisamEval(rt, row, d)))
  {
    var one := [first];
    var two := one + NotNullPart(l, lt);
    var parts := two + NotNullPart(r, rt);
    SingleTrue(first, row, d);
    EvalParts(one, l, lt, row, d);
    EvalParts(two, r, rt, row, d);
    GroupedMeaning(And, parts, row, d);
    assert forall i :: 0 <= i < |one| ==> one[i] == first;
    assert DbisamEval(Paren(Grouped(And, parts)), row, d) == DbisamEval(Grouped(And, parts), row, d);
  }

  /** What an operand's tree evaluates to. */
  ghost predicate Evaluates(e: Expr, name: string, row: Row, d: Dialect)
    requires Renderable(e)
  {
    && Complete(Intended(e, name))
    && (if Operand(e) then DbisamEval(Intended(e, name), row, d) == Server(e, row(name), d)
        else IsTrue(DbisamEval(Intended(e, name), row, d)) == IsTrue(Server(e, row(name), d)))
  }

  /**
   * The intended tree of a condition evaluates to what Server reads off the source: on every row,
   * under every dialect, with the NULL compensations of `<>` and NOT IN undone.
   */
  lemma {:induction false} TreeEvaluates(e: Expr, name: string, row: Row, d: Dialect)
    requires Renderable(e) && Condition(e)
    ensures Evaluates(e, name, row, d)
  {
    hide Evaluates, Server, Intended;
    if ValueExpr(e) {
      ValueEvaluates(e, name, row, d);
    } else {
      match e {
        case Comparison(op, l, r) =>
          TreeEvaluates(l, name, row, d);
          TreeEvaluates(r, name, row, d);
          ComparisonEvaluates(op, l, r, name, row, d);
        case Conjunction(kind, children) =>
          forall i | 0 <= i < |children|
            ensures Evaluates(children[i], name, row, d)
          {
            TreeEvaluates(children[i], name, row, d);
          }
          ConjunctionEvaluates(kind, children, name, row, d);
        case Operator(kind, operands) =>
          forall i | 0 <= i < |operands|
            ensures Evaluates(operands[i], name, row, d)
          {
            TreeEvaluates(operands[i], name, row, d);
          }
          OperatorEvaluates(kind, operands, name, row, d);
      }
    }
  }

  lemma {:induction false} ValueEvaluates(e: Expr, name: string, row: Row, d: Dialect)
    requires Renderable(e) && ValueExpr(e)
    ensures Evaluates(e, name, row, d)
  {
    if e.Function? {
      ValueEvaluates(e.args[0], name, row, d);
    }
  }

  lemma ComparisonEvaluates(op: CmpOp, l: Expr, r: Expr, name: string, row: Row, d: Dialect)
    requires Renderable(Comparison(op, l, r)) && Operand(l) && Operand(r)
    requires Evaluates(l, name, row, d) && Evaluates(r, name, row, d)
    ensures Evaluates(Comparison(op, l, r), name, row, d)
  {
    var lt, rt := Intended(l, name), Intended(r, name);
    assert Complete(CmpT(op, lt, rt));
    assert DbisamEval(CmpT(op, lt, rt), row, d)
        == Bool(DbisamCompare(op, Server(l, row(name), d), Server(r, row(name), d), d));
    if op.Ne? {
      CompensatedEval(CmpT(Ne, lt, rt), l, lt, r, rt, row, d);
    }
  }

  lemma ConjunctionEvaluates(kind: ConjKind, children: seq<Expr>, name: string, row: Row, d: Dialect)
    requires RenderableAll(children) && Condition(Conjunction(kind, children))
    requires forall i :: 0 <= i < |children| ==> Evaluates(children[i], name, row, d)
    ensures Evaluates(Conjunction(kind, children), name, row, d)
  {
    var e := Conjunction(kind, children);
    var ts, vs := IntendedAll(children, name), ServerAll(children, row(name), d);
    GroupedMeaning(kind, ts, row, d);
    assert forall i :: 0 <= i < |ts| ==> IsTrue(DbisamEval(ts[i], row, d)) == IsTrue(vs[i]);
    assert DbisamEval(Intended(e, name), row, d) == DbisamEval(Grouped(kind, ts), row, d);
    assert CompleteAll(ts);
    if Operand(e) {
      forall i | 0 <= i < |ts|
        ensures DbisamEval(ts[i], row, d).Bool?
      {
        ServerIsBool(children[i], row(name), d);
      }
    }
  }

  lemma ListEvaluates(neg: bool, probe: Expr, items: seq<Expr>, name: string, row: Row, d: Dialect)
    requires Renderable(probe) && Operand(probe) && Evaluates(probe, name, row, d)
    requires RenderableAll(items) && forall i :: 0 <= i < |items| ==> Operand(items[i]) && Evaluates(items[i], name, row, d)
    ensures var t := InList(neg, Intended(probe, name), IntendedAll(items, name));
            var x, vs := Server(probe, row(name), d), ServerAll(items, row(name), d);
            Complete(t) && DbisamEval(t, row, d) == Bool(if x.Null? then neg else Member(x, vs) != neg)
  {
    var ts, vs := IntendedAll(items, name), ServerAll(items, row(name), d);
    var x := Server(probe, row(name), d);
    assert forall i :: 0 <= i < |ts| ==> DbisamEval(ts[i], row, d) == vs[i];
    assert (exists i :: 0 <= i < |ts| && DbisamEval(ts[i], row, d) == x) <==> Member(x, vs);
    assert CompleteAll(ts);
  }

  lemma OperatorEvaluates(kind: OperatorKind, operands: seq<Expr>, name: string, row: Row, d: Dialect)
    requires Renderable(Operator(kind, operands)) && forall i :: 0 <= i < |operands| ==> Operand(operands[i])
    requires forall i :: 0 <= i < |operands| ==> Evaluates(operands[i], name, row, d)
    ensures Evaluates(Operator(kind, operands), name, row, d)
  {
    var probe := operands[0];
    if kind.In? || kind.NotIn? {
      var items := operands[1..];
      forall i | 0 <= i < |items|
        ensures Renderable(items[i]) && Operand(items[i]) && Evaluates(items[i], name, row, d)
      {
        assert items[i] == operands[i + 1];
      }
      ListEvaluates(kind.NotIn?, probe, items, name, row, d);
      var t := Intended(probe, name);
      var list := InList(kind.NotIn?, t, IntendedAll(items, name));
      if kind.NotIn? {
        var none := Const(Null);
        CompensatedEval(list, probe, t, none, Lit(Null), row, d);
        assert [list] + NotNullPart(probe, t) + NotNullPart(none, Lit(Null)) == [list] + NotNullPart(probe, t);
      } else {
        assert [list] + [] == [list];
      }
    }
  }

  // ----- text that is compared alike -----

  /** How much LEFT leaves of the column. */
  function Width(e: Expr): Option<nat>
    requires Renderable(e) && ValueExpr(e) && UsesColumn(e)
  {
    match e
    case ColumnRef => None
    case Function(_, args) =>
      var w := Width(args[0]);
      Some(if w.Some? && w.value < args[1].v.i then w.value else args[1].v.i)
  }

  /** LEFT of a constant leaves the same text on both sides: no character is cut. */
  predicate ConstantsAgree(e: Expr)
    requires Renderable(e)
    decreases e, 1
  {
    if ValueExpr(e) then !UsesColumn(e) ==> StoredValue(e, Null) == AnsiEval(e, Null)
    else
      match e
      case Comparison(_, l, r) => ConstantsAgree(l) && ConstantsAgree(r)
      case Conjunction(_, children) => forall i :: 0 <= i < |children| ==> ConstantsAgree(children[i])
      case Operator(_, operands) => forall i :: 0 <= i < |operands| ==> ConstantsAgree(operands[i])
      case _ => true
  }

  /** Two operands whose comparison the encoding of text does not disturb, whatever is stored. */
  predicate SafePair(op: CmpOp, l: Expr, r: Expr)
    requires Renderable(l) && Renderable(r)
  {
    ValueExpr(l) && ValueExpr(r) ==>
      if UsesColumn(l) && UsesColumn(r) then SafeCuts(op, Width(l), Width(r))
      else if UsesColumn(l) then SafeConstant(op, StoredValue(r, Null), Width(l))
      else if UsesColumn(r) then SafeConstant(op, StoredValue(l, Null), Width(r))
      else true
  }

  predicate SafeConstant(op: CmpOp, c: Value, width: Option<nat>) {
    c.Text? ==> Transcoding.WellFormed(c.s) && SafeLiteral(op, c.s, width)
  }

  /** Every comparison and list in the expression is one the encoding of text does not disturb. */
  predicate TextSafe(e: Expr)
    requires Renderable(e)
    decreases e, 1
  {
    match e
    case Comparison(op, l, r) => TextSafe(l) && TextSafe(r) && SafePair(op, l, r)
    case Conjunction(_, children) => forall i :: 0 <= i < |children| ==> TextSafe(children[i])
    case Operator(kind, operands) =>
      && (forall i :: 0 <= i < |operands| ==> TextSafe(operands[i]))
      && (kind.In? || kind.NotIn? ==> forall i :: 1 <= i < |operands| ==> SafePair(Eq, operands[0], operands[i]))
    case _ => true
  }

  predicate AsciiValue(v: Value) {
    v.Text? ==> Transcoding.AllAscii(v.s)
  }

  /** The encoding plays no part: not in the expression, or not in the row. */
  predicate ReadAlike(e: Expr, v: Value)
    requires Renderable(e)
  {
    ConstantsAgree(e) && (TextSafe(e) || AsciiValue(v))
  }

  /** Over stored text a column expression is a cut of its bytes, and shows a cut of its characters. */
  lemma {:induction false} CutOf(e: Expr, b: Buffer)
    requires Renderable(e) && ValueExpr(e) && UsesColumn(e)
    ensures StoredValue(e, FilterAst.Text(b)) == FilterAst.Text(CutBytes(b, Width(e)))
    ensures AnsiEval(e, Displayed(FilterAst.Text(b))) == FilterAst.Text(CutChars(Transcoding.Decode(b), Width(e)))
  {
    hide Transcoding.Decode;
    if e.Function? {
      var n := e.args[1].v.i;
      CutOf(e.args[0], b);
      var w := Width(e.args[0]);
      if w.Some? {
        Transcoding.TakeLeadsTwice(Transcoding.Decode(b), w.value, n);
      }
    }
  }

  /** Anything but text is shown as it is stored. */
  lemma {:induction false} NonTextAgrees(e: Expr, v: Value)
    requires Renderable(e) && ValueExpr(e) && UsesColumn(e) && !v.Text?
    ensures StoredValue(e, v) == AnsiEval(e, Displayed(v)) == v
  {
    if e.Function? {
      NonTextAgrees(e.args[0], v);
    }
  }

  lemma {:induction false} ConstantValue(e: Expr, v: Value)
    requires Renderable(e) && ValueExpr(e) && !UsesColumn(e)
    ensures StoredValue(e, v) == StoredValue(e, Null) && !StoredValue(e, Null).Null?
    ensures AnsiEval(e, v) == AnsiEval(e, Null) && !AnsiEval(e, Null).Null?
  {
    if e.Function? {
      ConstantValue(e.args[0], v);
    }
  }

  /** The values of a value expression on both sides: both NULL, both text, or the same. */
  lemma ValuesMatch(e: Expr, v: Value)
    requires Renderable(e) && ValueExpr(e) && ConstantsAgree(e)
    ensures var x, y := StoredValue(e, v), AnsiEval(e, Displayed(v));
            && (x.Null? <==> UsesColumn(e) && v.Null?) && (x == y || (x.Text? && y.Text? && UsesColumn(e)))
            && (AsciiValue(v) ==> x == y)
  {
    hide AnsiEval, StoredValue, Transcoding.Decode;
    if !UsesColumn(e) {
      ConstantValue(e, v);
      ConstantValue(e, Displayed(v));
    } else if v.Text? {
      CutOf(e, v.s);
      if AsciiValue(v) {
        AsciiIsShown(v.s, Width(e));
      }
    } else {
      NonTextAgrees(e, v);
    }
  }

  /** A comparison of two values has the same outcome on both sides. */
  lemma PairAgrees(op: CmpOp, l: Expr, r: Expr, v: Value)
    requires Renderable(l) && Renderable(r) && ValueExpr(l) && ValueExpr(r) && ConstantsAgree(l) && ConstantsAgree(r)
    requires SafePair(op, l, r) || AsciiValue(v)
    ensures Compare(op, StoredValue(l, v), StoredValue(r, v)) == Compare(op, AnsiEval(l, Displayed(v)), AnsiEval(r, Displayed(v)))
  {
    hide AnsiEval, StoredValue, Transcoding.Decode, TextBelow, SafeLiteral, SafeCuts, CutBytes, CutChars;
    ValuesMatch(l, v);
    ValuesMatch(r, v);
    if !AsciiValue(v) {
      if UsesColumn(l) {
        CutOf(l, v.s);
      } else {
        ConstantValue(l, v);
        ConstantValue(l, Displayed(v));
      }
      if UsesColumn(r) {
        CutOf(r, v.s);
      } else {
        ConstantValue(r, v);
        ConstantValue(r, Displayed(v));
      }
      if UsesColumn(l) && UsesColumn(r) {
        SafeCutsAgree(op, v.s, Width(l), Width(r));
      } else if UsesColumn(l) && StoredValue(r, Null).Text? {
        SafeLiteralAgrees(op, v.s, Width(l), StoredValue(r, Null).s);
      } else if UsesColumn(r) && StoredValue(l, Null).Text? {
        MirroredLiteral(op, v.s, Width(r), StoredValue(l, Null).s);
      }
    }
  }

  /** The literal on the left. */
  lemma MirroredLiteral(op: CmpOp, b: Buffer, width: Option<nat>, u: Buffer)
    requires Transcoding.WellFormed(u) && SafeLiteral(op, u, width)
    ensures Compare(op, FilterAst.Text(u), FilterAst.Text(CutBytes(b, width)))
         == Compare(op, FilterAst.Text(u), FilterAst.Text(CutChars(Transcoding.Decode(b), width)))
  {
    hide CutBytes, CutChars, Transcoding.Decode, TextBelow;
    var mirror := match op case Lt => Gt case Gt => Lt case Le => Ge case Ge => Le case _ => op;
    SafeLiteralAgrees(mirror, b, width, u);
  }

  // ----- agreement off the NULL row -----

  /** The two values of an operand: alike enough for every comparison with another operand. */
  ghost predicate Matches(e: Expr, v: Value, d: Dialect)
    requires Renderable(e) && Operand(e)
  {
    if ValueExpr(e) then !Server(e, v, d).Null? && !AnsiEval(e, Displayed(v)).Null?
    else Server(e, v, d) == AnsiEval(e, Displayed(v)) && Server(e, v, d).Bool?
  }

  /** A truth value against anything: of two texts it is never told which. */
  lemma BoolAgainst(op: CmpOp, x: Value, y: Value, y': Value)
    requires x.Bool? && (y == y' || (y.Text? && y'.Text?))
    ensures Compare(op, x, y) == Compare(op, x, y') && Compare(op, y, x) == Compare(op, y', x)
  {
  }

  lemma MatchedValue(e: Expr, v: Value, d: Dialect)
    requires Renderable(e) && Operand(e) && ConstantsAgree(e) && Matches(e, v, d)
    ensures var x, y := Server(e, v, d), AnsiEval(e, Displayed(v));
            && (ValueExpr(e) ==> x == StoredValue(e, v))
            && (x == y || (x.Text? && y.Text?)) && (!ValueExpr(e) ==> x == y && x.Bool?)
  {
    hide AnsiEval, StoredValue, Displayed, AsciiValue;
    if ValueExpr(e) {
      ValuesMatch(e, v);
    }
  }

  /** Comparing any two operands comes out alike, a truth value against anything included. */
  lemma OperandsAgree(op: CmpOp, l: Expr, r: Expr, v: Value, d: Dialect)
    requires Renderable(l) && Renderable(r) && Operand(l) && Operand(r) && ConstantsAgree(l) && ConstantsAgree(r)
    requires SafePair(op, l, r) || AsciiValue(v)
    requires Matches(l, v, d) && Matches(r, v, d)
    ensures Compare(op, Server(l, v, d), Server(r, v, d)) == Compare(op, AnsiEval(l, Displayed(v)), AnsiEval(r, Displayed(v)))
  {
    hide AnsiEval, StoredValue, SafePair, ConstantsAgree, Displayed, Compare, Server, Matches, AsciiValue;
    MatchedValue(l, v, d);
    MatchedValue(r, v, d);
    if ValueExpr(l) && ValueExpr(r) {
      PairAgrees(op, l, r, v);
    } else if ValueExpr(l) {
      BoolAgainst(op, Server(r, v, d), Server(l, v, d), AnsiEval(l, Displayed(v)));
    } else {
      BoolAgainst(op, Server(l, v, d), Server(r, v, d), AnsiEval(r, Displayed(v)));
    }
  }

  lemma {:induction false} OperandMatches(e: Expr, v: Value, d: Dialect)
    requires Renderable(e) && Operand(e) && !v.Null? && ReadAlike(e, v)
    ensures Matches(e, v, d)
    decreases e, 1
  {
    hide Matches, Server, AnsiEval, SafePair, AsciiValue, Displayed, StoredValue;
    if ValueExpr(e) {
      ValueMatches(e, v, d);
    } else {
      match e {
        case Comparison(op, l, r) =>
          OperandMatches(l, v, d);
          OperandMatches(r, v, d);
          OperandsAgree(op, l, r, v, d);
          ComparisonMatches(op, l, r, v, d);
        case Conjunction(kind, children) =>
          forall i | 0 <= i < |children|
            ensures Matches(children[i], v, d)
          {
            OperandMatches(children[i], v, d);
          }
          ConjunctionMatches(kind, children, v, d);
        case Operator(kind, operands) =>
          forall i | 0 <= i < |operands|
            ensures Matches(operands[i], v, d)
          {
            OperandMatches(operands[i], v, d);
          }
          OperatorMatches(kind, operands, v, d);
      }
    }
  }

  lemma ValueMatches(e: Expr, v: Value, d: Dialect)
    requires Renderable(e) && ValueExpr(e) && ConstantsAgree(e) && !v.Null?
    ensures Matches(e, v, d)
  {
    hide AnsiEval, StoredValue, ConstantsAgree, Displayed;
    ValuesMatch(e, v);
  }

  lemma ComparisonMatches(op: CmpOp, l: Expr, r: Expr, v: Value, d: Dialect)
    requires Renderable(Comparison(op, l, r)) && Operand(l) && Operand(r)
    requires Matches(l, v, d) && Matches(r, v, d)
    requires Compare(op, Server(l, v, d), Server(r, v, d)) == Compare(op, AnsiEval(l, Displayed(v)), AnsiEval(r, Displayed(v)))
    ensures Matches(Comparison(op, l, r), v, d)
  {
    hide Compare, StoredValue, Displayed;
  }

  lemma ConjunctionMatches(kind: ConjKind, children: seq<Expr>, v: Value, d: Dialect)
    requires RenderableAll(children) && BoolShaped(Conjunction(kind, children))
    requires forall i :: 0 <= i < |children| ==> Matches(children[i], v, d)
    ensures Matches(Conjunction(kind, children), v, d)
  {
    var xs, ys := ServerAll(children, v, d), AnsiEvalAll(children, Displayed(v));
    forall i | 0 <= i < |children|
      ensures xs[i] == ys[i] && xs[i].Bool?
    {
      if ValueExpr(children[i]) {
        assert children[i].Const?;
      }
    }
    assert xs == ys;
    BoolConjunction(kind, xs);
  }

  lemma BoolConjunction(kind: ConjKind, vs: seq<Value>)
    requires forall i :: 0 <= i < |vs| ==> vs[i].Bool?
    ensures AnsiConj(kind, vs)
         == Bool(if kind.And? then forall i :: 0 <= i < |vs| ==> IsTrue(vs[i]) else exists i :: 0 <= i < |vs| && IsTrue(vs[i]))
  {
    assert kind.And? && Bool(false) !in vs ==> forall i :: 0 <= i < |vs| ==> vs[i] == Bool(true);
    assert kind.Or? && Bool(true) !in vs ==> forall i :: 0 <= i < |vs| ==> vs[i] == Bool(false);
  }

  lemma OperatorMatches(kind: OperatorKind, operands: seq<Expr>, v: Value, d: Dialect)
    requires Renderable(Operator(kind, operands)) && BoolShaped(Operator(kind, operands)) && ReadAlike(Operator(kind, operands), v)
    requires forall i :: 0 <= i < |operands| ==> Matches(operands[i], v, d)
    ensures Matches(Operator(kind, operands), v, d)
  {
    hide StoredValue, SafePair, AsciiValue, Displayed;
    if kind.In? || kind.NotIn? {
      var probe, items := operands[0], operands[1..];
      var xs, ys := ServerAll(items, v, d), AnsiEvalAll(items, Displayed(v));
      var x, y := Server(probe, v, d), AnsiEval(probe, Displayed(v));
      forall i | 0 <= i < |items|
        ensures (xs[i] == x) == (ys[i] == y) && !ys[i].Null?
      {
        assert items[i] == operands[i + 1];
        OperandsAgree(Eq, probe, operands[i + 1], v, d);
      }
      MembersAgree(x, xs, y, ys);
    }
  }

  lemma MembersAgree(x: Value, xs: seq<Value>, y: Value, ys: seq<Value>)
    requires |xs| == |ys| && forall i :: 0 <= i < |xs| ==> (xs[i] == x) == (ys[i] == y) && !ys[i].Null?
    requires !y.Null?
    ensures AnsiIn(y, ys) == Bool(Member(x, xs))
  {
  }
}
