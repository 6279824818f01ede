/**
 * DuckDB's side of filter pushdown: the bound expressions and table filters handed to the
 * scan, and what they mean under ANSI three-valued logic.
 */
module FilterAst {
  import opened Wrappers
  import opened Bytes
  import Transcoding = Text

  /** A value; text is its bytes. `Unsupported` stands for a constant of a type RenderValue does not know, such as TIME. */
  datatype Value = Null | Bool(b: bool) | Int(i: int) | Text(s: Buffer) | Unsupported

  /** Comparison operators; the two null-safe ones are DuckDB's and have no DBISAM spelling. */
  datatype CmpOp = Eq | Ne | Lt | Gt | Le | Ge | DistinctFrom | NotDistinctFrom

  datatype ConjKind = And | Or

  datatype OperatorKind = IsNull | IsNotNull | In | NotIn | OtherOperator

  datatype Expr =
    | Const(v: Value)
    | ColumnRef
    | Comparison(op: CmpOp, left: Expr, right: Expr)
    | Conjunction(kind: ConjKind, children: seq<Expr>)
    | Function(name: string, args: seq<Expr>)
    | Operator(operator: OperatorKind, operands: seq<Expr>)
    | OtherExpr

  /** DuckDB's TableFilter tree; `id` names a predicate the renderer never looks into. */
  datatype Filter =
    | ColumnIsNull
    | ColumnIsNotNull
    | ConstantComparison(cop: CmpOp, constant: Value)
    | AndFilter(ands: seq<Filter>)
    | OrFilter(ors: seq<Filter>)
    | OptionalFilter(child: Option<Filter>)
    | InFilter(values: seq<Value>)
    | ExpressionFilter(expr: Option<Expr>)
    | DynamicFilter(id: nat)
    | BloomFilter(id: nat)
    | OtherFilter(id: nat)

  // ----- values -----

  function Rank(v: Value): nat {
    match v
    case Null => 0
    case Bool(_) => 1
    case Int(_) => 2
    case Text(_) => 3
    case Unsupported => 4
  }

  /** The order of texts by their bytes. */
  predicate TextBelow(a: Buffer, b: Buffer) {
    if b == [] then false
    else if a == [] then true
    else a[0] < b[0] || (a[0] == b[0] && TextBelow(a[1..], b[1..]))
  }

  /** The order two non-NULL values of one type are compared in. */
  predicate Below(a: Value, b: Value) {
    match (a, b)
    case (Bool(x), Bool(y)) => !x && y
    case (Int(x), Int(y)) => x < y
    case (Text(x), Text(y)) => TextBelow(x, y)
    case _ => Rank(a) < Rank(b)
  }

  /** Texts and values are totally ordered: of two different ones exactly one is below the other, and what is below something below is below. */
  lemma {:induction false} TextsAreOrdered(a: Buffer, b: Buffer)
    ensures (TextBelow(a, b) || TextBelow(b, a)) <==> a != b
    ensures !(TextBelow(a, b) && TextBelow(b, a))
  {
    if a != [] && b != [] {
      TextsAreOrdered(a[1..], b[1..]);
      assert a == [a[0]] + a[1..] && b == [b[0]] + b[1..];
    }
  }

  lemma {:induction false} TextsChain(a: Buffer, b: Buffer, c: Buffer)
    requires TextBelow(a, b) && TextBelow(b, c)
    ensures TextBelow(a, c)
  {
    if a != [] && a[0] == b[0] && b[0] == c[0] {
      TextsChain(a[1..], b[1..], c[1..]);
    }
  }

  lemma ValuesAreOrdered(a: Value, b: Value, c: Value)
    ensures (Below(a, b) || Below(b, a)) <==> a != b
    ensures !(Below(a, b) && Below(b, a))
    ensures Below(a, b) && Below(b, c) ==> Below(a, c)
    ensures Below(Bool(false), Bool(true)) && (a.Int? && b.Int? ==> (Below(a, b) <==> a.i < b.i))
  {
    if a.Text? && b.Text? {
      TextsAreOrdered(a.s, b.s);
      if c.Text? && Below(a, b) && Below(b, c) {
        TextsChain(a.s, b.s, c.s);
      }
    }
  }

  /** Comparison of two non-NULL values, on which ANSI SQL and DBISAM agree. */
  predicate Compare(op: CmpOp, a: Value, b: Value) {
    match op
    case Eq => a == b
    case Ne => a != b
    case Lt => Below(a, b)
    case Gt => Below(b, a)
    case Le => !Below(b, a)
    case Ge => !Below(a, b)
    case DistinctFrom => a != b
    case NotDistinctFrom => a == b
  }

  /** The first n characters, or for a negative n all but the last -n: DuckDB's left(). */
  function LeftChars(s: Buffer, n: int): Buffer {
    if n >= 0 then Transcoding.TakeLeads(s, n)
    else if Transcoding.Leads(s) + n > 0 then Transcoding.TakeLeads(s, Transcoding.Leads(s) + n)
    else []
  }

  function LeftValue(v: Value, n: int): Value {
    if v.Text? then Text(LeftChars(v.s, n)) else v
  }

  /** What DuckDB sees of a stored value: text is transcoded on its way out of the scan. */
  function Displayed(v: Value): Value {
    if v.Text? then Text(Transcoding.Decode(v.s)) else v
  }

  // ----- ANSI evaluation -----

  predicate IsTrue(v: Value) {
    v == Bool(true)
  }

  function AnsiNot(v: Value): Value {
    if v.Bool? then Bool(!v.b) else Null
  }

  /** AND and OR over a list: the absorbing truth value decides, else NULL is contagious. */
  function AnsiConj(kind: ConjKind, vs: seq<Value>): Value {
    if Bool(kind.Or?) in vs then Bool(kind.Or?)
    else if forall i :: 0 <= i < |vs| ==> vs[i] == Bool(kind.And?) then Bool(kind.And?)
    else Null
  }

  function AnsiCompare(op: CmpOp, l: Value, r: Value): Value {
    if op.DistinctFrom? || op.NotDistinctFrom? then Bool(Compare(op, l, r))
    else if l.Null? || r.Null? then Null
    else Bool(Compare(op, l, r))
  }

  function AnsiIn(probe: Value, items: seq<Value>): Value {
    if probe.Null? then Null
    else if probe in items then Bool(true)
    else if Null in items then Null
    else Bool(false)
  }

  /** The value of an expression on a row whose only referenced column shows cv. */
  function AnsiEval(e: Expr, cv: Value): Value
    decreases e, 1
  {
    match e
    case Const(v) => v
    case ColumnRef => cv
    case Comparison(op, l, r) => AnsiCompare(op, AnsiEval(l, cv), AnsiEval(r, cv))
    case Conjunction(kind, children) => AnsiConj(kind, AnsiEvalAll(children, cv))
    case Function(name, args) =>
      if name == "left" && |args| == 2 then
        var n := AnsiEval(args[1], cv);
        if n.Int? then LeftValue(AnsiEval(args[0], cv), n.i) else Null
      else Null // other functions have no rendering, so their value is never compared
    case Operator(kind, operands) =>
      if operands == [] then Null
      else
        var v := AnsiEval(operands[0], cv);
        match kind {
          case IsNull => Bool(v.Null?)
          case IsNotNull => Bool(!v.Null?)
          case In => AnsiIn(v, AnsiEvalAll(operands[1..], cv))
          case NotIn => AnsiNot(AnsiIn(v, AnsiEvalAll(operands[1..], cv)))
          case OtherOperator => Null
        }
    case OtherExpr => Null
  }

  function AnsiEvalAll(es: seq<Expr>, cv: Value): (vs: seq<Value>)
    ensures |vs| == |es|
    ensures forall i :: 0 <= i < |es| ==> vs[i] == AnsiEval(es[i], cv)
    decreases es, 0
  {
    if es == [] then [] else [AnsiEval(es[0], cv)] + AnsiEvalAll(es[1..], cv)
  }

  /**
   * Whether a table filter is TRUE (not FALSE, not NULL) on a column value. `unseen` decides the
   * predicates the renderer cannot see into: dynamic, bloom and struct filters.
   */
  predicate FilterTrue(f: Filter, cv: Value, unseen: nat -> bool) {
    match f
    case ColumnIsNull => cv.Null?
    case ColumnIsNotNull => !cv.Null?
    case ConstantComparison(op, c) => IsTrue(AnsiCompare(op, cv, c))
    case AndFilter(fs) => forall i :: 0 <= i < |fs| ==> FilterTrue(fs[i], cv, unseen)
    case OrFilter(fs) => exists i :: 0 <= i < |fs| && FilterTrue(fs[i], cv, unseen)
    case OptionalFilter(child) => child.Some? ==> FilterTrue(child.value, cv, unseen)
    case InFilter(vs) => IsTrue(AnsiIn(cv, vs))
    case ExpressionFilter(e) => e.Some? ==> IsTrue(AnsiEval(e.value, cv))
    case DynamicFilter(id) => unseen(id)
    case BloomFilter(id) => unseen(id)
    case OtherFilter(id) => unseen(id)
  }
}
