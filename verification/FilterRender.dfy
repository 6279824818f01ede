/**
 * The renderer itself: DuckDB expressions and table filters to DBISAM WHERE text. Functions give
 * the text each shape renders to; the methods build it the way the source does, appending to a
 * string in loops.
 */
module FilterRender {
  import opened Wrappers
  import opened FilterAst
  import opened DbisamSql

  // ----- expressions -----

  /** `expr.GetExpressionClass() != BOUND_CONSTANT`, the test that adds an IS NOT NULL. */
  function Compensation(e: Expr, text: string): string {
    if e.Const? then "" else " AND " + text + " IS NOT NULL"
  }

  function ConjWord(kind: ConjKind): string {
    match kind
    case And => " AND "
    case Or => " OR "
  }

  /** The text an expression over one column renders to, if every part of it has one. */
  function ExprText(e: Expr, q: string): (r: Option<string>)
    ensures r.Some? && q != "" ==> r.value != ""
    decreases e, 1
  {
    match e
    case Const(v) => ValueText(v)
    case ColumnRef => Some(q)
    case Comparison(op, left, right) =>
      var o :- OpText(op);
      var l :- ExprText(left, q);
      var r :- ExprText(right, q);
      if op.Ne? then Some("(" + l + " <> " + r + Compensation(left, l) + Compensation(right, r) + ")")
      else Some("(" + l + " " + o + " " + r + ")")
    case Conjunction(kind, children) =>
      var texts :- ExprTexts(children, q);
      Some("(" + Join(texts, ConjWord(kind)) + ")")
    case Function(name, args) =>
      if name == "left" && |args| == 2 && args[1].Const? && args[1].v.Int? && args[1].v.i >= 0 then
        var arg :- ExprText(args[0], q);
        Some("LEFT(" + arg + ", " + IntText(args[1].v.i) + ")")
      else None
    case Operator(kind, operands) => OperatorText(kind, operands, q)
    case OtherExpr => None
  }

  function OperatorText(kind: OperatorKind, operands: seq<Expr>, q: string): (r: Option<string>)
    ensures r.Some? ==> r.value != ""
    decreases operands, 1
  {
    if kind.IsNull? || kind.IsNotNull? then
      if |operands| != 1 then None
      else
        var child :- ExprText(operands[0], q);
        Some("(" + child + (if kind.IsNull? then " IS NULL)" else " IS NOT NULL)"))
    else if kind.In? || kind.NotIn? then
      if |operands| < 2 then None
      else
        var probe :- ExprText(operands[0], q);
        var items :- ExprTexts(operands[1..], q);
        Some("(" + probe + (if kind.NotIn? then " NOT IN (" else " IN (") + Join(items, ", ") + ")"
             + (if kind.NotIn? then Compensation(operands[0], probe) else "") + ")")
    else None
  }

  function ExprTexts(es: seq<Expr>, q: string): (r: Option<seq<string>>)
    ensures r.Some? ==> |r.value| == |es|
    decreases es, 0
  {
    if es == [] then Some([])
    else
      var t :- ExprText(es[0], q);
      var ts :- ExprTexts(es[1..], q);
      Some([t] + ts)
  }

  /** What a loop over children has accumulated after one more child. */
  lemma {:induction false} ExprTextsSnoc(es: seq<Expr>, e: Expr, q: string)
    ensures ExprTexts(es + [e], q)
         == if ExprTexts(es, q).Some? && ExprText(e, q).Some?
            then Some(ExprTexts(es, q).value + [ExprText(e, q).value]) else None
  {
    if es == [] {
      assert [] + [e] == [e];
      assert [e][1..] == [];
      if ExprText(e, q).Some? {
        assert [ExprText(e, q).value] + [] == [] + [ExprText(e, q).value];
      }
    } else {
      ExprTextsSnoc(es[1..], e, q);
      assert (es + [e])[1..] == es[1..] + [e];
      if ExprTexts(es, q).Some? && ExprText(e, q).Some? {
        var t, ts, u := ExprText(es[0], q).value, ExprTexts(es[1..], q).value, ExprText(e, q).value;
        assert [t] + (ts + [u]) == [t] + ts + [u];
      }
    }
  }

  /** One child without a text leaves the whole list without one. */
  lemma {:induction false} ExprTextsFail(es: seq<Expr>, i: nat, q: string)
    requires i < |es| && ExprText(es[i], q).None?
    ensures ExprTexts(es, q).None?
  {
    if i > 0 {
      ExprTextsFail(es[1..], i - 1, q);
    }
  }

  method QuoteWith(s: string, quote: char) returns (out: string)
    ensures out == Enclosed(s, quote)
  {
    out := [quote];
    for i := 0 to |s|
      invariant out == [quote] + Doubled(s[..i], quote)
    {
      out := out + [s[i]];
      if s[i] == quote {
        out := out + [quote];
      }
      DoubledSnoc(s[..i], s[i], quote);
      assert s[..i + 1] == s[..i] + [s[i]];
    }
    out := out + [quote];
    assert s[..|s|] == s;
  }

  lemma {:induction false} DoubledSnoc(s: string, c: char, quote: char)
    ensures Doubled(s + [c], quote) == Doubled(s, quote) + (if c == quote then [c, quote] else [c])
  {
    if s == "" {
      assert [c][1..] == "";
    } else {
      DoubledSnoc(s[1..], c, quote);
      assert (s + [c])[1..] == s[1..] + [c];
    }
  }

  method QuoteDbisamIdent(name: string) returns (out: string)
    ensures out == Enclosed(name, '"')
  {
    out := QuoteWith(name, '"');
  }

  method RenderDbisamExpression(e: Expr, q: string) returns (r: Option<string>)
    ensures r == ExprText(e, q)
    decreases e, 1
  {
    match e
    case Const(v) => r := ValueText(v);
    case ColumnRef => r := Some(q);
    case Comparison(op, left, right) =>
      var o := OpText(op);
      if o.None? { return None; }
      var l := RenderDbisamExpression(left, q);
      var s := RenderDbisamExpression(right, q);
      if l.None? || s.None? { return None; }
      if op.Ne? {
        var out := "(" + l.value + " <> " + s.value;
        if !left.Const? { out := out + (" AND " + l.value + " IS NOT NULL"); }
        if !right.Const? { out := out + (" AND " + s.value + " IS NOT NULL"); }
        assert out == "(" + l.value + " <> " + s.value + Compensation(left, l.value) + Compensation(right, s.value);
        return Some(out + ")");
      }
      return Some("(" + l.value + " " + o.value + " " + s.value + ")");
    case Conjunction(kind, children) =>
      var body := RenderList(children, ConjWord(kind), q);
      return if body.None? then None else Some("(" + body.value + ")");
    case Function(name, args) =>
      if name == "left" && |args| == 2 {
        if !args[1].Const? || !args[1].v.Int? || args[1].v.i < 0 { return None; }
        var arg := RenderDbisamExpression(args[0], q);
        if arg.None? { return None; }
        return Some("LEFT(" + arg.value + ", " + IntText(args[1].v.i) + ")");
      }
      return None;
    case Operator(kind, operands) =>
      if kind.IsNull? || kind.IsNotNull? {
        if |operands| != 1 { return None; }
        var child := RenderDbisamExpression(operands[0], q);
        if child.None? { return None; }
        return Some("(" + child.value + (if kind.IsNull? then " IS NULL)" else " IS NOT NULL)"));
      } else if kind.In? || kind.NotIn? {
        if |operands| < 2 { return None; }
        var probe := RenderDbisamExpression(operands[0], q);
        if probe.None? { return None; }
        var items := RenderList(operands[1..], ", ", q);
        if items.None? { return None; }
        var out := "(" + probe.value + (if kind.NotIn? then " NOT IN (" else " IN (") + items.value + ")";
        if kind.NotIn? && !operands[0].Const? { out := out + (" AND " + probe.value + " IS NOT NULL"); }
        assert out == "(" + probe.value + (if kind.NotIn? then " NOT IN (" else " IN (") + items.value + ")"
                    + (if kind.NotIn? then Compensation(operands[0], probe.value) else "");
        return Some(out + ")");
      }
      return None;
    case OtherExpr => return None;
  }

  /** The loop the conjunction and IN branches share: render each child, a separator before all but the first. */
  method RenderList(es: seq<Expr>, sep: string, q: string) returns (r: Option<string>)
    ensures r == if ExprTexts(es, q).None? then None else Some(Join(ExprTexts(es, q).value, sep))
    decreases es, 0
  {
    var out := "";
    for i := 0 to |es|
      invariant ExprTexts(es[..i], q).Some?
      invariant out == Join(ExprTexts(es[..i], q).value, sep)
    {
      var text := RenderDbisamExpression(es[i], q);
      if text.None? {
        ExprTextsFail(es, i, q);
        return None;
      }
      JoinSnoc(ExprTexts(es[..i], q).value, text.value, sep);
      ExprTextsSnoc(es[..i], es[i], q);
      assert es[..i + 1] == es[..i] + [es[i]];
      if i > 0 { out := out + sep; }
      out := out + text.value;
    }
    assert es[..|es|] == es;
    return Some(out);
  }

  // ----- table filters -----

  /** Filters DuckDB still applies itself: they may be dropped, everything else is mandatory. */
  predicate IsSkippable(f: Filter) {
    match f
    case OptionalFilter(_) => true
    case DynamicFilter(_) => true
    case BloomFilter(_) => true
    case AndFilter(fs) => forall i :: 0 <= i < |fs| ==> IsSkippable(fs[i])
    case _ => false
  }

  /**
   * What the engine relies on the scan for: everything but optional, dynamic and bloom filters, and
   * conjunctions of nothing else.
   */
  predicate Essential(f: Filter) {
    match f
    case ColumnIsNull => true
    case ColumnIsNotNull => true
    case ConstantComparison(_, _) => true
    case AndFilter(fs) => exists i :: 0 <= i < |fs| && Essential(fs[i])
    case OrFilter(_) => true
    case OptionalFilter(_) => false
    case InFilter(_) => true
    case ExpressionFilter(_) => true
    case DynamicFilter(_) => false
    case BloomFilter(_) => false
    case OtherFilter(_) => true
  }

  /** The test for what may be dropped tells exactly these apart. */
  lemma {:induction false} SkippableIsExact(f: Filter)
    ensures IsSkippable(f) <==> !Essential(f)
  {
    if f.AndFilter? {
      forall i | 0 <= i < |f.ands|
        ensures IsSkippable(f.ands[i]) <==> !Essential(f.ands[i])
      {
        SkippableIsExact(f.ands[i]);
      }
    }
  }

  function FilterText(f: Filter, name: string): (r: Option<string>)
    ensures r.Some? ==> r.value != ""
    decreases f, 1
  {
    var q := Enclosed(name, '"');
    match f
    case ColumnIsNull => Some(q + " IS NULL")
    case ColumnIsNotNull => Some(q + " IS NOT NULL")
    case ConstantComparison(op, c) =>
      var o :- OpText(op);
      var lit :- ValueText(c);
      if op.Ne? then Some("(" + q + " " + o + " " + lit + " AND " + q + " IS NOT NULL)")
      else Some(q + " " + o + " " + lit)
    case AndFilter(fs) =>
      var texts :- KeptTexts(fs, name);
      if texts == [] then None else Some("(" + Join(texts, " AND ") + ")")
    case OrFilter(fs) =>
      var texts :- FilterTexts(fs, name);
      Some("(" + Join(texts, " OR ") + ")")
    case OptionalFilter(child) => if child.None? then None else FilterText(child.value, name)
    case InFilter(vs) =>
      if vs == [] then None
      else
        var lits :- ValueTexts(vs);
        Some(q + " IN (" + Join(lits, ", ") + ")")
    case ExpressionFilter(e) => if e.None? then None else ExprText(e.value, q)
    case DynamicFilter(_) => None
    case BloomFilter(_) => None
    case OtherFilter(_) => None
  }

  /** An AND keeps the children that render, drops the skippable ones that do not, and fails on the rest. */
  function KeptTexts(fs: seq<Filter>, name: string): Option<seq<string>>
    decreases fs, 0
  {
    if fs == [] then Some([])
    else
      var t := FilterText(fs[0], name);
      if t.None? && !IsSkippable(fs[0]) then None
      else
        var ts :- KeptTexts(fs[1..], name);
        Some((if t.Some? then [t.value] else []) + ts)
  }

  function FilterTexts(fs: seq<Filter>, name: string): Option<seq<string>>
    decreases fs, 0
  {
    if fs == [] then Some([])
    else
      var t :- FilterText(fs[0], name);
      var ts :- FilterTexts(fs[1..], name);
      Some([t] + ts)
  }

  function ValueTexts(vs: seq<Value>): (r: Option<seq<string>>)
    ensures r.Some? ==> |r.value| == |vs|
  {
    if vs == [] then Some([])
    else
      var t :- ValueText(vs[0]);
      var ts :- ValueTexts(vs[1..]);
      Some([t] + ts)
  }

  function Appended(a: Option<seq<string>>, b: Option<seq<string>>): Option<seq<string>> {
    if a.Some? && b.Some? then Some(a.value + b.value) else None
  }

  lemma AppendedTwice(a: Option<seq<string>>, b: Option<seq<string>>, c: Option<seq<string>>)
    ensures Appended(a, Appended(b, c)) == Appended(Appended(a, b), c)
    ensures Appended(a, Some([])) == a
    ensures Appended(Some([]), a) == a
  {
    if a.Some? {
      assert a.value + [] == a.value && [] + a.value == a.value;
      if b.Some? && c.Some? {
        assert a.value + (b.value + c.value) == a.value + b.value + c.value;
      }
    }
  }

  lemma {:induction false} KeptTextsConcat(a: seq<Filter>, b: seq<Filter>, name: string)
    ensures KeptTexts(a + b, name) == Appended(KeptTexts(a, name), KeptTexts(b, name))
  {
    if a == [] {
      assert a + b == b;
      AppendedTwice(KeptTexts(b, name), None, None);
    } else {
      KeptTextsConcat(a[1..], b, name);
      assert (a + b)[1..] == a[1..] + b;
      AppendedTwice(if FilterText(a[0], name).Some? then Some([FilterText(a[0], name).value]) else if IsSkippable(a[0]) then Some([]) else None, KeptTexts(a[1..], name), KeptTexts(b, name));
    }
  }

  lemma {:induction false} FilterTextsConcat(a: seq<Filter>, b: seq<Filter>, name: string)
    ensures FilterTexts(a + b, name) == Appended(FilterTexts(a, name), FilterTexts(b, name))
  {
    if a == [] {
      assert a + b == b;
      AppendedTwice(FilterTexts(b, name), None, None);
    } else {
      FilterTextsConcat(a[1..], b, name);
      assert (a + b)[1..] == a[1..] + b;
      AppendedTwice(if FilterText(a[0], name).Some? then Some([FilterText(a[0], name).value]) else None, FilterTexts(a[1..], name), FilterTexts(b, name));
    }
  }

  lemma {:induction false} ValueTextsConcat(a: seq<Value>, b: seq<Value>)
    ensures ValueTexts(a + b) == Appended(ValueTexts(a), ValueTexts(b))
  {
    if a == [] {
      assert a + b == b;
      AppendedTwice(ValueTexts(b), None, None);
    } else {
      ValueTextsConcat(a[1..], b);
      assert (a + b)[1..] == a[1..] + b;
      AppendedTwice(if ValueText(a[0]).Some? then Some([ValueText(a[0]).value]) else None, ValueTexts(a[1..]), ValueTexts(b));
    }
  }

  lemma KeptOne(f: Filter, name: string)
    ensures KeptTexts([f], name)
         == if FilterText(f, name).Some? then Some([FilterText(f, name).value])
            else if IsSkippable(f) then Some([]) else None
  {
    assert [f][1..] == [];
    AppendedTwice(if FilterText(f, name).Some? then Some([FilterText(f, name).value]) else Some([]), None, None);
    assert KeptTexts([], name) == Some([]);
  }

  lemma FilterTextsOne(f: Filter, name: string)
    ensures FilterTexts([f], name) == if FilterText(f, name).Some? then Some([FilterText(f, name).value]) else None
  {
    assert [f][1..] == [];
    if FilterText(f, name).Some? {
      assert [FilterText(f, name).value] + [] == [FilterText(f, name).value];
    }
    assert FilterTexts([], name) == Some([]);
  }

  lemma ValueTextsOne(v: Value)
    ensures ValueTexts([v]) == if ValueText(v).Some? then Some([ValueText(v).value]) else None
  {
    assert [v][1..] == [];
    if ValueText(v).Some? {
      assert [ValueText(v).value] + [] == [ValueText(v).value];
    }
    assert ValueTexts([]) == Some([]);
  }

  method RenderDbisamFilter(f: Filter, name: string) returns (r: Option<string>)
    ensures r == FilterText(f, name)
    decreases f, 1
  {
    var q := QuoteDbisamIdent(name);
    match f
    case ColumnIsNull => return Some(q + " IS NULL");
    case ColumnIsNotNull => return Some(q + " IS NOT NULL");
    case ConstantComparison(op, c) =>
      var o := OpText(op);
      if o.None? { return None; }
      var lit := ValueText(c);
      if lit.None? { return None; }
      if op.Ne? {
        return Some("(" + q + " " + o.value + " " + lit.value + " AND " + q + " IS NOT NULL)");
      }
      return Some(q + " " + o.value + " " + lit.value);
    case AndFilter(fs) => r := RenderAnd(fs, name);
    case OrFilter(fs) => r := RenderOr(fs, name);
    case OptionalFilter(child) =>
      if child.None? { return None; }
      r := RenderDbisamFilter(child.value, name);
    case InFilter(vs) => r := RenderIn(vs, q);
    case ExpressionFilter(e) =>
      if e.None? { return None; }
      r := RenderDbisamExpression(e.value, q);
    case DynamicFilter(_) => return None;
    case BloomFilter(_) => return None;
    case OtherFilter(_) => return None;
  }

  lemma NothingKept(name: string)
    ensures KeptTexts([], name) == Some([]) && "(" + Join([], " AND ") == "("
  {
  }

  lemma NoTexts(name: string)
    ensures FilterTexts([], name) == Some([]) && "(" + Join([], " OR ") == "("
  {
  }

  lemma Resplit<T>(s: seq<T>, i: nat)
    requires i <= |s|
    ensures s[..i] + s[i..] == s
  {
  }

  method RenderAnd(fs: seq<Filter>, name: string) returns (r: Option<string>)
    ensures r == FilterText(AndFilter(fs), name)
    decreases fs, 0
  {
    hide KeptTexts, Join;
    NothingKept(name);
    assert fs[..0] == [];
    var out := "(";
    var first := true;
    for i := 0 to |fs|
      invariant KeptTexts(fs[..i], name).Some?
      invariant first <==> KeptTexts(fs[..i], name).value == []
      invariant out == "(" + Join(KeptTexts(fs[..i], name).value, " AND ")
    {
      var text := RenderDbisamFilter(fs[i], name);
      ghost var kept := KeptTexts(fs[..i], name).value;
      KeptOne(fs[i], name);
      KeptTextsConcat(fs[..i], [fs[i]], name);
      assert fs[..i + 1] == fs[..i] + [fs[i]];
      if text.None? {
        if IsSkippable(fs[i]) {
          assert kept + [] == kept;
          continue;
        }
        KeptTextsConcat(fs[..i + 1], fs[i + 1..], name);
        Resplit(fs, i + 1);
        return None;
      }
      JoinSnoc(kept, text.value, " AND ");
      if !first { out := out + " AND "; }
      out := out + text.value;
      first := false;
    }
    assert fs[..|fs|] == fs;
    if first { return None; }
    return Some(out + ")");
  }

  method RenderOr(fs: seq<Filter>, name: string) returns (r: Option<string>)
    ensures r == FilterText(OrFilter(fs), name)
    decreases fs, 0
  {
    hide FilterTexts, Join;
    NoTexts(name);
    assert fs[..0] == [];
    var out := "(";
    var first := true;
    for i := 0 to |fs|
      invariant FilterTexts(fs[..i], name).Some?
      invariant first <==> FilterTexts(fs[..i], name).value == []
      invariant out == "(" + Join(FilterTexts(fs[..i], name).value, " OR ")
    {
      var text := RenderDbisamFilter(fs[i], name);
      FilterTextsOne(fs[i], name);
      FilterTextsConcat(fs[..i], [fs[i]], name);
      assert fs[..i + 1] == fs[..i] + [fs[i]];
      if text.None? {
        FilterTextsConcat(fs[..i + 1], fs[i + 1..], name);
        Resplit(fs, i + 1);
        return None;
      }
      JoinSnoc(FilterTexts(fs[..i], name).value, text.value, " OR ");
      if !first { out := out + " OR "; }
      out := out + text.value;
      first := false;
    }
    assert fs[..|fs|] == fs;
    return Some(out + ")");
  }

  method RenderIn(vs: seq<Value>, q: string) returns (r: Option<string>)
    ensures r == if vs == [] || ValueTexts(vs).None? then None
                 else Some(q + " IN (" + Join(ValueTexts(vs).value, ", ") + ")")
  {
    if vs == [] { return None; }
    var out := RenderValues(q + " IN (", vs);
    return if out.None? then None else Some(out.value + ")");
  }

  lemma NoValues()
    ensures ValueTexts([]) == Some([]) && Join([], ", ") == ""
  {
  }

  method RenderValues(prefix: string, vs: seq<Value>) returns (r: Option<string>)
    ensures r == if ValueTexts(vs).None? then None else Some(prefix + Join(ValueTexts(vs).value, ", "))
  {
    hide ValueText, ValueTexts, Join;
    var out := prefix;
    var first := true;
    NoValues();
    assert vs[..0] == [] && prefix + "" == prefix;
    for i := 0 to |vs|
      invariant ValueTexts(vs[..i]).Some?
      invariant first <==> i == 0
      invariant out == prefix + Join(ValueTexts(vs[..i]).value, ", ")
    {
      var lit := ValueText(vs[i]);
      ValueTextsOne(vs[i]);
      ValueTextsConcat(vs[..i], [vs[i]]);
      assert vs[..i + 1] == vs[..i] + [vs[i]];
      if lit.None? {
        ValueTextsConcat(vs[..i + 1], vs[i + 1..]);
        assert vs[..i + 1] + vs[i + 1..] == vs;
        return None;
      }
      JoinSnoc(ValueTexts(vs[..i]).value, lit.value, ", ");
      if !first { out := out + ", "; }
      out := out + lit.value;
      first := false;
    }
    assert vs[..|vs|] == vs;
    return Some(out);
  }

  // ----- filter sets -----

  /** The two NotImplementedExceptions, with the column index they name. */
  datatype FilterError = UnnamedColumn(column: nat) | Unrenderable(column: nat)

  predicate Named(column: nat, names: seq<string>) {
    column < |names| && names[column] != ""
  }

  /** The text of one member: none if its column has no server-side name or it has no rendering. */
  function MemberText(m: (nat, Filter), names: seq<string>): Option<string> {
    if Named(m.0, names) then FilterText(m.1, names[m.0]) else None
  }

  /** The members that reach the WHERE clause, in order. */
  function Rendered(filters: seq<(nat, Filter)>, names: seq<string>): seq<(nat, Filter)> {
    if filters == [] then []
    else (if MemberText(filters[0], names).Some? then [filters[0]] else []) + Rendered(filters[1..], names)
  }

  function MemberTexts(filters: seq<(nat, Filter)>, names: seq<string>): (r: seq<string>)
    ensures forall i :: 0 <= i < |r| ==> r[i] != ""
  {
    if filters == [] then []
    else
      (if MemberText(filters[0], names).Some? then [MemberText(filters[0], names).value] else [])
      + MemberTexts(filters[1..], names)
  }

  function Columns(filters: seq<(nat, Filter)>): seq<nat> {
    if filters == [] then [] else [filters[0].0] + Columns(filters[1..])
  }

  lemma {:induction false} MembersSnoc(a: seq<(nat, Filter)>, m: (nat, Filter), names: seq<string>)
    ensures Rendered(a + [m], names)
         == if MemberText(m, names).Some? then Rendered(a, names) + [m] else Rendered(a, names)
    ensures MemberTexts(a + [m], names)
         == if MemberText(m, names).Some? then MemberTexts(a, names) + [MemberText(m, names).value]
            else MemberTexts(a, names)
  {
    if a == [] {
      assert [] + [m] == [m];
      assert [m][1..] == [];
    } else {
      MembersSnoc(a[1..], m, names);
      assert (a + [m])[1..] == a[1..] + [m];
      var r, t := Rendered(a[1..], names), MemberTexts(a[1..], names);
      assert [a[0]] + (r + [m]) == [a[0]] + r + [m];
      if MemberText(m, names).Some? && MemberText(a[0], names).Some? {
        var x, y := MemberText(a[0], names).value, MemberText(m, names).value;
        assert [x] + (t + [y]) == [x] + t + [y];
      }
    }
  }

  lemma NoMembers(names: seq<string>)
    ensures Join(MemberTexts([], names), " AND ") == "" && Columns(Rendered([], names)) == []
  {
  }

  lemma {:induction false} ColumnsSnoc(a: seq<(nat, Filter)>, m: (nat, Filter))
    ensures Columns(a + [m]) == Columns(a) + [m.0]
  {
    if a == [] {
      assert [] + [m] == [m];
      assert [m][1..] == [];
    } else {
      ColumnsSnoc(a[1..], m);
      assert (a + [m])[1..] == a[1..] + [m];
    }
  }

  lemma {:induction false} JoinEmpty(texts: seq<string>, sep: string)
    requires forall i :: 0 <= i < |texts| ==> texts[i] != ""
    ensures Join(texts, sep) == "" <==> texts == []
  {
  }

  /** One more member in the clause: what the loop appends. */
  lemma OneMoreMember(a: seq<(nat, Filter)>, m: (nat, Filter), names: seq<string>)
    ensures MemberText(m, names).None? ==> MemberTexts(a + [m], names) == MemberTexts(a, names) && Rendered(a + [m], names) == Rendered(a, names)
    ensures MemberText(m, names).Some? ==>
              var before := Join(MemberTexts(a, names), " AND ");
              && Join(MemberTexts(a + [m], names), " AND ")
                 == (if before == "" then "" else before + " AND ") + MemberText(m, names).value
              && Columns(Rendered(a + [m], names)) == Columns(Rendered(a, names)) + [m.0]
  {
    hide MemberText, Join, Rendered, Columns;
    MembersSnoc(a, m, names);
    if MemberText(m, names).Some? {
      JoinEmpty(MemberTexts(a, names), " AND ");
      JoinSnoc(MemberTexts(a, names), MemberText(m, names).value, " AND ");
      ColumnsSnoc(Rendered(a, names), m);
    }
  }

  /** Render a whole filter set; it throws exactly when a mandatory member cannot be rendered. */
  method RenderDbisamFilterSet(filters: seq<(nat, Filter)>, names: seq<string>)
    returns (r: Result<string, FilterError>, applied: seq<nat>)
    ensures r.Err? <==> exists i :: 0 <= i < |filters| && Essential(filters[i].1) && MemberText(filters[i], names).None?
    ensures r.Err? ==> exists i :: 0 <= i < |filters| && Essential(filters[i].1)
                                   && (forall j :: 0 <= j < i ==> !Essential(filters[j].1) || MemberText(filters[j], names).Some?)
                                   && r.error == (if Named(filters[i].0, names) then Unrenderable(filters[i].0)
                                                  else UnnamedColumn(filters[i].0))
    ensures r.Ok? ==> r.value == Join(MemberTexts(filters, names), " AND ")
    ensures r.Ok? ==> applied == Columns(Rendered(filters, names))
  {
    hide MemberTexts, Rendered, Columns, Join, FilterText, IsSkippable, Essential;
    var out := "";
    applied := [];
    NoMembers(names);
    assert filters[..0] == [];
    for i := 0 to |filters|
      invariant forall j :: 0 <= j < i ==> !Essential(filters[j].1) || MemberText(filters[j], names).Some?
      invariant out == Join(MemberTexts(filters[..i], names), " AND ")
      invariant applied == Columns(Rendered(filters[..i], names))
    {
      var column := filters[i].0;
      var mustRender := !IsSkippable(filters[i].1);
      SkippableIsExact(filters[i].1);
      assert filters[..i + 1] == filters[..i] + [filters[i]];
      OneMoreMember(filters[..i], filters[i], names);
      if column >= |names| || names[column] == "" {
        if mustRender { return Err(UnnamedColumn(column)), applied; }
        continue;
      }
      var text := RenderDbisamFilter(filters[i].1, names[column]);
      if text.None? {
        if mustRender { return Err(Unrenderable(column)), applied; }
        continue;
      }
      if out != "" { out := out + " AND "; }
      out := out + text.value;
      applied := applied + [column];
    }
    assert filters[..|filters|] == filters;
    return Ok(out), applied;
  }
}
