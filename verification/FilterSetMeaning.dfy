/** What the WHERE clause of a whole filter set selects, and where the expression fragment ends. */
module FilterSetMeaning {
  import opened Wrappers
  import opened FilterAst
  import opened DbisamSql
  import opened DbisamParsing
  import opened FilterRender
  import opened FilterMeaning
  import opened TextPushdown
  import opened CutLists
  import opened ExprMeaning
  import opened NullRows
  import opened Bytes
  import Transcoding = Text

  // ----- the intended tree of a table filter -----

  predicate FilterRenders(f: Filter) {
    match f
    case ColumnIsNull => true
    case ColumnIsNotNull => true
    case ConstantComparison(op, c) => OpText(op).Some? && ValueText(c).Some?
    case AndFilter(fs) =>
      (forall i :: 0 <= i < |fs| ==> FilterRenders(fs[i]) || IsSkippable(fs[i]))
      && exists i :: 0 <= i < |fs| && FilterRenders(fs[i])
    case OrFilter(fs) => forall i :: 0 <= i < |fs| ==> FilterRenders(fs[i])
    case OptionalFilter(child) => child.Some? && FilterRenders(child.value)
    case InFilter(vs) => vs != [] && forall i :: 0 <= i < |vs| ==> ValueText(vs[i]).Some?
    case ExpressionFilter(e) => e.Some? && Renderable(e.value)
    case _ => false
  }

  function Literals(vs: seq<Value>): (ts: seq<Tree>)
    ensures |ts| == |vs| && forall i :: 0 <= i < |vs| ==> ts[i] == Lit(vs[i])
  {
    if vs == [] then [] else [Lit(vs[0])] + Literals(vs[1..])
  }

  function IntendedFilter(f: Filter, name: string): Tree
    requires FilterRenders(f)
    decreases f, 1
  {
    match f
    case ColumnIsNull => NullTest(false, Ident(name))
    case ColumnIsNotNull => NullTest(true, Ident(name))
    case ConstantComparison(op, c) =>
      var cmp := CmpT(op, Ident(name), Lit(c));
      if op.Ne? then Paren(AndT([cmp, NullTest(true, Ident(name))])) else cmp
    case AndFilter(fs) => Paren(Grouped(And, KeptTrees(fs, name)))
    case OrFilter(fs) => Paren(Grouped(Or, KeptTrees(fs, name)))
    case OptionalFilter(child) => IntendedFilter(child.value, name)
    case InFilter(vs) => InList(false, Ident(name), Literals(vs))
    case ExpressionFilter(e) => Intended(e.value, name)
  }

  /** The trees of the children that render, in order. */
  function KeptTrees(fs: seq<Filter>, name: string): seq<Tree>
    decreases fs, 0
  {
    if fs == [] then []
    else (if FilterRenders(fs[0]) then [IntendedFilter(fs[0], name)] else []) + KeptTrees(fs[1..], name)
  }

  /** A kept tree is some renderable child's, and every renderable child's tree is kept. */
  lemma {:induction false} KeptTreesAre(fs: seq<Filter>, name: string)
    ensures forall t :: t in KeptTrees(fs, name) ==>
              exists i :: 0 <= i < |fs| && FilterRenders(fs[i]) && t == IntendedFilter(fs[i], name)
    ensures forall i :: 0 <= i < |fs| && FilterRenders(fs[i]) ==> IntendedFilter(fs[i], name) in KeptTrees(fs, name)
  {
    if fs != [] {
      KeptTreesAre(fs[1..], name);
      forall t | t in KeptTrees(fs, name)
        ensures exists i :: 0 <= i < |fs| && FilterRenders(fs[i]) && t == IntendedFilter(fs[i], name)
      {
        if t in KeptTrees(fs[1..], name) {
          var i :| 0 <= i < |fs[1..]| && FilterRenders(fs[1..][i]) && t == IntendedFilter(fs[1..][i], name);
          assert fs[i + 1] == fs[1..][i];
        } else {
          assert t == IntendedFilter(fs[0], name);
        }
      }
      forall i | 0 <= i < |fs| && FilterRenders(fs[i])
        ensures IntendedFilter(fs[i], name) in KeptTrees(fs, name)
      {
        if i > 0 {
          assert fs[i] == fs[1..][i - 1];
        }
      }
    }
  }

  // ----- the text is the spelling of the intended tree -----

  /** The filter renders exactly when FilterRenders says so, and then to its intended tree's text. */
  predicate Spelled(f: Filter, name: string) {
    && (FilterText(f, name).Some? <==> FilterRenders(f))
    && (FilterRenders(f) ==>
          Good(IntendedFilter(f, name), 1) && FilterText(f, name) == Some(Spell(IntendedFilter(f, name))))
  }

  lemma {:induction false} FilterTextIsSpelling(f: Filter, name: string)
    ensures Spelled(f, name)
    decreases f, 2
  {
    hide Spelled;
    match f
    case AndFilter(fs) => AndSpelled(fs, name);
    case OrFilter(fs) => OrSpelled(fs, name);
    case OptionalFilter(child) =>
      if child.Some? {
        FilterTextIsSpelling(child.value, name);
      }
      OptionalSpelled(child, name);
    case _ => LeafSpelled(f, name);
  }

  lemma {:induction false} AndSpelled(fs: seq<Filter>, name: string)
    ensures Spelled(AndFilter(fs), name)
    decreases fs, 1
  {
    hide Spell, Good, Join, KeptTexts, KeptTrees, Spelled;
    KeptTextsAreSpellings(fs, name);
    KeptTreesEmpty(fs, name);
    GroupedGood(And, KeptTrees(fs, name));
    GroupedSpelling(And, KeptTrees(fs, name));
    AndParts(fs, name);
  }

  lemma KeptTreesEmpty(fs: seq<Filter>, name: string)
    ensures KeptTrees(fs, name) == [] <==> !exists i :: 0 <= i < |fs| && FilterRenders(fs[i])
  {
    hide FilterRenders, IntendedFilter;
    KeptTreesAre(fs, name);
    if KeptTrees(fs, name) != [] {
      assert KeptTrees(fs, name)[0] in KeptTrees(fs, name);
    }
  }

  lemma AndParts(fs: seq<Filter>, name: string)
    requires KeptTexts(fs, name).Some? <==> forall i :: 0 <= i < |fs| ==> FilterRenders(fs[i]) || IsSkippable(fs[i])
    requires KeptTexts(fs, name).Some? ==> KeptTexts(fs, name).value == SpellAll(KeptTrees(fs, name))
    requires KeptTrees(fs, name) == [] <==> !exists i :: 0 <= i < |fs| && FilterRenders(fs[i])
    requires var t := Paren(Grouped(And, KeptTrees(fs, name)));
             Good(t, 0) && Spell(t) == "(" + Join(SpellAll(KeptTrees(fs, name)), " AND ") + ")"
    ensures Spelled(AndFilter(fs), name)
  {
    hide Spell, Join, KeptTexts, KeptTrees, SpellAll, IsSkippable;
    LowerIsGood(Paren(Grouped(And, KeptTrees(fs, name))));
    hide Good;
    assert |SpellAll(KeptTrees(fs, name))| == |KeptTrees(fs, name)|;
  }

  lemma LowerIsGood(t: Tree)
    requires Good(t, 0)
    ensures Good(t, 1)
  {
  }

  lemma {:induction false} OrSpelled(fs: seq<Filter>, name: string)
    ensures Spelled(OrFilter(fs), name)
    decreases fs, 1
  {
    hide Spell, Join, FilterTexts, KeptTrees, SpellAll;
    FilterTextsAreSpellings(fs, name);
    GroupedGood(Or, KeptTrees(fs, name));
    GroupedSpelling(Or, KeptTrees(fs, name));
    LowerIsGood(Paren(Grouped(Or, KeptTrees(fs, name))));
  }

  lemma OptionalSpelled(child: Option<Filter>, name: string)
    requires child.Some? ==> Spelled(child.value, name)
    ensures Spelled(OptionalFilter(child), name)
  {
    hide Spell, Good;
  }

  lemma LeafSpelled(f: Filter, name: string)
    requires !f.AndFilter? && !f.OrFilter? && !f.OptionalFilter?
    ensures Spelled(f, name)
  {
    match f
    case InFilter(vs) => ValueTextsAreSpellings(vs);
    case ExpressionFilter(e) =>
      if e.Some? {
        ExprTextIsSpelling(e.value, name);
      }
    case ConstantComparison(op, c) =>
      if FilterRenders(f) && op.Ne? {
        ConstantNeSpelling(c, name);
      }
    case _ =>
  }

  lemma ConstantNeSpelling(c: Value, name: string)
    requires ValueText(c).Some?
    ensures var q := Enclosed(name, '"');
            var t := Paren(AndT([CmpT(Ne, Ident(name), Lit(c)), NullTest(true, Ident(name))]));
            Good(t, 1) && Spell(t) == "(" + q + " " + "<>" + " " + ValueText(c).value + " AND " + q + " IS NOT NULL)"
  {
    var a, b := CmpT(Ne, Ident(name), Lit(c)), NullTest(true, Ident(name));
    assert Good(Ident(name), 0) && Good(Lit(c), 0);
    assert Good(a, 1) && Good(b, 1);
    assert Good(AndT([a, b]), 2);
    PairSpelling(a, b);
    ConstantNeText(Enclosed(name, '"'), ValueText(c).value);
  }

  lemma PairSpelling(a: Tree, b: Tree)
    ensures Spell(Paren(AndT([a, b]))) == "(" + (Spell(a) + " AND " + Spell(b)) + ")"
  {
    SpellAllSnoc([a], b);
    assert [a] + [b] == [a, b];
    assert SpellAll([a]) == [Spell(a)];
    JoinSnoc([Spell(a)], Spell(b), " AND ");
  }

  lemma ConstantNeText(q: string, lit: string)
    ensures "(" + (q + " " + "<>" + " " + lit + " AND " + (q + " IS NOT NULL")) + ")"
         == "(" + q + " " + "<>" + " " + lit + " AND " + q + " IS NOT NULL)"
  {
    assert " IS NOT NULL" + ")" == " IS NOT NULL)";
  }

  lemma {:induction false} KeptTextsAreSpellings(fs: seq<Filter>, name: string)
    ensures KeptTexts(fs, name).Some? <==> forall i :: 0 <= i < |fs| ==> FilterRenders(fs[i]) || IsSkippable(fs[i])
    ensures KeptTexts(fs, name).Some? ==> KeptTexts(fs, name).value == SpellAll(KeptTrees(fs, name))
    ensures forall i :: 0 <= i < |KeptTrees(fs, name)| ==> Good(KeptTrees(fs, name)[i], 1)
    decreases fs, 0
  {
    hide Spell, Good, FilterText, IntendedFilter, IsSkippable;
    if fs != [] {
      FilterTextIsSpelling(fs[0], name);
      KeptTextsAreSpellings(fs[1..], name);
      assert forall i :: 0 < i < |fs| ==> fs[i] == fs[1..][i - 1];
      assert forall i :: 0 <= i < |fs[1..]| ==> fs[1..][i] == fs[i + 1];
    }
  }

  lemma {:induction false} FilterTextsAreSpellings(fs: seq<Filter>, name: string)
    ensures FilterTexts(fs, name).Some? <==> forall i :: 0 <= i < |fs| ==> FilterRenders(fs[i])
    ensures FilterTexts(fs, name).Some? ==> FilterTexts(fs, name).value == SpellAll(KeptTrees(fs, name))
    ensures forall i :: 0 <= i < |KeptTrees(fs, name)| ==> Good(KeptTrees(fs, name)[i], 1)
    decreases fs, 0
  {
    hide Spell, Good, FilterText, IntendedFilter, IsSkippable;
    if fs != [] {
      FilterTextIsSpelling(fs[0], name);
      FilterTextsAreSpellings(fs[1..], name);
      assert forall i :: 0 < i < |fs| ==> fs[i] == fs[1..][i - 1];
      assert forall i :: 0 <= i < |fs[1..]| ==> fs[1..][i] == fs[i + 1];
    }
  }

  lemma {:induction false} ValueTextsAreSpellings(vs: seq<Value>)
    ensures ValueTexts(vs).Some? <==> forall i :: 0 <= i < |vs| ==> ValueText(vs[i]).Some?
    ensures ValueTexts(vs).Some? ==> ValueTexts(vs).value == SpellAll(Literals(vs))
  {
    if vs != [] {
      ValueTextsAreSpellings(vs[1..]);
      assert forall i :: 0 < i < |vs| ==> vs[i] == vs[1..][i - 1];
      assert forall i :: 0 <= i < |vs[1..]| ==> vs[1..][i] == vs[i + 1];
    }
  }

  // ----- meaning of one filter -----

  /** The server means what DuckDB means by everything rendered inside the filter, on a stored value. */
  predicate Faithful(f: Filter, v: Value, d: Dialect) {
    match f
    case AndFilter(fs) => forall i :: 0 <= i < |fs| && FilterRenders(fs[i]) ==> Faithful(fs[i], v, d)
    case OrFilter(fs) => fs != [] && forall i :: 0 <= i < |fs| ==> Faithful(fs[i], v, d)
    case OptionalFilter(child) => child.Some? ==> Faithful(child.value, v, d)
    case ConstantComparison(op, c) => SafeConstant(op, c, None) || AsciiValue(v)
    case InFilter(vs) => (forall i :: 0 <= i < |vs| ==> SafeConstant(Eq, vs[i], None)) || AsciiValue(v)
    case ExpressionFilter(e) =>
      e.Some? && Renderable(e.value) ==> Condition(e.value) && ReadAlike(e.value, v) && (v.Null? ==> NullSame(e.value, d))
    case _ => true
  }

  /** What can be read off the filter alone: its shapes are kept, and no text in it is disturbed by the encoding. */
  predicate Plain(f: Filter) {
    match f
    case AndFilter(fs) => forall i :: 0 <= i < |fs| && FilterRenders(fs[i]) ==> Plain(fs[i])
    case OrFilter(fs) => fs != [] && forall i :: 0 <= i < |fs| ==> Plain(fs[i])
    case OptionalFilter(child) => child.Some? ==> Plain(child.value)
    case ConstantComparison(op, c) => SafeConstant(op, c, None)
    case InFilter(vs) => forall i :: 0 <= i < |vs| ==> SafeConstant(Eq, vs[i], None)
    case ExpressionFilter(e) =>
      e.Some? && Renderable(e.value) ==> InFragment(e.value) && ConstantsAgree(e.value) && TextSafe(e.value)
    case _ => true
  }

  lemma {:induction false} PlainIsFaithful(f: Filter, v: Value, d: Dialect)
    requires Plain(f)
    ensures Faithful(f, v, d)
  {
    match f
    case AndFilter(fs) =>
      forall i | 0 <= i < |fs| && FilterRenders(fs[i])
        ensures Faithful(fs[i], v, d)
      {
        PlainIsFaithful(fs[i], v, d);
      }
    case OrFilter(fs) =>
      forall i | 0 <= i < |fs|
        ensures Faithful(fs[i], v, d)
      {
        PlainIsFaithful(fs[i], v, d);
      }
    case OptionalFilter(child) =>
      if child.Some? {
        PlainIsFaithful(child.value, v, d);
      }
    case ExpressionFilter(e) =>
      if e.Some? && Renderable(e.value) && v.Null? {
        FragmentIsKept(e.value, d);
      } else if e.Some? && Renderable(e.value) {
        FragmentIsKept(e.value, d);
      }
    case _ =>
  }

  /** What the scan alone must enforce: the filter with its optional, dynamic and bloom parts taken as TRUE. */
  predicate MandatoryTrue(f: Filter, cv: Value, unseen: nat -> bool) {
    match f
    case AndFilter(fs) => forall i :: 0 <= i < |fs| ==> MandatoryTrue(fs[i], cv, unseen)
    case OrFilter(fs) => exists i :: 0 <= i < |fs| && MandatoryTrue(fs[i], cv, unseen)
    case OptionalFilter(_) => true
    case DynamicFilter(_) => true
    case BloomFilter(_) => true
    case _ => FilterTrue(f, cv, unseen)
  }

  /** What may be dropped enforces nothing. */
  lemma {:induction false} NothingMandatory(f: Filter, cv: Value, unseen: nat -> bool)
    requires IsSkippable(f)
    ensures MandatoryTrue(f, cv, unseen)
  {
    if f.AndFilter? {
      forall i | 0 <= i < |f.ands|
        ensures MandatoryTrue(f.ands[i], cv, unseen)
      {
        NothingMandatory(f.ands[i], cv, unseen);
      }
    }
  }

  /**
   * The rendered condition, on the stored value, lies between the whole filter and its mandatory part
   * on what that value is shown as.
   */
  lemma {:induction false} FilterSandwich(f: Filter, name: string, row: Row, d: Dialect, unseen: nat -> bool)
    requires FilterRenders(f) && Faithful(f, row(name), d)
    ensures Complete(IntendedFilter(f, name))
    ensures FilterTrue(f, Displayed(row(name)), unseen) ==> IsTrue(DbisamEval(IntendedFilter(f, name), row, d))
    ensures IsTrue(DbisamEval(IntendedFilter(f, name), row, d)) ==> MandatoryTrue(f, Displayed(row(name)), unseen)
  {
    hide SafeConstant, AsciiValue, Displayed, AnsiEval, Server, Intended;
    match f
    case AndFilter(fs) =>
      forall i | 0 <= i < |fs| && FilterRenders(fs[i])
        ensures ChildSandwich(fs[i], name, row, d, unseen)
      {
        FilterSandwich(fs[i], name, row, d, unseen);
      }
      AndSandwich(fs, name, row, d, unseen);
    case OrFilter(fs) =>
      forall i | 0 <= i < |fs|
        ensures ChildSandwich(fs[i], name, row, d, unseen)
      {
        FilterSandwich(fs[i], name, row, d, unseen);
      }
      OrSandwich(fs, name, row, d, unseen);
    case OptionalFilter(child) => FilterSandwich(child.value, name, row, d, unseen);
    case ExpressionFilter(e) => ExpressionSandwich(e.value, name, row, d);
    case InFilter(vs) => ListSandwich(vs, name, row, d);
    case ConstantComparison(op, c) => ConstantSandwich(op, c, name, row, d);
    case ColumnIsNull => NullIsShown(name, row, d);
    case ColumnIsNotNull => NullIsShown(name, row, d);
  }

  lemma NullIsShown(name: string, row: Row, d: Dialect)
    ensures DbisamEval(Ident(name), row, d) == row(name) && (row(name).Null? <==> Displayed(row(name)).Null?)
  {
  }

  lemma ExpressionSandwich(e: Expr, name: string, row: Row, d: Dialect)
    requires Renderable(e) && Condition(e) && ReadAlike(e, row(name)) && (row(name).Null? ==> NullSame(e, d))
    ensures Complete(Intended(e, name))
    ensures IsTrue(DbisamEval(Intended(e, name), row, d)) <==> IsTrue(AnsiEval(e, Displayed(row(name))))
  {
    hide ReadAlike, Server, AnsiEval, Intended;
    TreeEvaluates(e, name, row, d);
    if !row(name).Null? {
      AgreesOffNull(e, row(name), d);
    }
  }

  /** A stored value against a constant: compared alike. */
  lemma ConstantAgrees(op: CmpOp, c: Value, v: Value)
    requires ValueText(c).Some? && (SafeConstant(op, c, None) || AsciiValue(v))
    ensures Compare(op, v, c) == Compare(op, Displayed(v), c) && !c.Null?
  {
    hide SafeLiteral, AsciiValue, Compare, Displayed;
    PairAgrees(op, ColumnRef, Const(c), v);
  }

  lemma ConstantSandwich(op: CmpOp, c: Value, name: string, row: Row, d: Dialect)
    requires FilterRenders(ConstantComparison(op, c)) && (SafeConstant(op, c, None) || AsciiValue(row(name)))
    ensures var t := IntendedFilter(ConstantComparison(op, c), name);
            Complete(t) && (IsTrue(DbisamEval(t, row, d)) <==> IsTrue(AnsiCompare(op, Displayed(row(name)), c)))
  {
    hide SafeConstant, AsciiValue, Compare;
    ConstantAgrees(op, c, row(name));
    ConstantEvaluates(op, c, name, row, d);
  }

  /** The rendered comparison: true where the stored value is not NULL and compares so. */
  lemma ConstantEvaluates(op: CmpOp, c: Value, name: string, row: Row, d: Dialect)
    requires FilterRenders(ConstantComparison(op, c))
    ensures var t := IntendedFilter(ConstantComparison(op, c), name);
            Complete(t) && (IsTrue(DbisamEval(t, row, d)) <==> !row(name).Null? && Compare(op, row(name), c))
  {
    hide Compare;
    assert DbisamEval(Ident(name), row, d) == row(name) && DbisamEval(Lit(c), row, d) == c;
    assert Complete(Ident(name)) && Complete(Lit(c));
    if op.Ne? {
      var parts := [CmpT(op, Ident(name), Lit(c)), NullTest(true, Ident(name))];
      assert Complete(parts[0]) && Complete(parts[1]);
      assert CompleteAll(parts) && Complete(AndT(parts));
      assert IsTrue(DbisamEval(AndT(parts), row, d))
             <==> IsTrue(DbisamEval(parts[0], row, d)) && IsTrue(DbisamEval(parts[1], row, d));
    }
  }

  lemma ListSandwich(vs: seq<Value>, name: string, row: Row, d: Dialect)
    requires FilterRenders(InFilter(vs))
    requires (forall i :: 0 <= i < |vs| ==> SafeConstant(Eq, vs[i], None)) || AsciiValue(row(name))
    ensures var t := IntendedFilter(InFilter(vs), name);
            Complete(t) && (IsTrue(DbisamEval(t, row, d)) <==> IsTrue(AnsiIn(Displayed(row(name)), vs)))
  {
    hide SafeConstant, AsciiValue, Displayed;
    ListTreeEvaluates(vs, name, row, d);
    NullIsShown(name, row, d);
    forall i | 0 <= i < |vs|
      ensures (vs[i] == row(name)) == (vs[i] == Displayed(row(name)))
    {
      ConstantAgrees(Eq, vs[i], row(name));
    }
  }

  lemma ListTreeEvaluates(vs: seq<Value>, name: string, row: Row, d: Dialect)
    requires FilterRenders(InFilter(vs))
    ensures var t := IntendedFilter(InFilter(vs), name);
            Complete(t) && (IsTrue(DbisamEval(t, row, d)) <==> !row(name).Null? && row(name) in vs)
  {
    var ts := Literals(vs);
    assert DbisamEval(Ident(name), row, d) == row(name);
    assert forall i :: 0 <= i < |ts| ==> DbisamEval(ts[i], row, d) == vs[i];
    assert (exists i :: 0 <= i < |ts| && DbisamEval(ts[i], row, d) == row(name)) <==> row(name) in vs;
  }

  ghost predicate ChildSandwich(f: Filter, name: string, row: Row, d: Dialect, unseen: nat -> bool)
    requires FilterRenders(f)
  {
    var t := IntendedFilter(f, name);
    && Complete(t)
    && (FilterTrue(f, Displayed(row(name)), unseen) ==> IsTrue(DbisamEval(t, row, d)))
    && (IsTrue(DbisamEval(t, row, d)) ==> MandatoryTrue(f, Displayed(row(name)), unseen))
  }

  lemma AndSandwich(fs: seq<Filter>, name: string, row: Row, d: Dialect, unseen: nat -> bool)
    requires FilterRenders(AndFilter(fs))
    requires forall i :: 0 <= i < |fs| && FilterRenders(fs[i]) ==> ChildSandwich(fs[i], name, row, d, unseen)
    ensures ChildSandwich(AndFilter(fs), name, row, d, unseen)
  {
    hide Displayed, KeptTrees, AnsiEval, FilterText, Grouped;
    var ts := KeptTrees(fs, name);
    KeptTreesAre(fs, name);
    var k :| 0 <= k < |fs| && FilterRenders(fs[k]);
    assert IntendedFilter(fs[k], name) in ts;
    GroupedMeaning(And, ts, row, d);
    forall i | 0 <= i < |ts|
      ensures Complete(ts[i])
      ensures FilterTrue(AndFilter(fs), Displayed(row(name)), unseen) ==> IsTrue(DbisamEval(ts[i], row, d))
    {
      assert ts[i] in ts;
    }
    if AllTrue(ts, row, d) {
      forall i | 0 <= i < |fs|
        ensures MandatoryTrue(fs[i], Displayed(row(name)), unseen)
      {
        if FilterRenders(fs[i]) {
          assert IntendedFilter(fs[i], name) in ts;
        } else {
          NothingMandatory(fs[i], Displayed(row(name)), unseen);
        }
      }
    }
  }

  lemma OrSandwich(fs: seq<Filter>, name: string, row: Row, d: Dialect, unseen: nat -> bool)
    requires fs != [] && FilterRenders(OrFilter(fs))
    requires forall i :: 0 <= i < |fs| ==> ChildSandwich(fs[i], name, row, d, unseen)
    ensures ChildSandwich(OrFilter(fs), name, row, d, unseen)
  {
    hide Displayed, KeptTrees, AnsiEval, FilterText, Grouped;
    var ts := KeptTrees(fs, name);
    KeptTreesAre(fs, name);
    assert IntendedFilter(fs[0], name) in ts;
    GroupedMeaning(Or, ts, row, d);
    forall i | 0 <= i < |ts|
      ensures Complete(ts[i])
      ensures IsTrue(DbisamEval(ts[i], row, d)) ==> MandatoryTrue(OrFilter(fs), Displayed(row(name)), unseen)
    {
      assert ts[i] in ts;
    }
    if FilterTrue(OrFilter(fs), Displayed(row(name)), unseen) {
      var i :| 0 <= i < |fs| && FilterTrue(fs[i], Displayed(row(name)), unseen);
      assert IntendedFilter(fs[i], name) in ts;
      var j :| 0 <= j < |ts| && ts[j] == IntendedFilter(fs[i], name);
      assert SomeTrue(ts, row, d);
    }
  }

  // ----- meaning of a filter set -----

  /** The trees of the members that reach the WHERE clause. */
  function MemberTrees(filters: seq<(nat, Filter)>, names: seq<string>): seq<Tree> {
    if filters == [] then []
    else
      (if Named(filters[0].0, names) && FilterRenders(filters[0].1)
       then [IntendedFilter(filters[0].1, names[filters[0].0])] else [])
      + MemberTrees(filters[1..], names)
  }

  lemma {:induction false} MemberTextsAreSpellings(filters: seq<(nat, Filter)>, names: seq<string>)
    ensures MemberTexts(filters, names) == SpellAll(MemberTrees(filters, names))
    ensures forall i :: 0 <= i < |MemberTrees(filters, names)| ==> Good(MemberTrees(filters, names)[i], 1)
  {
    if filters != [] {
      MemberTextsAreSpellings(filters[1..], names);
      if Named(filters[0].0, names) {
        FilterTextIsSpelling(filters[0].1, names[filters[0].0]);
      }
    }
  }

  /** The joined text spells one tree, the conjunction of the members' trees. */
  lemma JoinedTextIsSpelling(filters: seq<(nat, Filter)>, names: seq<string>)
    requires MemberTrees(filters, names) != []
    ensures var g := Grouped(And, MemberTrees(filters, names));
            && Shaped(g) && Spellable(g) && (Complete(g) <==> CompleteAll(MemberTrees(filters, names)))
            && Join(MemberTexts(filters, names), " AND ") == Spell(g)
  {
    var ts := MemberTrees(filters, names);
    MemberTextsAreSpellings(filters, names);
    var g := Grouped(And, ts);
    if |ts| == 1 {
      assert SpellAll(ts) == [Spell(ts[0])];
    } else {
      assert Shaped(AndT(ts)) && Spellable(AndT(ts));
    }
    assert Spell(g) == Join(SpellAll(ts), " AND ");
    assert Complete(g) <==> CompleteAll(ts) by {
      if |ts| == 1 {
        assert ts == [ts[0]];
      }
    }
  }

  /**
   * The members are joined without parentheses of their own, and still the joined text parses as
   * the conjunction of exactly their trees.
   */
  lemma JoinedTextParses(filters: seq<(nat, Filter)>, names: seq<string>)
    requires MemberTrees(filters, names) != []
    ensures ParseSql(Join(MemberTexts(filters, names), " AND "))
         == if CompleteAll(MemberTrees(filters, names)) then Some(Grouped(And, MemberTrees(filters, names))) else None
  {
    hide Shaped, Spellable, Complete, Spell, Join, MemberTexts, MemberTrees;
    JoinedTextIsSpelling(filters, names);
    SpellParses(Grouped(And, MemberTrees(filters, names)));
  }

  /** Whether a row passes a scan with this WHERE text; an empty text means no WHERE clause. */
  predicate ScanIncludes(sql: string, row: Row, d: Dialect) {
    sql == "" || WhereTrue(sql, row, d)
  }

  lemma {:induction false} MemberTreesMeaning(filters: seq<(nat, Filter)>, names: seq<string>, column: nat -> Value,
                                              row: Row, d: Dialect, unseen: nat -> bool)
    requires forall i :: 0 <= i < |filters| && Named(filters[i].0, names) ==>
               (FilterRenders(filters[i].1) ==> Faithful(filters[i].1, row(names[filters[i].0]), d))
               && column(filters[i].0) == Displayed(row(names[filters[i].0]))
    requires forall i :: 0 <= i < |filters| && Essential(filters[i].1) ==> MemberText(filters[i], names).Some?
    ensures CompleteAll(MemberTrees(filters, names))
    ensures (forall i :: 0 <= i < |filters| ==> FilterTrue(filters[i].1, column(filters[i].0), unseen)) ==>
              AllTrue(MemberTrees(filters, names), row, d)
    ensures AllTrue(MemberTrees(filters, names), row, d) ==>
              forall i :: 0 <= i < |filters| ==> MandatoryTrue(filters[i].1, column(filters[i].0), unseen)
  {
    hide FilterRenders, Faithful, FilterTrue, MandatoryTrue, IsSkippable, Essential, Displayed, IntendedFilter, DbisamEval, Complete, FilterText;
    if filters != [] {
      var (c, f) := filters[0];
      var rest := filters[1..];
      assert forall i :: 0 <= i < |rest| ==> rest[i] == filters[i + 1];
      MemberTreesMeaning(rest, names, column, row, d, unseen);
      var tail := MemberTrees(rest, names);
      var ts := MemberTrees(filters, names);
      if Named(c, names) {
        FilterTextIsSpelling(f, names[c]);
      }
      if Named(c, names) && FilterRenders(f) {
        FilterSandwich(f, names[c], row, d, unseen);
        assert ts[0] == IntendedFilter(f, names[c]) && ts[1..] == tail;
        assert forall i :: 0 <= i < |tail| ==> ts[i + 1] == tail[i];
        assert AllTrue(ts, row, d) <==> IsTrue(DbisamEval(ts[0], row, d)) && AllTrue(tail, row, d);
      } else {
        SkippableIsExact(f);
        NothingMandatory(f, column(c), unseen);
        assert ts == tail;
      }
      assert forall i :: 0 < i < |filters| ==> filters[i] == rest[i - 1];
    }
  }

  /**
   * The sandwich. When rendering a filter set does not throw, a row all filters are TRUE on passes
   * the WHERE clause, and a row that passes it satisfies every filter with the parts DuckDB still
   * applies itself replaced by TRUE.
   */
  lemma FilterSetSandwich(filters: seq<(nat, Filter)>, names: seq<string>, column: nat -> Value,
                          row: Row, d: Dialect, unseen: nat -> bool)
    requires forall i :: 0 <= i < |filters| && Named(filters[i].0, names) ==>
               (FilterRenders(filters[i].1) ==> Faithful(filters[i].1, row(names[filters[i].0]), d))
               && column(filters[i].0) == Displayed(row(names[filters[i].0]))
    requires forall i :: 0 <= i < |filters| && Essential(filters[i].1) ==> MemberText(filters[i], names).Some?
    ensures var sql := Join(MemberTexts(filters, names), " AND ");
            && ((forall i :: 0 <= i < |filters| ==> FilterTrue(filters[i].1, column(filters[i].0), unseen)) ==>
                  ScanIncludes(sql, row, d))
            && (ScanIncludes(sql, row, d) ==>
                  forall i :: 0 <= i < |filters| ==> MandatoryTrue(filters[i].1, column(filters[i].0), unseen))
  {
    var ts := MemberTrees(filters, names);
    MemberTreesMeaning(filters, names, column, row, d, unseen);
    MemberTextsAreSpellings(filters, names);
    JoinEmpty(MemberTexts(filters, names), " AND ");
    if ts == [] {
      assert AllTrue(ts, row, d);
    } else {
      JoinedTextParses(filters, names);
      GroupedMeaning(And, ts, row, d);
    }
  }

  /** The same for filters whose shapes and texts are plain: on every row, under every dialect. */
  lemma PlainSetSandwich(filters: seq<(nat, Filter)>, names: seq<string>, column: nat -> Value,
                         row: Row, d: Dialect, unseen: nat -> bool)
    requires forall i :: 0 <= i < |filters| && Named(filters[i].0, names) ==>
               (FilterRenders(filters[i].1) ==> Plain(filters[i].1))
               && column(filters[i].0) == Displayed(row(names[filters[i].0]))
    requires forall i :: 0 <= i < |filters| && Essential(filters[i].1) ==> MemberText(filters[i], names).Some?
    ensures var sql := Join(MemberTexts(filters, names), " AND ");
            && ((forall i :: 0 <= i < |filters| ==> FilterTrue(filters[i].1, column(filters[i].0), unseen)) ==>
                  ScanIncludes(sql, row, d))
            && (ScanIncludes(sql, row, d) ==>
                  forall i :: 0 <= i < |filters| ==> MandatoryTrue(filters[i].1, column(filters[i].0), unseen))
  {
    hide Faithful, Plain, Displayed, Essential, MemberText, FilterTrue, MandatoryTrue, ScanIncludes, MemberTexts, Join;
    forall i | 0 <= i < |filters| && Named(filters[i].0, names) && FilterRenders(filters[i].1)
      ensures Faithful(filters[i].1, row(names[filters[i].0]), d)
    {
      PlainIsFaithful(filters[i].1, row(names[filters[i].0]), d);
    }
    FilterSetSandwich(filters, names, column, row, d, unseen);
  }

  // ----- text constants: the condition is exact -----

  /** The text of a filter includes every row exactly when the filter is TRUE of what the row shows. */
  ghost predicate FilterKeeps(f: Filter, name: string, d: Dialect)
    requires FilterText(f, name).Some?
  {
    forall row: Row :: WhereTrue(FilterText(f, name).value, row, d) <==> FilterTrue(f, Displayed(row(name)), _ => true)
  }

  lemma FilterTextMeans(f: Filter, name: string, row: Row, d: Dialect)
    requires FilterRenders(f) && Complete(IntendedFilter(f, name))
    ensures FilterText(f, name).Some?
    ensures WhereTrue(FilterText(f, name).value, row, d) <==> IsTrue(DbisamEval(IntendedFilter(f, name), row, d))
  {
    FilterTextIsSpelling(f, name);
    SpellParses(IntendedFilter(f, name));
  }

  /** A comparison with a text keeps its meaning, from the rendered text on, if and only if the text is safe. */
  lemma TextConstantIsExact(op: CmpOp, u: Buffer, name: string, d: Dialect)
    requires OpText(op).Some? && Transcoding.WellFormed(u)
    ensures var f := ConstantComparison(op, FilterAst.Text(u));
            FilterText(f, name).Some? && (FilterKeeps(f, name, d) <==> SafeLiteral(op, u, None))
  {
    hide Displayed, WhereTrue, SafeLiteral, Compare, FilterText, DbisamEval, IntendedFilter, Complete;
    var c := FilterAst.Text(u);
    var f := ConstantComparison(op, c);
    forall row: Row
      ensures FilterText(f, name).Some?
      ensures WhereTrue(FilterText(f, name).value, row, d) <==> !row(name).Null? && Compare(op, row(name), c)
    {
      ConstantEvaluates(op, c, name, row, d);
      FilterTextMeans(f, name, row, d);
    }
    var any: Row := _ => Null;
    assert FilterText(f, name).Some? by { assert any(name).Null?; ConstantEvaluates(op, c, name, any, d); FilterTextMeans(f, name, any, d); }
    LiteralIsExact(op, u, None);
    if SafeLiteral(op, u, None) {
      forall row: Row
        ensures WhereTrue(FilterText(f, name).value, row, d) <==> FilterTrue(f, Displayed(row(name)), _ => true)
      {
        ConstantAgrees(op, c, row(name));
        NullIsShown(name, row, d);
      }
    } else {
      var b: Buffer :| ServerSays(op, b, None, u) != DuckSays(op, b, None, u);
      var row: Row := _ => FilterAst.Text(b);
      assert Displayed(row(name)) == FilterAst.Text(Transcoding.Decode(b)) by { ShownText(b); }
      assert WhereTrue(FilterText(f, name).value, row, d) <==> ServerSays(op, b, None, u);
    }
  }

  lemma ShownText(b: Buffer)
    ensures Displayed(FilterAst.Text(b)) == FilterAst.Text(Transcoding.Decode(b))
  {
  }

  function Texts(us: seq<Buffer>): (vs: seq<Value>)
    ensures |vs| == |us| && forall i :: 0 <= i < |us| ==> vs[i] == FilterAst.Text(us[i])
  {
    seq(|us|, i requires 0 <= i < |us| => FilterAst.Text(us[i]))
  }

  lemma TextListMeans(us: seq<Buffer>, name: string, row: Row, d: Dialect)
    requires us != []
    ensures FilterText(InFilter(Texts(us)), name).Some?
    ensures WhereTrue(FilterText(InFilter(Texts(us)), name).value, row, d) <==> row(name).Text? && row(name).s in us
    ensures FilterTrue(InFilter(Texts(us)), Displayed(row(name)), _ => true)
            <==> row(name).Text? && Transcoding.Decode(row(name).s) in us
  {
    hide WhereTrue, FilterText, DbisamEval, Transcoding.Decode;
    ListTreeEvaluates(Texts(us), name, row, d);
    FilterTextMeans(InFilter(Texts(us)), name, row, d);
    InTexts(us, row(name));
    InTexts(us, Displayed(row(name)));
  }

  lemma InTexts(us: seq<Buffer>, v: Value)
    ensures v in Texts(us) <==> v.Text? && v.s in us
  {
    if v.Text? && v.s in us {
      var i :| 0 <= i < |us| && us[i] == v.s;
      assert Texts(us)[i] == v;
    }
  }

  lemma Uncut(b: Buffer, us: seq<Buffer>)
    requires forall b: Buffer :: CutBytes(b, None) in us <==> CutChars(Transcoding.Decode(b), None) in us
    ensures b in us <==> Transcoding.Decode(b) in us
  {
    assert CutBytes(b, None) == b;
  }

  /** A list of texts keeps its meaning if and only if each of them is safe. */
  lemma TextListIsExact(us: seq<Buffer>, name: string, d: Dialect)
    requires us != [] && forall i :: 0 <= i < |us| ==> Transcoding.WellFormed(us[i])
    ensures var f := InFilter(Texts(us));
            FilterText(f, name).Some? && (FilterKeeps(f, name, d) <==> forall i :: 0 <= i < |us| ==> SafeLiteral(Eq, us[i], None))
  {
    hide WhereTrue, FilterText, FilterTrue, Displayed, SafeLiteral, Transcoding.Decode, Texts;
    var f := InFilter(Texts(us));
    CutListIsExact(us, None);
    if forall i :: 0 <= i < |us| ==> SafeLiteral(Eq, us[i], None) {
      forall row: Row
        ensures FilterText(f, name).Some?
        ensures WhereTrue(FilterText(f, name).value, row, d) <==> FilterTrue(f, Displayed(row(name)), _ => true)
      {
        TextListMeans(us, name, row, d);
        if row(name).Text? {
          Uncut(row(name).s, us);
        }
      }
      TextListMeans(us, name, _ => Null, d);
    } else {
      var b: Buffer :| (CutBytes(b, None) in us) != (CutChars(Transcoding.Decode(b), None) in us);
      var row: Row := _ => FilterAst.Text(b);
      TextListMeans(us, name, row, d);
      assert row(name) == FilterAst.Text(b);
    }
  }

  // ----- shapes that are not kept -----

  /** A boolean operand: the operand is NULL under ANSI but FALSE under DBISAM, so each of these lets a NULL row in or out. */
  lemma BooleanOperands(name: string, d: Dialect)
    ensures var nulls: Row := _ => Null;
            var inner := Comparison(Eq, ColumnRef, Const(Int(1)));
            var ne := Comparison(Ne, inner, Const(Bool(true)));
            var isNull := Operator(IsNull, [inner]);
            && Renderable(ne) && Renderable(isNull)
            && IsTrue(DbisamEval(Intended(ne, name), nulls, d)) && !IsTrue(AnsiEval(ne, nulls(name)))
            && !IsTrue(DbisamEval(Intended(isNull, name), nulls, d)) && IsTrue(AnsiEval(isNull, nulls(name)))
  {
    var nulls: Row := _ => Null;
    var inner := Comparison(Eq, ColumnRef, Const(Int(1)));
    var ne := Comparison(Ne, inner, Const(Bool(true)));
    var isNull := Operator(IsNull, [inner]);
    assert Renderable(ColumnRef) && Renderable(Const(Int(1))) && Renderable(inner) && BoolShaped(inner);
    assert ValueExpr(Const(Bool(true))) && Renderable(ne) && Renderable(isNull) && BoolShaped(ne) && BoolShaped(isNull);
    FalseOnNull(inner, d);
    TreeEvaluates(ne, name, nulls, d);
    TreeEvaluates(isNull, name, nulls, d);
    assert Server(Const(Bool(true)), Null, d) == Bool(true);
    assert Server(isNull.operands[0], Null, d) == Bool(false);
    assert AnsiEval(isNull.operands[0], Null) == Null;
  }

  lemma FalseOnNull(inner: Expr, d: Dialect)
    requires inner == Comparison(Eq, ColumnRef, Const(Int(1))) && Renderable(inner)
    ensures Server(inner, Null, d) == Bool(false) && AnsiEval(inner, Null) == Null
  {
    assert Server(ColumnRef, Null, d) == Null && Server(Const(Int(1)), Null, d) == Int(1);
    assert AnsiEval(ColumnRef, Null) == Null;
  }

  /** A column inside a NOT IN list: only the probe is compensated. */
  lemma ColumnInNotInList(name: string, d: Dialect)
    ensures var nulls: Row := _ => Null;
            var e := Operator(NotIn, [Const(Int(1)), ColumnRef]);
            && Renderable(e)
            && IsTrue(DbisamEval(Intended(e, name), nulls, d)) && !IsTrue(AnsiEval(e, nulls(name)))
  {
    var nulls: Row := _ => Null;
    var e := Operator(NotIn, [Const(Int(1)), ColumnRef]);
    var items := IntendedAll([Const(Int(1)), ColumnRef][1..], name);
    assert [Const(Int(1)), ColumnRef][1..] == [ColumnRef];
    assert items == [Ident(name)];
    var list := InList(true, Lit(Int(1)), items);
    assert [list] + NotNullPart(Const(Int(1)), Lit(Int(1))) == [list];
    assert Intended(e, name) == Paren(list);
    assert DbisamEval(items[0], nulls, d) == Null && DbisamEval(Lit(Int(1)), nulls, d) == Int(1);
    assert DbisamEval(list, nulls, d) == Bool(true);
    assert AnsiEvalAll([ColumnRef], Null) == [Null];
  }

  /** An empty conjunction renders to an empty pair of parentheses, which is no condition at all. */
  lemma EmptyConjunction(kind: ConjKind, name: string)
    ensures ExprText(Conjunction(kind, []), Enclosed(name, '"')) == Some("()")
    ensures ParseSql("()").None?
    ensures AnsiEval(Conjunction(And, []), Null) == Bool(true)
  {
    var e := Conjunction(kind, []);
    assert Renderable(e);
    ExprTextParses(e, name);
    assert !Complete(Intended(e, name));
    assert ExprTexts([], Enclosed(name, '"')) == Some([]);
    assert "(" + Join([], ConjWord(kind)) + ")" == "()";
  }
}
