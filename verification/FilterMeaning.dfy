/** What rendering writes: every renderable expression has an intended condition tree, and its text parses to it. */
module FilterMeaning {
  import opened Wrappers
  import opened FilterAst
  import opened DbisamSql
  import opened DbisamParsing
  import opened FilterRender

  // ----- the intended trees -----

  /** A list of parts under a connective; a single part stands for itself. */
  function Grouped(kind: ConjKind, ts: seq<Tree>): Tree {
    if |ts| == 1 then ts[0] else if kind.And? then AndT(ts) else OrT(ts)
  }

  function NotNullPart(e: Expr, t: Tree): seq<Tree> {
    if e.Const? then [] else [NullTest(true, t)]
  }

  function InTree(kind: OperatorKind, probe: Expr, t: Tree, items: seq<Tree>): Tree {
    Paren(Grouped(And, [InList(kind.NotIn?, t, items)] + (if kind.NotIn? then NotNullPart(probe, t) else [])))
  }

  predicate Renderable(e: Expr) {
    match e
    case Const(v) => ValueText(v).Some?
    case ColumnRef => true
    case Comparison(op, l, r) => OpText(op).Some? && Renderable(l) && Renderable(r)
    case Conjunction(_, children) => forall i :: 0 <= i < |children| ==> Renderable(children[i])
    case Function(name, args) =>
      name == "left" && |args| == 2 && args[1].Const? && args[1].v.Int? && args[1].v.i >= 0 && Renderable(args[0])
    case Operator(kind, operands) =>
      (forall i :: 0 <= i < |operands| ==> Renderable(operands[i]))
      && (if kind.IsNull? || kind.IsNotNull? then |operands| == 1
          else (kind.In? || kind.NotIn?) && |operands| >= 2)
    case OtherExpr => false
  }

  predicate RenderableAll(es: seq<Expr>) {
    forall i :: 0 <= i < |es| ==> Renderable(es[i])
  }

  /** The condition an expression over the column `name` means, with its NULL compensations. */
  function Intended(e: Expr, name: string): Tree
    requires Renderable(e)
    decreases e, 1
  {
    match e
    case Const(v) => Lit(v)
    case ColumnRef => Ident(name)
    case Comparison(op, left, right) =>
      var l := Intended(left, name);
      var r := Intended(right, name);
      if op.Ne? then Paren(Grouped(And, [CmpT(Ne, l, r)] + NotNullPart(left, l) + NotNullPart(right, r)))
      else Paren(CmpT(op, l, r))
    case Conjunction(kind, children) => Paren(Grouped(kind, IntendedAll(children, name)))
    case Function(_, args) => LeftCall(Intended(args[0], name), args[1].v.i)
    case Operator(kind, operands) =>
      var t := Intended(operands[0], name);
      if kind.IsNull? || kind.IsNotNull? then Paren(NullTest(kind.IsNotNull?, t))
      else InTree(kind, operands[0], t, IntendedAll(operands[1..], name))
  }

  function IntendedAll(es: seq<Expr>, name: string): (ts: seq<Tree>)
    requires RenderableAll(es)
    ensures |ts| == |es|
    ensures forall i :: 0 <= i < |es| ==> ts[i] == Intended(es[i], name)
    decreases es, 0
  {
    if es == [] then [] else [Intended(es[0], name)] + IntendedAll(es[1..], name)
  }

  // ----- the text is the spelling of the intended tree -----

  predicate Good(t: Tree, level: nat) {
    Shaped(t) && Spellable(t) && Level(t) <= level
  }

  lemma GroupedGood(kind: ConjKind, ts: seq<Tree>)
    requires forall i :: 0 <= i < |ts| ==> Good(ts[i], 1)
    ensures Good(Paren(Grouped(kind, ts)), 0)
  {
    var g := Grouped(kind, ts);
    if |ts| != 1 {
      assert Shaped(g) && Spellable(g) by {
        if kind.And? {
          assert g == AndT(ts);
        } else {
          assert g == OrT(ts);
        }
      }
    }
  }

  lemma GroupedSpelling(kind: ConjKind, ts: seq<Tree>)
    ensures Spell(Paren(Grouped(kind, ts))) == "(" + Join(SpellAll(ts), ConjWord(kind)) + ")"
  {
    var g := Grouped(kind, ts);
    assert Spell(Paren(g)) == "(" + Spell(g) + ")";
    if |ts| == 1 {
      assert SpellAll(ts) == [Spell(ts[0])];
    } else if kind.And? {
      assert Spell(g) == Join(SpellAll(ts), " AND ");
    } else {
      assert Spell(g) == Join(SpellAll(ts), " OR ");
    }
  }

  /** An expression renders exactly when every part of it does, and then to its intended tree's text. */
  lemma {:induction false} ExprTextIsSpelling(e: Expr, name: string)
    ensures ExprText(e, Enclosed(name, '"')).Some? <==> Renderable(e)
    ensures Renderable(e) ==>
              && Good(Intended(e, name), 0)
              && ExprText(e, Enclosed(name, '"')) == Some(Spell(Intended(e, name)))
    decreases e, 1
  {
    match e
    case Const(v) =>
    case ColumnRef =>
    case Comparison(op, left, right) =>
      ExprTextIsSpelling(left, name);
      ExprTextIsSpelling(right, name);
      ComparisonTextIsSpelling(op, left, right, name);
    case Conjunction(kind, children) =>
      ExprTextsAreSpellings(children, name);
      if Renderable(e) {
        GroupedGood(kind, IntendedAll(children, name));
        GroupedSpelling(kind, IntendedAll(children, name));
      }
    case Function(_, args) =>
      if |args| == 2 {
        ExprTextIsSpelling(args[0], name);
      }
    case Operator(kind, operands) =>
      ExprTextsAreSpellings(operands, name);
      OperatorTextIsSpelling(kind, operands, name);
    case OtherExpr =>
  }

  lemma ComparisonTextIsSpelling(op: CmpOp, left: Expr, right: Expr, name: string)
    requires forall side :: side == left || side == right ==>
               (ExprText(side, Enclosed(name, '"')).Some? <==> Renderable(side))
               && (Renderable(side) ==>
                     Good(Intended(side, name), 0) && ExprText(side, Enclosed(name, '"')) == Some(Spell(Intended(side, name))))
    ensures var e := Comparison(op, left, right);
            && (ExprText(e, Enclosed(name, '"')).Some? <==> Renderable(e))
            && (Renderable(e) ==> Good(Intended(e, name), 0) && ExprText(e, Enclosed(name, '"')) == Some(Spell(Intended(e, name))))
  {
    var e := Comparison(op, left, right);
    if Renderable(e) {
      var l, r := Intended(left, name), Intended(right, name);
      if op.Ne? {
        NotEqualSpelling(left, right, l, r);
      } else {
        CmpSpelling(op, Spell(l), Spell(r));
      }
    }
  }

  lemma {:induction false} ExprTextsAreSpellings(es: seq<Expr>, name: string)
    ensures ExprTexts(es, Enclosed(name, '"')).Some? <==> RenderableAll(es)
    ensures RenderableAll(es) ==>
              && (forall i :: 0 <= i < |es| ==> Good(Intended(es[i], name), 0))
              && ExprTexts(es, Enclosed(name, '"')) == Some(SpellAll(IntendedAll(es, name)))
    ensures forall i :: 0 <= i < |es| ==> (ExprText(es[i], Enclosed(name, '"')).Some? <==> Renderable(es[i]))
    ensures forall i :: 0 <= i < |es| && Renderable(es[i]) ==>
              && Good(Intended(es[i], name), 0)
              && ExprText(es[i], Enclosed(name, '"')) == Some(Spell(Intended(es[i], name)))
    decreases es, 0
  {
    if es != [] {
      ExprTextIsSpelling(es[0], name);
      ExprTextsAreSpellings(es[1..], name);
      RenderableCons(es);
      assert forall i :: 0 < i < |es| ==> es[i] == es[1..][i - 1];
    }
  }

  lemma RenderableCons(es: seq<Expr>)
    requires es != []
    ensures RenderableAll(es) <==> Renderable(es[0]) && RenderableAll(es[1..])
  {
    if Renderable(es[0]) && RenderableAll(es[1..]) {
      forall i | 0 <= i < |es|
        ensures Renderable(es[i])
      {
        if i > 0 {
          assert es[i] == es[1..][i - 1];
        }
      }
    }
  }

  lemma CmpSpelling(op: CmpOp, l: string, r: string)
    requires OpText(op).Some?
    ensures "(" + (l + " " + OrEmpty(OpText(op)) + " " + r) + ")" == "(" + l + " " + OpText(op).value + " " + r + ")"
  {
  }

  lemma NotEqualSpelling(left: Expr, right: Expr, l: Tree, r: Tree)
    requires Good(l, 0) && Good(r, 0)
    ensures var t := Paren(Grouped(And, [CmpT(Ne, l, r)] + NotNullPart(left, l) + NotNullPart(right, r)));
            && Good(t, 0)
            && Spell(t) == "(" + Spell(l) + " <> " + Spell(r)
                         + Compensation(left, Spell(l)) + Compensation(right, Spell(r)) + ")"
  {
    var c := CmpT(Ne, l, r);
    assert Good(c, 1);
    var one := [c] + NotNullPart(left, l);
    var parts := one + NotNullPart(right, r);
    assert forall i :: 0 <= i < |parts| ==> Good(parts[i], 1);
    GroupedGood(And, parts);
    GroupedSpelling(And, parts);
    JoinOnePart([c], left, l);
    JoinOnePart(one, right, r);
    assert SpellAll([c]) == [Spell(c)];
    NotEqualText(Spell(l), Spell(r), Compensation(left, Spell(l)), Compensation(right, Spell(r)));
    assert Spell(c) == Spell(l) + " " + "<>" + " " + Spell(r);
  }

  lemma NotEqualText(l: string, r: string, a: string, b: string)
    ensures "(" + (l + " " + "<>" + " " + r + a + b) + ")" == "(" + l + " <> " + r + a + b + ")"
  {
    assert l + " " + "<>" + " " + r == l + " <> " + r;
  }

  /** An added IS NOT NULL part spells as the renderer appends it. */
  lemma JoinOnePart(ts: seq<Tree>, e: Expr, t: Tree)
    requires ts != []
    ensures Join(SpellAll(ts + NotNullPart(e, t)), " AND ") == Join(SpellAll(ts), " AND ") + Compensation(e, Spell(t))
  {
    if e.Const? {
      assert ts + [] == ts;
      assert Join(SpellAll(ts), " AND ") + "" == Join(SpellAll(ts), " AND ");
    } else {
      JoinNullTest(ts, t);
    }
  }

  lemma JoinNullTest(ts: seq<Tree>, t: Tree)
    requires ts != []
    ensures Join(SpellAll(ts + [NullTest(true, t)]), " AND ") == Join(SpellAll(ts), " AND ") + (" AND " + Spell(t) + " IS NOT NULL")
  {
    var part := NullTest(true, t);
    SpellAllSnoc(ts, part);
    assert Spell(part) == Spell(t) + " IS NOT NULL";
    assert SpellAll(ts) != [];
    hide Spell, SpellAll, Join;
    JoinSnoc(SpellAll(ts), Spell(part), " AND ");
    AndNotNull(Join(SpellAll(ts), " AND "), Spell(t));
  }

  lemma AndNotNull(j: string, t: string)
    ensures j + " AND " + (t + " IS NOT NULL") == j + (" AND " + t + " IS NOT NULL")
  {
    var a, b := j + " AND ", t + " IS NOT NULL";
    assert " AND " + t + " IS NOT NULL" == " AND " + b;
  }

  lemma SpellAllSnoc(ts: seq<Tree>, t: Tree)
    ensures SpellAll(ts + [t]) == SpellAll(ts) + [Spell(t)]
  {
  }

  lemma OperatorTextIsSpelling(kind: OperatorKind, operands: seq<Expr>, name: string)
    requires forall i :: 0 <= i < |operands| ==>
               (ExprText(operands[i], Enclosed(name, '"')).Some? <==> Renderable(operands[i]))
    requires forall i :: 0 <= i < |operands| && Renderable(operands[i]) ==>
               && Good(Intended(operands[i], name), 0)
               && ExprText(operands[i], Enclosed(name, '"')) == Some(Spell(Intended(operands[i], name)))
    requires ExprTexts(operands, Enclosed(name, '"')).Some? <==> RenderableAll(operands)
    requires RenderableAll(operands) ==>
               ExprTexts(operands, Enclosed(name, '"')) == Some(SpellAll(IntendedAll(operands, name)))
    ensures OperatorText(kind, operands, Enclosed(name, '"')).Some? <==> Renderable(Operator(kind, operands))
    ensures Renderable(Operator(kind, operands)) ==>
              && Good(Intended(Operator(kind, operands), name), 0)
              && OperatorText(kind, operands, Enclosed(name, '"')) == Some(Spell(Intended(Operator(kind, operands), name)))
  {
    if kind.IsNull? || kind.IsNotNull? {
      assert RenderableAll(operands) ==> |operands| == 0 || Renderable(operands[0]);
      assert |operands| == 1 && Renderable(operands[0]) ==> RenderableAll(operands);
      if Renderable(Operator(kind, operands)) {
        NullTestSpelling(kind, Spell(Intended(operands[0], name)));
      }
    } else if (kind.In? || kind.NotIn?) && operands != [] {
      ListTextIsSpelling(kind, operands, name);
    }
  }

  lemma NullTestSpelling(kind: OperatorKind, child: string)
    ensures "(" + (child + " IS NULL") + ")" == "(" + child + " IS NULL)"
    ensures "(" + (child + " IS NOT NULL") + ")" == "(" + child + " IS NOT NULL)"
  {
  }

  lemma ListTextIsSpelling(kind: OperatorKind, operands: seq<Expr>, name: string)
    requires operands != [] && (kind.In? || kind.NotIn?)
    requires (ExprText(operands[0], Enclosed(name, '"')).Some? <==> Renderable(operands[0]))
    requires forall i :: 0 <= i < |operands| && Renderable(operands[i]) ==> Good(Intended(operands[i], name), 0)
    requires Renderable(operands[0]) ==> ExprText(operands[0], Enclosed(name, '"')) == Some(Spell(Intended(operands[0], name)))
    requires ExprTexts(operands, Enclosed(name, '"')).Some? <==> RenderableAll(operands)
    requires RenderableAll(operands) ==>
               ExprTexts(operands, Enclosed(name, '"')) == Some(SpellAll(IntendedAll(operands, name)))
    ensures OperatorText(kind, operands, Enclosed(name, '"')).Some? <==> Renderable(Operator(kind, operands))
    ensures Renderable(Operator(kind, operands)) ==>
              && Good(Intended(Operator(kind, operands), name), 0)
              && OperatorText(kind, operands, Enclosed(name, '"')) == Some(Spell(Intended(Operator(kind, operands), name)))
  {
    hide Good;
    RenderableCons(operands);
    if Renderable(Operator(kind, operands)) {
      var t := Intended(operands[0], name);
      var items := IntendedAll(operands[1..], name);
      assert forall i :: 0 <= i < |items| ==> items[i] == Intended(operands[i + 1], name);
      assert IntendedAll(operands, name)[1..] == items;
      assert SpellAll(IntendedAll(operands, name))[1..] == SpellAll(items);
      InSpelling(kind, operands[0], t, items);
    }
  }

  lemma InSpelling(kind: OperatorKind, probe: Expr, t: Tree, items: seq<Tree>)
    requires kind.In? || kind.NotIn?
    requires Good(t, 0) && items != [] && forall i :: 0 <= i < |items| ==> Good(items[i], 0)
    ensures Good(InTree(kind, probe, t, items), 0)
    ensures Spell(InTree(kind, probe, t, items))
         == "(" + Spell(t) + (if kind.NotIn? then " NOT IN (" else " IN (") + Join(SpellAll(items), ", ") + ")"
            + (if kind.NotIn? then Compensation(probe, Spell(t)) else "") + ")"
  {
    var list := InList(kind.NotIn?, t, items);
    assert Good(list, 1);
    var extra := if kind.NotIn? then NotNullPart(probe, t) else [];
    var parts := [list] + extra;
    assert forall i :: 0 <= i < |parts| ==> Good(parts[i], 1);
    GroupedGood(And, parts);
    GroupedSpelling(And, parts);
    InParts(list, kind, probe, t);
    InText(Spell(t), if kind.NotIn? then " NOT IN (" else " IN (", Join(SpellAll(items), ", "),
           if kind.NotIn? then Compensation(probe, Spell(t)) else "");
  }

  lemma InParts(list: Tree, kind: OperatorKind, probe: Expr, t: Tree)
    ensures Join(SpellAll([list] + (if kind.NotIn? then NotNullPart(probe, t) else [])), " AND ")
         == Spell(list) + (if kind.NotIn? then Compensation(probe, Spell(t)) else "")
  {
    assert SpellAll([list]) == [Spell(list)];
    if kind.NotIn? {
      JoinOnePart([list], probe, t);
    } else {
      assert [list] + [] == [list];
    }
  }

  lemma InText(t: string, words: string, items: string, a: string)
    ensures "(" + (t + words + items + ")" + a) + ")" == "(" + t + words + items + ")" + a + ")"
  {
  }

  /**
   * The accept test and the scan agree: whether an expression renders does not depend on the
   * column it is rendered over, so what was accepted with a dummy name is never refused later.
   */
  lemma RenderabilityIgnoresColumn(e: Expr, probe: string, name: string)
    ensures ExprText(e, Enclosed(probe, '"')).Some? <==> FilterText(ExpressionFilter(Some(e)), name).Some?
  {
    ExprTextIsSpelling(e, probe);
    ExprTextIsSpelling(e, name);
  }

  /** The text of any renderable expression parses to its intended tree, unless a conjunction in it is empty. */
  lemma ExprTextParses(e: Expr, name: string)
    requires Renderable(e)
    ensures ExprText(e, Enclosed(name, '"')).Some?
    ensures ParseSql(ExprText(e, Enclosed(name, '"')).value)
         == if Complete(Intended(e, name)) then Some(Intended(e, name)) else None
  {
    ExprTextIsSpelling(e, name);
    SpellParses(Intended(e, name));
  }
}
