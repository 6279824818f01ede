/**
 * The parser undoes the spelling: a tree in the grammar's normal form parses back to itself,
 * and a text with an empty pair of parentheses in it does not parse at all.
 */
module DbisamParsing {
  import opened Wrappers
  import opened Bytes
  import opened DbisamSql
  import opened DbisamLexing

  /** The nonterminal a tree's text comes from: 0 primary, 1 predicate, 2 conjunction, 3 disjunction. */
  function Level(t: Tree): nat {
    match t
    case CmpT(_, _, _) => 1
    case NullTest(_, _) => 1
    case InList(_, _, _) => 1
    case AndT(_) => 2
    case OrT(_) => 3
    case _ => 0
  }

  /** A tree that needs no parentheses beyond its own; connectives join two or more parts, or none at all. */
  predicate Shaped(t: Tree) {
    match t
    case Ident(_) => true
    case Lit(_) => true
    case LeftCall(arg, _) => Shaped(arg)
    case Paren(inner) => Shaped(inner)
    case CmpT(_, l, r) => Shaped(l) && Shaped(r) && Level(l) == Level(r) == 0
    case NullTest(_, arg) => Shaped(arg) && Level(arg) == 0
    case InList(_, probe, items) =>
      Shaped(probe) && Level(probe) == 0 && items != [] && forall i :: 0 <= i < |items| ==> Shaped(items[i])
    case AndT(children) =>
      |children| != 1 && forall i :: 0 <= i < |children| ==> Shaped(children[i]) && Level(children[i]) <= 1
    case OrT(children) =>
      |children| != 1 && forall i :: 0 <= i < |children| ==> Shaped(children[i]) && Level(children[i]) <= 2
  }

  /** No connective anywhere in the tree is empty. */
  predicate Complete(t: Tree) {
    match t
    case Ident(_) => true
    case Lit(_) => true
    case LeftCall(arg, _) => Complete(arg)
    case Paren(inner) => Complete(inner)
    case CmpT(_, l, r) => Complete(l) && Complete(r)
    case NullTest(_, arg) => Complete(arg)
    case InList(_, probe, items) => Complete(probe) && CompleteAll(items)
    case AndT(children) => children != [] && CompleteAll(children)
    case OrT(children) => children != [] && CompleteAll(children)
  }

  predicate CompleteAll(ts: seq<Tree>) {
    forall i :: 0 <= i < |ts| ==> Complete(ts[i])
  }

  /** The outcome the parser owes a list of trees. */
  function ExpectedAll(ts: seq<Tree>, rest: seq<Token>): Option<(seq<Tree>, seq<Token>)> {
    if CompleteAll(ts) then Some((ts, rest)) else None
  }

  lemma ExpectedCons(ts: seq<Tree>, rest: seq<Token>)
    requires ts != []
    ensures ts == [ts[0]] + ts[1..]
    ensures CompleteAll(ts) <==> Complete(ts[0]) && CompleteAll(ts[1..])
    ensures |ts| == 1 ==> ts == [ts[0]] && (CompleteAll(ts) <==> Complete(ts[0]))
  {
    hide Complete;
    if Complete(ts[0]) && CompleteAll(ts[1..]) {
      forall i | 0 <= i < |ts|
        ensures Complete(ts[i])
      {
        if i > 0 {
          assert ts[i] == ts[1..][i - 1];
        }
      }
    }
  }

  /** A place where a text of the given level ends. */
  predicate Follows(level: nat, rest: seq<Token>) {
    rest == [] || rest[0] == RParen || rest[0] == Comma || rest[0] == Word("TOP")
    || (level <= 2 && rest[0] == Word("OR")) || (level <= 1 && rest[0] == Word("AND"))
  }

  predicate Fits(t: Tree, level: nat) {
    Shaped(t) && Spellable(t) && Level(t) <= level
  }

  /** The outcome the parser owes a tree: the tree itself if it is complete, else a refusal. */
  function Expected(t: Tree, rest: seq<Token>): Parsed {
    if Complete(t) then Some((t, rest)) else None
  }

  /** No condition starts where a condition may end. */
  lemma NothingParses(rest: seq<Token>)
    requires Follows(2, rest)
    ensures ParseAnd(rest).None? && ParseOr(rest).None?
  {
    assert ParsePrimary(rest).None?;
    assert ParsePred(rest).None?;
    assert ParseConjuncts(rest).None?;
    assert ParseAnd(rest).None?;
    assert ParseDisjuncts(rest).None?;
  }

  lemma {:induction false} PrimaryParses(t: Tree, rest: seq<Token>)
    requires Fits(t, 0)
    ensures ParsePrimary(Tokens(t) + rest) == Expected(t, rest)
    decreases t, 0
  {
    var ts := Tokens(t) + rest;
    match t
    case Ident(name) =>
      assert ts[1..] == rest;
    case Lit(v) =>
      if v.Text? {
        CharsRoundTrip(v.s);
      }
      assert ts[1..] == rest;
    case LeftCall(arg, n) =>
      var rest' := [Comma, Num(n), RParen] + rest;
      assert ts[2..] == Tokens(arg) + rest';
      OrParses(arg, rest');
      assert rest'[3..] == rest;
    case Paren(inner) =>
      var rest' := [RParen] + rest;
      assert ts[1..] == Tokens(inner) + rest';
      OrParses(inner, rest');
      assert rest'[1..] == rest;
  }

  lemma {:induction false} PredParses(t: Tree, rest: seq<Token>)
    requires Fits(t, 1) && Follows(1, rest)
    ensures ParsePred(Tokens(t) + rest) == Expected(t, rest)
    decreases t, 1
  {
    if t.CmpT? {
      CmpParses(t, rest);
    } else if t.NullTest? {
      NullTestParses(t, rest);
    } else if t.InList? {
      InListParses(t, rest);
    } else {
      PrimaryParses(t, rest);
    }
  }

  lemma {:induction false} CmpParses(t: Tree, rest: seq<Token>)
    requires Fits(t, 1) && t.CmpT?
    ensures ParsePred(Tokens(t) + rest) == Expected(t, rest)
    decreases t, 0
  {
    var CmpT(op, l, r) := t;
    var after := [OpTok(op)] + (Tokens(r) + rest);
    assert Tokens(t) + rest == Tokens(l) + after;
    PrimaryParses(l, after);
    assert after[1..] == Tokens(r) + rest;
    PrimaryParses(r, rest);
  }

  lemma {:induction false} NullTestParses(t: Tree, rest: seq<Token>)
    requires Fits(t, 1) && t.NullTest?
    ensures ParsePred(Tokens(t) + rest) == Expected(t, rest)
    decreases t, 0
  {
    var after := NullWords(t.negated) + rest;
    assert Tokens(t) + rest == Tokens(t.arg) + after;
    PrimaryParses(t.arg, after);
    if t.negated {
      assert after[0] == Word("IS") && after[1] == Word("NOT") && after[2] == Word("NULL") && after[3..] == rest;
    } else {
      assert after[0] == Word("IS") && after[1] == Word("NULL") && after[2..] == rest;
    }
  }

  lemma {:induction false} InListParses(t: Tree, rest: seq<Token>)
    requires Fits(t, 1) && t.InList?
    ensures ParsePred(Tokens(t) + rest) == Expected(t, rest)
    decreases t, 0
  {
    var InList(neg, probe, items) := t;
    var rest' := [RParen] + rest;
    var after := InWords(neg) + (TokensJoin(items, Comma) + rest');
    assert Tokens(t) + rest == Tokens(probe) + after;
    PrimaryParses(probe, after);
    assert after[|InWords(neg)|..] == TokensJoin(items, Comma) + rest';
    ItemsParse(items, rest');
    assert rest'[1..] == rest;
  }

  lemma {:induction false} ItemsParse(items: seq<Tree>, rest: seq<Token>)
    requires items != [] && forall i :: 0 <= i < |items| ==> Fits(items[i], 3)
    requires rest != [] && rest[0] == RParen
    ensures ParseItems(TokensJoin(items, Comma) + rest)
         == ExpectedAll(items, rest)
    decreases items, 6
  {
    ExpectedCons(items, rest);
    if |items| == 1 {
      OrParses(items[0], rest);
    } else {
      var rest' := [Comma] + (TokensJoin(items[1..], Comma) + rest);
      assert TokensJoin(items, Comma) + rest == Tokens(items[0]) + rest';
      OrParses(items[0], rest');
      assert rest'[1..] == TokensJoin(items[1..], Comma) + rest;
      ItemsParse(items[1..], rest);
    }
  }

  lemma {:induction false} ConjunctsParse(ts: seq<Tree>, rest: seq<Token>)
    requires ts != [] && forall i :: 0 <= i < |ts| ==> Fits(ts[i], 1)
    requires Follows(2, rest)
    ensures ParseConjuncts(TokensJoin(ts, Word("AND")) + rest)
         == ExpectedAll(ts, rest)
    decreases ts, 2
  {
    hide ParsePred, Complete, Fits;
    ExpectedCons(ts, rest);
    if |ts| == 1 {
      PredParses(ts[0], rest);
    } else {
      var rest' := [Word("AND")] + (TokensJoin(ts[1..], Word("AND")) + rest);
      assert TokensJoin(ts, Word("AND")) + rest == Tokens(ts[0]) + rest';
      PredParses(ts[0], rest');
      assert rest'[1..] == TokensJoin(ts[1..], Word("AND")) + rest;
      ConjunctsParse(ts[1..], rest);
    }
  }

  lemma {:induction false} AndParses(t: Tree, rest: seq<Token>)
    requires Fits(t, 2) && Follows(2, rest)
    ensures ParseAnd(Tokens(t) + rest) == Expected(t, rest)
    decreases t, 3
  {
    if t.AndT? && t.children == [] {
      assert Tokens(t) + rest == rest;
      NothingParses(rest);
    } else if t.AndT? {
      ConjunctsParse(t.children, rest);
    } else {
      PredParses(t, rest);
    }
  }

  lemma {:induction false} DisjunctsParse(ts: seq<Tree>, rest: seq<Token>)
    requires ts != [] && forall i :: 0 <= i < |ts| ==> Fits(ts[i], 2)
    requires Follows(3, rest)
    ensures ParseDisjuncts(TokensJoin(ts, Word("OR")) + rest)
         == ExpectedAll(ts, rest)
    decreases ts, 4
  {
    ExpectedCons(ts, rest);
    if |ts| == 1 {
      AndParses(ts[0], rest);
    } else {
      var rest' := [Word("OR")] + (TokensJoin(ts[1..], Word("OR")) + rest);
      assert TokensJoin(ts, Word("OR")) + rest == Tokens(ts[0]) + rest';
      AndParses(ts[0], rest');
      assert rest'[1..] == TokensJoin(ts[1..], Word("OR")) + rest;
      DisjunctsParse(ts[1..], rest);
    }
  }

  lemma {:induction false} OrParses(t: Tree, rest: seq<Token>)
    requires Fits(t, 3) && Follows(3, rest)
    ensures ParseOr(Tokens(t) + rest) == Expected(t, rest)
    decreases t, 5
  {
    if t.OrT? && t.children == [] {
      assert Tokens(t) + rest == rest;
      NothingParses(rest);
    } else if t.OrT? {
      DisjunctsParse(t.children, rest);
    } else {
      AndParses(t, rest);
    }
  }

  /**
   * Printer and parser are inverse: the text of a shaped tree parses to that very tree, for every
   * identifier and every literal in it, if and only if none of its connectives is empty.
   */
  lemma SpellParses(t: Tree)
    requires Shaped(t) && Spellable(t)
    ensures ParseSql(Spell(t)) == if Complete(t) then Some(t) else None
  {
    LexSpell(t);
    OrParses(t, []);
    assert Tokens(t) + [] == Tokens(t);
  }
}
