/** The lexer undoes the spelling: every tree's text splits into exactly its tokens. */
module DbisamLexing {
  import opened Wrappers
  import opened Bytes
  import opened FilterAst
  import opened DbisamSql

  /** The tokens a tree is spelled with. */
  function Tokens(t: Tree): seq<Token>
    decreases t, 1
  {
    match t
    case Ident(name) => [Quoted(name)]
    case Lit(v) =>
      if v.Bool? then [Word(if v.b then "TRUE" else "FALSE")]
      else if v.Int? then [Num(v.i)]
      else if v.Text? then [Str(CharsOf(v.s))]
      else []
    case LeftCall(arg, n) => [Word("LEFT"), LParen] + Tokens(arg) + [Comma, Num(n), RParen]
    case Paren(inner) => [LParen] + Tokens(inner) + [RParen]
    case CmpT(op, l, r) => Tokens(l) + [OpTok(op)] + Tokens(r)
    case NullTest(neg, arg) => Tokens(arg) + NullWords(neg)
    case InList(neg, probe, items) => Tokens(probe) + InWords(neg) + TokensJoin(items, Comma) + [RParen]
    case AndT(children) => TokensJoin(children, Word("AND"))
    case OrT(children) => TokensJoin(children, Word("OR"))
  }

  function NullWords(neg: bool): seq<Token> {
    if neg then [Word("IS"), Word("NOT"), Word("NULL")] else [Word("IS"), Word("NULL")]
  }

  function InWords(neg: bool): seq<Token> {
    if neg then [Word("NOT"), Word("IN"), LParen] else [Word("IN"), LParen]
  }

  function TokensJoin(ts: seq<Tree>, sep: Token): seq<Token>
    decreases ts, 0
  {
    if ts == [] then []
    else if |ts| == 1 then Tokens(ts[0])
    else Tokens(ts[0]) + [sep] + TokensJoin(ts[1..], sep)
  }

  /** A text in front of which any token may end. */
  predicate Clean(rest: string) {
    rest == "" || rest[0] == ' ' || rest[0] == ')' || rest[0] == ','
  }

  function Prepend(ts: seq<Token>, r: Option<seq<Token>>): Option<seq<Token>> {
    if r.None? then None else Some(ts + r.value)
  }

  /** The text p yields the tokens ts, whatever clean text follows. */
  ghost predicate Lexes(p: string, ts: seq<Token>) {
    forall rest :: Clean(rest) ==> Lex(p + rest) == Prepend(ts, Lex(rest))
  }

  /** The text p yields the tokens ts, whatever text at all follows. */
  ghost predicate LexesAlways(p: string, ts: seq<Token>) {
    forall rest :: Lex(p + rest) == Prepend(ts, Lex(rest))
  }

  lemma PrependTwice(a: seq<Token>, b: seq<Token>, r: Option<seq<Token>>)
    ensures Prepend(a, Prepend(b, r)) == Prepend(a + b, r)
  {
    if r.Some? {
      assert a + (b + r.value) == (a + b) + r.value;
    }
  }

  lemma PrependEmpty(r: Option<seq<Token>>)
    ensures Prepend([], r) == r
  {
    if r.Some? {
      assert [] + r.value == r.value;
    }
  }

  lemma LexStep(p: string, tok: Token, rest: string)
    requires p != "" && p[0] != ' '
    requires LexToken(p + rest) == Some((tok, |p|))
    ensures Lex(p + rest) == Prepend([tok], Lex(rest))
  {
    assert (p + rest)[|p|..] == rest;
  }

  lemma LexSpace(rest: string)
    ensures Lex(" " + rest) == Lex(rest)
  {
    assert (" " + rest)[1..] == rest;
  }

  // ----- numbers -----

  lemma {:induction false} DigitsValue(n: nat)
    ensures forall i :: 0 <= i < |Digits(n)| ==> IsDigit(Digits(n)[i])
    ensures NatValue(Digits(n)) == n
  {
    if n < 10 {
      assert Digits(n)[..0] == "";
    } else {
      DigitsValue(n / 10);
      MoreDigits(Digits(n / 10), n % 10);
      assert n == 10 * (n / 10) + n % 10;
      assert Digits(n) == Digits(n / 10) + [DigitChar(n % 10)];
    }
  }

  lemma MoreDigits(s: string, d: nat)
    requires d < 10 && forall i :: 0 <= i < |s| ==> IsDigit(s[i])
    ensures var more := s + [DigitChar(d)];
            (forall i :: 0 <= i < |more| ==> IsDigit(more[i])) && NatValue(more) == 10 * NatValue(s) + d
  {
    hide Digits;
    var more := s + [DigitChar(d)];
    assert more[..|s|] == s && more[|s|] == DigitChar(d);
    forall i | 0 <= i < |more|
      ensures IsDigit(more[i])
    {
      assert i < |s| ==> more[i] == s[i];
    }
  }

  lemma {:induction false} DigitRunOf(p: string, rest: string)
    requires forall i :: 0 <= i < |p| ==> IsDigit(p[i])
    requires rest == "" || !IsDigit(rest[0])
    ensures DigitRun(p + rest) == |p|
  {
    if p == "" {
      assert p + rest == rest;
    } else {
      DigitRunOf(p[1..], rest);
      assert (p + rest)[1..] == p[1..] + rest;
    }
  }

  lemma LexDigits(d: string, rest: string)
    requires d != "" && forall i :: 0 <= i < |d| ==> IsDigit(d[i])
    requires Clean(rest)
    ensures Lex(d + rest) == Prepend([Num(NatValue(d))], Lex(rest))
    ensures Lex("-" + d + rest) == Prepend([Num(-(NatValue(d) as int))], Lex(rest))
  {
    hide Lex, NatValue;
    DigitRunOf(d, rest);
    assert (d + rest)[..|d|] == d;
    assert IsDigit((d + rest)[0]);
    assert LexToken(d + rest) == Some((Num(NatValue(d)), |d|));
    LexStep(d, Num(NatValue(d)), rest);
    LexNegative(d, rest);
  }

  lemma LexNegative(d: string, rest: string)
    requires d != "" && forall i :: 0 <= i < |d| ==> IsDigit(d[i])
    requires Clean(rest)
    ensures Lex("-" + d + rest) == Prepend([Num(-(NatValue(d) as int))], Lex(rest))
  {
    hide Lex, NatValue;
    DigitRunOf(d, rest);
    var s := "-" + d + rest;
    assert s[1..] == d + rest;
    assert s[1..1 + |d|] == d;
    LexStep("-" + d, Num(-(NatValue(d) as int)), rest);
  }

  lemma LexInt(i: int)
    ensures Lexes(IntText(i), [Num(i)])
    ensures IntText(i)[0] == '-' <==> i < 0
  {
    DigitsValue(if i < 0 then -i else i);
    assert IsDigit(Digits(if i < 0 then -i else i)[0]);
    forall rest | Clean(rest)
      ensures Lex(IntText(i) + rest) == Prepend([Num(i)], Lex(rest))
    {
      var n := if i < 0 then -i else i;
      DigitsValue(n);
      LexDigits(Digits(n), rest);
    }
  }

  // ----- quoted text -----

  lemma {:induction false} ScanDoubled(s: string, quote: char, rest: string)
    requires rest == "" || rest[0] != quote
    ensures ScanQuoted(Doubled(s, quote) + [quote] + rest, quote) == Some((s, |Doubled(s, quote)| + 1))
  {
    var full := Doubled(s, quote) + [quote] + rest;
    if s == "" {
      assert full == [quote] + rest;
    } else {
      ScanDoubled(s[1..], quote, rest);
      var tail := Doubled(s[1..], quote) + [quote] + rest;
      if s[0] == quote {
        assert full[2..] == tail;
      } else {
        assert full[1..] == tail;
      }
      assert s == [s[0]] + s[1..];
    }
  }

  lemma LexQuoted(s: string, quote: char, rest: string)
    requires quote == '"' || quote == '\''
    requires Clean(rest)
    ensures Lex(Enclosed(s, quote) + rest) == Prepend([if quote == '"' then Quoted(s) else Str(s)], Lex(rest))
  {
    ScanDoubled(s, quote, rest);
    assert (Enclosed(s, quote) + rest)[1..] == Doubled(s, quote) + [quote] + rest;
    LexStep(Enclosed(s, quote), if quote == '"' then Quoted(s) else Str(s), rest);
  }

  // ----- words and symbols -----

  lemma {:induction false} LetterRunOf(w: string, rest: string)
    requires forall i :: 0 <= i < |w| ==> IsLetter(w[i])
    requires rest == "" || !IsLetter(rest[0])
    ensures LetterRun(w + rest) == |w|
  {
    if w == "" {
      assert w + rest == rest;
    } else {
      LetterRunOf(w[1..], rest);
      assert (w + rest)[1..] == w[1..] + rest;
    }
  }

  lemma LexWord(w: string, rest: string)
    requires w != "" && forall i :: 0 <= i < |w| ==> IsLetter(w[i])
    requires rest == "" || !IsLetter(rest[0])
    ensures Lex(w + rest) == Prepend([Word(w)], Lex(rest))
  {
    LetterRunOf(w, rest);
    assert (w + rest)[..|w|] == w;
    assert IsLetter(w[0]);
    LexStep(w, Word(w), rest);
  }

  /** A keyword with a space before it. */
  lemma LexKeyword(w: string, rest: string)
    requires w != "" && forall i :: 0 <= i < |w| ==> IsLetter(w[i])
    requires Clean(rest)
    ensures Lex(" " + w + rest) == Prepend([Word(w)], Lex(rest))
  {
    LexSpace(w + rest);
    assert " " + w + rest == " " + (w + rest);
    LexWord(w, rest);
  }

  lemma LexSymbol(c: char, tok: Token, rest: string)
    requires (c, tok) in [('(', LParen), (')', RParen), (',', Comma)]
    ensures Lex([c] + rest) == Prepend([tok], Lex(rest))
  {
    LexStep([c], tok, rest);
  }

  lemma LexOp(op: CmpOp, rest: string)
    requires OpText(op).Some?
    ensures Lex(" " + OpText(op).value + " " + rest) == Prepend([OpTok(op)], Lex(rest))
  {
    var o := OpText(op).value;
    var s := " " + o + " " + rest;
    assert s == " " + (o + (" " + rest));
    LexSpace(o + (" " + rest));
    LexStep(o, OpTok(op), " " + rest);
    LexSpace(rest);
  }

  // ----- trees -----

  lemma LexLit(v: Value)
    requires ValueText(v).Some?
    ensures Lexes(ValueText(v).value, Tokens(Lit(v)))
  {
    if v.Int? {
      LexInt(v.i);
    } else {
      forall rest | Clean(rest)
        ensures Lex(ValueText(v).value + rest) == Prepend(Tokens(Lit(v)), Lex(rest))
      {
        if v.Bool? {
          LexWord(if v.b then "TRUE" else "FALSE", rest);
        } else {
          LexQuoted(CharsOf(v.s), '\'', rest);
        }
      }
    }
  }

  // ----- composition -----

  /** A piece that must be followed by clean text, followed by a piece that starts cleanly. */
  lemma Then(p: string, a: seq<Token>, q: string, b: seq<Token>)
    requires Lexes(p, a) && Clean(q) && q != ""
    ensures Lexes(q, b) ==> Lexes(p + q, a + b)
    ensures LexesAlways(q, b) ==> LexesAlways(p + q, a + b)
  {
    hide Lex, Prepend;
    forall rest
      ensures Lex(q + rest) == Prepend(b, Lex(rest)) ==> Lex(p + q + rest) == Prepend(a + b, Lex(rest))
    {
      assert p + q + rest == p + (q + rest);
      PrependTwice(a, b, Lex(rest));
    }
  }

  lemma AlwaysLexes(p: string, a: seq<Token>)
    requires LexesAlways(p, a)
    ensures Lexes(p, a)
  {
    hide Lex, Prepend;
  }

  /** A piece that may be followed by anything, followed by any piece. */
  lemma AlwaysThen(p: string, a: seq<Token>, q: string, b: seq<Token>)
    requires LexesAlways(p, a)
    ensures Lexes(q, b) ==> Lexes(p + q, a + b)
    ensures LexesAlways(q, b) ==> LexesAlways(p + q, a + b)
  {
    hide Lex, Prepend;
    forall rest
      ensures Lex(q + rest) == Prepend(b, Lex(rest)) ==> Lex(p + q + rest) == Prepend(a + b, Lex(rest))
    {
      assert p + q + rest == p + (q + rest);
      PrependTwice(a, b, Lex(rest));
    }
  }

  lemma Symbol(c: char, tok: Token)
    requires (c, tok) in [('(', LParen), (')', RParen), (',', Comma)]
    ensures LexesAlways([c], [tok])
  {
    forall rest
      ensures Lex([c] + rest) == Prepend([tok], Lex(rest))
    {
      LexSymbol(c, tok, rest);
    }
  }

  lemma Space()
    ensures LexesAlways(" ", [])
  {
    forall rest
      ensures Lex(" " + rest) == Prepend([], Lex(rest))
    {
      LexSpace(rest);
      PrependEmpty(Lex(rest));
    }
  }

  lemma Keyword(w: string)
    requires w != "" && forall i :: 0 <= i < |w| ==> IsLetter(w[i])
    ensures Lexes(w, [Word(w)])
    ensures Lexes(" " + w, [Word(w)])
  {
    forall rest | Clean(rest)
      ensures Lex(w + rest) == Prepend([Word(w)], Lex(rest))
      ensures Lex(" " + w + rest) == Prepend([Word(w)], Lex(rest))
    {
      LexWord(w, rest);
      LexKeyword(w, rest);
    }
  }

  lemma Operator(op: CmpOp)
    requires OpText(op).Some?
    ensures LexesAlways(" " + OpText(op).value + " ", [OpTok(op)])
  {
    forall rest
      ensures Lex(" " + OpText(op).value + " " + rest) == Prepend([OpTok(op)], Lex(rest))
    {
      LexOp(op, rest);
    }
  }

  lemma TwoKeywords(u: string, v: string)
    requires u != "" && forall i :: 0 <= i < |u| ==> IsLetter(u[i])
    requires v != "" && forall i :: 0 <= i < |v| ==> IsLetter(v[i])
    ensures Lexes(" " + u + (" " + v), [Word(u), Word(v)])
  {
    Keyword(u);
    Keyword(v);
    Then(" " + u, [Word(u)], " " + v, [Word(v)]);
    assert [Word(u)] + [Word(v)] == [Word(u), Word(v)];
  }

  lemma NullSuffix(neg: bool)
    ensures Lexes(if neg then " IS NOT NULL" else " IS NULL", NullWords(neg))
  {
    if neg {
      Keyword("IS");
      TwoKeywords("NOT", "NULL");
      var tail := " " + "NOT" + (" " + "NULL");
      Then(" " + "IS", [Word("IS")], tail, [Word("NOT"), Word("NULL")]);
      assert " IS NOT NULL" == " " + "IS" + tail;
      assert [Word("IS")] + [Word("NOT"), Word("NULL")] == NullWords(true);
    } else {
      TwoKeywords("IS", "NULL");
      assert " IS NULL" == " " + "IS" + (" " + "NULL");
    }
  }

  lemma OpenList(p: string, a: seq<Token>)
    requires Lexes(p, a)
    ensures LexesAlways(p + (" " + "("), a + [LParen])
  {
    Space();
    Symbol('(', LParen);
    AlwaysThen(" ", [], "(", [LParen]);
    assert [] + [LParen] == [LParen];
    Then(p, a, " " + "(", [LParen]);
  }

  lemma InPrefix(neg: bool)
    ensures LexesAlways(if neg then " NOT IN (" else " IN (", InWords(neg))
  {
    if neg {
      TwoKeywords("NOT", "IN");
      OpenList(" " + "NOT" + (" " + "IN"), [Word("NOT"), Word("IN")]);
      assert " NOT IN (" == " " + "NOT" + (" " + "IN") + (" " + "(");
      assert [Word("NOT"), Word("IN")] + [LParen] == InWords(true);
    } else {
      Keyword("IN");
      OpenList(" " + "IN", [Word("IN")]);
      assert " IN (" == " " + "IN" + (" " + "(");
      assert [Word("IN")] + [LParen] == InWords(false);
    }
  }

  lemma LeftPrefix()
    ensures LexesAlways("LEFT(", [Word("LEFT"), LParen])
  {
    hide Lex, Prepend;
    forall rest
      ensures Lex("LEFT(" + rest) == Prepend([Word("LEFT"), LParen], Lex(rest))
    {
      LexSymbol('(', LParen, rest);
      LexWord("LEFT", "(" + rest);
      assert "LEFT(" + rest == "LEFT" + ("(" + rest);
      PrependTwice([Word("LEFT")], [LParen], Lex(rest));
      assert [Word("LEFT")] + [LParen] == [Word("LEFT"), LParen];
    }
  }

  lemma Separator(sep: string, tok: Token)
    requires (sep, tok) in [(", ", Comma), (" AND ", Word("AND")), (" OR ", Word("OR"))]
    ensures LexesAlways(sep, [tok])
  {
    Space();
    if tok.Comma? {
      Symbol(',', Comma);
      AlwaysThen(",", [Comma], " ", []);
      assert "," + " " == sep;
    } else {
      Keyword(tok.w);
      Then(" " + tok.w, [tok], " ", []);
      assert " " + tok.w + " " == sep;
    }
    assert [tok] + [] == [tok];
  }

  // ----- trees -----

  /** The text of a tree yields exactly the tree's tokens. */
  lemma {:induction false} LexTree(t: Tree)
    requires Spellable(t)
    ensures Lexes(Spell(t), Tokens(t))
    decreases t, 1
  {
    match t
    case Ident(name) =>
      forall rest | Clean(rest)
        ensures Lex(Spell(t) + rest) == Prepend(Tokens(t), Lex(rest))
      {
        LexQuoted(name, '"', rest);
      }
    case Lit(v) => LexLit(v);
    case LeftCall(arg, n) =>
      LexTree(arg);
      LexInt(n);
      LexLeftCall(Spell(arg), Tokens(arg), IntText(n), n);
    case Paren(inner) =>
      LexTree(inner);
      LexParen(Spell(inner), Tokens(inner));
    case CmpT(op, l, r) =>
      LexTree(l);
      LexTree(r);
      LexCmp(Spell(l), Tokens(l), op, Spell(r), Tokens(r));
    case NullTest(neg, arg) =>
      LexTree(arg);
      NullSuffix(neg);
      Then(Spell(arg), Tokens(arg), if neg then " IS NOT NULL" else " IS NULL", NullWords(neg));
    case InList(neg, probe, items) =>
      LexTree(probe);
      LexJoin(items, ", ", Comma);
      LexIn(Spell(probe), Tokens(probe), neg, Join(SpellAll(items), ", "), TokensJoin(items, Comma));
    case AndT(children) => LexJoin(children, " AND ", Word("AND"));
    case OrT(children) => LexJoin(children, " OR ", Word("OR"));
  }

  lemma LexParen(p: string, a: seq<Token>)
    requires Lexes(p, a)
    ensures Lexes("(" + p + ")", [LParen] + a + [RParen])
  {
    hide Lexes, LexesAlways, Lex, Prepend, Tokens, Spell;
    Symbol('(', LParen);
    Symbol(')', RParen);
    Then(p, a, ")", [RParen]);
    AlwaysThen("(", [LParen], p + ")", a + [RParen]);
    AlwaysLexes("(" + (p + ")"), [LParen] + (a + [RParen]));
    assert "(" + (p + ")") == "(" + p + ")";
    assert [LParen] + (a + [RParen]) == [LParen] + a + [RParen];
  }

  lemma LexCmp(p: string, a: seq<Token>, op: CmpOp, q: string, b: seq<Token>)
    requires OpText(op).Some? && Lexes(p, a) && Lexes(q, b)
    ensures Lexes(p + " " + OpText(op).value + " " + q, a + [OpTok(op)] + b)
  {
    hide Lexes, LexesAlways, Lex, Prepend, Tokens, Spell;
    var o := " " + OpText(op).value + " ";
    Operator(op);
    AlwaysThen(o, [OpTok(op)], q, b);
    Then(p, a, o + q, [OpTok(op)] + b);
    assert p + (o + q) == p + " " + OpText(op).value + " " + q;
    assert a + ([OpTok(op)] + b) == a + [OpTok(op)] + b;
  }

  lemma LexLeftCall(p: string, a: seq<Token>, k: string, n: nat)
    requires Lexes(p, a) && Lexes(k, [Num(n)])
    ensures Lexes("LEFT(" + p + ", " + k + ")", [Word("LEFT"), LParen] + a + [Comma, Num(n), RParen])
  {
    hide Lexes, LexesAlways, Lex, Prepend, Tokens, Spell;
    LeftPrefix();
    Separator(", ", Comma);
    Symbol(')', RParen);
    Then(k, [Num(n)], ")", [RParen]);
    AlwaysLexes(k + ")", [Num(n)] + [RParen]);
    LexCommaTail(p, a, k + ")", [Num(n)] + [RParen]);
    var q := p + (", " + (k + ")"));
    var b := a + ([Comma] + ([Num(n)] + [RParen]));
    AlwaysThen("LEFT(", [Word("LEFT"), LParen], q, b);
    assert "LEFT(" + q == "LEFT(" + p + ", " + k + ")";
    assert [Word("LEFT"), LParen] + b == [Word("LEFT"), LParen] + a + [Comma, Num(n), RParen];
  }

  lemma LexCommaTail(p: string, a: seq<Token>, q: string, b: seq<Token>)
    requires Lexes(p, a) && Lexes(q, b)
    ensures Lexes(p + (", " + q), a + ([Comma] + b))
  {
    hide Lexes, LexesAlways, Lex, Prepend, Tokens, Spell;
    Separator(", ", Comma);
    AlwaysThen(", ", [Comma], q, b);
    Then(p, a, ", " + q, [Comma] + b);
  }

  lemma LexIn(p: string, a: seq<Token>, neg: bool, list: string, items: seq<Token>)
    requires Lexes(p, a) && Lexes(list, items)
    ensures Lexes(p + (if neg then " NOT IN (" else " IN (") + list + ")", a + InWords(neg) + items + [RParen])
  {
    hide Lexes, LexesAlways, Lex, Prepend, Tokens, Spell;
    var words := if neg then " NOT IN (" else " IN (";
    Symbol(')', RParen);
    Then(list, items, ")", [RParen]);
    InPrefix(neg);
    AlwaysThen(words, InWords(neg), list + ")", items + [RParen]);
    Then(p, a, words + (list + ")"), InWords(neg) + (items + [RParen]));
    AlwaysLexes(p + (words + (list + ")")), a + (InWords(neg) + (items + [RParen])));
    assert p + (words + (list + ")")) == p + words + list + ")";
    assert a + (InWords(neg) + (items + [RParen])) == a + InWords(neg) + items + [RParen];
  }

  lemma {:induction false} LexJoin(ts: seq<Tree>, sep: string, tok: Token)
    requires (sep, tok) in [(", ", Comma), (" AND ", Word("AND")), (" OR ", Word("OR"))]
    requires forall i :: 0 <= i < |ts| ==> Spellable(ts[i])
    ensures Lexes(Join(SpellAll(ts), sep), TokensJoin(ts, tok))
    decreases ts, 0
  {
    if ts == [] {
      forall rest
        ensures Lex("" + rest) == Prepend([], Lex(rest))
      {
        assert "" + rest == rest;
        PrependEmpty(Lex(rest));
      }
    } else {
      LexTree(ts[0]);
      if |ts| > 1 {
        assert SpellAll(ts)[1..] == SpellAll(ts[1..]);
        LexJoin(ts[1..], sep, tok);
        LexJoined(Spell(ts[0]), Tokens(ts[0]), sep, tok, Join(SpellAll(ts[1..]), sep), TokensJoin(ts[1..], tok));
      }
    }
  }

  lemma LexJoined(p: string, a: seq<Token>, sep: string, tok: Token, q: string, b: seq<Token>)
    requires (sep, tok) in [(", ", Comma), (" AND ", Word("AND")), (" OR ", Word("OR"))]
    requires Lexes(p, a) && Lexes(q, b)
    ensures Lexes(p + sep + q, a + [tok] + b)
  {
    hide Lexes, LexesAlways, Lex, Prepend, Tokens, Spell;
    Separator(sep, tok);
    AlwaysThen(sep, [tok], q, b);
    Then(p, a, sep + q, [tok] + b);
    assert p + (sep + q) == p + sep + q;
    assert a + ([tok] + b) == a + [tok] + b;
  }

  /** For every identifier and text literal, the whole text of a tree splits into its tokens. */
  lemma LexSpell(t: Tree)
    requires Spellable(t)
    ensures Lex(Spell(t)) == Some(Tokens(t))
  {
    LexTree(t);
    assert Lex(Spell(t) + "") == Prepend(Tokens(t), Lex(""));
    assert Spell(t) + "" == Spell(t);
    assert Tokens(t) + [] == Tokens(t);
  }
}
