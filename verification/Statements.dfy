/**
 * The statements a scan sends, read back: what names they select, from which table, under which condition
 * and how many rows at most. The reader is built on the lexer and the parser of conditions.
 */
module Statements {
  import opened Wrappers
  import opened DbisamSql
  import opened DbisamLexing
  import opened DbisamParsing

  /** A SELECT over one table; no condition is no WHERE clause, a cap of zero no TOP. */
  datatype Statement = Statement(columns: seq<string>, table: string, condition: Option<Tree>, top: nat)

  // ----- the reader -----

  /** One or more quoted names with commas between them. */
  function ReadNames(ts: seq<Token>): (r: Option<(seq<string>, seq<Token>)>)
    ensures r.Some? ==> |r.value.1| < |ts| && r.value.0 != []
  {
    if ts == [] || !ts[0].Quoted? then None
    else if |ts| > 1 && ts[1] == Comma then
      var (names, rest) :- ReadNames(ts[2..]);
      Some(([ts[0].name] + names, rest))
    else Some(([ts[0].name], ts[1..]))
  }

  function ReadWhere(ts: seq<Token>): Option<(Option<Tree>, seq<Token>)> {
    if ts != [] && ts[0] == Word("WHERE") then
      var (condition, rest) :- ParseOr(ts[1..]);
      Some((Some(condition), rest))
    else Some((None, ts))
  }

  function ReadTop(ts: seq<Token>): Option<nat> {
    if ts == [] then Some(0)
    else if |ts| == 2 && ts[0] == Word("TOP") && ts[1].Num? && ts[1].i > 0 then Some(ts[1].i)
    else None
  }

  function ReadTokens(ts: seq<Token>): Option<Statement> {
    if ts == [] || ts[0] != Word("SELECT") then None
    else
      var (names, rest) :- ReadNames(ts[1..]);
      if |rest| < 2 || rest[0] != Word("FROM") || !rest[1].Quoted? then None
      else
        var (condition, after) :- ReadWhere(rest[2..]);
        var top :- ReadTop(after);
        Some(Statement(names, rest[1].name, condition, top))
  }

  function ReadStatement(sql: string): Option<Statement> {
    var ts :- Lex(sql);
    ReadTokens(ts)
  }

  // ----- the tokens of a statement -----

  function Idents(names: seq<string>): (ts: seq<Tree>)
    ensures |ts| == |names| && forall i :: 0 <= i < |names| ==> ts[i] == Ident(names[i])
  {
    seq(|names|, i requires 0 <= i < |names| => Ident(names[i]))
  }

  function WhereTokens(condition: Option<Tree>): seq<Token> {
    if condition.None? then [] else [Word("WHERE")] + Tokens(condition.value)
  }

  function TopTokens(top: nat): seq<Token> {
    if top == 0 then [] else [Word("TOP"), Num(top)]
  }

  function StatementTokens(st: Statement): seq<Token> {
    [Word("SELECT")] + TokensJoin(Idents(st.columns), Comma) + [Word("FROM"), Quoted(st.table)]
    + WhereTokens(st.condition) + TopTokens(st.top)
  }

  /** One step of the reader. */
  lemma NameRead(name: string, rest: seq<Token>)
    ensures rest == [] || rest[0] != Comma ==> ReadNames([Quoted(name)] + rest) == Some(([name], rest))
    ensures ReadNames([Quoted(name), Comma] + rest)
         == if ReadNames(rest).None? then None else Some(([name] + ReadNames(rest).value.0, ReadNames(rest).value.1))
  {
    var last, more := [Quoted(name)] + rest, [Quoted(name), Comma] + rest;
    assert last[1..] == rest && more[2..] == rest;
  }

  lemma {:induction false} NamesRead(names: seq<string>, rest: seq<Token>)
    requires names != [] && (rest == [] || rest[0] != Comma)
    ensures ReadNames(TokensJoin(Idents(names), Comma) + rest) == Some((names, rest))
    decreases |names|
  {
    hide ReadNames, TokensJoin, Idents;
    NamesTokens(names);
    if |names| == 1 {
      assert names == [names[0]];
      NameRead(names[0], rest);
    } else {
      var tail := TokensJoin(Idents(names[1..]), Comma);
      assert [Quoted(names[0]), Comma] + tail + rest == [Quoted(names[0]), Comma] + (tail + rest);
      NameRead(names[0], tail + rest);
      NamesRead(names[1..], rest);
      assert names == [names[0]] + names[1..];
    }
  }

  lemma NamesTokens(names: seq<string>)
    requires names != []
    ensures TokensJoin(Idents(names), Comma)
         == if |names| == 1 then [Quoted(names[0])] else [Quoted(names[0]), Comma] + TokensJoin(Idents(names[1..]), Comma)
  {
    assert Tokens(Ident(names[0])) == [Quoted(names[0])];
    assert Idents(names)[1..] == Idents(names[1..]);
  }

  lemma WhereRead(condition: Option<Tree>, top: nat)
    requires condition.Some? ==> Shaped(condition.value) && Spellable(condition.value)
    ensures ReadWhere(WhereTokens(condition) + TopTokens(top))
         == if condition.Some? && !Complete(condition.value) then None else Some((condition, TopTokens(top)))
  {
    hide Tokens, Shaped, Spellable, Complete, ParseOr, Level;
    var ts := WhereTokens(condition) + TopTokens(top);
    if condition.Some? {
      var t := condition.value;
      assert ts[1..] == Tokens(t) + TopTokens(top);
      LevelAtMost(t);
      OrParses(t, TopTokens(top));
    } else {
      assert ts == TopTokens(top);
    }
  }

  lemma TopRead(top: nat)
    ensures ReadTop(TopTokens(top)) == Some(top)
  {
  }

  /** Reading the tokens of a statement gives the statement back, unless a connective of its condition is empty. */
  lemma TokensRead(st: Statement)
    requires st.columns != []
    requires st.condition.Some? ==> Shaped(st.condition.value) && Spellable(st.condition.value)
    ensures ReadTokens(StatementTokens(st)) == if st.condition.Some? && !Complete(st.condition.value) then None else Some(st)
  {
    hide Tokens, TokensJoin, Shaped, Spellable, Complete, WhereTokens, TopTokens, ReadWhere, ReadTop, ReadNames;
    var after := WhereTokens(st.condition) + TopTokens(st.top);
    var rest := [Word("FROM"), Quoted(st.table)] + after;
    var ts := StatementTokens(st);
    assert ts[0] == Word("SELECT") && ts[1..] == TokensJoin(Idents(st.columns), Comma) + rest;
    NamesRead(st.columns, rest);
    assert rest[2..] == after;
    WhereRead(st.condition, st.top);
    TopRead(st.top);
  }

  lemma LevelAtMost(t: Tree)
    ensures Level(t) <= 3
  {
  }

  // ----- the text of a statement -----

  function WhereText(condition: Option<Tree>): string {
    if condition.None? then "" else " WHERE " + Spell(condition.value)
  }

  function TopText(top: nat): string {
    if top == 0 then "" else " TOP " + Digits(top)
  }

  lemma LexWhere(condition: Option<Tree>)
    requires condition.Some? ==> Spellable(condition.value)
    ensures Lexes(WhereText(condition), WhereTokens(condition))
  {
    hide Lex, Prepend, Spell, Tokens;
    Nothing();
    if condition.Some? {
      Keyword("WHERE");
      Space();
      Then(" " + "WHERE", [Word("WHERE")], " ", []);
      LexTree(condition.value);
      AlwaysThen(" " + "WHERE" + " ", [Word("WHERE")] + [], Spell(condition.value), Tokens(condition.value));
      assert " " + "WHERE" + " " == " WHERE ";
      assert [Word("WHERE")] + [] + Tokens(condition.value) == WhereTokens(condition);
    }
  }

  lemma LexTop(top: nat)
    ensures Lexes(TopText(top), TopTokens(top))
  {
    hide Lex, Prepend, Digits;
    Nothing();
    if top > 0 {
      Keyword("TOP");
      Space();
      Then(" " + "TOP", [Word("TOP")], " ", []);
      LexInt(top);
      AlwaysThen(" " + "TOP" + " ", [Word("TOP")] + [], Digits(top), [Num(top)]);
      assert " " + "TOP" + " " == " TOP ";
      assert [Word("TOP")] + [] + [Num(top)] == TopTokens(top);
    }
  }

  lemma Nothing()
    ensures Lexes("", [])
  {
    forall rest
      ensures Lex("" + rest) == Prepend([], Lex(rest))
    {
      assert "" + rest == rest;
      PrependEmpty(Lex(rest));
    }
  }

  lemma LexSelect(names: seq<string>)
    ensures Lexes("SELECT " + Join(SpellAll(Idents(names)), ", "), [Word("SELECT")] + TokensJoin(Idents(names), Comma))
  {
    hide Lex, Prepend, Spell, Tokens, Join;
    Keyword("SELECT");
    Space();
    Then("SELECT", [Word("SELECT")], " ", []);
    LexJoin(Idents(names), ", ", Comma);
    AlwaysThen("SELECT" + " ", [Word("SELECT")] + [], Join(SpellAll(Idents(names)), ", "), TokensJoin(Idents(names), Comma));
    assert "SELECT" + " " == "SELECT ";
    assert [Word("SELECT")] + [] == [Word("SELECT")];
  }

  lemma LexFrom(table: string)
    ensures Lexes(" FROM " + Enclosed(table, '"'), [Word("FROM"), Quoted(table)])
  {
    hide Lex, Prepend;
    Keyword("FROM");
    Space();
    Then(" " + "FROM", [Word("FROM")], " ", []);
    LexTree(Ident(table));
    AlwaysThen(" " + "FROM" + " ", [Word("FROM")] + [], Enclosed(table, '"'), [Quoted(table)]);
    assert " " + "FROM" + " " == " FROM ";
    assert [Word("FROM")] + [] + [Quoted(table)] == [Word("FROM"), Quoted(table)];
  }

  function StatementText(st: Statement): string {
    "SELECT " + Join(SpellAll(Idents(st.columns)), ", ") + " FROM " + Enclosed(st.table, '"') + WhereText(st.condition) + TopText(st.top)
  }

  lemma CleanParts(st: Statement)
    ensures Clean(" FROM " + Enclosed(st.table, '"')) && Clean(WhereText(st.condition)) && Clean(TopText(st.top))
    ensures WhereText(st.condition) == "" ==> WhereTokens(st.condition) == []
    ensures TopText(st.top) == "" ==> TopTokens(st.top) == []
  {
  }

  /** Two pieces, the second of which starts cleanly or is empty. */
  lemma Followed(p: string, a: seq<Token>, q: string, b: seq<Token>)
    requires Lexes(p, a) && Lexes(q, b) && Clean(q) && (q == "" ==> b == [])
    ensures Lexes(p + q, a + b)
  {
    hide Lex, Prepend;
    if q == "" {
      assert p + q == p && a + b == a;
    } else {
      Then(p, a, q, b);
    }
  }

  /**
   * The reader undoes the writing: for all names, every table, condition and cap, the text of a statement is
   * read back as exactly that statement; with an empty connective in its condition it is not read at all.
   */
  lemma StatementReads(st: Statement)
    requires st.columns != []
    requires st.condition.Some? ==> Shaped(st.condition.value) && Spellable(st.condition.value)
    ensures ReadStatement(StatementText(st)) == if st.condition.Some? && !Complete(st.condition.value) then None else Some(st)
  {
    hide Prepend, Lexes, ReadTokens, Shaped, Spellable, Complete, Enclosed, TokensJoin, Clean, Join, Idents, SpellAll;
    hide Lex, WhereText, WhereTokens, TopText, TopTokens;
    LexSelect(st.columns);
    LexFrom(st.table);
    LexWhere(st.condition);
    LexTop(st.top);
    CleanParts(st);
    var (p, a) := ("SELECT " + Join(SpellAll(Idents(st.columns)), ", "), [Word("SELECT")] + TokensJoin(Idents(st.columns), Comma));
    var (q, b) := (" FROM " + Enclosed(st.table, '"'), [Word("FROM"), Quoted(st.table)]);
    Followed(p, a, q, b);
    Followed(p + q, a + b, WhereText(st.condition), WhereTokens(st.condition));
    Followed(p + q + WhereText(st.condition), a + b + WhereTokens(st.condition), TopText(st.top), TopTokens(st.top));
    assert StatementText(st) == p + q + WhereText(st.condition) + TopText(st.top);
    assert StatementTokens(st) == a + b + WhereTokens(st.condition) + TopTokens(st.top);
    WholeText(StatementText(st), StatementTokens(st));
    TokensRead(st);
  }

  lemma WholeText(s: string, ts: seq<Token>)
    requires Lexes(s, ts)
    ensures Lex(s) == Some(ts)
  {
    assert Lex(s + "") == Prepend(ts, Lex(""));
    assert s + "" == s && ts + [] == ts;
  }

  // ----- counting -----

  const COUNT_PREFIX := "SELECT COUNT(*) FROM "

  /** The table a COUNT statement counts. */
  function ReadCount(sql: string): Option<string> {
    if COUNT_PREFIX <= sql then
      var ts :- Lex(sql[|COUNT_PREFIX|..]);
      if |ts| == 1 && ts[0].Quoted? then Some(ts[0].name) else None
    else None
  }

  lemma CountReads(table: string)
    ensures ReadCount("SELECT COUNT(*) FROM " + Enclosed(table, '"')) == Some(table)
  {
    hide Lex;
    var sql := "SELECT COUNT(*) FROM " + Enclosed(table, '"');
    assert sql[|COUNT_PREFIX|..] == Enclosed(table, '"');
    LexSpell(Ident(table));
  }
}
