/**
 * The fragment of DBISAM's SQL dialect the renderer emits: its condition trees, how a tree is
 * spelled, and a lexer and parser (AND binds tighter than OR, doubled quotes stand for one).
 */
module DbisamSql {
  import opened Wrappers
  import opened Bytes
  import opened FilterAst

  /** A condition, with the parentheses of its text kept as nodes of their own. */
  datatype Tree =
    | Ident(name: string)
    | Lit(v: Value)
    | LeftCall(arg: Tree, n: nat)
    | Paren(inner: Tree)
    | CmpT(op: CmpOp, left: Tree, right: Tree)
    | NullTest(negated: bool, arg: Tree)
    | InList(negated: bool, probe: Tree, items: seq<Tree>)
    | AndT(children: seq<Tree>)
    | OrT(children: seq<Tree>)

  // ----- spelling -----

  function Join(texts: seq<string>, sep: string): string {
    if texts == [] then ""
    else if |texts| == 1 then texts[0]
    else texts[0] + sep + Join(texts[1..], sep)
  }

  /** Appending one more text, as the rendering loops do. */
  lemma {:induction false} JoinSnoc(texts: seq<string>, t: string, sep: string)
    ensures Join(texts + [t], sep) == if texts == [] then t else Join(texts, sep) + sep + t
  {
    if |texts| > 0 {
      JoinSnoc(texts[1..], t, sep);
      assert (texts + [t])[1..] == texts[1..] + [t];
    }
  }

  function Doubled(s: string, quote: char): string {
    if s == "" then "" else (if s[0] == quote then [quote, quote] else [s[0]]) + Doubled(s[1..], quote)
  }

  function Enclosed(s: string, quote: char): string {
    [quote] + Doubled(s, quote) + [quote]
  }

  function DigitChar(d: nat): (c: char)
    requires d < 10
    ensures IsDigit(c) && DigitValue(c) == d
  {
    ('0' as int + d) as char
  }

  function Digits(n: nat): (s: string)
    ensures s != ""
  {
    if n < 10 then [DigitChar(n)] else Digits(n / 10) + [DigitChar(n % 10)]
  }

  function IntText(i: int): string {
    if i < 0 then "-" + Digits(-i) else Digits(i)
  }

  /** The DBISAM spelling of a comparison; none for the null-safe ones. */
  function OpText(op: CmpOp): (r: Option<string>)
    ensures r.Some? <==> op != DistinctFrom && op != NotDistinctFrom
  {
    match op
    case Eq => Some("=")
    case Ne => Some("<>")
    case Lt => Some("<")
    case Gt => Some(">")
    case Le => Some("<=")
    case Ge => Some(">=")
    case _ => None
  }

  function ValueText(v: Value): (r: Option<string>)
    ensures r.Some? <==> v.Bool? || v.Int? || v.Text?
  {
    match v
    case Bool(b) => Some(if b then "TRUE" else "FALSE")
    case Int(i) => Some(IntText(i))
    case Text(s) => Some(Enclosed(CharsOf(s), '\''))
    case _ => None
  }

  function OrEmpty(text: Option<string>): string {
    if text.Some? then text.value else ""
  }

  /** The text of a tree; a literal or operator DBISAM has no spelling for is left out. */
  function Spell(t: Tree): string
    decreases t, 1
  {
    match t
    case Ident(name) => Enclosed(name, '"')
    case Lit(v) => OrEmpty(ValueText(v))
    case LeftCall(arg, n) => "LEFT(" + Spell(arg) + ", " + IntText(n) + ")"
    case Paren(inner) => "(" + Spell(inner) + ")"
    case CmpT(op, l, r) => Spell(l) + " " + OrEmpty(OpText(op)) + " " + Spell(r)
    case NullTest(neg, arg) => Spell(arg) + (if neg then " IS NOT NULL" else " IS NULL")
    case InList(neg, probe, items) =>
      Spell(probe) + (if neg then " NOT IN (" else " IN (") + Join(SpellAll(items), ", ") + ")"
    case AndT(children) => Join(SpellAll(children), " AND ")
    case OrT(children) => Join(SpellAll(children), " OR ")
  }

  function SpellAll(ts: seq<Tree>): (r: seq<string>)
    ensures |r| == |ts|
    ensures forall i :: 0 <= i < |ts| ==> r[i] == Spell(ts[i])
    decreases ts, 0
  {
    if ts == [] then [] else [Spell(ts[0])] + SpellAll(ts[1..])
  }

  /** Only literals and operators with a DBISAM spelling occur. */
  predicate Spellable(t: Tree) {
    match t
    case Ident(_) => true
    case Lit(v) => ValueText(v).Some?
    case LeftCall(arg, _) => Spellable(arg)
    case Paren(inner) => Spellable(inner)
    case CmpT(op, l, r) => OpText(op).Some? && Spellable(l) && Spellable(r)
    case NullTest(_, arg) => Spellable(arg)
    case InList(_, probe, items) => Spellable(probe) && forall i :: 0 <= i < |items| ==> Spellable(items[i])
    case AndT(children) => forall i :: 0 <= i < |children| ==> Spellable(children[i])
    case OrT(children) => forall i :: 0 <= i < |children| ==> Spellable(children[i])
  }

  // ----- lexer -----

  datatype Token =
    | LParen | RParen | Comma
    | OpTok(op: CmpOp)
    | Word(w: string)
    | Num(i: int)
    | Str(s: string)
    | Quoted(name: string)

  predicate IsDigit(c: char) {
    '0' <= c <= '9'
  }

  predicate IsLetter(c: char) {
    'A' <= c <= 'Z'
  }

  function DigitValue(c: char): nat
    requires IsDigit(c)
  {
    c as int - '0' as int
  }

  function NatValue(s: string): nat
    requires forall i :: 0 <= i < |s| ==> IsDigit(s[i])
  {
    if s == "" then 0 else 10 * NatValue(s[..|s| - 1]) + DigitValue(s[|s| - 1])
  }

  function DigitRun(s: string): (n: nat)
    ensures n <= |s|
    ensures forall i :: 0 <= i < n ==> IsDigit(s[i])
    ensures n < |s| ==> !IsDigit(s[n])
  {
    if s == "" || !IsDigit(s[0]) then 0 else 1 + DigitRun(s[1..])
  }

  function LetterRun(s: string): (n: nat)
    ensures n <= |s|
    ensures forall i :: 0 <= i < n ==> IsLetter(s[i])
    ensures n < |s| ==> !IsLetter(s[n])
  {
    if s == "" || !IsLetter(s[0]) then 0 else 1 + LetterRun(s[1..])
  }

  /** The text up to the first quote that is not doubled, and how many characters that took. */
  function ScanQuoted(s: string, quote: char): (r: Option<(string, nat)>)
    ensures r.Some? ==> 0 < r.value.1 <= |s|
  {
    if s == "" then None
    else if s[0] != quote then
      var (x, n) :- ScanQuoted(s[1..], quote);
      Some(([s[0]] + x, n + 1))
    else if |s| > 1 && s[1] == quote then
      var (x, n) :- ScanQuoted(s[2..], quote);
      Some(([quote] + x, n + 2))
    else Some(("", 1))
  }

  function LexToken(s: string): (r: Option<(Token, nat)>)
    requires s != ""
    ensures r.Some? ==> 0 < r.value.1 <= |s|
  {
    var c := s[0];
    if c == '(' then Some((LParen, 1))
    else if c == ')' then Some((RParen, 1))
    else if c == ',' then Some((Comma, 1))
    else if c == '=' then Some((OpTok(Eq), 1))
    else if c == '<' then
      if |s| > 1 && s[1] == '>' then Some((OpTok(Ne), 2))
      else if |s| > 1 && s[1] == '=' then Some((OpTok(Le), 2))
      else Some((OpTok(Lt), 1))
    else if c == '>' then
      if |s| > 1 && s[1] == '=' then Some((OpTok(Ge), 2)) else Some((OpTok(Gt), 1))
    else if c == '"' then
      var (x, n) :- ScanQuoted(s[1..], '"');
      Some((Quoted(x), n + 1))
    else if c == '\'' then
      var (x, n) :- ScanQuoted(s[1..], '\'');
      Some((Str(x), n + 1))
    else if c == '-' then
      var n := DigitRun(s[1..]);
      if n == 0 then None else Some((Num(-(NatValue(s[1..1 + n]) as int)), n + 1))
    else if IsDigit(c) then
      var n := DigitRun(s);
      Some((Num(NatValue(s[..n])), n))
    else if IsLetter(c) then
      var n := LetterRun(s);
      Some((Word(s[..n]), n))
    else None
  }

  function Lex(s: string): Option<seq<Token>>
    decreases |s|
  {
    if s == "" then Some([])
    else if s[0] == ' ' then Lex(s[1..])
    else
      var (tok, n) :- LexToken(s);
      var rest :- Lex(s[n..]);
      Some([tok] + rest)
  }

  // ----- parser -----

  type Parsed = Option<(Tree, seq<Token>)>

  function ParsePrimary(ts: seq<Token>): (r: Parsed)
    ensures r.Some? ==> |r.value.1| < |ts|
    decreases |ts|, 0
  {
    if ts == [] then None
    else
      match ts[0]
      case Quoted(name) => Some((Ident(name), ts[1..]))
      case Num(i) => Some((Lit(Int(i)), ts[1..]))
      case Str(s) => Some((Lit(Text(BytesOf(s))), ts[1..]))
      case LParen =>
        var (inner, rest) :- ParseOr(ts[1..]);
        if rest != [] && rest[0] == RParen then Some((Paren(inner), rest[1..])) else None
      case Word(w) =>
        if w == "TRUE" then Some((Lit(Bool(true)), ts[1..]))
        else if w == "FALSE" then Some((Lit(Bool(false)), ts[1..]))
        else if w == "LEFT" && |ts| > 1 && ts[1] == LParen then
          var (arg, rest) :- ParseOr(ts[2..]);
          if |rest| > 2 && rest[0] == Comma && rest[1].Num? && rest[1].i >= 0 && rest[2] == RParen
          then Some((LeftCall(arg, rest[1].i), rest[3..]))
          else None
        else None
      case _ => None
  }

  function ParsePred(ts: seq<Token>): (r: Parsed)
    ensures r.Some? ==> |r.value.1| < |ts|
    decreases |ts|, 1
  {
    var (left, rest) :- ParsePrimary(ts);
    if rest != [] && rest[0].OpTok? then
      var (right, rest') :- ParsePrimary(rest[1..]);
      Some((CmpT(rest[0].op, left, right), rest'))
    else if [Word("IS"), Word("NULL")] <= rest then Some((NullTest(false, left), rest[2..]))
    else if [Word("IS"), Word("NOT"), Word("NULL")] <= rest then Some((NullTest(true, left), rest[3..]))
    else if [Word("IN"), LParen] <= rest then
      var (items, rest') :- ParseItems(rest[2..]);
      if rest' != [] && rest'[0] == RParen then Some((InList(false, left, items), rest'[1..])) else None
    else if [Word("NOT"), Word("IN"), LParen] <= rest then
      var (items, rest') :- ParseItems(rest[3..]);
      if rest' != [] && rest'[0] == RParen then Some((InList(true, left, items), rest'[1..])) else None
    else Some((left, rest))
  }

  function ParseItems(ts: seq<Token>): (r: Option<(seq<Tree>, seq<Token>)>)
    ensures r.Some? ==> |r.value.1| < |ts|
    decreases |ts|, 6
  {
    var (x, rest) :- ParseOr(ts);
    if rest != [] && rest[0] == Comma then
      var (xs, rest') :- ParseItems(rest[1..]);
      Some(([x] + xs, rest'))
    else Some(([x], rest))
  }

  function ParseConjuncts(ts: seq<Token>): (r: Option<(seq<Tree>, seq<Token>)>)
    ensures r.Some? ==> |r.value.1| < |ts| && r.value.0 != []
    decreases |ts|, 2
  {
    var (x, rest) :- ParsePred(ts);
    if rest != [] && rest[0] == Word("AND") then
      var (xs, rest') :- ParseConjuncts(rest[1..]);
      Some(([x] + xs, rest'))
    else Some(([x], rest))
  }

  function ParseAnd(ts: seq<Token>): (r: Parsed)
    ensures r.Some? ==> |r.value.1| < |ts|
    decreases |ts|, 3
  {
    var (xs, rest) :- ParseConjuncts(ts);
    Some((if |xs| == 1 then xs[0] else AndT(xs), rest))
  }

  function ParseDisjuncts(ts: seq<Token>): (r: Option<(seq<Tree>, seq<Token>)>)
    ensures r.Some? ==> |r.value.1| < |ts| && r.value.0 != []
    decreases |ts|, 4
  {
    var (x, rest) :- ParseAnd(ts);
    if rest != [] && rest[0] == Word("OR") then
      var (xs, rest') :- ParseDisjuncts(rest[1..]);
      Some(([x] + xs, rest'))
    else Some(([x], rest))
  }

  function ParseOr(ts: seq<Token>): (r: Parsed)
    ensures r.Some? ==> |r.value.1| < |ts|
    decreases |ts|, 5
  {
    var (xs, rest) :- ParseDisjuncts(ts);
    Some((if |xs| == 1 then xs[0] else OrT(xs), rest))
  }

  /** The condition a whole text denotes, if it is one. */
  function ParseSql(s: string): Option<Tree> {
    var ts :- Lex(s);
    var (t, rest) :- ParseOr(ts);
    if rest == [] then Some(t) else None
  }

  // ----- evaluation under DBISAM's NULL rules -----

  /**
   * What the audit of DBISAM's NULL behaviour leaves open: the outcome of a comparison whose two
   * sides are both NULL. Every theorem below holds for every choice.
   */
  datatype Dialect = Dialect(bothNull: CmpOp -> bool)

  type Row = string -> Value

  /** One NULL side excludes the row, except under <>, where NULL counts as some other value. */
  predicate DbisamCompare(op: CmpOp, l: Value, r: Value, d: Dialect) {
    if l.Null? && r.Null? then d.bothNull(op)
    else if l.Null? || r.Null? then op.Ne?
    else Compare(op, l, r)
  }

  /** DBISAM's LEFT counts bytes of what is stored. */
  function LeftBytes(s: Buffer, n: nat): Buffer {
    if n < |s| then s[..n] else s
  }

  function LeftStored(v: Value, n: nat): Value {
    if v.Text? then Text(LeftBytes(v.s, n)) else v
  }

  /** A row holds stored values: Windows-1252 text, a literal its UTF-8 bytes. DBISAM has two truth values: a condition includes a row or excludes it. */
  function DbisamEval(t: Tree, row: Row, d: Dialect): Value {
    match t
    case Ident(name) => row(name)
    case Lit(v) => v
    case LeftCall(arg, n) => LeftStored(DbisamEval(arg, row, d), n)
    case Paren(inner) => DbisamEval(inner, row, d)
    case CmpT(op, l, r) => Bool(DbisamCompare(op, DbisamEval(l, row, d), DbisamEval(r, row, d), d))
    case NullTest(neg, arg) => Bool(DbisamEval(arg, row, d).Null? != neg)
    case InList(neg, probe, items) =>
      var p := DbisamEval(probe, row, d);
      if p.Null? then Bool(neg)
      else Bool((exists i :: 0 <= i < |items| && DbisamEval(items[i], row, d) == p) != neg)
    case AndT(children) => Bool(forall i :: 0 <= i < |children| ==> IsTrue(DbisamEval(children[i], row, d)))
    case OrT(children) => Bool(exists i :: 0 <= i < |children| && IsTrue(DbisamEval(children[i], row, d)))
  }

  /** Whether a WHERE text includes a row; an unparsable text includes nothing. */
  predicate WhereTrue(sql: string, row: Row, d: Dialect) {
    var t := ParseSql(sql);
    t.Some? && IsTrue(DbisamEval(t.value, row, d))
  }
}
