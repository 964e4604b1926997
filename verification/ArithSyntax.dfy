/** Arithmetic expressions as text, tokens and trees: the lexer of the evaluator, a parser that
    only builds the tree, and the theorem that the parser inverts the printer. */
module ArithSyntax {
  import opened CLong
  import opened Common
  import opened Text

  datatype Infix = Strict(op: BinOp) | AndAnd | OrOr

  /** `=` is Plain; `*=`, `<<=` and the others carry their operator. */
  datatype AssignOp = Plain | Compound(op: BinOp)

  /** End and Bad never stand inside a token list: a list that stops at the end of the text just
      ends, and one that stops at malformed text ends with Bad. */
  datatype Token =
    | End
    | Bad
    | Number(n: Long)
    | Ident(name: string)
    | LParen | RParen | Question | Colon
    | Op(op: Infix)
    | Not | Complement
    | Assign(assign: AssignOp)

  // ---------- lexer ----------

  /** The operator at `i`, longest match first, and its length; length 0 where there is none. */
  function OperatorAt(s: string, i: nat): (r: (Token, nat))
    ensures r.1 <= 3
    ensures r.1 > 0 ==> !r.0.Bad? && !r.0.End? && !r.0.Number? && !r.0.Ident?
    ensures r.1 > 0 ==> i + r.1 <= |s|
  {
    var a, b, c := At(s, i), At(s, i + 1), At(s, i + 2);
    if a == '<' && b == '<' && c == '=' then (Assign(Compound(Shl)), 3)
    else if a == '>' && b == '>' && c == '=' then (Assign(Compound(Shr)), 3)
    else if a == '&' && b == '&' then (Op(AndAnd), 2)
    else if a == '|' && b == '|' then (Op(OrOr), 2)
    else if a == '<' && b == '<' then (Op(Strict(Shl)), 2)
    else if a == '>' && b == '>' then (Op(Strict(Shr)), 2)
    else if a == '<' && b == '=' then (Op(Strict(Le)), 2)
    else if a == '>' && b == '=' then (Op(Strict(Ge)), 2)
    else if a == '=' && b == '=' then (Op(Strict(Eq)), 2)
    else if a == '!' && b == '=' then (Op(Strict(Ne)), 2)
    else if a == '+' && b == '=' then (Assign(Compound(Add)), 2)
    else if a == '-' && b == '=' then (Assign(Compound(Sub)), 2)
    else if a == '*' && b == '=' then (Assign(Compound(Mul)), 2)
    else if a == '/' && b == '=' then (Assign(Compound(Div)), 2)
    else if a == '%' && b == '=' then (Assign(Compound(Mod)), 2)
    else if a == '&' && b == '=' then (Assign(Compound(And)), 2)
    else if a == '^' && b == '=' then (Assign(Compound(Xor)), 2)
    else if a == '|' && b == '=' then (Assign(Compound(Or)), 2)
    else if a == '(' then (LParen, 1)
    else if a == ')' then (RParen, 1)
    else if a == '?' then (Question, 1)
    else if a == ':' then (Colon, 1)
    else if a == '+' then (Op(Strict(Add)), 1)
    else if a == '-' then (Op(Strict(Sub)), 1)
    else if a == '*' then (Op(Strict(Mul)), 1)
    else if a == '/' then (Op(Strict(Div)), 1)
    else if a == '%' then (Op(Strict(Mod)), 1)
    else if a == '<' then (Op(Strict(Lt)), 1)
    else if a == '>' then (Op(Strict(Gt)), 1)
    else if a == '&' then (Op(Strict(And)), 1)
    else if a == '^' then (Op(Strict(Xor)), 1)
    else if a == '|' then (Op(Strict(Or)), 1)
    else if a == '~' then (Complement, 1)
    else if a == '!' then (Not, 1)
    else if a == '=' then (Assign(Plain), 1)
    else (Bad, 0)
  }

  /** One token from position `i`, and the position behind it. */
  function Lex(s: string, i: nat): (r: (Token, nat))
    requires i <= |s|
    ensures i <= r.1 <= |s|
    ensures !r.0.End? && !r.0.Bad? ==> i < r.1
  {
    var j := SpaceEnd(s, i);
    var c := At(s, j);
    if c == '\0' then (End, j)
    else if IsDigit(c) then
      var conversion := Strtol(s, j);
      if conversion.end == j || conversion.range then (Bad, j)
      else (Number(conversion.value), conversion.end)
    else if IsNameStart(c) then
      var e := NameEnd(s, j + 1);
      (Ident(s[j..e]), e)
    else
      var (tok, n) := OperatorAt(s, j);
      if n == 0 then (Bad, j + 1) else (tok, j + n)
  }

  function Tokens(s: string, i: nat): (ts: seq<Token>)
    requires i <= |s|
    ensures forall k :: 0 <= k < |ts| ==> !ts[k].End? && (ts[k].Bad? ==> k == |ts| - 1)
    decreases |s| - i
  {
    var (tok, next) := Lex(s, i);
    match tok
    case End => []
    case Bad => [Bad]
    case _ => [tok] + Tokens(s, next)
  }

  // ---------- trees ----------

  datatype Tree =
    | Literal(n: Long)
    | Name(name: string)
    | Group(inner: Tree)
    | Prefix(uop: UnOp, arg: Tree)
    | Binop(op: Infix, left: Tree, right: Tree)
    | Cond(test: Tree, yes: Tree, no: Tree)
    | Assignment(target: Tree, assign: AssignOp, source: Tree)

  const PRIMARY := 0
  const UNARY := 1
  const LOGICAL_AND := 10
  const LOGICAL_OR := 11
  const CONDITIONAL := 12
  const ASSIGNMENT := 13

  /** The precedence level of an infix operator: 2 (tightest) to 11. */
  function OpLevel(op: Infix): (k: nat)
    ensures 2 <= k <= LOGICAL_OR
    ensures op.Strict? <==> k < LOGICAL_AND
  {
    match op
    case Strict(b) =>
      (match b
       case Mul => 2
       case Div => 2
       case Mod => 2
       case Add => 3
       case Sub => 3
       case Shl => 4
       case Shr => 4
       case Lt => 5
       case Le => 5
       case Gt => 5
       case Ge => 5
       case Eq => 6
       case Ne => 6
       case And => 7
       case Xor => 8
       case Or => 9)
    case AndAnd => LOGICAL_AND
    case OrOr => LOGICAL_OR
  }

  function Level(t: Tree): (k: nat)
    ensures k <= ASSIGNMENT
  {
    match t
    case Literal(_) => PRIMARY
    case Name(_) => PRIMARY
    case Group(_) => PRIMARY
    case Prefix(_, _) => UNARY
    case Binop(op, _, _) => OpLevel(op)
    case Cond(_, _, _) => CONDITIONAL
    case Assignment(_, _, _) => ASSIGNMENT
  }

  /** The trees the grammar can derive: infix operators group to the left, `?:` and assignment to the
      right, and anything looser than its place allows stands in parentheses. */
  predicate Derivable(t: Tree) {
    match t
    case Literal(n) => n >= 0
    case Name(x) => IsName(x)
    case Group(e) => Derivable(e)
    case Prefix(_, e) => Derivable(e) && Level(e) <= UNARY
    case Binop(op, l, r) => Derivable(l) && Derivable(r) && Level(l) <= OpLevel(op) && Level(r) < OpLevel(op)
    case Cond(c, y, n) => Derivable(c) && Derivable(y) && Derivable(n) && Level(c) < CONDITIONAL
        && Level(n) <= CONDITIONAL
    case Assignment(l, a, r) =>
      Derivable(l) && Derivable(r) && Level(l) < ASSIGNMENT && (a.Compound? ==> HasCompound(a.op))
  }

  /** The operators that have a compound assignment form. */
  predicate HasCompound(op: BinOp) {
    op in {Mul, Div, Mod, Add, Sub, Shl, Shr, And, Xor, Or}
  }

  function PrefixToken(op: UnOp): Token {
    match op
    case Plus => Op(Strict(Add))
    case Minus => Op(Strict(Sub))
    case Bang => Not
    case Tilde => Complement
  }

  function TokensOf(t: Tree): (ts: seq<Token>)
    ensures |ts| > 0
    ensures forall k :: 0 <= k < |ts| ==> !ts[k].End? && !ts[k].Bad?
  {
    match t
    case Literal(n) => [Number(n)]
    case Name(x) => [Ident(x)]
    case Group(e) => [LParen] + TokensOf(e) + [RParen]
    case Prefix(op, e) => [PrefixToken(op)] + TokensOf(e)
    case Binop(op, l, r) => TokensOf(l) + [Op(op)] + TokensOf(r)
    case Cond(c, y, n) => TokensOf(c) + [Question] + TokensOf(y) + [Colon] + TokensOf(n)
    case Assignment(l, a, r) => TokensOf(l) + [Assign(a)] + TokensOf(r)
  }

  // ---------- the tree builder ----------

  /** The tokens behind the first one; malformed text right behind it is an error. */
  function Next(ts: seq<Token>): (r: Option<seq<Token>>)
    requires ts != []
  {
    if |ts| > 1 && ts[1].Bad? then None else Some(ts[1..])
  }

  predicate Head(ts: seq<Token>, t: Token) {
    ts != [] && ts[0] == t
  }

  function PrefixOf(t: Token): Option<UnOp> {
    match t
    case Op(op) => if op == Strict(Add) then Some(Plus) else if op == Strict(Sub) then Some(Minus) else None
    case Not => Some(Bang)
    case Complement => Some(Tilde)
    case _ => None
  }

  type Parsed = Option<(Tree, seq<Token>)>

  function Parse(level: nat, ts: seq<Token>): (r: Parsed)
    requires level <= ASSIGNMENT
    ensures r.Some? ==> |r.value.1| < |ts|
    decreases |ts|, level + 1
  {
    if ts == [] then None
    else if level == PRIMARY then
      (match ts[0]
       case Number(n) =>
         var rest :- Next(ts);
         Some((Literal(n), rest))
       case Ident(x) =>
         var rest :- Next(ts);
         Some((Name(x), rest))
       case LParen =>
         var inner :- Next(ts);
         var (e, close) :- Parse(ASSIGNMENT, inner);
         if !Head(close, RParen) then None
         else
           var rest :- Next(close);
           Some((Group(e), rest))
       case _ => None)
    else if level == UNARY then
      if PrefixOf(ts[0]).None? then Parse(PRIMARY, ts)
      else
        var arg :- Next(ts);
        var (e, rest) :- Parse(UNARY, arg);
        Some((Prefix(PrefixOf(ts[0]).value, e), rest))
    else if level <= LOGICAL_OR then
      var (l, rest) :- Parse(level - 1, ts);
      ParseRest(level, l, rest)
    else if level == CONDITIONAL then
      var (c, question) :- Parse(LOGICAL_OR, ts);
      if !Head(question, Question) then Some((c, question))
      else
        var yes :- Next(question);
        var (y, colon) :- Parse(ASSIGNMENT, yes);
        if !Head(colon, Colon) then None
        else
          var no :- Next(colon);
          var (n, rest) :- Parse(CONDITIONAL, no);
          Some((Cond(c, y, n), rest))
    else
      var (l, assign) :- Parse(CONDITIONAL, ts);
      if assign == [] || !assign[0].Assign? then Some((l, assign))
      else
        var source :- Next(assign);
        var (r, rest) :- Parse(ASSIGNMENT, source);
        Some((Assignment(l, assign[0].assign, r), rest))
  }

  predicate AtLevel(level: nat, ts: seq<Token>) {
    ts != [] && ts[0].Op? && OpLevel(ts[0].op) == level
  }

  /** Further operands of a left-associative level. */
  function ParseRest(level: nat, left: Tree, ts: seq<Token>): (r: Parsed)
    requires 2 <= level <= LOGICAL_OR
    ensures r.Some? ==> |r.value.1| <= |ts|
    decreases |ts|, 0
  {
    if !AtLevel(level, ts) then Some((left, ts))
    else
      var operand :- Next(ts);
      var (right, rest) :- Parse(level - 1, operand);
      ParseRest(level, Binop(ts[0].op, left, right), rest)
  }

  /** The tree of a whole expression text, if it is well formed. */
  function ParseText(s: string): Option<Tree> {
    var r := Parse(ASSIGNMENT, Tokens(s, 0));
    if r.Some? && r.value.1 == [] then Some(r.value.0) else None
  }

  // ---------- the builder inverts the printer ----------

  /** `rest` begins with nothing that a parse at `level` would still take. */
  predicate Stops(level: nat, rest: seq<Token>) {
    rest == []
    || (&& !rest[0].Bad?
        && !(rest[0].Op? && OpLevel(rest[0].op) <= level)
        && (level >= CONDITIONAL ==> !rest[0].Question?)
        && (level >= ASSIGNMENT ==> !rest[0].Assign?))
  }

  lemma {:induction false} ParsePrinted(t: Tree, level: nat, rest: seq<Token>)
    requires Derivable(t) && Level(t) <= level <= ASSIGNMENT && Stops(level, rest)
    ensures Parse(level, TokensOf(t) + rest) == Some((t, rest))
    decreases t, level, 1
  {
    if 2 <= level <= LOGICAL_OR {
      ParseSpine(t, level, rest);
    } else if level > Level(t) {
      ParsePrinted(t, level - 1, rest);
      assert level == UNARY ==> PrefixOf((TokensOf(t) + rest)[0]).None?;
    } else {
      match t
      case Literal(_) => assert (TokensOf(t) + rest)[1..] == rest;
      case Name(_) => assert (TokensOf(t) + rest)[1..] == rest;
      case Group(e) => ParseGroup(e, rest);
      case Prefix(op, e) => ParsePrefix(op, e, rest);
      case Binop(_, _, _) => assert false;
      case Cond(_, _, _) => ParseConditional(t, rest);
      case Assignment(_, _, _) => ParseAssignment(t, rest);
    }
  }

  lemma {:induction false} ParseGroup(e: Tree, rest: seq<Token>)
    requires Derivable(e) && Stops(PRIMARY, rest)
    ensures Parse(PRIMARY, TokensOf(Group(e)) + rest) == Some((Group(e), rest))
    decreases Group(e), 0, 0
  {
    var ts := TokensOf(Group(e)) + rest;
    assert ts[1..] == TokensOf(e) + ([RParen] + rest);
    ParsePrinted(e, ASSIGNMENT, [RParen] + rest);
    assert ([RParen] + rest)[1..] == rest;
  }

  lemma {:induction false} ParsePrefix(op: UnOp, e: Tree, rest: seq<Token>)
    requires Derivable(e) && Level(e) <= UNARY && Stops(UNARY, rest)
    ensures Parse(UNARY, TokensOf(Prefix(op, e)) + rest) == Some((Prefix(op, e), rest))
    decreases Prefix(op, e), 0, 0
  {
    var ts := TokensOf(Prefix(op, e)) + rest;
    assert ts[1..] == TokensOf(e) + rest;
    assert PrefixOf(ts[0]) == Some(op);
    ParsePrinted(e, UNARY, rest);
  }

  lemma {:induction false} ParseConditional(t: Tree, rest: seq<Token>)
    requires t.Cond? && Derivable(t) && Stops(CONDITIONAL, rest)
    ensures Parse(CONDITIONAL, TokensOf(t) + rest) == Some((t, rest))
    decreases t, CONDITIONAL, 0
  {
    hide OpLevel, PrefixOf;
    var no := [Colon] + (TokensOf(t.no) + rest);
    var yes := [Question] + (TokensOf(t.yes) + no);
    assert TokensOf(t) + rest == TokensOf(t.test) + yes;
    ParsePrinted(t.test, LOGICAL_OR, yes);
    assert yes[1..] == TokensOf(t.yes) + no;
    ParsePrinted(t.yes, ASSIGNMENT, no);
    assert no[1..] == TokensOf(t.no) + rest;
    ParsePrinted(t.no, CONDITIONAL, rest);
  }

  lemma {:induction false} ParseAssignment(t: Tree, rest: seq<Token>)
    requires t.Assignment? && Derivable(t) && Stops(ASSIGNMENT, rest)
    ensures Parse(ASSIGNMENT, TokensOf(t) + rest) == Some((t, rest))
    decreases t, ASSIGNMENT, 0
  {
    var source := [Assign(t.assign)] + (TokensOf(t.source) + rest);
    assert TokensOf(t) + rest == TokensOf(t.target) + source;
    ParsePrinted(t.target, CONDITIONAL, source);
    assert source[1..] == TokensOf(t.source) + rest;
    ParsePrinted(t.source, ASSIGNMENT, rest);
  }

  /** At a left-associative level, parsing a printed tree is the same as going on behind it. */
  lemma {:induction false} ParseSpine(t: Tree, level: nat, rest: seq<Token>)
    requires Derivable(t) && Level(t) <= level && 2 <= level <= LOGICAL_OR && Stops(level - 1, rest)
    ensures Parse(level, TokensOf(t) + rest) == ParseRest(level, t, rest)
    decreases t, level, 0
  {
    hide Parse, ParseRest, OpLevel, TokensOf;
    if Level(t) < level {
      ParsePrinted(t, level - 1, rest);
      FirstOperand(t, level, rest);
    } else {
      var tail := [Op(t.op)] + (TokensOf(t.right) + rest);
      TokensOfSpine(t, rest);
      ParseSpine(t.left, level, tail);
      ParsePrinted(t.right, level - 1, rest);
      RestTakesOperand(t.left, t.op, t.right, rest);
    }
  }

  lemma FirstOperand(t: Tree, level: nat, rest: seq<Token>)
    requires 2 <= level <= LOGICAL_OR && Parse(level - 1, TokensOf(t) + rest) == Some((t, rest))
    ensures Parse(level, TokensOf(t) + rest) == ParseRest(level, t, rest)
  {
    hide ParseRest, TokensOf;
  }

  lemma TokensOfSpine(t: Tree, rest: seq<Token>)
    requires t.Binop?
    ensures TokensOf(t) + rest == TokensOf(t.left) + ([Op(t.op)] + (TokensOf(t.right) + rest))
  {
  }

  lemma RestTakesOperand(left: Tree, op: Infix, right: Tree, rest: seq<Token>)
    requires Parse(OpLevel(op) - 1, TokensOf(right) + rest) == Some((right, rest))
    ensures ParseRest(OpLevel(op), left, [Op(op)] + (TokensOf(right) + rest))
         == ParseRest(OpLevel(op), Binop(op, left, right), rest)
  {
    hide Parse, TokensOf, OpLevel;
    var ts := [Op(op)] + (TokensOf(right) + rest);
    assert ts[1..] == TokensOf(right) + rest;
    assert !ts[1].Bad?;
  }

  // ---------- the lexer inverts the token printer ----------

  function OpText(op: BinOp): string {
    match op
    case Mul => "*"
    case Div => "/"
    case Mod => "%"
    case Add => "+"
    case Sub => "-"
    case Shl => "<<"
    case Shr => ">>"
    case Lt => "<"
    case Le => "<="
    case Gt => ">"
    case Ge => ">="
    case Eq => "=="
    case Ne => "!="
    case And => "&"
    case Xor => "^"
    case Or => "|"
  }

  predicate Printable(t: Token) {
    match t
    case End => false
    case Bad => false
    case Number(n) => n >= 0
    case Ident(x) => IsName(x)
    case Assign(Compound(op)) => HasCompound(op)
    case _ => true
  }

  predicate AllPrintable(ts: seq<Token>) {
    forall k :: 0 <= k < |ts| ==> Printable(ts[k])
  }

  function TokenText(t: Token): string
    requires Printable(t)
  {
    match t
    case Number(n) => Decimal(n)
    case Ident(x) => x
    case LParen => "("
    case RParen => ")"
    case Question => "?"
    case Colon => ":"
    case Op(Strict(op)) => OpText(op)
    case Op(AndAnd) => "&&"
    case Op(OrOr) => "||"
    case Not => "!"
    case Complement => "~"
    case Assign(Plain) => "="
    case Assign(Compound(op)) => OpText(op) + "="
  }

  /** Each token followed by one blank. */
  function Render(ts: seq<Token>): string
    requires AllPrintable(ts)
  {
    if ts == [] then "" else TokenText(ts[0]) + " " + Render(ts[1..])
  }

  /** The character that follows would be taken with the token: a token ends only in front of another one. */
  predicate Continues(t: Token, c: char)
    requires Printable(t)
  {
    if t.Number? || t.Ident? then IsNameChar(c)
    else
      var text := TokenText(t);
      || (c == '=' && text in ["+", "-", "*", "/", "%", "&", "^", "|", "<", ">", "<<", ">>", "=", "!"])
      || (text == [c] && c in {'<', '>', '&', '|'})
  }

  /** The token stands at `i`, and ends there. */
  predicate TokenAt(t: Token, s: string, i: nat)
    requires Printable(t)
  {
    var e := i + |TokenText(t)|;
    e <= |s| && s[i..e] == TokenText(t) && !Continues(t, At(s, e))
  }

  /** White space and nothing else, or nothing at all. */
  predicate Blanks(s: string, i: nat, j: nat) {
    i <= j <= |s| && forall k :: i <= k < j ==> IsSpace(s[k])
  }

  /** From `i` on, the text spells the tokens: any white space in front of each, or none, and behind the last. */
  ghost predicate Spells(ts: seq<Token>, s: string, i: nat)
    requires AllPrintable(ts)
    decreases |ts|
  {
    if ts == [] then Blanks(s, i, |s|)
    else exists j: nat :: Blanks(s, i, j) && TokenAt(ts[0], s, j) && Spells(ts[1..], s, j + |TokenText(ts[0])|)
  }

  lemma LexOperator(t: Token, s: string, i: nat)
    requires Printable(t) && !t.Number? && !t.Ident? && TokenAt(t, s, i)
    ensures OperatorAt(s, i) == (t, |TokenText(t)|)
    ensures !IsSpace(s[i]) && !IsDigit(s[i]) && !IsNameStart(s[i]) && s[i] != '\0'
  {
    var text := TokenText(t);
    var e := i + |text|;
    assert s[i] == s[i..e][0] == text[0];
    assert |text| > 1 ==> s[i + 1] == s[i..e][1] == text[1];
    assert |text| > 2 ==> s[i + 2] == s[i..e][2] == text[2];
  }

  lemma LexNumber(n: Long, s: string, i: nat)
    requires n >= 0
    requires i + |Decimal(n)| <= |s| && s[i..i + |Decimal(n)|] == Decimal(n)
    requires !IsNameChar(At(s, i + |Decimal(n)|))
    ensures Lex(s, i) == (Number(n), i + |Decimal(n)|)
  {
    hide Decimal, Unsigned, OperatorAt;
    assert s[i] == s[i..i + |Decimal(n)|][0];
    SpaceEndIs(s, i, i);
    UnsignedDecimal(s, i, n);
  }

  lemma LexName(x: string, s: string, i: nat)
    requires IsName(x)
    requires i + |x| <= |s| && s[i..i + |x|] == x && !IsNameChar(At(s, i + |x|))
    ensures Lex(s, i) == (Ident(x), i + |x|)
  {
    hide OperatorAt;
    forall k | i <= k < i + |x| ensures s[k] == x[k - i] {
      assert s[k] == s[i..i + |x|][k - i];
    }
    SpaceEndIs(s, i, i);
    NameEndIs(s, i + 1, i + |x|);
  }

  lemma LexToken(t: Token, s: string, i: nat)
    requires Printable(t) && TokenAt(t, s, i)
    ensures Lex(s, i) == (t, i + |TokenText(t)|)
  {
    match t
    case Number(n) =>
      LexNumber(n, s, i);
    case Ident(x) =>
      LexName(x, s, i);
    case _ =>
      LexOperator(t, s, i);
      SpaceEndIs(s, i, i);
      hide OperatorAt, TokenText;
  }

  lemma LexSkipsBlanks(s: string, i: nat, j: nat)
    requires Blanks(s, i, j)
    ensures Lex(s, i) == Lex(s, j) && Tokens(s, i) == Tokens(s, j)
  {
    SpaceEndIs(s, i, SpaceEnd(s, j));
  }

  /** A token that ends where it stands is the next token. */
  lemma TokensOfFirst(t: Token, s: string, i: nat)
    requires Printable(t) && TokenAt(t, s, i)
    ensures i + |TokenText(t)| <= |s| && Tokens(s, i) == [t] + Tokens(s, i + |TokenText(t)|)
  {
    hide TokenText, Lex;
    LexToken(t, s, i);
    assert !t.End? && !t.Bad?;
  }

  lemma TokensAtEnd(s: string, i: nat)
    requires Blanks(s, i, |s|)
    ensures Tokens(s, i) == []
  {
    SpaceEndIs(s, i, |s|);
  }

  /** However its tokens are spaced, a text is split into just these tokens. */
  lemma {:induction false} SpelledTokens(ts: seq<Token>, s: string, i: nat)
    requires AllPrintable(ts) && i <= |s| && Spells(ts, s, i)
    ensures Tokens(s, i) == ts
    decreases |ts|
  {
    hide Tokens, Lex, Printable, TokenText, TokenAt, Blanks;
    if ts == [] {
      TokensAtEnd(s, i);
    } else {
      var j: nat :| Blanks(s, i, j) && TokenAt(ts[0], s, j) && Spells(ts[1..], s, j + |TokenText(ts[0])|);
      LexSkipsBlanks(s, i, j);
      TokensOfFirst(ts[0], s, j);
      SpelledTokens(ts[1..], s, j + |TokenText(ts[0])|);
      assert [ts[0]] + ts[1..] == ts;
    }
  }

  lemma SplitAtBlank(s: string, i: nat, text: string, rest: string)
    requires i <= |s| && s[i..] == text + " " + rest
    ensures var e := i + |text|; e < |s| && s[i..e] == text && s[e] == ' ' && s[e + 1..] == rest
  {
    var e := i + |text|;
    assert s[i..] == text + (" " + rest);
    assert s[i..e] == s[i..][..|text|] == text;
    assert s[e] == s[i..][|text|] == ' ';
    assert s[e + 1..] == s[i..][|text| + 1..] == rest;
  }

  lemma {:induction false} RenderSpells(ts: seq<Token>, s: string, i: nat)
    requires AllPrintable(ts) && i <= |s| && s[i..] == Render(ts)
    ensures Spells(ts, s, i)
    decreases |ts|
  {
    hide Printable, TokenText;
    if ts != [] {
      SplitAtBlank(s, i, TokenText(ts[0]), Render(ts[1..]));
      var e := i + |TokenText(ts[0])|;
      RenderSpells(ts[1..], s, e + 1);
      SpellsAfterBlank(ts[1..], s, e);
      assert !Continues(ts[0], ' ');
      assert TokenAt(ts[0], s, i);
    }
  }

  lemma SpellsAfterBlank(ts: seq<Token>, s: string, i: nat)
    requires AllPrintable(ts) && i < |s| && IsSpace(s[i]) && Spells(ts, s, i + 1)
    ensures Spells(ts, s, i)
  {
    hide Printable, TokenText;
    if ts != [] {
      var j: nat :| Blanks(s, i + 1, j) && TokenAt(ts[0], s, j) && Spells(ts[1..], s, j + |TokenText(ts[0])|);
      assert Blanks(s, i, j);
    }
  }

  lemma {:induction false} TokensPrintable(t: Tree)
    requires Derivable(t)
    ensures AllPrintable(TokensOf(t))
  {
    match t
    case Literal(_) =>
    case Name(_) =>
    case Group(e) => TokensPrintable(e);
    case Prefix(_, e) => TokensPrintable(e);
    case Binop(_, l, r) => TokensPrintable(l); TokensPrintable(r);
    case Cond(c, y, n) => TokensPrintable(c); TokensPrintable(y); TokensPrintable(n);
    case Assignment(l, _, r) => TokensPrintable(l); TokensPrintable(r);
  }

  function Print(t: Tree): string
    requires Derivable(t)
  {
    TokensPrintable(t);
    Render(TokensOf(t))
  }

  /** Every tree the grammar derives is what a text parses to that spells it, whatever the spacing. */
  lemma ParseUndoesSpelling(t: Tree, s: string)
    requires Derivable(t) && AllPrintable(TokensOf(t)) && Spells(TokensOf(t), s, 0)
    ensures ParseText(s) == Some(t)
  {
    SpelledTokens(TokensOf(t), s, 0);
    ParsePrinted(t, ASSIGNMENT, []);
    assert TokensOf(t) + [] == TokensOf(t);
  }

  lemma ParseUndoesPrint(t: Tree)
    requires Derivable(t)
    ensures ParseText(Print(t)) == Some(t)
  {
    TokensPrintable(t);
    RenderSpells(TokensOf(t), Print(t), 0);
    ParseUndoesSpelling(t, Print(t));
  }

  // ---------- the builder accepts nothing else ----------

  predicate Sound(ts: seq<Token>) {
    forall k :: 0 <= k < |ts| ==> ts[k].Bad? || Printable(ts[k])
  }

  lemma LexSound(s: string, i: nat)
    requires i <= |s|
    ensures var t := Lex(s, i).0; t.End? || t.Bad? || Printable(t)
  {
    var j := SpaceEnd(s, i);
    SpaceEndIs(s, j, j);
  }

  lemma {:induction false} TokensSound(s: string, i: nat)
    requires i <= |s|
    ensures Sound(Tokens(s, i))
    decreases |s| - i
  {
    hide Lex, Printable;
    LexSound(s, i);
    var (t, next) := Lex(s, i);
    if !t.End? && !t.Bad? {
      TokensSound(s, next);
    }
  }

  /** `all` is the print of a tree of that level, followed by the tokens not taken. */
  ghost predicate Printed(level: nat, all: seq<Token>, r: Parsed) {
    r.Some? ==>
      && all == TokensOf(r.value.0) + r.value.1
      && Sound(r.value.1) && Derivable(r.value.0) && Level(r.value.0) <= level
  }

  /** What the builder took is exactly the print of the tree it built, and the tree is derivable at that level. */
  lemma {:induction false} ParsedIsPrinted(level: nat, ts: seq<Token>)
    requires level <= ASSIGNMENT && Sound(ts)
    ensures Printed(level, ts, Parse(level, ts))
    decreases |ts|, 2 * level + 2
  {
    if Parse(level, ts).None? {
    } else if level == PRIMARY {
      PrimaryIsPrinted(ts);
    } else if level == UNARY {
      UnaryIsPrinted(ts);
    } else if level <= LOGICAL_OR {
      ParsedIsPrinted(level - 1, ts);
      var (l, rest) := Parse(level - 1, ts).value;
      RestIsPrinted(level, l, rest);
    } else if level == CONDITIONAL {
      ConditionalIsPrinted(ts);
    } else {
      AssignmentIsPrinted(ts);
    }
  }

  lemma {:induction false} PrimaryIsPrinted(ts: seq<Token>)
    requires Sound(ts) && Parse(PRIMARY, ts).Some?
    ensures Printed(PRIMARY, ts, Parse(PRIMARY, ts))
    decreases |ts|, 1
  {
    assert Printable(ts[0]);
    if ts[0] == LParen {
      ParsedIsPrinted(ASSIGNMENT, ts[1..]);
      var (e, close) := Parse(ASSIGNMENT, ts[1..]).value;
      assert ts == [LParen] + TokensOf(e) + [RParen] + close[1..];
    }
  }

  lemma {:induction false} UnaryIsPrinted(ts: seq<Token>)
    requires Sound(ts) && Parse(UNARY, ts).Some?
    ensures Printed(UNARY, ts, Parse(UNARY, ts))
    decreases |ts|, 2 * UNARY + 1
  {
    if PrefixOf(ts[0]).None? {
      ParsedIsPrinted(PRIMARY, ts);
    } else {
      ParsedIsPrinted(UNARY, ts[1..]);
      assert ts == [ts[0]] + ts[1..];
    }
  }

  lemma {:induction false} ConditionalIsPrinted(ts: seq<Token>)
    requires Sound(ts) && Parse(CONDITIONAL, ts).Some?
    ensures Printed(CONDITIONAL, ts, Parse(CONDITIONAL, ts))
    decreases |ts|, 2 * CONDITIONAL + 1
  {
    ParsedIsPrinted(LOGICAL_OR, ts);
    var (c, question) := Parse(LOGICAL_OR, ts).value;
    if Head(question, Question) {
      ParsedIsPrinted(ASSIGNMENT, question[1..]);
      var (y, colon) := Parse(ASSIGNMENT, question[1..]).value;
      ParsedIsPrinted(CONDITIONAL, colon[1..]);
      var (n, rest) := Parse(CONDITIONAL, colon[1..]).value;
      ConditionalTokens(c, y, n, ts, question, colon, rest);
    }
  }

  lemma ConditionalTokens(c: Tree, y: Tree, n: Tree, ts: seq<Token>, question: seq<Token>, colon: seq<Token>,
                          rest: seq<Token>)
    requires ts == TokensOf(c) + question
    requires Head(question, Question) && question[1..] == TokensOf(y) + colon
    requires Head(colon, Colon) && colon[1..] == TokensOf(n) + rest
    ensures ts == TokensOf(Cond(c, y, n)) + rest
  {
    assert question == [Question] + question[1..] && colon == [Colon] + colon[1..];
    assert TokensOf(Cond(c, y, n)) == TokensOf(c) + [Question] + TokensOf(y) + [Colon] + TokensOf(n);
    hide *;
    FiveParts(TokensOf(c), [Question], TokensOf(y), [Colon], TokensOf(n), rest);
  }

  lemma FiveParts<T>(a: seq<T>, b: seq<T>, c: seq<T>, d: seq<T>, e: seq<T>, rest: seq<T>)
    ensures a + (b + (c + (d + (e + rest)))) == a + b + c + d + e + rest
  {
  }

  lemma {:induction false} AssignmentIsPrinted(ts: seq<Token>)
    requires Sound(ts) && Parse(ASSIGNMENT, ts).Some?
    ensures Printed(ASSIGNMENT, ts, Parse(ASSIGNMENT, ts))
    decreases |ts|, 2 * ASSIGNMENT + 1
  {
    ParsedIsPrinted(CONDITIONAL, ts);
    var (l, assign) := Parse(CONDITIONAL, ts).value;
    if assign != [] && assign[0].Assign? {
      assert Printable(assign[0]);
      ParsedIsPrinted(ASSIGNMENT, assign[1..]);
      assert assign == [assign[0]] + assign[1..];
    }
  }

  lemma {:induction false} RestIsPrinted(level: nat, left: Tree, ts: seq<Token>)
    requires 2 <= level <= LOGICAL_OR && Sound(ts)
    requires Derivable(left) && Level(left) <= level
    ensures Printed(level, TokensOf(left) + ts, ParseRest(level, left, ts))
    decreases |ts|, 0
  {
    if AtLevel(level, ts) && Next(ts).Some? && Parse(level - 1, ts[1..]).Some? {
      hide Parse, OpLevel;
      ParsedIsPrinted(level - 1, ts[1..]);
      var (right, rest) := Parse(level - 1, ts[1..]).value;
      var joined := Binop(ts[0].op, left, right);
      RestIsPrinted(level, joined, rest);
      assert ts == [ts[0]] + ts[1..];
      assert TokensOf(left) + ts == TokensOf(joined) + rest;
    }
  }

  /** A text is well formed exactly when its tokens are those of a derivable tree, and that tree is unique. */
  lemma WellFormedText(s: string, t: Tree)
    ensures ParseText(s) == Some(t) <==> Derivable(t) && Tokens(s, 0) == TokensOf(t)
  {
    var ts := Tokens(s, 0);
    TokensSound(s, 0);
    if ParseText(s) == Some(t) {
      ParsedIsPrinted(ASSIGNMENT, ts);
      assert TokensOf(t) + [] == TokensOf(t);
    }
    if Derivable(t) && ts == TokensOf(t) {
      ParsePrinted(t, ASSIGNMENT, []);
      assert TokensOf(t) + [] == TokensOf(t);
    }
  }
}
