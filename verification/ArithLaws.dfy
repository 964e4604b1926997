/** What arithmetic texts mean, said in texts and integers: which operands an operator takes, and what it makes
    of them.  Neither the precedence levels nor the operator table of the evaluator are mentioned. */
module ArithLaws {
  import opened CLong
  import opened Common
  import opened Text
  import opened ArithSyntax
  import opened ArithEval

  /** The value of a text, or its error, and the store behind it; None if the text is malformed. */
  function Meaning(text: string, s: Store): Option<Outcome> {
    var t := ParseText(text);
    if t.Some? then Some(Eval(t.value, s)) else None
  }

  /** The infix operators in the order of C (ISO/IEC 9899, section 6.5): those of an earlier row bind tighter. */
  const ROWS: seq<seq<string>> :=
    [["*", "/", "%"], ["+", "-"], ["<<", ">>"], ["<", "<=", ">", ">="], ["==", "!="], ["&"], ["^"], ["|"],
     ["&&"], ["||"]]

  /** A number, a name, or an expression in parentheses. */
  predicate Atom(t: Tree) {
    (t.Literal? || t.Name? || t.Group?) && Derivable(t)
  }

  function InfixOf(p: string): Infix {
    if p == "*" then Strict(Mul) else if p == "/" then Strict(Div) else if p == "%" then Strict(Mod)
    else if p == "+" then Strict(Add) else if p == "-" then Strict(Sub)
    else if p == "<<" then Strict(Shl) else if p == ">>" then Strict(Shr)
    else if p == "<" then Strict(Lt) else if p == "<=" then Strict(Le)
    else if p == ">" then Strict(Gt) else if p == ">=" then Strict(Ge)
    else if p == "==" then Strict(Eq) else if p == "!=" then Strict(Ne)
    else if p == "&" then Strict(And) else if p == "^" then Strict(Xor) else if p == "|" then Strict(Or)
    else if p == "&&" then AndAnd else OrOr
  }

  predicate StandsFor(op: Infix, p: string, i: nat) {
    Printable(Op(op)) && TokenText(Op(op)) == p && OpLevel(op) == i + 2
  }

  lemma ArithmeticRows(p: string, i: nat)
    requires i < 3 && p in ROWS[i]
    ensures StandsFor(InfixOf(p), p, i)
  {
    assert ROWS[i] == [["*", "/", "%"], ["+", "-"], ["<<", ">>"]][i];
  }

  lemma ComparisonRows(p: string, i: nat)
    requires 3 <= i < 5 && p in ROWS[i]
    ensures StandsFor(InfixOf(p), p, i)
  {
    assert ROWS[i] == [["<", "<=", ">", ">="], ["==", "!="]][i - 3];
  }

  lemma LogicalRows(p: string, i: nat)
    requires 5 <= i < |ROWS| && p in ROWS[i]
    ensures StandsFor(InfixOf(p), p, i)
  {
    assert ROWS[i] == [["&"], ["^"], ["|"], ["&&"], ["||"]][i - 5];
  }

  lemma InRow(p: string, i: nat)
    requires i < |ROWS| && p in ROWS[i]
    ensures StandsFor(InfixOf(p), p, i)
  {
    hide StandsFor, InfixOf;
    if i < 3 {
      ArithmeticRows(p, i);
    } else if i < 5 {
      ComparisonRows(p, i);
    } else {
      LogicalRows(p, i);
    }
  }

  // ---------- printed trees, piece by piece ----------

  lemma {:induction false} RenderConcat(a: seq<Token>, b: seq<Token>)
    requires AllPrintable(a) && AllPrintable(b)
    ensures AllPrintable(a + b) && Render(a + b) == Render(a) + Render(b)
  {
    hide Printable, TokenText;
    if a == [] {
      assert a + b == b;
    } else {
      assert (a + b)[1..] == a[1..] + b;
      RenderConcat(a[1..], b);
    }
  }

  lemma RenderBefore(t: Token, a: seq<Token>)
    requires Printable(t) && AllPrintable(a)
    ensures AllPrintable([t] + a) && Render([t] + a) == TokenText(t) + " " + Render(a)
  {
    hide Printable, TokenText;
    assert ([t] + a)[1..] == a;
  }

  lemma RenderNothing()
    ensures AllPrintable([]) && Render([]) == ""
  {
  }

  lemma RenderInfix(a: seq<Token>, t: Token, b: seq<Token>)
    requires AllPrintable(a) && Printable(t) && AllPrintable(b)
    ensures AllPrintable(a + [t] + b) && Render(a + [t] + b) == Render(a) + TokenText(t) + " " + Render(b)
  {
    hide *;
    RenderBefore(t, b);
    RenderConcat(a, [t] + b);
    assert a + [t] + b == a + ([t] + b);
  }

  lemma PrintBinop(op: Infix, l: Tree, r: Tree)
    requires Derivable(Binop(op, l, r))
    ensures Print(Binop(op, l, r)) == Print(l) + TokenText(Op(op)) + " " + Print(r)
  {
    hide Render, TokenText;
    TokensPrintable(l);
    TokensPrintable(r);
    RenderInfix(TokensOf(l), Op(op), TokensOf(r));
  }

  lemma PrintGroup(e: Tree)
    requires Derivable(e)
    ensures Derivable(Group(e)) && Print(Group(e)) == "( " + Print(e) + ") "
  {
    hide Render;
    TokensPrintable(e);
    RenderNothing();
    RenderInfix(TokensOf(e), RParen, []);
    RenderBefore(LParen, TokensOf(e) + [RParen] + []);
    assert TokensOf(Group(e)) == [LParen] + (TokensOf(e) + [RParen] + []);
    Bracketed("(", Print(e), ")");
  }

  lemma Bracketed(a: string, b: string, c: string)
    ensures a + " " + (b + c + " " + "") == a + " " + b + (c + " ")
  {
  }

  /** A text that prints a derivable tree means what the tree does. */
  lemma MeansTree(text: string, t: Tree, s: Store)
    requires Derivable(t) && text == Print(t)
    ensures Meaning(text, s) == Some(Eval(t, s))
  {
    hide Print, ParseText, Eval;
    ParseUndoesPrint(t);
  }

  // ---------- which operands an operator takes ----------

  /** Of two operators, the one of the earlier row takes the operand between them; of the same row, the left
      one: parentheses around what belongs together change nothing. */
  lemma EarlierRowBindsTighter(x: Tree, p: string, i: nat, y: Tree, q: string, j: nat, z: Tree, s: Store)
    requires Atom(x) && Atom(y) && Atom(z)
    requires i < |ROWS| && p in ROWS[i] && j < |ROWS| && q in ROWS[j]
    ensures Meaning(Print(x) + p + " " + Print(y) + q + " " + Print(z), s)
         == if j < i
            then Meaning(Print(x) + p + " ( " + Print(y) + q + " " + Print(z) + ") ", s)
            else Meaning("( " + Print(x) + p + " " + Print(y) + ") " + q + " " + Print(z), s)
    ensures Meaning(Print(x) + p + " " + Print(y) + q + " " + Print(z), s).Some?
  {
    var left, right := InfixOf(p), InfixOf(q);
    InRow(p, i);
    InRow(q, j);
    if j < i {
      RightOperandFirst(x, left, y, right, z, s);
    } else {
      LeftOperandFirst(x, left, y, right, z, s);
    }
  }

  lemma RightOperandFirst(x: Tree, p: Infix, y: Tree, q: Infix, z: Tree, s: Store)
    requires Atom(x) && Atom(y) && Atom(z) && OpLevel(q) < OpLevel(p) && Printable(Op(p)) && Printable(Op(q))
    ensures (var pt, qt := TokenText(Op(p)), TokenText(Op(q));
             var flat := Meaning(Print(x) + pt + " " + Print(y) + qt + " " + Print(z), s);
             && flat == Meaning(Print(x) + pt + " ( " + Print(y) + qt + " " + Print(z) + ") ", s)
             && flat.Some?)
  {
    hide Print, ParseText, TokenText, Meaning, Eval;
    var pt, qt := TokenText(Op(p)), TokenText(Op(q));
    var inner := Binop(q, y, z);
    PrintBinop(q, y, z);
    PrintGroup(inner);
    PrintBinop(p, x, inner);
    PrintBinop(p, x, Group(inner));
    assert Print(x) + pt + " " + Print(y) + qt + " " + Print(z) == Print(Binop(p, x, inner));
    assert Print(x) + pt + " ( " + Print(y) + qt + " " + Print(z) + ") " == Print(Binop(p, x, Group(inner)));
    MeansTree(Print(Binop(p, x, inner)), Binop(p, x, inner), s);
    MeansTree(Print(Binop(p, x, Group(inner))), Binop(p, x, Group(inner)), s);
    GroupOnRight(p, x, inner, s);
  }

  lemma GroupOnRight(p: Infix, x: Tree, inner: Tree, s: Store)
    ensures Eval(Binop(p, x, Group(inner)), s) == Eval(Binop(p, x, inner), s)
  {
    hide EvalRight;
    if Eval(x, s).Val? {
      var Val(a, s1) := Eval(x, s);
      GroupedRight(p, a, inner, s1);
    }
  }

  lemma GroupedRight(p: Infix, a: Long, inner: Tree, s: Store)
    ensures EvalRight(p, a, Group(inner), s) == EvalRight(p, a, inner, s)
  {
    hide Binary;
    assert Eval(Group(inner), s) == Eval(inner, s);
  }

  lemma LeftOperandFirst(x: Tree, p: Infix, y: Tree, q: Infix, z: Tree, s: Store)
    requires Atom(x) && Atom(y) && Atom(z) && OpLevel(p) <= OpLevel(q) && Printable(Op(p)) && Printable(Op(q))
    ensures (var pt, qt := TokenText(Op(p)), TokenText(Op(q));
             var flat := Meaning(Print(x) + pt + " " + Print(y) + qt + " " + Print(z), s);
             && flat == Meaning("( " + Print(x) + pt + " " + Print(y) + ") " + qt + " " + Print(z), s)
             && flat.Some?)
  {
    hide Print, ParseText, TokenText, Meaning, Eval;
    var pt, qt := TokenText(Op(p)), TokenText(Op(q));
    var inner := Binop(p, x, y);
    PrintBinop(p, x, y);
    PrintGroup(inner);
    PrintBinop(q, inner, z);
    PrintBinop(q, Group(inner), z);
    assert Print(x) + pt + " " + Print(y) + qt + " " + Print(z) == Print(Binop(q, inner, z));
    assert "( " + Print(x) + pt + " " + Print(y) + ") " + qt + " " + Print(z) == Print(Binop(q, Group(inner), z));
    MeansTree(Print(Binop(q, inner, z)), Binop(q, inner, z), s);
    MeansTree(Print(Binop(q, Group(inner), z)), Binop(q, Group(inner), z), s);
    GroupOnLeft(q, inner, z, s);
  }

  lemma GroupOnLeft(q: Infix, inner: Tree, z: Tree, s: Store)
    ensures Eval(Binop(q, Group(inner), z), s) == Eval(Binop(q, inner, z), s)
  {
    hide EvalRight;
  }

  // ---------- prefix operators, `?:` and assignment ----------

  function PrefixNamed(u: string): UnOp {
    if u == "+" then Plus else if u == "-" then Minus else if u == "!" then Bang else Tilde
  }

  predicate IsPrefix(u: string) {
    u == "+" || u == "-" || u == "!" || u == "~"
  }

  lemma PrintPrefix(u: string, e: Tree)
    requires IsPrefix(u) && Derivable(e) && Level(e) <= UNARY
    ensures (var t := Prefix(PrefixNamed(u), e); Derivable(t) && Print(t) == u + " " + Print(e))
  {
    TokensPrintable(e);
    RenderBefore(PrefixToken(PrefixNamed(u)), TokensOf(e));
  }

  lemma PrintCond(c: Tree, y: Tree, n: Tree)
    requires Derivable(Cond(c, y, n))
    ensures Print(Cond(c, y, n)) == Print(c) + "? " + Print(y) + ": " + Print(n)
  {
    hide Render;
    TokensPrintable(c);
    TokensPrintable(y);
    TokensPrintable(n);
    RenderInfix(TokensOf(c), Question, TokensOf(y));
    RenderInfix(TokensOf(c) + [Question] + TokensOf(y), Colon, TokensOf(n));
    MarkAndBlank(Print(c), "?", Print(y));
    MarkAndBlank(Print(c) + "? " + Print(y), ":", Print(n));
  }

  lemma MarkAndBlank(a: string, mark: string, b: string)
    ensures a + mark + " " + b == a + (mark + " ") + b
  {
  }

  predicate IsAssignment(a: string) {
    a in ["=", "*=", "/=", "%=", "+=", "-=", "<<=", ">>=", "&=", "^=", "|="]
  }

  function AssignNamed(a: string): AssignOp {
    if a == "*=" then Compound(Mul) else if a == "/=" then Compound(Div) else if a == "%=" then Compound(Mod)
    else if a == "+=" then Compound(Add) else if a == "-=" then Compound(Sub)
    else if a == "<<=" then Compound(Shl) else if a == ">>=" then Compound(Shr)
    else if a == "&=" then Compound(And) else if a == "^=" then Compound(Xor) else if a == "|=" then Compound(Or)
    else Plain
  }

  lemma AssignText(a: string)
    requires IsAssignment(a)
    ensures Printable(Assign(AssignNamed(a))) && TokenText(Assign(AssignNamed(a))) == a
  {
  }

  lemma PrintAssignment(v: string, a: string, e: Tree)
    requires IsName(v) && IsAssignment(a) && Derivable(e)
    ensures (var t := Assignment(Name(v), AssignNamed(a), e);
             Derivable(t) && Print(t) == v + " " + a + " " + Print(e))
  {
    hide Render;
    AssignText(a);
    TokensPrintable(e);
    RenderNothing();
    RenderBefore(Ident(v), []);
    assert [Ident(v)] + [] == [Ident(v)] && v + " " + "" == v + " ";
    RenderInfix([Ident(v)], Assign(AssignNamed(a)), TokensOf(e));
    assert TokensOf(Assignment(Name(v), AssignNamed(a), e)) == [Ident(v)] + [Assign(AssignNamed(a))] + TokensOf(e);
  }

  /** A prefix operator takes the operand behind it and no more. */
  lemma PrefixBindsTightest(u: string, x: Tree, p: string, i: nat, y: Tree, s: Store)
    requires IsPrefix(u) && Atom(x) && Atom(y) && i < |ROWS| && p in ROWS[i]
    ensures (var flat := Meaning(u + " " + Print(x) + p + " " + Print(y), s);
             flat == Meaning("( " + (u + " " + Print(x)) + ") " + p + " " + Print(y), s) && flat.Some?)
  {
    var op, ux := InfixOf(p), Prefix(PrefixNamed(u), x);
    InRow(p, i);
    PrintPrefix(u, x);
    assert Derivable(Binop(op, ux, y)) && Derivable(Binop(op, Group(ux), y)) && StandsFor(op, p, i);
    assert TokenText(Op(op)) == p;
    hide *;
    PrintGroup(ux);
    PrintBinop(op, ux, y);
    PrintBinop(op, Group(ux), y);
    MeansTree(Print(Binop(op, ux, y)), Binop(op, ux, y), s);
    MeansTree(Print(Binop(op, Group(ux), y)), Binop(op, Group(ux), y), s);
    GroupOnLeft(op, ux, y, s);
  }

  /** In front of a right operand it stands by itself. */
  lemma PrefixOfRightOperand(u: string, x: Tree, p: string, i: nat, y: Tree, s: Store)
    requires IsPrefix(u) && Atom(x) && Atom(y) && i < |ROWS| && p in ROWS[i]
    ensures (var flat := Meaning(Print(x) + p + " " + (u + " " + Print(y)), s);
             flat == Meaning(Print(x) + p + " " + ("( " + (u + " " + Print(y)) + ") "), s) && flat.Some?)
  {
    var op, uy := InfixOf(p), Prefix(PrefixNamed(u), y);
    InRow(p, i);
    PrintPrefix(u, y);
    assert Derivable(Binop(op, x, uy)) && Derivable(Binop(op, x, Group(uy))) && StandsFor(op, p, i);
    assert TokenText(Op(op)) == p;
    hide *;
    PrintGroup(uy);
    PrintBinop(op, x, uy);
    PrintBinop(op, x, Group(uy));
    MeansTree(Print(Binop(op, x, uy)), Binop(op, x, uy), s);
    MeansTree(Print(Binop(op, x, Group(uy))), Binop(op, x, Group(uy)), s);
    GroupOnRight(op, x, uy, s);
  }

  /** `?:` is looser than every infix operator and groups to the right: any expression can stand between `?` and
      `:`, any but an assignment behind `:`, and any but a `?:` or an assignment in front of `?`. */
  lemma ConditionalIsLooser(c: Tree, y: Tree, n: Tree, s: Store)
    requires Derivable(c) && Derivable(y) && Derivable(n)
    requires !c.Cond? && !c.Assignment? && !n.Assignment?
    ensures (var flat := Meaning(Print(c) + "? " + Print(y) + ": " + Print(n), s);
             && flat == Meaning("( " + Print(c) + ") " + "? " + ("( " + Print(y) + ") ")
                                + ": " + ("( " + Print(n) + ") "), s)
             && flat.Some?)
  {
    var flat, grouped := Cond(c, y, n), Cond(Group(c), Group(y), Group(n));
    assert Derivable(flat) && Derivable(grouped);
    hide *;
    PrintGroup(c);
    PrintGroup(y);
    PrintGroup(n);
    PrintCond(c, y, n);
    PrintCond(Group(c), Group(y), Group(n));
    MeansTree(Print(flat), flat, s);
    MeansTree(Print(grouped), grouped, s);
    GroupsInside(c, y, n, s);
  }

  lemma GroupsInside(c: Tree, y: Tree, n: Tree, s: Store)
    ensures Eval(Cond(Group(c), Group(y), Group(n)), s) == Eval(Cond(c, y, n), s)
  {
    forall e: Tree, s1: Store ensures Eval(Group(e), s1) == Eval(e, s1) {
    }
    hide EvalRight, Write, Read, Binary;
  }

  /** Assignment is the loosest and groups to the right: behind it stands any expression. */
  lemma AssignmentIsLoosest(v: string, a: string, e: Tree, s: Store)
    requires IsName(v) && IsAssignment(a) && Derivable(e)
    ensures (var flat := Meaning(v + " " + a + " " + Print(e), s);
             flat == Meaning(v + " " + a + " " + ("( " + Print(e) + ") "), s) && flat.Some?)
  {
    hide Print, ParseText, Meaning, IsAssignment, AssignNamed, IsName, Binary, Write, Read;
    var flat, grouped := Assignment(Name(v), AssignNamed(a), e), Assignment(Name(v), AssignNamed(a), Group(e));
    PrintGroup(e);
    PrintAssignment(v, a, e);
    PrintAssignment(v, a, Group(e));
    MeansTree(Print(flat), flat, s);
    MeansTree(Print(grouped), grouped, s);
    assert Eval(Group(e), s) == Eval(e, s);
  }

  // ---------- what the operators make of their operands ----------

  predicate Congruent(v: Long, x: int) {
    (x - v) % 0x1_0000_0000_0000_0000 == 0
  }

  /** The value of an operator in integers.  Sums, differences, products and left shifts are exact where they fit,
      and wrap around at 64 bits where they do not. */
  predicate IntegerValue(op: string, a: Long, b: Long, v: Long) {
    && (op == "*" ==> Congruent(v, a * b))
    && (op == "/" ==> b == 0 || b == -1 || (Abs(a - v * b) < Abs(b) && (a == v * b || (a - v * b < 0 <==> a < 0))))
    && (op == "/" && b == -1 ==> Congruent(v, -(a as int)))
    && (op == "%" ==> b == 0 || (Abs(v) < Abs(b) && (v == 0 || (v < 0 <==> a < 0)) && (a - v) % b == 0))
    && (op == "+" ==> Congruent(v, a + b))
    && (op == "-" ==> Congruent(v, a - b))
    && (op == "<<" ==> 0 <= b < 64 && Congruent(v, a * Pow2(b)))
    && (op == ">>" ==> 0 <= b < 64 && v * Pow2(b) <= a < (v + 1) * Pow2(b))
    && (op == "<" ==> v == if a < b then 1 else 0)
    && (op == "<=" ==> v == if a <= b then 1 else 0)
    && (op == ">" ==> v == if a > b then 1 else 0)
    && (op == ">=" ==> v == if a >= b then 1 else 0)
    && (op == "==" ==> v == if a == b then 1 else 0)
    && (op == "!=" ==> v == if a != b then 1 else 0)
  }

  /** The three that act on bits. */
  predicate BitValue(op: string, a: Long, b: Long, v: Long) {
    forall i: nat :: i < 64 ==>
      var x, y, z := Bit(ToUnsigned(a), i), Bit(ToUnsigned(b), i), Bit(ToUnsigned(v), i);
      && (op == "&" ==> (z <==> x && y))
      && (op == "^" ==> (z <==> x != y))
      && (op == "|" ==> (z <==> x || y))
  }

  function ErrorOf(op: string, b: Long): Option<ArithError> {
    if (op == "/" || op == "%") && b == 0 then Some(DivisionByZero)
    else if (op == "<<" || op == ">>") && !(0 <= b < 64) then Some(InvalidShiftWidth)
    else None
  }

  lemma QuotientInIntegers(a: Long, b: Long)
    requires b != 0
    ensures IntegerValue("/", a, b, Wrap(TruncDiv(a, b))) && IntegerValue("%", a, b, Wrap(TruncMod(a, b)))
  {
    TruncatedDivision(a, b);
    QuotientFits(a, b);
    MultipleLeavesNothing(TruncDiv(a, b), b);
    var r := TruncMod(a, b);
    assert a - r == TruncDiv(a, b) * b;
    hide TruncDiv, TruncMod, Wrap;
  }

  lemma QuotientFits(a: Long, b: Long)
    requires b != 0
    ensures LONG_MIN <= TruncMod(a, b) <= LONG_MAX
    ensures if b == -1 then TruncDiv(a, b) == -(a as int) else LONG_MIN <= TruncDiv(a, b) <= LONG_MAX
  {
    HalfAtMost(Abs(a), Abs(b));
  }

  lemma HalfAtMost(x: nat, y: nat)
    requires y > 0
    ensures x % y <= x && x / y <= x
    ensures if y == 1 then x / y == x else 2 * (x / y) <= x
  {
    var q, r := x / y, x % y;
    assert x == q * y + r;
    if y > 1 {
      TwiceAtMost(q, y);
    }
  }

  lemma TwiceAtMost(q: nat, y: nat)
    requires y > 1
    ensures 2 * q <= q * y
  {
    assert q * y - 2 * q == q * (y - 2);
  }

  lemma MultipleLeavesNothing(q: int, b: int)
    requires b != 0
    ensures (q * b) % b == 0
  {
    assert q * b == (q * b) / b * b + (q * b) % b;
    var k := q - (q * b) / b;
    assert k * b == (q * b) % b;
    assert b > 0 ==> (k >= 1 ==> k * b >= b) && (k <= -1 ==> k * b <= -b);
    assert b < 0 ==> (k >= 1 ==> k * b <= b) && (k <= -1 ==> k * b >= -b);
  }

  lemma ShiftInIntegers(a: Long, b: Long)
    requires 0 <= b < 64
    ensures IntegerValue(">>", a, b, Wrap(a / Pow2(b)))
  {
    FloorOfQuotient(a, Pow2(b));
    hide Wrap, Pow2;
  }

  lemma FloorOfQuotient(a: Long, p: nat)
    requires p > 0
    ensures LONG_MIN <= a / p <= LONG_MAX
    ensures a / p * p <= a < (a / p + 1) * p
  {
    var q, r := a / p, a % p;
    assert a == q * p + r;
    Times(q, p);
    Times(q + 1, p);
    Scaled(q, q * p, p);
    Scaled(q + 1, q * p + p, p);
  }

  lemma Times(x: int, p: int)
    ensures (x + 1) * p == x * p + p
  {
  }

  lemma Scaled(x: int, y: int, p: nat)
    requires y == x * p && p > 0
    ensures (x >= 0 ==> y >= x) && (x <= 0 ==> y <= x)
  {
    assert y - x == x * (p - 1);
  }

  lemma ExactInIntegers(op: string, i: nat, a: Long, b: Long)
    requires i < 3 && op in ROWS[i] && op != "/" && op != "%" && op != ">>" && ErrorOf(op, b).None?
    ensures InfixOf(op).Strict?
    ensures (var r := Binary(InfixOf(op).op, a, b); r.Value? && IntegerValue(op, a, b, r.value))
  {
    hide Wrap, Pow2;
    assert ROWS[i] == [["*", "/", "%"], ["+", "-"], ["<<", ">>"]][i];
  }

  lemma ComparisonInIntegers(op: string, i: nat, a: Long, b: Long)
    requires 3 <= i < 5 && op in ROWS[i]
    ensures InfixOf(op).Strict? && ErrorOf(op, b).None?
    ensures (var r := Binary(InfixOf(op).op, a, b); r.Value? && IntegerValue(op, a, b, r.value))
  {
    assert ROWS[i] == [["<", "<=", ">", ">="], ["==", "!="]][i - 3];
  }

  lemma DivisionInIntegers(op: string, a: Long, b: Long)
    requires op == "/" || op == "%" || op == ">>" || op == "<<"
    ensures InfixOf(op).Strict?
    ensures (var r := Binary(InfixOf(op).op, a, b);
             if ErrorOf(op, b).Some? then r == Error(ErrorOf(op, b).value)
             else r.Value? && (op != "<<" ==> IntegerValue(op, a, b, r.value)))
  {
    hide TruncDiv, TruncMod, Wrap, Pow2, IntegerValue;
    if op == "/" || op == "%" {
      if b != 0 {
        QuotientInIntegers(a, b);
      }
    } else if op == ">>" && 0 <= b < 64 {
      ShiftInIntegers(a, b);
    }
  }

  lemma BinaryInIntegers(op: string, i: nat, a: Long, b: Long)
    requires i < 5 && op in ROWS[i]
    ensures InfixOf(op).Strict?
    ensures (var r := Binary(InfixOf(op).op, a, b);
             if ErrorOf(op, b).Some? then r == Error(ErrorOf(op, b).value)
             else r.Value? && IntegerValue(op, a, b, r.value))
  {
    hide InfixOf, Binary, IntegerValue;
    if op == "/" || op == "%" || op == ">>" || op == "<<" {
      DivisionInIntegers(op, a, b);
    }
    if i >= 3 {
      ComparisonInIntegers(op, i, a, b);
    } else if ErrorOf(op, b).None? && op != "/" && op != "%" && op != ">>" {
      ExactInIntegers(op, i, a, b);
    }
  }

  lemma BinaryInBits(op: string, i: nat, a: Long, b: Long)
    requires 5 <= i < 8 && op in ROWS[i]
    ensures InfixOf(op).Strict? && ErrorOf(op, b).None?
    ensures (var r := Binary(InfixOf(op).op, a, b); r.Value? && BitValue(op, a, b, r.value))
  {
    hide Bitwise, Bit, ToUnsigned;
    assert ROWS[i] == [["&"], ["^"], ["|"]][i - 5];
    var bits := InfixOf(op).op;
    forall k: nat | k < 64 ensures Bit(ToUnsigned(Bitwise(bits, a, b)), k)
                                   == BitOf(bits, Bit(ToUnsigned(a), k), Bit(ToUnsigned(b), k))
    {
      BitwiseBits(bits, a, b, k);
    }
  }

  lemma InfixMeans(x: Tree, op: string, i: nat, y: Tree, s: Store)
    requires Atom(x) && Atom(y) && i < |ROWS| && op in ROWS[i]
    ensures Meaning(Print(x) + op + " " + Print(y), s) == Some(Eval(Binop(InfixOf(op), x, y), s))
  {
    InRow(op, i);
    hide Print, ParseText, TokenText, Meaning, InfixOf, Eval;
    var t := Binop(InfixOf(op), x, y);
    PrintBinop(InfixOf(op), x, y);
    MeansTree(Print(t), t, s);
  }

  lemma EvalStrict(op: BinOp, x: Tree, y: Tree, s: Store, a: Long, s1: Store, b: Long, s2: Store)
    requires Eval(x, s) == Val(a, s1) && Eval(y, s1) == Val(b, s2)
    ensures (var r := Binary(op, a, b);
             Eval(Binop(Strict(op), x, y), s) == if r.Error? then Err(r.error, s2) else Val(r.value, s2))
  {
    hide Binary;
    assert EvalRight(Strict(op), a, y, s1)
        == if Binary(op, a, b).Error? then Err(Binary(op, a, b).error, s2) else Val(Binary(op, a, b).value, s2);
    hide EvalRight;
  }

  /** An infix operator other than `&&` and `||` evaluates its left operand, then its right one, and gives the
      value that the integers or the bits give. */
  lemma OperatorsMean(x: Tree, op: string, i: nat, y: Tree, s: Store, a: Long, s1: Store, b: Long, s2: Store)
    requires Atom(x) && Atom(y) && i < 8 && op in ROWS[i]
    requires Meaning(Print(x), s) == Some(Val(a, s1)) && Meaning(Print(y), s1) == Some(Val(b, s2))
    ensures (var r := Meaning(Print(x) + op + " " + Print(y), s);
             if ErrorOf(op, b).Some? then r == Some(Err(ErrorOf(op, b).value, s2))
             else
               && r.Some? && r.value.Val? && r.value.store == s2
               && (i < 5 ==> IntegerValue(op, a, b, r.value.v))
               && (i >= 5 ==> BitValue(op, a, b, r.value.v)))
  {
    assert Derivable(x) && Derivable(y);
    hide *;
    InfixMeans(x, op, i, y, s);
    MeansTree(Print(x), x, s);
    MeansTree(Print(y), y, s1);
    if i < 5 {
      BinaryInIntegers(op, i, a, b);
    } else {
      BinaryInBits(op, i, a, b);
    }
    EvalStrict(InfixOf(op).op, x, y, s, a, s1, b, s2);
  }

  /** The error of an operand is the error of the whole, and nothing behind it is evaluated. */
  lemma ErrorsEnd(x: Tree, op: string, i: nat, y: Tree, s: Store, e: ArithError, a: Long, s1: Store, s2: Store)
    requires Atom(x) && Atom(y) && i < |ROWS| && op in ROWS[i]
    ensures Meaning(Print(x), s) == Some(Err(e, s1)) ==> Meaning(Print(x) + op + " " + Print(y), s) == Some(Err(e, s1))
    ensures i < 8 && Meaning(Print(x), s) == Some(Val(a, s1)) && Meaning(Print(y), s1) == Some(Err(e, s2)) ==>
              Meaning(Print(x) + op + " " + Print(y), s) == Some(Err(e, s2))
  {
    assert Derivable(x) && Derivable(y);
    InRow(op, i);
    assert i < 8 ==> InfixOf(op).Strict?;
    hide *;
    InfixMeans(x, op, i, y, s);
    MeansTree(Print(x), x, s);
    MeansTree(Print(y), y, s1);
    EvalError(InfixOf(op), x, y, s, e, a, s1, s2);
  }

  lemma EvalError(op: Infix, x: Tree, y: Tree, s: Store, e: ArithError, a: Long, s1: Store, s2: Store)
    ensures Eval(x, s) == Err(e, s1) ==> Eval(Binop(op, x, y), s) == Err(e, s1)
    ensures op.Strict? && Eval(x, s) == Val(a, s1) && Eval(y, s1) == Err(e, s2) ==>
              Eval(Binop(op, x, y), s) == Err(e, s2)
  {
    hide Binary;
    assert op.Strict? && Eval(y, s1) == Err(e, s2) ==> EvalRight(op, a, y, s1) == Err(e, s2);
    hide EvalRight;
  }

  /** `&&` and `||` give 0 or 1, and evaluate the right operand only where the left one does not decide. */
  lemma LogicalOperatorsMean(x: Tree, y: Tree, s: Store, a: Long, s1: Store)
    requires Atom(x) && Atom(y) && Meaning(Print(x), s) == Some(Val(a, s1))
    ensures (var and, or := Meaning(Print(x) + "&&" + " " + Print(y), s), Meaning(Print(x) + "||" + " " + Print(y), s);
             var right := Meaning(Print(y), s1);
             && (a == 0 ==> and == Some(Val(0, s1)))
             && (a != 0 ==> or == Some(Val(1, s1)))
             && right.Some?
             && (right.value.Val? ==>
                   var truth := Some(Val(if right.value.v != 0 then 1 else 0, right.value.store));
                   (a != 0 ==> and == truth) && (a == 0 ==> or == truth))
             && (right.value.Err? ==> (a != 0 ==> and == right) && (a == 0 ==> or == right)))
  {
    assert Derivable(x) && Derivable(y);
    hide *;
    LogicalRowsHold();
    InfixMeans(x, "&&", 8, y, s);
    InfixMeans(x, "||", 9, y, s);
    MeansTree(Print(x), x, s);
    MeansTree(Print(y), y, s1);
    EvalLogical(x, y, s, a, s1);
  }

  lemma LogicalRowsHold()
    ensures |ROWS| == 10 && "&&" in ROWS[8] && "||" in ROWS[9]
    ensures InfixOf("&&") == AndAnd && InfixOf("||") == OrOr
  {
  }

  lemma EvalLogical(x: Tree, y: Tree, s: Store, a: Long, s1: Store)
    requires Eval(x, s) == Val(a, s1)
    ensures (var and, or := Eval(Binop(AndAnd, x, y), s), Eval(Binop(OrOr, x, y), s);
             var right := Eval(y, s1);
             var truth := if right.Err? then right else Val(if right.v != 0 then 1 else 0, right.store);
             && and == (if a == 0 then Val(0, s1) else truth)
             && or == (if a != 0 then Val(1, s1) else truth))
  {
    hide Binary;
  }

  /** `?:` evaluates its condition, and then one of the two others. */
  lemma ConditionalMeans(c: Tree, y: Tree, n: Tree, s: Store, a: Long, s1: Store)
    requires Derivable(Cond(c, y, n)) && Meaning(Print(c), s) == Some(Val(a, s1))
    ensures Meaning(Print(c) + "? " + Print(y) + ": " + Print(n), s)
         == if a != 0 then Meaning(Print(y), s1) else Meaning(Print(n), s1)
  {
    assert Derivable(c) && Derivable(y) && Derivable(n);
    hide *;
    MeansTree(Print(c), c, s);
    MeansTree(Print(y), y, s1);
    MeansTree(Print(n), n, s1);
    PrintCond(c, y, n);
    MeansTree(Print(Cond(c, y, n)), Cond(c, y, n), s);
    EvalCond(c, y, n, s, a, s1);
  }

  lemma EvalCond(c: Tree, y: Tree, n: Tree, s: Store, a: Long, s1: Store)
    requires Eval(c, s) == Val(a, s1)
    ensures Eval(Cond(c, y, n), s) == if a != 0 then Eval(y, s1) else Eval(n, s1)
  {
  }

  /** Sign, complement and negation. */
  lemma PrefixMeans(u: string, x: Tree, s: Store, a: Long, s1: Store)
    requires IsPrefix(u) && Derivable(x) && Level(x) <= UNARY && Meaning(Print(x), s) == Some(Val(a, s1))
    ensures (var r := Meaning(u + " " + Print(x), s);
             && r.Some? && r.value.Val? && r.value.store == s1
             && (u == "+" ==> r.value.v == a)
             && (u == "-" ==> Congruent(r.value.v, -(a as int)))
             && (u == "!" ==> r.value.v == if a == 0 then 1 else 0)
             && (u == "~" ==> r.value.v == -(a as int) - 1))
  {
    PrintPrefix(u, x);
    UnaryMeans(u, a);
    hide *;
    MeansTree(Print(x), x, s);
    MeansTree(Print(Prefix(PrefixNamed(u), x)), Prefix(PrefixNamed(u), x), s);
    EvalPrefix(PrefixNamed(u), x, s, a, s1);
  }

  lemma UnaryMeans(u: string, a: Long)
    requires IsPrefix(u)
    ensures (var v := Unary(PrefixNamed(u), a);
             && (u == "+" ==> v == a)
             && (u == "-" ==> Congruent(v, -(a as int)))
             && (u == "!" ==> v == if a == 0 then 1 else 0)
             && (u == "~" ==> v == -(a as int) - 1))
  {
    hide Wrap;
  }

  lemma EvalPrefix(op: UnOp, x: Tree, s: Store, a: Long, s1: Store)
    requires Eval(x, s) == Val(a, s1)
    ensures Eval(Prefix(op, x), s) == Val(Unary(op, a), s1)
  {
    hide Unary;
  }

  /** A number is its value.  A variable is the number its text reads as, and 0 if it is unset or no number. */
  lemma OperandsMean(n: Long, v: string, s: Store)
    requires n >= 0 && IsName(v)
    ensures Meaning(Decimal(n) + " ", s) == Some(Val(n, s))
    ensures Meaning(v + " ", s)
         == Some(Val(if v in s.values && ParseLong(s.values[v]).Some? then ParseLong(s.values[v]).value else 0, s))
  {
    PrintNumber(n);
    PrintName(v);
    MeansTree(Decimal(n) + " ", Literal(n), s);
    MeansTree(v + " ", Name(v), s);
    hide Decimal, ParseLong, Meaning, Print, IsName;
  }

  lemma PrintNumber(n: Long)
    requires n >= 0
    ensures Print(Literal(n)) == Decimal(n) + " "
  {
    hide Decimal;
    RenderNothing();
    RenderBefore(Number(n), []);
    assert [Number(n)] + [] == TokensOf(Literal(n));
  }

  lemma PrintName(v: string)
    requires IsName(v)
    ensures Print(Name(v)) == v + " "
  {
    RenderNothing();
    RenderBefore(Ident(v), []);
    assert [Ident(v)] + [] == TokensOf(Name(v));
  }

  /** `=` stores the value of what stands behind it, as text, and has that value.  A read-only variable is an
      error, and ends a shell that is not interactive with status 1. */
  lemma AssignmentMeans(v: string, e: Tree, s: Store, a: Long, s1: Store)
    requires IsName(v) && Derivable(e) && Meaning(Print(e), s) == Some(Val(a, s1))
    ensures Meaning(v + " = " + Print(e), s)
         == Some(if v in s1.readonly then Err(ReadOnly, if s1.interactive then s1 else s1.(exit := Some(1)))
                 else Val(a, s1.(values := s1.values[v := LongText(a)])))
  {
    assert IsAssignment("=") && AssignNamed("=") == Plain;
    hide *;
    MeansTree(Print(e), e, s);
    AssignmentText(v, "=", e, s);
    EvalAssignment(v, Plain, e, s);
    EqualsSign(v, Print(e));
    WriteMeans(s1, v, a);
    assert Assigned(Plain, Read(s, v), a) == Value(a) by {
      PlainAssigns(Read(s, v), a);
    }
  }

  lemma AssignmentText(v: string, a: string, e: Tree, s: Store)
    requires IsName(v) && IsAssignment(a) && Derivable(e)
    ensures Meaning(v + " " + a + " " + Print(e), s) == Some(Eval(Assignment(Name(v), AssignNamed(a), e), s))
  {
    hide *;
    PrintAssignment(v, a, e);
    MeansTree(v + " " + a + " " + Print(e), Assignment(Name(v), AssignNamed(a), e), s);
  }

  lemma EqualsSign(v: string, text: string)
    ensures v + " " + "=" + " " + text == v + " = " + text
  {
  }

  lemma PlainAssigns(a: Long, b: Long)
    ensures Assigned(Plain, a, b) == Value(b)
  {
  }

  lemma WriteMeans(s: Store, v: string, a: Long)
    ensures Write(s, v, a)
         == if v in s.readonly then Err(ReadOnly, if s.interactive then s else s.(exit := Some(1)))
            else Val(a, s.(values := s.values[v := LongText(a)]))
  {
    hide LongText;
  }

  lemma EvalAssignment(v: string, assign: AssignOp, e: Tree, s: Store)
    ensures Eval(Assignment(Name(v), assign, e), s)
         == match Eval(e, s)
            case Err(error, s1) => Err(error, s1)
            case Val(b, s1) =>
              match Assigned(assign, Read(s, v), b)
              case Error(error) => Err(error, s1)
              case Value(r) => Write(s1, v, r)
  {
    hide Assigned, Read, Write;
  }

  /** `v += e` is `v = v + ( e )`, and so are the nine others: value, store and errors. */
  lemma CompoundIsPlain(v: string, op: string, i: nat, e: Tree, s: Store)
    requires IsName(v) && Derivable(e) && op in ["*", "/", "%", "+", "-", "<<", ">>", "&", "^", "|"]
    requires i < |ROWS| && op in ROWS[i]
    ensures Meaning(v + " " + (op + "=") + " " + Print(e), s)
         == Meaning(v + " = " + (v + " " + op + " " + ("( " + Print(e) + ") ")), s)
  {
    hide *;
    var right := Binop(InfixOf(op), Name(v), Group(e));
    CompoundNamed(op);
    RightSide(v, op, i, e);
    AssignmentText(v, op + "=", e, s);
    AssignmentText(v, "=", right, s);
    EqualsSign(v, Print(right));
    SameAssignment(v, op, e, s);
  }

  lemma RightSide(v: string, op: string, i: nat, e: Tree)
    requires IsName(v) && Derivable(e) && i < |ROWS| && op in ROWS[i]
    ensures (var right := Binop(InfixOf(op), Name(v), Group(e));
             Derivable(right) && Print(right) == v + " " + op + " " + ("( " + Print(e) + ") "))
  {
    InRow(op, i);
    PrintName(v);
    hide Print, TokenText, InfixOf, IsName;
    PrintGroup(e);
    PrintBinop(InfixOf(op), Name(v), Group(e));
  }

  lemma SameAssignment(v: string, op: string, e: Tree, s: Store)
    requires InfixOf(op).Strict? && AssignNamed(op + "=") == Compound(InfixOf(op).op) && AssignNamed("=") == Plain
    ensures Eval(Assignment(Name(v), AssignNamed(op + "="), e), s)
         == Eval(Assignment(Name(v), AssignNamed("="), Binop(InfixOf(op), Name(v), Group(e))), s)
  {
    hide *;
    EvalAssignment(v, AssignNamed(op + "="), e, s);
    EvalAssignment(v, Plain, Binop(InfixOf(op), Name(v), Group(e)), s);
    EvalCompound(v, InfixOf(op).op, e, s);
  }

  lemma CompoundNamed(op: string)
    requires op in ["*", "/", "%", "+", "-", "<<", ">>", "&", "^", "|"]
    ensures IsAssignment(op + "=") && InfixOf(op).Strict? && AssignNamed(op + "=") == Compound(InfixOf(op).op)
    ensures IsAssignment("=") && AssignNamed("=") == Plain
  {
    assert |op| == 1 ==> op + "=" == [op[0], '='];
    assert |op| == 2 ==> op + "=" == [op[0], op[1], '='];
  }

  lemma EvalCompound(v: string, op: BinOp, e: Tree, s: Store)
    ensures Eval(Binop(Strict(op), Name(v), Group(e)), s)
         == match Eval(e, s)
            case Err(error, s1) => Err(error, s1)
            case Val(b, s1) =>
              match Binary(op, Read(s, v), b)
              case Error(error) => Err(error, s1)
              case Value(r) => Val(r, s1)
    ensures forall a: Long, b: Long ::
              Assigned(Compound(op), a, b) == Binary(op, a, b) && Assigned(Plain, a, b) == Value(b)
  {
    hide Binary, Read;
    assert Eval(Group(e), s) == Eval(e, s);
  }

  /** So `a + b * c` is the sum of `a` and the product, where nothing overflows. */
  lemma ProductFirst(a: Long, b: Long, c: Long, s: Store)
    requires a >= 0 && b >= 0 && c >= 0 && b * c <= LONG_MAX && a + b * c <= LONG_MAX
    ensures Meaning(Decimal(a) + " + " + Decimal(b) + " * " + Decimal(c) + " ", s) == Some(Val(a + b * c, s))
  {
    hide *;
    SumTree(a, b, c);
    NotNegative(b, c);
    EvalSum(a, b, c, b * c, s);
    var product := Binop(Strict(Mul), Literal(b), Literal(c));
    var sum := Binop(Strict(Add), Literal(a), product);
    PrintNumber(a);
    PrintNumber(b);
    PrintNumber(c);
    PrintBinop(Strict(Mul), Literal(b), Literal(c));
    PrintBinop(Strict(Add), Literal(a), product);
    SumText(Decimal(a), Decimal(b), Decimal(c));
    MeansTree(Print(sum), sum, s);
  }

  lemma SumTree(a: Long, b: Long, c: Long)
    requires a >= 0 && b >= 0 && c >= 0
    ensures (var product := Binop(Strict(Mul), Literal(b), Literal(c));
             Derivable(product) && Derivable(Binop(Strict(Add), Literal(a), product)))
    ensures TokenText(Op(Strict(Add))) == "+" && TokenText(Op(Strict(Mul))) == "*"
  {
    assert Derivable(Literal(a)) && Derivable(Literal(b)) && Derivable(Literal(c));
    assert Derivable(Binop(Strict(Mul), Literal(b), Literal(c)));
  }

  lemma NotNegative(b: nat, c: nat)
    ensures 0 <= b * c
  {
  }

  lemma EvalSum(a: Long, b: Long, c: Long, m: Long, s: Store)
    requires m == b * c && a >= 0 && m >= 0 && a + m <= LONG_MAX
    ensures Eval(Binop(Strict(Add), Literal(a), Binop(Strict(Mul), Literal(b), Literal(c))), s) == Val(a + m, s)
  {
    assert Binary(Mul, b, c) == Value(m) && Binary(Add, a, m) == Value(a + m);
    EvalStrict(Mul, Literal(b), Literal(c), s, b, s, c, s);
    EvalStrict(Add, Literal(a), Binop(Strict(Mul), Literal(b), Literal(c)), s, a, s, m, s);
    hide Binary;
  }

  lemma SumText(a: string, b: string, c: string)
    ensures a + " " + "+" + " " + (b + " " + "*" + " " + (c + " ")) == a + " + " + b + " * " + c + " "
  {
  }
}
