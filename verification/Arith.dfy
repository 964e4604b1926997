/** The entry point of the arithmetic evaluator, with its fast path in front of the full parser. */
module Arith {
  import opened CLong
  import opened Common
  import opened Text
  import opened ArithSyntax
  import opened ArithEval
  import opened ArithParser

  // ---------- the fast path ----------

  /** A number as `strtol` takes it: the character in front of the digits and the signed value. */
  datatype Numeral = Numeral(sign: char, value: Long)

  datatype FastForm =
    | FastName(x: string)
    | FastNumber(n: Numeral)
    | FastNameOp(x: string, op: BinOp, n: Numeral)
    | FastNumberOp(n: Numeral, op: BinOp, x: string)

  function NameText(s: string, i: nat): (r: Option<(string, nat)>)
    requires i <= |s|
    ensures r.Some? ==> i <= r.value.1 <= |s|
  {
    var j := SpaceEnd(s, i);
    if !IsNameStart(At(s, j)) then None
    else
      var e := NameEnd(s, j + 1);
      Some((s[j..e], e))
  }

  function NumberText(s: string, i: nat): (r: Option<(Numeral, nat)>)
    requires i <= |s|
    ensures r.Some? ==> i <= r.value.1 <= |s|
  {
    var j := SpaceEnd(s, i);
    var c := Strtol(s, j);
    if c.end == j || c.range then None else Some((Numeral(At(s, j), c.value), c.end))
  }

  predicate OnlySpaceFrom(s: string, i: nat)
    requires i <= |s|
  {
    At(s, SpaceEnd(s, i)) == '\0'
  }

  function SignOp(c: char): (r: Option<BinOp>)
    ensures r.Some? ==> r.value in {Add, Sub}
  {
    if c == '+' then Some(Add) else if c == '-' then Some(Sub) else None
  }

  /** The texts `try_fast_eval` accepts: a name, a number, or one sum or difference of the two. */
  function Fast(s: string): (r: Option<FastForm>)
    ensures r.Some? && (r.value.FastNameOp? || r.value.FastNumberOp?) ==> r.value.op in {Add, Sub}
  {
    if OnlySpaceFrom(s, 0) then None
    else if NameText(s, 0).Some? then
      var (x, e) := NameText(s, 0).value;
      var j := SpaceEnd(s, e);
      if At(s, j) == '\0' then Some(FastName(x))
      else
        var op :- SignOp(At(s, j));
        var (n, k) :- NumberText(s, j + 1);
        if OnlySpaceFrom(s, k) then Some(FastNameOp(x, op, n)) else None
    else
      var (n, e) :- NumberText(s, 0);
      var j := SpaceEnd(s, e);
      if At(s, j) == '\0' then Some(FastNumber(n))
      else
        var op :- SignOp(At(s, j));
        var (x, k) :- NameText(s, j + 1);
        if OnlySpaceFrom(s, k) then Some(FastNumberOp(n, op, x)) else None
  }

  function FastSum(a: Long, op: BinOp, b: Long): Long {
    if op == Add then Wrap(a + b) else Wrap(a - b)
  }

  function FastValue(f: FastForm, s: Store): Long {
    match f
    case FastName(x) => Read(s, x)
    case FastNumber(n) => n.value
    case FastNameOp(x, op, n) => FastSum(Read(s, x), op, n.value)
    case FastNumberOp(n, op, x) => FastSum(n.value, op, Read(s, x))
  }

  function NumeralOf(f: FastForm): Option<Numeral> {
    match f
    case FastName(_) => None
    case FastNumber(n) => Some(n)
    case FastNameOp(_, _, n) => Some(n)
    case FastNumberOp(n, _, _) => Some(n)
  }

  /** The one literal the two paths disagree on: its magnitude alone is out of range, so the lexer of
      the full parser rejects what `strtol` takes together with its sign. */
  predicate HasLongMin(f: FastForm) {
    NumeralOf(f).Some? && NumeralOf(f).value.value == LONG_MIN
  }

  // ---------- the fast path agrees with the full parser ----------

  function NumeralTree(n: Numeral): Tree
    requires n.value != LONG_MIN
  {
    if n.sign == '-' then Prefix(Minus, Literal(-(n.value as int)))
    else if n.sign == '+' then Prefix(Plus, Literal(n.value))
    else Literal(n.value)
  }

  function FastTree(f: FastForm): Tree
    requires !HasLongMin(f)
  {
    match f
    case FastName(x) => Name(x)
    case FastNumber(n) => NumeralTree(n)
    case FastNameOp(x, op, n) => Binop(Strict(op), Name(x), NumeralTree(n))
    case FastNumberOp(n, op, x) => Binop(Strict(op), NumeralTree(n), Name(x))
  }

  lemma TokenStep(s: string, i: nat, t: Token, e: nat)
    requires i <= |s| && Lex(s, i) == (t, e) && !t.End? && !t.Bad?
    ensures Tokens(s, i) == [t] + Tokens(s, e)
  {
    hide Lex;
  }

  /** A sign that no `=` follows is a one-character token. */
  lemma LexSign(s: string, i: nat)
    requires i <= |s|
    requires var j := SpaceEnd(s, i); SignOp(At(s, j)).Some? && At(s, j + 1) != '='
    ensures var j := SpaceEnd(s, i);
            j < |s| && Lex(s, i) == (Op(Strict(SignOp(At(s, j)).value)), j + 1)
  {
    hide Strtol, NameEnd, SpaceEnd;
    var j := SpaceEnd(s, i);
    assert OperatorAt(s, j) == (Op(Strict(SignOp(At(s, j)).value)), 1);
  }

  lemma SignTokens(s: string, i: nat)
    requires i <= |s|
    requires var j := SpaceEnd(s, i); SignOp(At(s, j)).Some? && At(s, j + 1) != '='
    ensures var j := SpaceEnd(s, i);
            Tokens(s, i) == [Op(Strict(SignOp(At(s, j)).value))] + Tokens(s, j + 1)
  {
    hide Lex, Tokens;
    var j := SpaceEnd(s, i);
    LexSign(s, i);
    TokenStep(s, i, Op(Strict(SignOp(At(s, j)).value)), j + 1);
  }

  /** What stands where a number or a name is taken is not the tail of a longer operator. */
  lemma OperandNotEqualSign(s: string, i: nat)
    requires i <= |s| && (NumberText(s, i).Some? || NameText(s, i).Some?)
    ensures At(s, i) != '='
  {
    hide Unsigned;
    if At(s, i) == '=' {
      SpaceEndIs(s, i, i);
      assert false;
    }
  }

  /** The digits themselves, read by the lexer where `strtol` reads them behind the sign. */
  lemma DigitTokens(s: string, i: nat)
    requires i < |s| && IsDigit(s[i])
    ensures var (m, e) := Unsigned(s, i);
            if m <= LONG_MAX then Tokens(s, i) == [Number(m)] + Tokens(s, e) else Tokens(s, i) == [Bad]
  {
    hide Unsigned, OperatorAt;
    SpaceEndIs(s, i, i);
    var (m, e) := Unsigned(s, i);
    if m <= LONG_MAX {
      TokenStep(s, i, Number(m), e);
    }
  }

  lemma NumberParts(s: string, i: nat)
    requires i <= |s| && NumberText(s, i).Some?
    ensures var (n, e) := NumberText(s, i).value;
            var j := SpaceEnd(s, i);
            var k := if n.sign in {'+', '-'} then j + 1 else j;
            && n.sign == At(s, j) && k < |s| && IsDigit(s[k]) && e == Unsigned(s, k).1
            && n.value == if n.sign == '-' then -(Unsigned(s, k).0 as int) else Unsigned(s, k).0
  {
    hide Unsigned;
    var j := SpaceEnd(s, i);
    SpaceEndIs(s, j, j);
  }

  lemma TokensAfterBlanks(s: string, i: nat)
    requires i <= |s|
    ensures Tokens(s, i) == Tokens(s, SpaceEnd(s, i))
  {
    hide OperatorAt, Strtol;
    SpaceEndIs(s, SpaceEnd(s, i), SpaceEnd(s, i));
  }

  /** Lexing a signed number: the sign is a token of its own. */
  lemma NumeralTokens(s: string, i: nat)
    requires i <= |s| && NumberText(s, i).Some?
    ensures var (n, e) := NumberText(s, i).value;
            && (n.value == LONG_MIN ==> Tokens(s, i) == [Op(Strict(Sub)), Bad])
            && (n.value != LONG_MIN ==>
                  && Tokens(s, i) == TokensOf(NumeralTree(n)) + Tokens(s, e)
                  && Derivable(NumeralTree(n)) && Level(NumeralTree(n)) <= UNARY)
  {
    hide Unsigned, Tokens, NumberText;
    NumberParts(s, i);
    TokensAfterBlanks(s, i);
    var n := NumberText(s, i).value.0;
    var j := SpaceEnd(s, i);
    if n.sign in {'+', '-'} {
      DigitTokens(s, j + 1);
      SignTokens(s, i);
    } else {
      DigitTokens(s, j);
    }
  }

  lemma NameTokens(s: string, i: nat)
    requires i <= |s| && NameText(s, i).Some?
    ensures var (x, e) := NameText(s, i).value;
            IsName(x) && Tokens(s, i) == [Ident(x)] + Tokens(s, e)
  {
    hide OperatorAt, Strtol;
    var (x, e) := NameText(s, i).value;
    TokenStep(s, i, Ident(x), e);
  }

  lemma TokensAfterSpace(s: string, i: nat)
    requires i <= |s| && OnlySpaceFrom(s, i)
    ensures Tokens(s, i) == []
  {
  }

  lemma FastTokens(s: string)
    requires Fast(s).Some?
    ensures var f := Fast(s).value;
            && (!HasLongMin(f) ==> Derivable(FastTree(f)) && Tokens(s, 0) == TokensOf(FastTree(f)))
            && (HasLongMin(f) ==> Bad in Tokens(s, 0))
  {
    hide Tokens, NameText, NumberText, NumeralTree, SpaceEnd;
    if NameText(s, 0).Some? {
      NameTokens(s, 0);
      var (x, e) := NameText(s, 0).value;
      var j := SpaceEnd(s, e);
      if At(s, j) == '\0' {
        TokensAfterSpace(s, e);
      } else {
        var (n, k) := NumberText(s, j + 1).value;
        OperandNotEqualSign(s, j + 1);
        SignTokens(s, e);
        NumeralTokens(s, j + 1);
        TokensAfterSpace(s, k);
        if n.value == LONG_MIN {
          assert Tokens(s, e)[2] == Bad && Tokens(s, 0)[3] == Bad;
        } else {
          assert Tokens(s, 0) == [Ident(x)] + Tokens(s, e)[..1] + TokensOf(NumeralTree(n));
        }
      }
    } else {
      var (n, e) := NumberText(s, 0).value;
      var j := SpaceEnd(s, e);
      NumeralTokens(s, 0);
      if At(s, j) == '\0' {
        TokensAfterSpace(s, e);
      } else {
        var (x, k) := NameText(s, j + 1).value;
        OperandNotEqualSign(s, j + 1);
        SignTokens(s, e);
        NameTokens(s, j + 1);
        TokensAfterSpace(s, k);
      }
    }
  }

  lemma NumeralValue(n: Numeral, s: Store)
    requires n.value != LONG_MIN
    ensures Eval(NumeralTree(n), s) == Val(n.value, s)
  {
  }

  lemma FastTreeValue(f: FastForm, s: Store)
    requires !HasLongMin(f) && (f.FastNameOp? || f.FastNumberOp? ==> f.op in {Add, Sub})
    ensures Eval(FastTree(f), s) == Val(FastValue(f, s), s)
  {
    hide NumeralTree, Wrap, Read;
    match f
    case FastName(_) =>
    case FastNumber(n) => NumeralValue(n, s);
    case FastNameOp(x, op, n) =>
      NumeralValue(n, s);
      assert EvalRight(Strict(op), Read(s, x), NumeralTree(n), s) == Val(FastSum(Read(s, x), op, n.value), s);
    case FastNumberOp(n, op, x) =>
      NumeralValue(n, s);
      assert EvalRight(Strict(op), n.value, Name(x), s) == Val(FastSum(n.value, op, Read(s, x)), s);
  }

  /** Whatever the fast path accepts, the grammar accepts too, with the same value and no effect on
      the store, unless the text spells LONG_MIN; and that the grammar always rejects. */
  lemma FastAgrees(text: string, s: Store)
    requires Fast(text).Some?
    ensures var f := Fast(text).value;
            && (HasLongMin(f) <==> ParseText(text).None?)
            && (!HasLongMin(f) ==> Eval(ParseText(text).value, s) == Val(FastValue(f, s), s))
  {
    hide Fast, Eval, FastTree, ParseText, Tokens, FastValue;
    var f := Fast(text).value;
    FastTokens(text);
    if HasLongMin(f) {
      if ParseText(text).Some? {
        WellFormedText(text, ParseText(text).value);
        assert false;
      }
    } else {
      WellFormedText(text, FastTree(f));
      FastTreeValue(f, s);
    }
  }

  // ---------- arith_eval ----------

  lemma FirstToken(s: string)
    ensures var (t, e) := Lex(s, 0);
            Tokens(s, 0) == if t.End? then [] else if t.Bad? then [Bad] else [t] + Tokens(s, e)
  {
    hide Lex;
  }

  /** The outcome of the whole text, from the outcome of its outermost level. */
  lemma WholeText(s: string, before: Store, out: Operand, failed: bool, rest: seq<Token>, after: Store)
    requires Lex(s, 0).0.Bad? || Refines(Parse(ASSIGNMENT, Tokens(s, 0)), before, true, out, failed, rest, after)
    requires Lex(s, 0).0.Bad? ==> failed
    ensures !failed && rest == [] ==>
              ParseText(s).Some? && Eval(ParseText(s).value, before) == Val(out.value, after)
    ensures !failed && rest != [] ==> ParseText(s).None?
    ensures failed && ParseText(s).Some? ==>
              Eval(ParseText(s).value, before).Err? && Eval(ParseText(s).value, before).store == after
    ensures Parse(ASSIGNMENT, Tokens(s, 0)).Some? ==>
              Eval(Parse(ASSIGNMENT, Tokens(s, 0)).value.0, before).store == after
  {
    hide Parse, Eval, Lex;
    FirstToken(s);
    if Lex(s, 0).0.Bad? {
      NothingFromBad();
    }
  }

  lemma NothingFromBad()
    ensures Parse(ASSIGNMENT, [Bad]) == None
  {
    hide Parse;
    assert Sound([Bad]);
    ParsedIsPrinted(ASSIGNMENT, [Bad]);
    if Parse(ASSIGNMENT, [Bad]).Some? {
      BeginsWell(Parse(ASSIGNMENT, [Bad]).value.0, Parse(ASSIGNMENT, [Bad]).value.1);
      assert false;
    }
  }

  lemma BeginsWell(t: Tree, rest: seq<Token>)
    ensures !(TokensOf(t) + rest)[0].Bad?
  {
    assert (TokensOf(t) + rest)[0] == TokensOf(t)[0];
  }

  lemma TouchedNames(s: string, before: Store, rest: seq<Token>, after: Store)
    requires Touched(if Lex(s, 0).0.Bad? then [] else Tokens(s, 0), before, rest, after)
    ensures SameOutside(AssignedNames(Tokens(s, 0)), before, after)
  {
    hide Lex;
    FirstToken(s);
  }

  /** The value of the text, or None for the error return.

      A well-formed text is evaluated as its tree, errors included; a malformed one is an error,
      except for the fast forms that spell LONG_MIN.  Where a malformed text has a well-formed front with
      something left over behind it, the front has been evaluated when the error is found; where it breaks
      off inside, only names that it assigns have changed, and no read-only one. */
  method Evaluate(expr: string, before: Store) returns (value: Option<Long>, after: Store)
    ensures ParseText(expr).Some? ==>
              match Eval(ParseText(expr).value, before)
              case Val(v, s) => value == Some(v) && after == s
              case Err(_, s) => value == None && after == s
    ensures ParseText(expr).None? ==>
              (value.Some? <==> Fast(expr).Some? && HasLongMin(Fast(expr).value))
    ensures Fast(expr).Some? ==> value == Some(FastValue(Fast(expr).value, before)) && after == before
    ensures Fast(expr).None? && Parse(ASSIGNMENT, Tokens(expr, 0)).Some? ==>
              after == Eval(Parse(ASSIGNMENT, Tokens(expr, 0)).value.0, before).store
    ensures SameOutside(AssignedNames(Tokens(expr, 0)), before, after)
  {
    hide Fast, FastValue, Parse, Eval, Lex, Tokens, Succeeds, Fails, Touched, AssignedNames;
    var fast := Fast(expr);
    if fast.Some? {
      FastAgrees(expr, before);
      return Some(FastValue(fast.value, before)), before;
    }
    var p := new Parser(expr, before);
    p.NextToken();
    FirstToken(expr);
    var result := p.ParseAssignment(true);
    NothingTouched(if Lex(expr, 0).0.Bad? then [] else Tokens(expr, 0), before);
    TouchedNames(expr, before, p.Rest(), p.store);
    ghost var parsed := Parse(ASSIGNMENT, Tokens(expr, 0));
    assert p.failed ==> Lex(expr, 0).0.Bad? || Fails(parsed, before, true, p.store);
    WholeText(expr, before, result, p.failed, p.Rest(), p.store);
    if !p.failed && p.tok != End {
      p.Fail();
    }
    after := p.store;
    if p.failed {
      return None, after;
    }
    return Some(result.value), after;
  }
}
