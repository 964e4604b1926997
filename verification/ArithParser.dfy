/** The evaluator itself: one pass over the text that parses and evaluates at once, told by a flag
    whether the part it is in counts.  Every method is proved to do what building the tree and then
    evaluating it does, for every text, every store and both settings of the flag. */
module ArithParser {
  import opened CLong
  import opened Common
  import opened Text
  import opened ArithSyntax
  import opened ArithEval

  /** What a grammar level hands back: a value, and the variable it came from if it can be assigned. */
  datatype Operand = Operand(value: Long, target: Option<string>)

  function TargetOf(t: Tree): Option<string> {
    if t.Name? then Some(t.name) else None
  }

  // ---------- the refinement relation ----------

  /** A level that ended in failure: either the tokens are malformed there, or the level counts and
      evaluating its tree is an error that leaves exactly this store.
      A part that does not count changes no variable, whether it is well formed or not. */
  ghost predicate Fails(parsed: Parsed, before: Store, eval: bool, after: Store) {
    && (!eval ==> after == before)
    && (parsed.Some? ==>
          && eval
          && Eval(parsed.value.0, before).Err?
          && Eval(parsed.value.0, before).store == after)
  }

  /** A level that ended well: it took the tokens of its tree and, if it counts, evaluated that tree. */
  ghost predicate Succeeds(parsed: Parsed, before: Store, eval: bool,
                           out: Operand, rest: seq<Token>, after: Store)
  {
    && parsed.Some? && parsed.value.1 == rest
    && (!eval ==> after == before)
    && (eval ==> Eval(parsed.value.0, before) == Val(out.value, after) && out.target == TargetOf(parsed.value.0))
  }

  /** One grammar level, started without a failure before `before`, ended with `out`, `failed`, `rest`
      and `after`.  `parsed` is what the tree builder makes of the same tokens. */
  ghost predicate Refines(parsed: Parsed, before: Store, eval: bool,
                          out: Operand, failed: bool, rest: seq<Token>, after: Store)
  {
    if failed then Fails(parsed, before, eval, after)
    else Succeeds(parsed, before, eval, out, rest, after)
  }

  // ---------- left-associative levels ----------

  /** The state between two operands: `left` stands for the tree `done`. */
  ghost predicate Between(level: nat, ts: seq<Token>, before: Store, eval: bool,
                          done: Tree, left: Operand, failed: bool, rest: seq<Token>, after: Store)
    requires 2 <= level <= LOGICAL_OR
  {
    if failed then Fails(Parse(level, ts), before, eval, after)
    else
      && (!eval ==> after == before)
      && Parse(level, ts) == ParseRest(level, done, rest)
      && (eval ==> Eval(done, before) == Val(left.value, after) && left.target == TargetOf(done))
  }

  /** Operands further right cannot undo an error further left. */
  lemma {:induction false} ErrorStays(level: nat, left: Tree, ts: seq<Token>, s: Store)
    requires 2 <= level <= LOGICAL_OR
    requires ParseRest(level, left, ts).Some? && Eval(left, s).Err?
    ensures Eval(ParseRest(level, left, ts).value.0, s) == Eval(left, s)
    decreases |ts|
  {
    if AtLevel(level, ts) {
      var operand := Next(ts).value;
      var (right, rest) := Parse(level - 1, operand).value;
      ErrorStays(level, Binop(ts[0].op, left, right), rest, s);
    }
  }

  lemma LevelStarts(level: nat, ts: seq<Token>, before: Store, eval: bool,
                    left: Operand, failed: bool, rest: seq<Token>, after: Store) returns (done: Tree)
    requires 2 <= level <= LOGICAL_OR
    requires Refines(Parse(level - 1, ts), before, eval, left, failed, rest, after)
    ensures Between(level, ts, before, eval, done, left, failed, rest, after)
  {
    if Parse(level - 1, ts).None? {
      done := Literal(0);
    } else {
      var r := Parse(level - 1, ts).value;
      done := r.0;
      if failed && Parse(level, ts).Some? {
        ErrorStays(level, done, r.1, before);
      }
    }
  }

  lemma FailureStays(level: nat, ts: seq<Token>, before: Store, eval: bool,
                     done: Tree, left: Operand, rest: seq<Token>, rest': seq<Token>, after: Store)
    requires 2 <= level <= LOGICAL_OR
    requires Between(level, ts, before, eval, done, left, true, rest, after)
    ensures forall out :: Between(level, ts, before, eval, done, out, true, rest', after)
  {
  }

  lemma LevelEnds(level: nat, ts: seq<Token>, before: Store, eval: bool,
                  done: Tree, left: Operand, failed: bool, rest: seq<Token>, after: Store)
    requires 2 <= level <= LOGICAL_OR
    requires Between(level, ts, before, eval, done, left, failed, rest, after)
    requires failed || !AtLevel(level, rest)
    ensures Refines(Parse(level, ts), before, eval, left, failed, rest, after)
  {
  }

  /** The value an infix operator gives its two operands; it is not looked at where a side is skipped. */
  function Combine(op: Infix, a: Long, b: Long): LongResult {
    match op
    case Strict(strict) => Binary(strict, a, b)
    case AndAnd => Value(Truth(a != 0 && b != 0))
    case OrOr => Value(Truth(a != 0 || b != 0))
  }

  /** Whether the right operand counts. */
  predicate RightEval(op: Infix, eval: bool, a: Long) {
    eval && (op == AndAnd ==> a != 0) && (op == OrOr ==> a == 0)
  }

  /** One operator and its right operand: `advanced` says whether the token behind the operator was sound. */
  lemma OperandTaken(level: nat, ts: seq<Token>, before: Store, eval: bool,
                     done: Tree, left: Operand, rest: seq<Token>, middle: Store,
                     advanced: bool, right: Operand, failed: bool, rest': seq<Token>, after: Store)
    returns (done': Tree)
    requires 2 <= level <= LOGICAL_OR
    requires Between(level, ts, before, eval, done, left, false, rest, middle)
    requires AtLevel(level, rest)
    requires advanced == Next(rest).Some?
    requires !advanced ==> failed && after == middle
    requires advanced ==>
               Refines(Parse(level - 1, Next(rest).value), middle, RightEval(rest[0].op, eval, left.value),
                       right, failed, rest', after)
    ensures (failed || (eval && Combine(rest[0].op, left.value, right.value).Error?)) ==>
              Fails(Parse(level, ts), before, eval, after)
    ensures !failed && (eval ==> Combine(rest[0].op, left.value, right.value).Value?) ==>
              forall v: Long :: (eval ==> v == Combine(rest[0].op, left.value, right.value).value) ==>
                Between(level, ts, before, eval, done', Operand(v, None), false, rest', after)
  {
    done' := done;
    if advanced && Parse(level - 1, Next(rest).value).Some? {
      var (operand, tail) := Parse(level - 1, Next(rest).value).value;
      done' := Binop(rest[0].op, done, operand);
      assert Parse(level, ts) == ParseRest(level, done', tail);
      if eval {
        assert Eval(done, before) == Val(left.value, middle);
        assert Eval(done', before) == EvalRight(rest[0].op, left.value, operand, middle);
        if failed {
          assert Eval(done', before).Err? && Eval(done', before).store == after;
        }
      }
      if eval && Eval(done', before).Err? && Parse(level, ts).Some? {
        ErrorStays(level, done', tail, before);
      }
    }
  }

  // ---------- `?:` ----------

  lemma TestParsed(ts: seq<Token>, before: Store, eval: bool,
                   cond: Operand, failed: bool, rest: seq<Token>, after: Store)
    requires Refines(Parse(LOGICAL_OR, ts), before, eval, cond, failed, rest, after)
    ensures failed ==> Fails(Parse(CONDITIONAL, ts), before, eval, after)
    ensures !failed && !Head(rest, Question) ==>
              Refines(Parse(CONDITIONAL, ts), before, eval, cond, failed, rest, after)
    ensures !failed && Head(rest, Question) && Next(rest).None? ==> Fails(Parse(CONDITIONAL, ts), before, eval, after)
  {
  }

  lemma YesParsed(ts: seq<Token>, before: Store, eval: bool,
                  cond: Operand, question: seq<Token>, tested: Store,
                  yes: Operand, failed: bool, rest: seq<Token>, after: Store)
    requires Succeeds(Parse(LOGICAL_OR, ts), before, eval, cond, question, tested)
    requires Head(question, Question) && Next(question).Some?
    requires Refines(Parse(ASSIGNMENT, Next(question).value), tested, eval && cond.value != 0, yes, failed, rest, after)
    ensures failed || !Head(rest, Colon) || Next(rest).None? ==> Fails(Parse(CONDITIONAL, ts), before, eval, after)
  {
  }

  lemma NoParsed(ts: seq<Token>, before: Store, eval: bool,
                 cond: Operand, question: seq<Token>, tested: Store,
                 yes: Operand, colon: seq<Token>, chosen: Store,
                 no: Operand, failed: bool, rest: seq<Token>, after: Store)
    requires Succeeds(Parse(LOGICAL_OR, ts), before, eval, cond, question, tested)
    requires Head(question, Question) && Next(question).Some?
    requires Succeeds(Parse(ASSIGNMENT, Next(question).value), tested, eval && cond.value != 0, yes, colon, chosen)
    requires Head(colon, Colon) && Next(colon).Some?
    requires Refines(Parse(CONDITIONAL, Next(colon).value), chosen, eval && cond.value == 0, no, failed, rest, after)
    ensures failed ==> Fails(Parse(CONDITIONAL, ts), before, eval, after)
    ensures !failed ==>
              forall v: Long :: (eval ==> v == if cond.value != 0 then yes.value else no.value) ==>
                Succeeds(Parse(CONDITIONAL, ts), before, eval, Operand(v, None), rest, after)
  {
  }

  // ---------- assignment ----------

  lemma TargetParsed(ts: seq<Token>, before: Store, eval: bool,
                     left: Operand, failed: bool, rest: seq<Token>, after: Store)
    requires Refines(Parse(CONDITIONAL, ts), before, eval, left, failed, rest, after)
    ensures failed ==> Fails(Parse(ASSIGNMENT, ts), before, eval, after)
    ensures !failed && !(rest != [] && rest[0].Assign?) ==>
              Refines(Parse(ASSIGNMENT, ts), before, eval, left, failed, rest, after)
    ensures !failed && rest != [] && rest[0].Assign? && Next(rest).None? ==>
              Fails(Parse(ASSIGNMENT, ts), before, eval, after)
  {
  }

  /** What an assignment does once both sides are known. */
  function AssignOutcome(left: Operand, assign: AssignOp, right: Operand, s: Store): Outcome {
    if left.target.None? then Err(InvalidTarget, s)
    else
      match Assigned(assign, left.value, right.value)
      case Error(error) => Err(error, s)
      case Value(v) => Write(s, left.target.value, v)
  }

  lemma SourceParsed(ts: seq<Token>, before: Store, eval: bool,
                     left: Operand, assign: seq<Token>, middle: Store,
                     right: Operand, failed: bool, rest: seq<Token>, after: Store)
    requires Succeeds(Parse(CONDITIONAL, ts), before, eval, left, assign, middle)
    requires assign != [] && assign[0].Assign? && Next(assign).Some?
    requires Refines(Parse(ASSIGNMENT, Next(assign).value), middle, eval, right, failed, rest, after)
    ensures failed ==> Fails(Parse(ASSIGNMENT, ts), before, eval, after)
    ensures !failed && !eval ==>
              forall out :: Succeeds(Parse(ASSIGNMENT, ts), before, eval, out, rest, after)
    ensures !failed && eval ==>
              match AssignOutcome(left, assign[0].assign, right, after)
              case Err(_, s) => Fails(Parse(ASSIGNMENT, ts), before, eval, s)
              case Val(v, s) => Succeeds(Parse(ASSIGNMENT, ts), before, eval, Operand(v, None), rest, s)
  {
  }

  // ---------- prefix operators and primaries ----------

  lemma ArgumentParsed(ts: seq<Token>, before: Store, eval: bool,
                       advanced: bool, arg: Operand, failed: bool, rest: seq<Token>, after: Store)
    requires ts != [] && PrefixOf(ts[0]).Some?
    requires advanced == Next(ts).Some?
    requires !advanced ==> failed && after == before
    requires advanced ==> Refines(Parse(UNARY, Next(ts).value), before, eval, arg, failed, rest, after)
    ensures failed ==> Fails(Parse(UNARY, ts), before, eval, after)
    ensures !failed ==>
              forall v: Long :: (eval ==> v == Unary(PrefixOf(ts[0]).value, arg.value)) ==>
                Succeeds(Parse(UNARY, ts), before, eval, Operand(v, None), rest, after)
  {
  }

  lemma GroupParsed(ts: seq<Token>, before: Store, eval: bool,
                    advanced: bool, inner: Operand, failed: bool, close: seq<Token>, after: Store)
    requires Head(ts, LParen)
    requires advanced == Next(ts).Some?
    requires !advanced ==> failed && after == before
    requires advanced ==> Refines(Parse(ASSIGNMENT, Next(ts).value), before, eval, inner, failed, close, after)
    ensures failed || !Head(close, RParen) || Next(close).None? ==> Fails(Parse(PRIMARY, ts), before, eval, after)
    ensures !failed && Head(close, RParen) && Next(close).Some? ==>
              Succeeds(Parse(PRIMARY, ts), before, eval, inner.(target := None), Next(close).value, after)
  {
  }

  lemma NoPrimary(ts: seq<Token>, before: Store, eval: bool)
    requires ts == [] || !(ts[0].Number? || ts[0].Ident? || ts[0].LParen?)
    ensures Fails(Parse(PRIMARY, ts), before, eval, before)
  {
  }

  lemma NotPrefix(ts: seq<Token>)
    requires ts == [] || PrefixOf(ts[0]).None?
    ensures Parse(UNARY, ts) == Parse(PRIMARY, ts)
  {
  }

  lemma LeafParsed(ts: seq<Token>, before: Store, eval: bool, out: Operand)
    requires ts != []
    requires match ts[0]
             case Number(n) => out == Operand(n, None)
             case Ident(x) => out.target == Some(x) && (eval ==> out.value == Read(before, x))
             case _ => false
    ensures Next(ts).None? ==> Fails(Parse(PRIMARY, ts), before, eval, before)
    ensures Next(ts).Some? ==> Succeeds(Parse(PRIMARY, ts), before, eval, out, Next(ts).value, before)
  {
  }

  // ---------- what a text can touch, well formed or not ----------

  /** The names that stand right in front of an assignment operator. */
  function AssignedNames(ts: seq<Token>): set<string> {
    if |ts| < 2 then {}
    else (if ts[0].Ident? && ts[1].Assign? then {ts[0].name} else {}) + AssignedNames(ts[1..])
  }

  /** Between two places in a token list only names assigned there have changed, and no read-only one. */
  ghost predicate Touched(ts: seq<Token>, before: Store, rest: seq<Token>, after: Store) {
    |rest| <= |ts| && ts[|ts| - |rest|..] == rest && SameOutside(AssignedNames(ts), before, after)
  }

  lemma {:induction false} NamesOfSuffix(ts: seq<Token>, k: nat)
    requires k <= |ts|
    ensures AssignedNames(ts[k..]) <= AssignedNames(ts)
  {
    if k > 0 {
      NamesOfSuffix(ts[1..], k - 1);
      assert ts[1..][k - 1..] == ts[k..];
      if |ts| < 2 {
        assert |ts[k..]| < 2;
      }
    } else {
      assert ts[0..] == ts;
    }
  }

  lemma Untouched(ts: seq<Token>, k: nat, s: Store)
    requires k <= |ts|
    ensures Touched(ts, s, ts[k..], s) && Touched(ts, s, [], s)
  {
  }

  lemma NothingTouched(ts: seq<Token>, s: Store)
    ensures Touched(ts, s, ts, s)
  {
    Untouched(ts, 0, s);
    assert ts[0..] == ts;
  }

  lemma TouchedBoth(ts: seq<Token>, before: Store, mid: seq<Token>, middle: Store, rest: seq<Token>, after: Store)
    requires Touched(ts, before, mid, middle) && Touched(mid, middle, rest, after)
    ensures Touched(ts, before, rest, after)
  {
    hide AssignedNames;
    NamesOfSuffix(ts, |ts| - |mid|);
    assert ts[|ts| - |mid|..][|mid| - |rest|..] == ts[|ts| - |rest|..];
  }

  lemma TouchedAlong(ts: seq<Token>, before: Store, rest: seq<Token>, after: Store)
    requires Touched(ts, before, rest, after)
    ensures forall t, s :: Touched(t, s, ts, before) ==> Touched(t, s, rest, after)
  {
    hide Touched;
    forall t, s | Touched(t, s, ts, before) ensures Touched(t, s, rest, after) {
      TouchedBoth(t, s, ts, before, rest, after);
    }
  }

  lemma {:induction false} OperandsFollow(level: nat, left: Tree, ts: seq<Token>)
    requires 2 <= level <= LOGICAL_OR && ParseRest(level, left, ts).Some?
    ensures AtLevel(level, ts) ==> ParseRest(level, left, ts).value.0.Binop?
    decreases |ts|
  {
    if AtLevel(level, ts) {
      var (right, rest) := Parse(level - 1, Next(ts).value).value;
      OperandsFollow(level, Binop(ts[0].op, left, right), rest);
    }
  }

  /** A level that gives a name has taken just that name. */
  lemma {:induction false} NameAlone(level: nat, ts: seq<Token>)
    requires level <= CONDITIONAL && Parse(level, ts).Some? && Parse(level, ts).value.0.Name?
    ensures ts == [Ident(Parse(level, ts).value.0.name)] + Parse(level, ts).value.1
  {
    if 2 <= level <= LOGICAL_OR {
      var (l, rest) := Parse(level - 1, ts).value;
      OperandsFollow(level, l, rest);
    }
    if level > PRIMARY {
      NameAlone(level - 1, ts);
    }
  }

  /** The one place where a variable is written. */
  lemma WriteTouches(ts: seq<Token>, before: Store, left: Operand, rest: seq<Token>, middle: Store,
                     last: seq<Token>, after: Store, v: Long)
    requires Succeeds(Parse(CONDITIONAL, ts), before, true, left, rest, middle)
    requires left.target.Some? && rest != [] && rest[0].Assign?
    requires Touched(ts, before, last, after)
    ensures Touched(ts, before, last, Write(after, left.target.value, v).store)
  {
    hide Parse, Eval;
    NameAlone(CONDITIONAL, ts);
    var x := left.target.value;
    assert ts[0] == Ident(x) && ts[1] == rest[0];
    assert x in AssignedNames(ts);
  }

  // ---------- the parser ----------

  class Parser {
    const src: string
    var pos: nat
    var tok: Token
    var store: Store
    var failed: bool

    ghost predicate Valid()
      reads this
    {
      pos <= |src| && !tok.Bad?
    }

    /** The tokens not yet taken, the current one included. */
    ghost function Rest(): seq<Token>
      requires Valid()
      reads this
    {
      if tok.End? then [] else [tok] + Tokens(src, pos)
    }

    ghost function Measure(): nat
      requires Valid()
      reads this
    {
      |src| - pos + (if tok.End? then 0 else 1)
    }

    constructor (src: string, store: Store)
      ensures this.src == src && this.store == store
      ensures Valid() && pos == 0 && tok.End? && !failed
    {
      this.src := src;
      pos := 0;
      tok := End;
      this.store := store;
      failed := false;
    }

    // ---------- next_token ----------

    method SkipSpaces()
      requires Valid()
      modifies this`pos
      ensures pos == SpaceEnd(src, old(pos))
    {
      while IsSpace(At(src, pos))
        invariant old(pos) <= pos <= |src|
        invariant SpaceEnd(src, pos) == SpaceEnd(src, old(pos))
        decreases |src| - pos
      {
        pos := pos + 1;
      }
    }

    method ScanName() returns (name: string)
      requires Valid() && IsNameStart(At(src, pos))
      modifies this`pos
      ensures pos == NameEnd(src, old(pos) + 1) && name == src[old(pos)..pos]
    {
      var len := 1;
      while IsNameChar(At(src, pos + len))
        invariant 1 <= len && pos + len <= |src|
        invariant NameEnd(src, pos + len) == NameEnd(src, old(pos) + 1)
        decreases |src| - len
      {
        len := len + 1;
      }
      name := src[pos..pos + len];
      pos := pos + len;
    }

    method NextToken()
      requires Valid()
      modifies this`pos, this`tok, this`failed
      ensures Valid() && pos == Lex(src, old(pos)).1
      ensures var t := Lex(src, old(pos)).0;
              if t.Bad? then failed && tok == End else failed == old(failed) && tok == t
    {
      SkipSpaces();
      tok := End;
      var c := At(src, pos);
      if c == '\0' {
        return;
      }
      if IsDigit(c) {
        var conversion := Strtol(src, pos);
        if conversion.end == pos || conversion.range {
          failed := true;
          return;
        }
        tok := Number(conversion.value);
        pos := conversion.end;
        return;
      }
      if IsNameStart(c) {
        var name := ScanName();
        tok := Ident(name);
        return;
      }
      var (operator, len) := OperatorAt(src, pos);
      if len == 0 {
        failed := true;
        pos := pos + 1;
        return;
      }
      tok := operator;
      pos := pos + len;
    }

    /** Taking a token, seen from the token list. */
    method Advance()
      requires Valid() && !tok.End?
      modifies this`pos, this`tok, this`failed
      ensures Valid() && Measure() < old(Measure())
      ensures old(failed) ==> failed
      ensures !old(failed) ==> failed == Next(old(Rest())).None?
      ensures !failed ==> Next(old(Rest())) == Some(Rest())
      ensures forall t, s :: Touched(t, s, old(Rest()), store) ==> Touched(t, s, Rest(), store)
    {
      ghost var ts := Rest();
      assert ts[1..] == Tokens(src, pos);
      NextToken();
      Untouched(ts, 1, store);
      TouchedAlong(ts, store, Rest(), store);
    }

    method Fail()
      modifies this`failed
      ensures failed
    {
      failed := true;
    }

    // ---------- grammar levels, tightest first ----------

    method ParsePrimary(eval: bool) returns (out: Operand)
      requires Valid()
      modifies this
      ensures Valid() && Measure() <= old(Measure())
      ensures old(failed) ==> failed && store == old(store)
      ensures forall t, s :: Touched(t, s, old(Rest()), old(store)) ==> Touched(t, s, Rest(), store)
      ensures !old(failed) ==> Refines(Parse(PRIMARY, old(Rest())), old(store), eval, out, failed, Rest(), store)
      decreases Measure(), 0
    {
      hide Touched, AssignedNames, Tokens, Parse, Eval, Succeeds, Fails, Next;
      ghost var ts, before := Rest(), store;
      if tok.Number? {
        out := Operand(tok.n, None);
        LeafParsed(ts, before, eval, out);
        Advance();
      } else if tok.Ident? {
        out := Operand(0, Some(tok.name));
        if eval {
          out := Operand(Read(store, tok.name), Some(tok.name));
        }
        LeafParsed(ts, before, eval, out);
        Advance();
      } else if tok == LParen {
        Advance();
        ghost var advanced := !failed;
        out := ParseAssignment(eval);
        if !old(failed) {
          GroupParsed(ts, before, eval, advanced, out, failed, Rest(), store);
        }
        out := out.(target := None);
        if tok != RParen {
          Fail();
          out := Operand(0, None);
        } else {
          Advance();
        }
      } else {
        NoPrimary(ts, before, eval);
        Fail();
        out := Operand(0, None);
      }
    }

    method ParseUnary(eval: bool) returns (out: Operand)
      requires Valid()
      modifies this
      ensures Valid() && Measure() <= old(Measure())
      ensures old(failed) ==> failed && store == old(store)
      ensures forall t, s :: Touched(t, s, old(Rest()), old(store)) ==> Touched(t, s, Rest(), store)
      ensures !old(failed) ==> Refines(Parse(UNARY, old(Rest())), old(store), eval, out, failed, Rest(), store)
      decreases Measure(), 1
    {
      hide Touched, AssignedNames, Tokens, Parse, Eval, Succeeds, Fails, Next;
      ghost var ts, before := Rest(), store;
      var op := PrefixOf(tok);
      if op.None? {
        NotPrefix(ts);
        out := ParsePrimary(eval);
        return;
      }
      Advance();
      ghost var advanced := !failed;
      out := ParseUnary(eval);
      if !old(failed) {
        ArgumentParsed(ts, before, eval, advanced, out, failed, Rest(), store);
      }
      out := out.(target := None);
      if !eval || failed {
        return;
      }
      out := out.(value := Unary(op.value, out.value));
    }

    /** The eight levels from `*` to `|`: one loop, with the operators and errors of the level's table rows. */
    method ParseStrict(level: nat, eval: bool) returns (left: Operand)
      requires Valid() && 2 <= level < LOGICAL_AND
      modifies this
      ensures Valid() && Measure() <= old(Measure())
      ensures old(failed) ==> failed && store == old(store)
      ensures forall t, s :: Touched(t, s, old(Rest()), old(store)) ==> Touched(t, s, Rest(), store)
      ensures !old(failed) ==> Refines(Parse(level, old(Rest())), old(store), eval, left, failed, Rest(), store)
      decreases Measure(), level
    {
      hide Touched, AssignedNames, Tokens, Parse, ParseRest, Eval, Succeeds, Fails, Next;
      ghost var ts, before := Rest(), store;
      if level == 2 {
        left := ParseUnary(eval);
      } else {
        left := ParseStrict(level - 1, eval);
      }
      ghost var done := Literal(0);
      if !old(failed) {
        done := LevelStarts(level, ts, before, eval, left, failed, Rest(), store);
      }
      while tok.Op? && OpLevel(tok.op) == level
        invariant Valid() && Measure() <= old(Measure())
        invariant old(failed) ==> failed && store == before
        invariant forall t, s :: Touched(t, s, ts, before) ==> Touched(t, s, Rest(), store)
        invariant !old(failed) ==> Between(level, ts, before, eval, done, left, failed, Rest(), store)
        decreases Measure()
      {
        var op := tok.op.op;
        ghost var wasFailed, rest, middle := failed, Rest(), store;
        Advance();
        ghost var advanced := !failed;
        var right: Operand;
        if level == 2 {
          right := ParseUnary(eval);
        } else {
          right := ParseStrict(level - 1, eval);
        }
        if !wasFailed {
          done := OperandTaken(level, ts, before, eval, done, left, rest, middle,
                               advanced, right, failed, Rest(), store);
        } else if !old(failed) {
          FailureStays(level, ts, before, eval, done, left, rest, Rest(), store);
        }
        if !eval || failed {
          left := left.(target := None);
          continue;
        }
        match Binary(op, left.value, right.value)
        case Error(_) =>
          Fail();
          left := Operand(0, None);
          return;
        case Value(v) =>
          left := Operand(v, None);
      }
      if !old(failed) {
        LevelEnds(level, ts, before, eval, done, left, failed, Rest(), store);
      }
    }

    method ParseLogicalAnd(eval: bool) returns (left: Operand)
      requires Valid()
      modifies this
      ensures Valid() && Measure() <= old(Measure())
      ensures old(failed) ==> failed && store == old(store)
      ensures forall t, s :: Touched(t, s, old(Rest()), old(store)) ==> Touched(t, s, Rest(), store)
      ensures !old(failed) ==> Refines(Parse(LOGICAL_AND, old(Rest())), old(store), eval, left, failed, Rest(), store)
      decreases Measure(), LOGICAL_AND
    {
      hide Touched, AssignedNames, Tokens, Parse, ParseRest, Eval, Succeeds, Fails, Next;
      ghost var ts, before := Rest(), store;
      left := ParseStrict(LOGICAL_AND - 1, eval);
      ghost var done := Literal(0);
      if !old(failed) {
        done := LevelStarts(LOGICAL_AND, ts, before, eval, left, failed, Rest(), store);
      }
      while tok == Op(AndAnd)
        invariant Valid() && Measure() <= old(Measure())
        invariant old(failed) ==> failed && store == before
        invariant forall t, s :: Touched(t, s, ts, before) ==> Touched(t, s, Rest(), store)
        invariant !old(failed) ==> Between(LOGICAL_AND, ts, before, eval, done, left, failed, Rest(), store)
        decreases Measure()
      {
        ghost var wasFailed, rest, middle := failed, Rest(), store;
        Advance();
        ghost var advanced := !failed;
        var rightEval := eval && left.value != 0;
        var right := ParseStrict(LOGICAL_AND - 1, rightEval);
        if !wasFailed {
          done := OperandTaken(LOGICAL_AND, ts, before, eval, done, left, rest, middle,
                               advanced, right, failed, Rest(), store);
        } else if !old(failed) {
          FailureStays(LOGICAL_AND, ts, before, eval, done, left, rest, Rest(), store);
        }
        if eval && !failed {
          left := left.(value := Truth(left.value != 0 && right.value != 0));
        }
        left := left.(target := None);
      }
      if !old(failed) {
        LevelEnds(LOGICAL_AND, ts, before, eval, done, left, failed, Rest(), store);
      }
    }

    method ParseLogicalOr(eval: bool) returns (left: Operand)
      requires Valid()
      modifies this
      ensures Valid() && Measure() <= old(Measure())
      ensures old(failed) ==> failed && store == old(store)
      ensures forall t, s :: Touched(t, s, old(Rest()), old(store)) ==> Touched(t, s, Rest(), store)
      ensures !old(failed) ==> Refines(Parse(LOGICAL_OR, old(Rest())), old(store), eval, left, failed, Rest(), store)
      decreases Measure(), LOGICAL_OR
    {
      hide Touched, AssignedNames, Tokens, Parse, ParseRest, Eval, Succeeds, Fails, Next;
      ghost var ts, before := Rest(), store;
      left := ParseLogicalAnd(eval);
      ghost var done := Literal(0);
      if !old(failed) {
        done := LevelStarts(LOGICAL_OR, ts, before, eval, left, failed, Rest(), store);
      }
      while tok == Op(OrOr)
        invariant Valid() && Measure() <= old(Measure())
        invariant old(failed) ==> failed && store == before
        invariant forall t, s :: Touched(t, s, ts, before) ==> Touched(t, s, Rest(), store)
        invariant !old(failed) ==> Between(LOGICAL_OR, ts, before, eval, done, left, failed, Rest(), store)
        decreases Measure()
      {
        ghost var wasFailed, rest, middle := failed, Rest(), store;
        Advance();
        ghost var advanced := !failed;
        var rightEval := eval && left.value == 0;
        var right := ParseLogicalAnd(rightEval);
        if !wasFailed {
          done := OperandTaken(LOGICAL_OR, ts, before, eval, done, left, rest, middle,
                               advanced, right, failed, Rest(), store);
        } else if !old(failed) {
          FailureStays(LOGICAL_OR, ts, before, eval, done, left, rest, Rest(), store);
        }
        if eval && !failed {
          left := left.(value := Truth(left.value != 0 || right.value != 0));
        }
        left := left.(target := None);
      }
      if !old(failed) {
        LevelEnds(LOGICAL_OR, ts, before, eval, done, left, failed, Rest(), store);
      }
    }

    method ParseConditional(eval: bool) returns (cond: Operand)
      requires Valid()
      modifies this
      ensures Valid() && Measure() <= old(Measure())
      ensures old(failed) ==> failed && store == old(store)
      ensures forall t, s :: Touched(t, s, old(Rest()), old(store)) ==> Touched(t, s, Rest(), store)
      ensures !old(failed) ==> Refines(Parse(CONDITIONAL, old(Rest())), old(store), eval, cond, failed, Rest(), store)
      decreases Measure(), CONDITIONAL
    {
      hide Touched, AssignedNames, Tokens, Parse, Eval, Succeeds, Fails, Next;
      ghost var ts, before := Rest(), store;
      cond := ParseLogicalOr(eval);
      ghost var question, tested := Rest(), store;
      if !old(failed) {
        TestParsed(ts, before, eval, cond, failed, question, tested);
      }
      if tok == Question {
        Advance();
        ghost var counting := !failed;
        var trueEval := eval && cond.value != 0;
        var falseEval := eval && cond.value == 0;
        var onTrue := ParseAssignment(trueEval);
        ghost var colon, chosen := Rest(), store;
        if counting {
          YesParsed(ts, before, eval, cond, question, tested, onTrue, failed, colon, chosen);
          counting := !failed;
        }
        if tok != Colon {
          Fail();
          cond := Operand(0, None);
          return;
        }
        Advance();
        counting := counting && !failed;
        var onFalse := ParseConditional(falseEval);
        if counting {
          NoParsed(ts, before, eval, cond, question, tested, onTrue, colon, chosen, onFalse, failed, Rest(), store);
        }
        if eval && !failed {
          cond := cond.(value := if cond.value != 0 then onTrue.value else onFalse.value);
        }
        cond := cond.(target := None);
      }
    }

    method ParseAssignment(eval: bool) returns (out: Operand)
      requires Valid()
      modifies this
      ensures Valid() && Measure() <= old(Measure())
      ensures old(failed) ==> failed && store == old(store)
      ensures forall t, s :: Touched(t, s, old(Rest()), old(store)) ==> Touched(t, s, Rest(), store)
      ensures !old(failed) ==> Refines(Parse(ASSIGNMENT, old(Rest())), old(store), eval, out, failed, Rest(), store)
      decreases Measure(), ASSIGNMENT
    {
      hide Touched, AssignedNames, Tokens, Parse, Eval, Succeeds, Fails, Next;
      ghost var ts, before := Rest(), store;
      var left := ParseConditional(eval);
      ghost var rest, middle := Rest(), store;
      if !old(failed) {
        TargetParsed(ts, before, eval, left, failed, rest, middle);
      }
      if !tok.Assign? {
        out := left;
        return;
      }
      var assign := tok.assign;
      Advance();
      ghost var counting := !failed;
      var right := ParseAssignment(eval);
      out := Operand(0, None);
      if counting {
        SourceParsed(ts, before, eval, left, rest, middle, right, failed, Rest(), store);
      }
      if !eval || failed {
        return;
      }
      if left.target.None? {
        Fail();
        return;
      }
      match Assigned(assign, left.value, right.value)
      case Error(_) =>
        Fail();
      case Value(v) =>
        NothingTouched(ts, before);
        WriteTouches(ts, before, left, rest, middle, Rest(), store, v);
        TouchedAlong(ts, before, Rest(), Write(store, left.target.value, v).store);
        match Write(store, left.target.value, v)
        case Err(_, s) =>
          store := s;
          Fail();
        case Val(_, s) =>
          store := s;
          out := Operand(v, None);
    }
  }
}
