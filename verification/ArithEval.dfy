/** What an arithmetic expression means: evaluation of its tree over the shell's variables. */
module ArithEval {
  import opened CLong
  import opened Common
  import opened Text
  import opened ArithSyntax

  /** The part of the shell state the evaluator touches.  `exit` holds the status of a requested exit. */
  datatype Store = Store(values: map<string, string>, readonly: set<string>, interactive: bool, exit: Option<int>)

  /** An unset variable, an empty one and one whose text is not a number read as zero. */
  function Read(s: Store, x: string): Long {
    if x !in s.values then 0
    else
      match ParseLong(s.values[x])
      case None => 0
      case Some(v) => v
  }

  datatype Outcome = Val(v: Long, store: Store) | Err(error: ArithError, store: Store)

  /** Assigning to a read-only variable fails, and makes a non-interactive shell exit. */
  function Write(s: Store, x: string, v: Long): Outcome {
    if x in s.readonly then Err(ReadOnly, if s.interactive then s else s.(exit := Some(1)))
    else Val(v, s.(values := s.values[x := LongText(v)]))
  }

  function Eval(t: Tree, s: Store): Outcome
    decreases t, 0
  {
    match t
    case Literal(n) => Val(n, s)
    case Name(x) => Val(Read(s, x), s)
    case Group(e) => Eval(e, s)
    case Prefix(op, e) =>
      (match Eval(e, s)
       case Err(error, s1) => Err(error, s1)
       case Val(a, s1) => Val(Unary(op, a), s1))
    case Binop(op, l, r) =>
      (match Eval(l, s)
       case Err(error, s1) => Err(error, s1)
       case Val(a, s1) => EvalRight(op, a, r, s1))
    case Cond(c, y, n) =>
      (match Eval(c, s)
       case Err(error, s1) => Err(error, s1)
       case Val(a, s1) => if a != 0 then Eval(y, s1) else Eval(n, s1))
    case Assignment(l, assign, r) =>
      (match Eval(l, s)
       case Err(error, s1) => Err(error, s1)
       case Val(a, s1) =>
         match Eval(r, s1)
         case Err(error, s2) => Err(error, s2)
         case Val(b, s2) =>
           if !l.Name? then Err(InvalidTarget, s2)
           else
             match Assigned(assign, a, b)
             case Error(error) => Err(error, s2)
             case Value(v) => Write(s2, l.name, v))
  }

  /** An infix operator whose left operand has the value `a`; `&&` and `||` may skip the right one. */
  function EvalRight(op: Infix, a: Long, r: Tree, s: Store): Outcome
    decreases r, 1
  {
    if op == AndAnd && a == 0 then Val(0, s)
    else if op == OrOr && a != 0 then Val(1, s)
    else
      match Eval(r, s)
      case Err(error, s1) => Err(error, s1)
      case Val(b, s1) =>
        match op
        case Strict(strict) =>
          (match Binary(strict, a, b)
           case Error(error) => Err(error, s1)
           case Value(v) => Val(v, s1))
        case _ => Val(Truth(b != 0), s1)
  }

  function Assigned(assign: AssignOp, a: Long, b: Long): LongResult {
    match assign
    case Plain => Value(b)
    case Compound(op) => Binary(op, a, b)
  }

  // ---------- laws ----------

  /** A value assigned is the value read back, whatever the text form in between. */
  lemma ReadAfterWrite(s: Store, x: string, y: string, v: Long)
    requires x !in s.readonly
    ensures Read(Write(s, x, v).store, y) == if y == x then v else Read(s, y)
  {
    ParseFormatted(v);
  }

  /** The variables an expression may assign. */
  function Targets(t: Tree): set<string> {
    match t
    case Literal(_) => {}
    case Name(_) => {}
    case Group(e) => Targets(e)
    case Prefix(_, e) => Targets(e)
    case Binop(_, l, r) => Targets(l) + Targets(r)
    case Cond(c, y, n) => Targets(c) + Targets(y) + Targets(n)
    case Assignment(l, _, r) => (if l.Name? then {l.name} else {}) + Targets(l) + Targets(r)
  }

  predicate SameOutside(names: set<string>, s: Store, s': Store) {
    && s'.readonly == s.readonly && s'.interactive == s.interactive
    && s'.values.Keys <= s.values.Keys + names
    && forall x :: x in s.values && (x !in names || x in s.readonly) ==> x in s'.values && s'.values[x] == s.values[x]
  }

  /** Evaluation changes only the variables assigned in the expression, and no read-only one. */
  lemma {:induction false} EvalFrame(t: Tree, s: Store)
    ensures SameOutside(Targets(t), s, Eval(t, s).store)
  {
    match t
    case Literal(_) =>
    case Name(_) =>
    case Group(e) => EvalFrame(e, s);
    case Prefix(_, e) => EvalFrame(e, s);
    case Binop(_, l, r) =>
      EvalFrame(l, s);
      EvalFrame(r, Eval(l, s).store);
    case Cond(c, y, n) =>
      EvalFrame(c, s);
      EvalFrame(y, Eval(c, s).store);
      EvalFrame(n, Eval(c, s).store);
    case Assignment(l, _, r) =>
      EvalFrame(l, s);
      EvalFrame(r, Eval(l, s).store);
  }
}
