/** Control flow of the AST interpreter.

    The interpreter keeps `break`, `continue`, `return` and `exit` as counters and flags in the shell
    state and looks at them after every command.  Here that is proved to implement a semantics in
    which every command ends with a completion. */
module Control {
  import opened Common

  datatype Node<C> =
    | Empty
    | Simple(command: C)
    | Sequence(items: seq<Node<C>>)
    | AndOr(first: Node<C>, ops: seq<AndOrOp>, rest: seq<Node<C>>)
    | Negated(child: Node<C>)
    | If(test: Node<C>, yes: Node<C>, no: OptionalNode<C>)
    | Loop(until: bool, test: Node<C>, body: Node<C>)
    | For(words: C, body: Node<C>)
    | Redirected(redirs: C, compound: Node<C>)

  datatype OptionalNode<C> = NoNode | SomeNode(node: Node<C>)

  /** The shell state apart from the control flags.  `world` is everything commands can see or change. */
  datatype Data<W> = Data(world: W, lastStatus: int, exitStatus: int,
                          errexit: bool, errexitIgnored: bool, interactive: bool)

  /** What a simple command asks of the interpreter. */
  type Count = n: nat | n > 0 witness 1

  datatype Request = Proceed | BreakOut(n: Count) | ContinueAt(n: Count) | Return | Exit

  datatype Effect<W> = Effect(data: Data<W>, status: int, request: Request)

  /** Commands, word expansion, the assignment of a loop variable and the redirections of a compound command
      are parameters.  `restore` undoes redirections, from the state behind `redirect` and the present one. */
  datatype Ops<!W, !C> = Ops(
    run: (Data<W>, C) -> Effect<W>,
    expand: (Data<W>, C) -> (Data<W>, Option<seq<string>>),
    bind: (Data<W>, C, string) -> (Data<W>, bool),
    redirect: (Data<W>, C) -> (Data<W>, bool),
    restore: (Data<W>, Data<W>, C) -> Data<W>)

  // ---------- the interpreter's state ----------

  datatype State<W> = State(data: Data<W>, shouldExit: bool, returnRequested: bool,
                            breakLevels: nat, continueLevels: nat, loopDepth: nat)

  predicate PendingFlow<W>(s: State<W>) {
    s.breakLevels > 0 || s.continueLevels > 0 || s.returnRequested
  }

  predicate Stopped<W>(s: State<W>) {
    s.shouldExit || PendingFlow(s)
  }

  function WithErrexit<W>(s: State<W>, errexit: bool): State<W> {
    s.(data := s.data.(errexit := errexit))
  }

  predicate Triggers<W>(d: Data<W>, status: int) {
    status != 0 && d.errexit && !d.interactive && !d.errexitIgnored
  }

  function MaybeErrexit<W>(s: State<W>, status: int): State<W> {
    if Triggers(s.data, status) && !s.shouldExit && !PendingFlow(s)
    then s.(shouldExit := true, data := s.data.(exitStatus := status))
    else s
  }

  /** The `break` and `continue` built-ins fail outside a loop; inside one they store the count as given. */
  function ApplyRequest<W>(e: Effect<W>, s: State<W>): (State<W>, int) {
    var s := s.(data := e.data);
    match e.request
    case Proceed => (s, e.status)
    case BreakOut(n) =>
      if s.loopDepth == 0 then (s, 1) else (s.(breakLevels := n, continueLevels := 0), 0)
    case ContinueAt(n) =>
      if s.loopDepth == 0 then (s, 1) else (s.(breakLevels := 0, continueLevels := n), 0)
    case Return => (s.(returnRequested := true), e.status)
    case Exit => (s.(shouldExit := true), e.status)
  }

  // ---------- big-step semantics with completions ----------

  datatype Completion = Normal | Breaking(levels: Count) | Continuing(levels: Count) | Returning | Exiting

  /** `quiet`: no loop condition ended in a break or continue.
      `over`: some `break n` or `continue n` named more loops than enclosed it. */
  datatype Run<W> = Run(data: Data<W>, status: int, completion: Completion, quiet: bool, over: bool)

  function After<W>(first: Run<W>, r: Run<W>): Run<W> {
    Run(r.data, r.status, r.completion, first.quiet && r.quiet, first.over || r.over)
  }

  /** A condition runs with `errexit` off; the setting of before is put back. */
  function Tested<W>(sofar: Run<W>, t: Run<W>): Run<W> {
    Run(t.data.(errexit := sofar.data.errexit), t.status, t.completion, sofar.quiet && t.quiet, sofar.over || t.over)
  }

  function Settle<W>(r: Run<W>): (s: Run<W>)
    ensures s.status == r.status && s.quiet == r.quiet && s.over == r.over
  {
    if r.completion.Normal? && Triggers(r.data, r.status)
    then r.(completion := Exiting, data := r.data.(exitStatus := r.status))
    else r
  }

  /** A count larger than the number of enclosing loops is taken as it is by the interpreter; by the
      standard it means the outermost loop (section 2.14 of XCU chapter 2, `break` and `continue`). */
  datatype Counting = AsGiven | Clamped

  function Levels(counting: Counting, n: Count, depth: nat): Count
    requires depth > 0
  {
    if counting == Clamped && n > depth then depth else n
  }

  function RunSimple<W>(counting: Counting, e: Effect<W>, depth: nat): Run<W> {
    match e.request
    case Proceed => Run(e.data, e.status, Normal, true, false)
    case BreakOut(n) =>
      if depth == 0 then Run(e.data, 1, Normal, true, false)
      else Run(e.data, 0, Breaking(Levels(counting, n, depth)), true, n > depth)
    case ContinueAt(n) =>
      if depth == 0 then Run(e.data, 1, Normal, true, false)
      else Run(e.data, 0, Continuing(Levels(counting, n, depth)), true, n > depth)
    case Return => Run(e.data, e.status, Returning, true, false)
    case Exit => Run(e.data, e.status, Exiting, true, false)
  }

  /** What a loop makes of the completion of its body: leave with a result, or go round again. */
  function LeaveLoop<W>(body: Run<W>): (r: Option<Run<W>>)
    ensures r.Some? ==> r.value.quiet == body.quiet && r.value.over == body.over
  {
    match body.completion
    case Normal => None
    case Breaking(n) =>
      Some(body.(status := 0, completion := if n == 1 then Normal else Breaking(n - 1)))
    case Continuing(n) =>
      if n == 1 then None else Some(body.(status := 0, completion := Continuing(n - 1)))
    case Returning => Some(body)
    case Exiting => Some(body)
  }

  /** Going round again: a `continue` for this loop leaves status 0. */
  function NextRound<W>(body: Run<W>): (r: Run<W>)
    ensures r.completion.Normal? && r.quiet == body.quiet && r.over == body.over
  {
    Run(body.data, if body.completion.Normal? then body.status else 0, Normal, body.quiet, body.over)
  }

  /** None: the fuel does not suffice.  Fuel is used up by loop iterations only. */
  function Sem<W, C>(counting: Counting, ops: Ops<W, C>, fuel: nat, n: Node<C>, d: Data<W>, depth: nat): Option<Run<W>>
    decreases fuel, n, 0
  {
    match n
    case Empty => Some(Run(d, 0, Normal, true, false))
    case Simple(c) => Some(RunSimple(counting, ops.run(d, c), depth))
    case Sequence(items) => SemSequence(counting, ops, fuel, items, 0, Run(d, 0, Normal, true, false), depth)
    case AndOr(first, operators, rest) =>
      var r := Sem(counting, ops, fuel, first, d, depth);
      if r.None? then None else SemAndOr(counting, ops, fuel, operators, rest, 0, r.value, depth)
    case Negated(child) =>
      var r := Sem(counting, ops, fuel, child, d, depth);
      if r.None? then None
      else
        var status := if r.value.status == 0 then 1 else 0;
        Some(r.value.(status := status, data := r.value.data.(errexitIgnored := true, lastStatus := status)))
    case If(test, yes, no) =>
      var t := Sem(counting, ops, fuel, test, d.(errexit := false), depth);
      if t.None? then None
      else
        var tested := t.value.(data := t.value.data.(errexit := d.errexit));
        if !tested.completion.Normal? then Some(tested)
        else if tested.status == 0 then
          var r := Sem(counting, ops, fuel, yes, tested.data, depth);
          if r.None? then None else Some(After(tested, Settle(r.value)))
        else if no.SomeNode? then
          var r := Sem(counting, ops, fuel, no.node, tested.data, depth);
          if r.None? then None else Some(After(tested, Settle(r.value)))
        else Some(tested.(status := 0))
    case Loop(until, test, body) =>
      SemLoop(counting, ops, fuel, until, test, body, Run(d, 0, Normal, true, false), depth)
    case For(words, body) =>
      var (d1, list) := ops.expand(d, words);
      if list.None? then Some(Run(d1, 2, Normal, true, false))
      else SemFor(counting, ops, fuel, words, body, list.value, 0, Run(d1, 0, Normal, true, false), depth)
    case Redirected(redirs, command) =>
      var (d1, ok) := ops.redirect(d, redirs);
      if !ok then Some(Run(d1, 1, Normal, true, false))
      else
        var r := Sem(counting, ops, fuel, command, d1, depth);
        if r.None? then None else Some(r.value.(data := ops.restore(d1, r.value.data, redirs)))
  }

  /** The items from the `i`-th on; `sofar` is the run of the ones before. */
  function SemSequence<W, C>(counting: Counting, ops: Ops<W, C>, fuel: nat, items: seq<Node<C>>, i: nat,
                             sofar: Run<W>, depth: nat): (r: Option<Run<W>>)
    requires i <= |items|
    ensures r.Some? ==> (r.value.quiet ==> sofar.quiet) && (sofar.over ==> r.value.over)
    decreases fuel, items, |items| - i
  {
    if i == |items| || !sofar.completion.Normal? then Some(sofar)
    else
      var r := Sem(counting, ops, fuel, items[i], sofar.data, depth);
      if r.None? then None
      else
        var done := r.value.(data := r.value.data.(lastStatus := r.value.status));
        SemSequence(counting, ops, fuel, items, i + 1, After(sofar, Settle(done)), depth)
  }

  function SemAndOr<W, C>(counting: Counting, ops: Ops<W, C>, fuel: nat, operators: seq<AndOrOp>,
                          rest: seq<Node<C>>, i: nat, sofar: Run<W>, depth: nat): (r: Option<Run<W>>)
    requires i <= |rest|
    ensures r.Some? ==> (r.value.quiet ==> sofar.quiet) && (sofar.over ==> r.value.over)
    decreases fuel, rest, |rest| - i
  {
    if i == |rest| || i >= |operators| || !sofar.completion.Normal? then Some(sofar)
    else if (operators[i] == OpAnd) == (sofar.status == 0) then
      var r := Sem(counting, ops, fuel, rest[i], sofar.data, depth);
      if r.None? then None else SemAndOr(counting, ops, fuel, operators, rest, i + 1, After(sofar, r.value), depth)
    else if operators[i] == OpAnd then
      SemAndOr(counting, ops, fuel, operators, rest, i + 1, sofar.(data := sofar.data.(errexitIgnored := true)), depth)
    else SemAndOr(counting, ops, fuel, operators, rest, i + 1, sofar, depth)
  }

  /** Rounds of a `while` or `until` loop; `sofar` is the state before the next one. */
  function SemLoop<W, C>(counting: Counting, ops: Ops<W, C>, fuel: nat, until: bool, test: Node<C>,
                         body: Node<C>, sofar: Run<W>, depth: nat): (r: Option<Run<W>>)
    ensures r.Some? ==> (r.value.quiet ==> sofar.quiet) && (sofar.over ==> r.value.over)
    decreases fuel, body, 1
  {
    if fuel == 0 then None
    else
      var t := Sem(counting, ops, fuel - 1, test, sofar.data.(errexit := false), depth + 1);
      if t.None? then None
      else
        SemAfterTest(counting, ops, fuel - 1, until, test, body, sofar.status, Tested(sofar, t.value), depth)
  }

  /** What the condition decides; `status` is that of the last body, which the loop keeps when it ends here. */
  function SemAfterTest<W, C>(counting: Counting, ops: Ops<W, C>, fuel: nat, until: bool, test: Node<C>,
                              body: Node<C>, status: int, tested: Run<W>, depth: nat): (r: Option<Run<W>>)
    ensures r.Some? ==> (r.value.quiet ==> tested.quiet) && (tested.over ==> r.value.over)
    decreases fuel, body, 3
  {
    if tested.completion.Breaking? || tested.completion.Continuing? then
      SemTestLeaves(counting, ops, fuel, until, test, body, tested.(quiet := false), depth)
    else if !tested.completion.Normal? || (tested.status == 0) == until then Some(tested.(status := status))
    else SemRound(counting, ops, fuel, until, test, body, tested, depth)
  }

  /** A condition that breaks or continues counts for its own loop. */
  function SemTestLeaves<W, C>(counting: Counting, ops: Ops<W, C>, fuel: nat, until: bool, test: Node<C>,
                               body: Node<C>, tested: Run<W>, depth: nat): (r: Option<Run<W>>)
    ensures r.Some? ==> (r.value.quiet ==> tested.quiet) && (tested.over ==> r.value.over)
    decreases fuel, body, 2
  {
    var left := LeaveLoop(tested);
    if left.Some? then left else SemLoop(counting, ops, fuel, until, test, body, NextRound(tested), depth)
  }

  /** The body of one round, and the rounds after it. */
  function SemRound<W, C>(counting: Counting, ops: Ops<W, C>, fuel: nat, until: bool, test: Node<C>,
                          body: Node<C>, tested: Run<W>, depth: nat): (r: Option<Run<W>>)
    ensures r.Some? ==> (r.value.quiet ==> tested.quiet) && (tested.over ==> r.value.over)
    decreases fuel, body, 2
  {
    var b := Sem(counting, ops, fuel, body, tested.data, depth + 1);
    if b.None? then None
    else
      var done := After(tested, Settle(b.value));
      var left := LeaveLoop(done);
      if left.Some? then left
      else SemLoop(counting, ops, fuel, until, test, body, NextRound(done), depth)
  }

  function SemFor<W, C>(counting: Counting, ops: Ops<W, C>, fuel: nat, words: C, body: Node<C>,
                        list: seq<string>, i: nat, sofar: Run<W>, depth: nat): (r: Option<Run<W>>)
    requires i <= |list|
    ensures r.Some? ==> (r.value.quiet ==> sofar.quiet) && (sofar.over ==> r.value.over)
    decreases fuel, body, |list| - i + 1
  {
    if i == |list| then Some(sofar)
    else
      var (d, bound) := ops.bind(sofar.data, words, list[i]);
      if !bound then
        Some(if d.interactive then sofar.(data := d, status := 1)
             else sofar.(data := d.(exitStatus := 1), status := 1, completion := Exiting))
      else
        var b := Sem(counting, ops, fuel, body, d, depth + 1);
        if b.None? then None
        else
          var done := After(sofar, Settle(b.value));
          var left := LeaveLoop(done);
          if left.Some? then left
          else SemFor(counting, ops, fuel, words, body, list, i + 1, NextRound(done), depth)
  }

  // ---------- the flag-driven interpreter ----------

  function Exec<W, C>(ops: Ops<W, C>, fuel: nat, n: Node<C>, s: State<W>): (r: Option<(State<W>, int)>)
    ensures r.Some? ==> r.value.0.loopDepth == s.loopDepth
    decreases fuel, n, 0
  {
    match n
    case Empty => Some((s, 0))
    case Simple(c) => Some(ApplyRequest(ops.run(s.data, c), s))
    case Sequence(items) => ExecSequence(ops, fuel, items, 0, s, 0)
    case AndOr(first, operators, rest) =>
      var r := Exec(ops, fuel, first, s);
      if r.None? then None else ExecAndOr(ops, fuel, operators, rest, 0, r.value.0, r.value.1)
    case Negated(child) =>
      var r := Exec(ops, fuel, child, s);
      if r.None? then None
      else
        var status := if r.value.1 == 0 then 1 else 0;
        Some((r.value.0.(data := r.value.0.data.(errexitIgnored := true, lastStatus := status)), status))
    case If(test, yes, no) =>
      var t := Exec(ops, fuel, test, WithErrexit(s, false));
      if t.None? then None
      else
        var (s1, status) := t.value;
        var s2 := WithErrexit(s1, s.data.errexit);
        if Stopped(s2) then Some((s2, status))
        else if status == 0 then
          var r := Exec(ops, fuel, yes, s2);
          if r.None? then None else Some((MaybeErrexit(r.value.0, r.value.1), r.value.1))
        else if no.SomeNode? then
          var r := Exec(ops, fuel, no.node, s2);
          if r.None? then None else Some((MaybeErrexit(r.value.0, r.value.1), r.value.1))
        else Some((s2, 0))
    case Loop(until, test, body) =>
      var r := ExecLoop(ops, fuel, until, test, body, s.(loopDepth := s.loopDepth + 1), 0);
      if r.None? then None else Some((r.value.0.(loopDepth := r.value.0.loopDepth - 1), r.value.1))
    case For(words, body) =>
      var (d, list) := ops.expand(s.data, words);
      if list.None? then Some((s.(data := d), 2))
      else
        var r := ExecFor(ops, fuel, words, body, list.value, 0, s.(data := d, loopDepth := s.loopDepth + 1), 0);
        if r.None? then None else Some((r.value.0.(loopDepth := r.value.0.loopDepth - 1), r.value.1))
    case Redirected(redirs, command) =>
      var (d, ok) := ops.redirect(s.data, redirs);
      if !ok then Some((s.(data := d), 1))
      else
        var r := Exec(ops, fuel, command, s.(data := d));
        if r.None? then None
        else Some((r.value.0.(data := ops.restore(d, r.value.0.data, redirs)), r.value.1))
  }

  function ExecSequence<W, C>(ops: Ops<W, C>, fuel: nat, items: seq<Node<C>>, i: nat, s: State<W>,
                              status: int): (r: Option<(State<W>, int)>)
    requires i <= |items|
    ensures r.Some? ==> r.value.0.loopDepth == s.loopDepth
    decreases fuel, items, |items| - i
  {
    if i == |items| then Some((s, status))
    else
      var r := Exec(ops, fuel, items[i], s);
      if r.None? then None
      else
        var s1 := MaybeErrexit(r.value.0.(data := r.value.0.data.(lastStatus := r.value.1)), r.value.1);
        if Stopped(s1) then Some((s1, r.value.1))
        else ExecSequence(ops, fuel, items, i + 1, s1, r.value.1)
  }

  /** The flags are looked at before the first operator and after each one. */
  function ExecAndOr<W, C>(ops: Ops<W, C>, fuel: nat, operators: seq<AndOrOp>, rest: seq<Node<C>>, i: nat,
                           s: State<W>, status: int): (r: Option<(State<W>, int)>)
    requires i <= |rest|
    ensures r.Some? ==> r.value.0.loopDepth == s.loopDepth
    decreases fuel, rest, |rest| - i
  {
    if i == |rest| || i >= |operators| || Stopped(s) then Some((s, status))
    else if (operators[i] == OpAnd) == (status == 0) then
      var r := Exec(ops, fuel, rest[i], s);
      if r.None? then None else ExecAndOr(ops, fuel, operators, rest, i + 1, r.value.0, r.value.1)
    else if operators[i] == OpAnd then
      ExecAndOr(ops, fuel, operators, rest, i + 1, s.(data := s.data.(errexitIgnored := true)), status)
    else ExecAndOr(ops, fuel, operators, rest, i + 1, s, status)
  }

  /** The flags after a loop body: leave the loop (with a state and status), or go round again. */
  datatype Round<W> = Leave(s: State<W>, status: int) | Again(s: State<W>, status: int)

  function AfterBody<W>(s: State<W>, status: int): Round<W> {
    if s.shouldExit || s.returnRequested then Leave(s, status)
    else if s.breakLevels > 0 then Leave(s.(breakLevels := s.breakLevels - 1), 0)
    else if s.continueLevels > 0 then
      var s1 := s.(continueLevels := s.continueLevels - 1);
      if s1.continueLevels > 0 then Leave(s1, 0) else Again(s1, 0)
    else Again(s, status)
  }

  function ExecLoop<W, C>(ops: Ops<W, C>, fuel: nat, until: bool, test: Node<C>, body: Node<C>, s: State<W>,
                          status: int): (r: Option<(State<W>, int)>)
    ensures r.Some? ==> r.value.0.loopDepth == s.loopDepth
    decreases fuel, body, 1
  {
    if s.shouldExit then Some((s, status))
    else if fuel == 0 then None
    else
      var t := Exec(ops, fuel - 1, test, WithErrexit(s, false));
      if t.None? then None
      else
        ExecAfterTest(ops, fuel - 1, until, test, body, status, WithErrexit(t.value.0, s.data.errexit), t.value.1)
  }

  function ExecAfterTest<W, C>(ops: Ops<W, C>, fuel: nat, until: bool, test: Node<C>, body: Node<C>,
                               status: int, s: State<W>, testStatus: int): (r: Option<(State<W>, int)>)
    ensures r.Some? ==> r.value.0.loopDepth == s.loopDepth
    decreases fuel, body, 3
  {
    if s.shouldExit || s.returnRequested then Some((s, status))
    else if (testStatus == 0) == until then Some((s, status))
    else ExecRound(ops, fuel, until, test, body, s)
  }

  function ExecRound<W, C>(ops: Ops<W, C>, fuel: nat, until: bool, test: Node<C>, body: Node<C>,
                           s: State<W>): (r: Option<(State<W>, int)>)
    ensures r.Some? ==> r.value.0.loopDepth == s.loopDepth
    decreases fuel, body, 2
  {
    var b := Exec(ops, fuel, body, s);
    if b.None? then None
    else
      match AfterBody(MaybeErrexit(b.value.0, b.value.1), b.value.1)
      case Leave(s1, status) => Some((s1, status))
      case Again(s1, status) => ExecLoop(ops, fuel, until, test, body, s1, status)
  }

  function ExecFor<W, C>(ops: Ops<W, C>, fuel: nat, words: C, body: Node<C>, list: seq<string>, i: nat,
                         s: State<W>, status: int): (r: Option<(State<W>, int)>)
    requires i <= |list|
    ensures r.Some? ==> r.value.0.loopDepth == s.loopDepth
    decreases fuel, body, |list| - i + 1
  {
    if i == |list| || s.shouldExit then Some((s, status))
    else
      var (d, bound) := ops.bind(s.data, words, list[i]);
      if !bound then
        Some((if d.interactive then s.(data := d) else s.(data := d.(exitStatus := 1), shouldExit := true), 1))
      else
        var b := Exec(ops, fuel, body, s.(data := d));
        if b.None? then None
        else
          match AfterBody(MaybeErrexit(b.value.0, b.value.1), b.value.1)
          case Leave(s2, status2) => Some((s2, status2))
          case Again(s2, status2) => ExecFor(ops, fuel, words, body, list, i + 1, s2, status2)
  }

  /** A round of the flag-driven loop taken apart. */
  lemma LoopTurns<W, C>(ops: Ops<W, C>, fuel: nat, until: bool, test: Node<C>, body: Node<C>, s: State<W>)
    ensures Exec(ops, fuel, body, s).None? ==> ExecRound(ops, fuel, until, test, body, s).None?
    ensures Exec(ops, fuel, body, s).Some? ==>
              var b := Exec(ops, fuel, body, s).value;
              var turn := AfterBody(MaybeErrexit(b.0, b.1), b.1);
              ExecRound(ops, fuel, until, test, body, s)
                == (if turn.Leave? then Some((turn.s, turn.status))
                    else ExecLoop(ops, fuel, until, test, body, turn.s, turn.status))
  {
    hide Exec, ExecLoop, AfterBody, MaybeErrexit;
  }

  // ---------- the flags of a completion ----------

  /** The flags that stand for a completion. */
  function Encode<W>(d: Data<W>, c: Completion, depth: nat): (s: State<W>)
    ensures s.data == d && s.shouldExit == c.Exiting? && s.returnRequested == c.Returning?
  {
    match c
    case Normal => State(d, false, false, 0, 0, depth)
    case Breaking(n) => State(d, false, false, n, 0, depth)
    case Continuing(n) => State(d, false, false, 0, n, depth)
    case Returning => State(d, false, true, 0, 0, depth)
    case Exiting => State(d, true, false, 0, 0, depth)
  }

  function EncodeRun<W>(r: Run<W>, depth: nat): (State<W>, int) {
    (Encode(r.data, r.completion, depth), r.status)
  }
}
