/** What happens to the levels of `break` and `continue` while the interpreter runs. */
module ControlLog {
  import opened Common
  import opened Control

  function Pending<W>(s: State<W>): nat {
    s.breakLevels + s.continueLevels
  }

  /** `Named`: a `break` or `continue` inside a loop is obeyed.  `BodyEnded`: the body of a loop has ended, with
      no exit or return under way.  `TestBroke`: the condition of a loop has ended with levels pending. */
  datatype Event = Named(levels: Count) | BodyEnded | TestBroke

  function SimpleLog<W>(e: Effect<W>, s: State<W>): seq<Event> {
    if s.loopDepth == 0 then []
    else if e.request.BreakOut? then [Named(e.request.n)]
    else if e.request.ContinueAt? then [Named(e.request.n)]
    else []
  }

  function BodyLog<W>(s: State<W>): seq<Event> {
    if s.shouldExit || s.returnRequested then [] else [BodyEnded]
  }

  function TestLog<W>(s: State<W>): seq<Event> {
    if Pending(s) > 0 then [TestBroke] else []
  }

  ghost function Log<W, C>(ops: Ops<W, C>, fuel: nat, n: Node<C>, s: State<W>): seq<Event>
    requires Exec(ops, fuel, n, s).Some?
    decreases fuel, n, 0
  {
    match n
    case Empty => []
    case Simple(c) => SimpleLog(ops.run(s.data, c), s)
    case Sequence(items) => LogSequence(ops, fuel, items, 0, s, 0)
    case AndOr(first, operators, rest) =>
      var r := Exec(ops, fuel, first, s).value;
      Log(ops, fuel, first, s) + LogAndOr(ops, fuel, operators, rest, 0, r.0, r.1)
    case Negated(child) => Log(ops, fuel, child, s)
    case If(_, _, _) => LogIf(ops, fuel, n, s)
    case Loop(until, test, body) => LogLoop(ops, fuel, until, test, body, s.(loopDepth := s.loopDepth + 1), 0)
    case For(words, body) =>
      var (d, list) := ops.expand(s.data, words);
      if list.None? then []
      else LogFor(ops, fuel, words, body, list.value, 0, s.(data := d, loopDepth := s.loopDepth + 1), 0)
    case Redirected(redirs, command) =>
      var (d, ok) := ops.redirect(s.data, redirs);
      if ok then Log(ops, fuel, command, s.(data := d)) else []
  }

  ghost function LogIf<W, C>(ops: Ops<W, C>, fuel: nat, n: Node<C>, s: State<W>): seq<Event>
    requires n.If? && Exec(ops, fuel, n, s).Some?
    decreases fuel, n, 0, 0
  {
    var (s1, status) := Exec(ops, fuel, n.test, WithErrexit(s, false)).value;
    var s2 := WithErrexit(s1, s.data.errexit);
    Log(ops, fuel, n.test, WithErrexit(s, false))
    + if Stopped(s2) then []
      else if status == 0 then Log(ops, fuel, n.yes, s2)
      else if n.no.SomeNode? then Log(ops, fuel, n.no.node, s2)
      else []
  }

  ghost function LogSequence<W, C>(ops: Ops<W, C>, fuel: nat, items: seq<Node<C>>, i: nat, s: State<W>,
                                   status: int): seq<Event>
    requires i <= |items| && ExecSequence(ops, fuel, items, i, s, status).Some?
    decreases fuel, items, |items| - i
  {
    if i == |items| then []
    else
      var r := Exec(ops, fuel, items[i], s).value;
      var s1 := MaybeErrexit(r.0.(data := r.0.data.(lastStatus := r.1)), r.1);
      Log(ops, fuel, items[i], s) + if Stopped(s1) then [] else LogSequence(ops, fuel, items, i + 1, s1, r.1)
  }

  ghost function LogAndOr<W, C>(ops: Ops<W, C>, fuel: nat, operators: seq<AndOrOp>, rest: seq<Node<C>>, i: nat,
                                s: State<W>, status: int): seq<Event>
    requires i <= |rest| && ExecAndOr(ops, fuel, operators, rest, i, s, status).Some?
    decreases fuel, rest, |rest| - i
  {
    if i == |rest| || i >= |operators| || Stopped(s) then []
    else if (operators[i] == OpAnd) == (status == 0) then
      var r := Exec(ops, fuel, rest[i], s).value;
      Log(ops, fuel, rest[i], s) + LogAndOr(ops, fuel, operators, rest, i + 1, r.0, r.1)
    else if operators[i] == OpAnd then
      LogAndOr(ops, fuel, operators, rest, i + 1, s.(data := s.data.(errexitIgnored := true)), status)
    else LogAndOr(ops, fuel, operators, rest, i + 1, s, status)
  }

  ghost function LogLoop<W, C>(ops: Ops<W, C>, fuel: nat, until: bool, test: Node<C>, body: Node<C>, s: State<W>,
                               status: int): seq<Event>
    requires ExecLoop(ops, fuel, until, test, body, s, status).Some?
    decreases fuel, body, 1
  {
    if s.shouldExit then []
    else
      var (s1, t) := Exec(ops, fuel - 1, test, WithErrexit(s, false)).value;
      var s2 := WithErrexit(s1, s.data.errexit);
      Log(ops, fuel - 1, test, WithErrexit(s, false))
      + (TestLog(s2) + LogAfterTest(ops, fuel - 1, until, test, body, status, s2, t))
  }

  ghost function LogAfterTest<W, C>(ops: Ops<W, C>, fuel: nat, until: bool, test: Node<C>, body: Node<C>,
                                    status: int, s: State<W>, testStatus: int): seq<Event>
    requires ExecAfterTest(ops, fuel, until, test, body, status, s, testStatus).Some?
    decreases fuel, body, 3
  {
    if s.shouldExit || s.returnRequested || (testStatus == 0) == until then []
    else LogRound(ops, fuel, until, test, body, s)
  }

  ghost function LogRound<W, C>(ops: Ops<W, C>, fuel: nat, until: bool, test: Node<C>, body: Node<C>,
                                s: State<W>): seq<Event>
    requires ExecRound(ops, fuel, until, test, body, s).Some?
    decreases fuel, body, 2
  {
    var (s1, b) := Exec(ops, fuel, body, s).value;
    var s2 := MaybeErrexit(s1, b);
    var turn := AfterBody(s2, b);
    Log(ops, fuel, body, s) + BodyLog(s2)
    + if turn.Leave? then [] else LogLoop(ops, fuel, until, test, body, turn.s, turn.status)
  }

  ghost function LogFor<W, C>(ops: Ops<W, C>, fuel: nat, words: C, body: Node<C>, list: seq<string>, i: nat,
                              s: State<W>, status: int): seq<Event>
    requires i <= |list| && ExecFor(ops, fuel, words, body, list, i, s, status).Some?
    decreases fuel, body, |list| - i + 1
  {
    if i == |list| || s.shouldExit then []
    else
      var (d, bound) := ops.bind(s.data, words, list[i]);
      if !bound then []
      else
        var (s1, b) := Exec(ops, fuel, body, s.(data := d)).value;
        var s2 := MaybeErrexit(s1, b);
        var turn := AfterBody(s2, b);
        Log(ops, fuel, body, s.(data := d)) + BodyLog(s2)
        + if turn.Leave? then [] else LogFor(ops, fuel, words, body, list, i + 1, turn.s, turn.status)
  }

  // ---------- runs whose conditions do not break ----------

  /** The interpreter ends, and no condition of a loop has ended with levels pending on the way. */
  ghost predicate CalmRun<W, C>(ops: Ops<W, C>, fuel: nat, n: Node<C>, s: State<W>) {
    Exec(ops, fuel, n, s).Some? && TestBroke !in Log(ops, fuel, n, s)
  }

  ghost predicate CalmSequence<W, C>(ops: Ops<W, C>, fuel: nat, items: seq<Node<C>>, i: nat, s: State<W>, status: int)
    requires i <= |items|
  {
    ExecSequence(ops, fuel, items, i, s, status).Some? && TestBroke !in LogSequence(ops, fuel, items, i, s, status)
  }

  ghost predicate CalmAndOr<W, C>(ops: Ops<W, C>, fuel: nat, operators: seq<AndOrOp>, rest: seq<Node<C>>, i: nat,
                                  s: State<W>, status: int)
    requires i <= |rest|
  {
    && ExecAndOr(ops, fuel, operators, rest, i, s, status).Some?
    && TestBroke !in LogAndOr(ops, fuel, operators, rest, i, s, status)
  }

  ghost predicate CalmLoop<W, C>(ops: Ops<W, C>, fuel: nat, until: bool, test: Node<C>, body: Node<C>, s: State<W>,
                                 status: int)
  {
    && ExecLoop(ops, fuel, until, test, body, s, status).Some?
    && TestBroke !in LogLoop(ops, fuel, until, test, body, s, status)
  }

  ghost predicate CalmAfterTest<W, C>(ops: Ops<W, C>, fuel: nat, until: bool, test: Node<C>, body: Node<C>,
                                      status: int, s: State<W>, testStatus: int)
  {
    && ExecAfterTest(ops, fuel, until, test, body, status, s, testStatus).Some?
    && TestBroke !in LogAfterTest(ops, fuel, until, test, body, status, s, testStatus)
  }

  ghost predicate CalmRound<W, C>(ops: Ops<W, C>, fuel: nat, until: bool, test: Node<C>, body: Node<C>, s: State<W>) {
    ExecRound(ops, fuel, until, test, body, s).Some? && TestBroke !in LogRound(ops, fuel, until, test, body, s)
  }

  ghost predicate CalmFor<W, C>(ops: Ops<W, C>, fuel: nat, words: C, body: Node<C>, list: seq<string>, i: nat,
                                s: State<W>, status: int)
    requires i <= |list|
  {
    && ExecFor(ops, fuel, words, body, list, i, s, status).Some?
    && TestBroke !in LogFor(ops, fuel, words, body, list, i, s, status)
  }
}
