/** The interpreter with its mutable state: every method changes the shell exactly as the flag-driven
    functions of Control say, on every run that terminates. */
module Shell {
  import opened Common
  import opened Control

  lemma LoopStops<W, C>(ops: Ops<W, C>, fuel: nat, until: bool, test: Node<C>, body: Node<C>, s: State<W>, status: int)
    requires ExecLoop(ops, fuel, until, test, body, s, status).Some?
    ensures s.shouldExit ==> ExecLoop(ops, fuel, until, test, body, s, status) == Some((s, status))
    ensures !s.shouldExit ==> fuel > 0
  {
    hide Exec, ExecAfterTest;
  }

  lemma LoopTests<W, C>(ops: Ops<W, C>, fuel: nat, until: bool, test: Node<C>, body: Node<C>, s: State<W>, status: int)
    requires !s.shouldExit && ExecLoop(ops, fuel + 1, until, test, body, s, status).Some?
    ensures var t := Exec(ops, fuel, test, WithErrexit(s, false));
            && t.Some?
            && ExecLoop(ops, fuel + 1, until, test, body, s, status)
                 == ExecAfterTest(ops, fuel, until, test, body, status,
                     WithErrexit(t.value.0, s.data.errexit), t.value.1)
  {
    hide Exec, ExecAfterTest, WithErrexit;
  }

  class Interpreter<!W, !C> {
    const ops: Ops<W, C>
    var data: Data<W>
    var shouldExit: bool
    var returnRequested: bool
    var breakLevels: nat
    var continueLevels: nat
    var loopDepth: nat

    ghost function View(): State<W>
      reads this
    {
      State(data, shouldExit, returnRequested, breakLevels, continueLevels, loopDepth)
    }

    constructor (ops: Ops<W, C>, data: Data<W>)
      ensures this.ops == ops && View() == Encode(data, Normal, 0)
    {
      this.ops := ops;
      this.data := data;
      shouldExit, returnRequested := false, false;
      breakLevels, continueLevels, loopDepth := 0, 0, 0;
    }

    predicate HasPendingFlowControl()
      reads this
      ensures HasPendingFlowControl() == PendingFlow(View())
    {
      breakLevels > 0 || continueLevels > 0 || returnRequested
    }

    method MaybeTriggerErrexit(status: int)
      modifies this
      ensures View() == MaybeErrexit(old(View()), status) && loopDepth == old(loopDepth)
    {
      if status != 0 && data.errexit && !data.interactive && !data.errexitIgnored
         && !shouldExit && !HasPendingFlowControl() {
        shouldExit := true;
        data := data.(exitStatus := status);
      }
    }

    method RunSimple(command: C) returns (status: int)
      modifies this
      ensures (View(), status) == ApplyRequest(ops.run(old(data), command), old(View()))
    {
      var effect := ops.run(data, command);
      data := effect.data;
      status := effect.status;
      match effect.request
      case Proceed =>
      case BreakOut(n) =>
        if loopDepth == 0 {
          return 1;
        }
        breakLevels, continueLevels := n, 0;
        return 0;
      case ContinueAt(n) =>
        if loopDepth == 0 {
          return 1;
        }
        breakLevels, continueLevels := 0, n;
        return 0;
      case Return =>
        returnRequested := true;
      case Exit =>
        shouldExit := true;
    }

    /** The fuel is only a bound on the iterations of a terminating run; the code does not see it. */
    method ExecuteNode(n: Node<C>, ghost fuel: nat) returns (status: int)
      requires Exec(ops, fuel, n, View()).Some?
      modifies this
      ensures Some((View(), status)) == Exec(ops, fuel, n, old(View()))
      decreases fuel, n, 2
    {
      match n
      case Empty =>
        status := 0;
      case Simple(command) =>
        status := RunSimple(command);
      case Sequence(items) =>
        status := RunSequence(items, fuel);
      case AndOr(first, operators, rest) =>
        status := ExecuteNode(first, fuel);
        status := RunAndOr(operators, rest, status, fuel);
      case Negated(child) =>
        status := ExecuteNode(child, fuel);
        var ignored := data.errexitIgnored;
        data := data.(errexitIgnored := status != 0 && ignored, lastStatus := status);
        status := if status == 0 then 1 else 0;
        data := data.(errexitIgnored := true, lastStatus := status);
      case If(test, yes, no) =>
        status := RunIf(test, yes, no, fuel);
      case Loop(until, test, body) =>
        status := RunLoop(until, test, body, fuel);
      case For(words, body) =>
        var (d, list) := ops.expand(data, words);
        data := d;
        if list.None? {
          return 2;
        }
        status := RunFor(words, body, list.value, fuel);
      case Redirected(redirs, command) =>
        status := RunRedirected(redirs, command, fuel);
    }

    /** A compound command with redirections of its own, which are undone behind it. */
    method RunRedirected(redirs: C, command: Node<C>, ghost fuel: nat) returns (status: int)
      requires Exec(ops, fuel, Redirected(redirs, command), View()).Some?
      modifies this
      ensures Some((View(), status)) == Exec(ops, fuel, Redirected(redirs, command), old(View()))
      decreases fuel, Redirected(redirs, command), 0
    {
      var (redirected, ok) := ops.redirect(data, redirs);
      data := redirected;
      if !ok {
        return 1;
      }
      status := ExecuteNode(command, fuel);
      data := ops.restore(redirected, data, redirs);
    }

    method RunSequence(items: seq<Node<C>>, ghost fuel: nat) returns (status: int)
      requires ExecSequence(ops, fuel, items, 0, View(), 0).Some?
      modifies this
      ensures Some((View(), status)) == ExecSequence(ops, fuel, items, 0, old(View()), 0)
      decreases fuel, items, |items| + 1
    {
      hide Exec;
      status := 0;
      ghost var whole := ExecSequence(ops, fuel, items, 0, View(), 0);
      for i := 0 to |items|
        invariant ExecSequence(ops, fuel, items, i, View(), status) == whole
      {
        status := ExecuteNode(items[i], fuel);
        data := data.(lastStatus := status);
        MaybeTriggerErrexit(status);
        if shouldExit || HasPendingFlowControl() {
          return;
        }
      }
    }

    method RunAndOr(operators: seq<AndOrOp>, rest: seq<Node<C>>, first: int, ghost fuel: nat) returns (status: int)
      requires ExecAndOr(ops, fuel, operators, rest, 0, View(), first).Some?
      modifies this
      ensures Some((View(), status)) == ExecAndOr(ops, fuel, operators, rest, 0, old(View()), first)
      decreases fuel, rest, |rest| + 1
    {
      hide Exec;
      status := first;
      if shouldExit || HasPendingFlowControl() {
        return;
      }
      ghost var whole := ExecAndOr(ops, fuel, operators, rest, 0, View(), first);
      var i := 0;
      while i < |rest| && i < |operators|
        invariant i <= |rest| && !Stopped(View())
        invariant ExecAndOr(ops, fuel, operators, rest, i, View(), status) == whole
      {
        if operators[i] == OpAnd {
          if status == 0 {
            status := ExecuteNode(rest[i], fuel);
          } else {
            data := data.(errexitIgnored := true);
          }
        } else if status != 0 {
          status := ExecuteNode(rest[i], fuel);
        }
        i := i + 1;
        if shouldExit || HasPendingFlowControl() {
          return;
        }
      }
    }

    method RunIf(test: Node<C>, yes: Node<C>, no: OptionalNode<C>, ghost fuel: nat) returns (status: int)
      requires Exec(ops, fuel, If(test, yes, no), View()).Some?
      modifies this
      ensures Some((View(), status)) == Exec(ops, fuel, If(test, yes, no), old(View()))
      decreases fuel, If(test, yes, no), 0
    {
      var saved := data.errexit;
      data := data.(errexit := false);
      status := ExecuteNode(test, fuel);
      data := data.(errexit := saved);
      if !shouldExit && !HasPendingFlowControl() {
        if status == 0 {
          status := ExecuteNode(yes, fuel);
          MaybeTriggerErrexit(status);
        } else if no.SomeNode? {
          status := ExecuteNode(no.node, fuel);
          MaybeTriggerErrexit(status);
        } else {
          status := 0;
        }
      }
    }

    /** The state a loop's own functions start from: one level deeper. */
    ghost function Inside(): State<W>
      reads this
    {
      View().(loopDepth := loopDepth + 1)
    }

    method RunLoop(until: bool, test: Node<C>, body: Node<C>, ghost fuel: nat) returns (status: int)
      requires ExecLoop(ops, fuel, until, test, body, Inside(), 0).Some?
      modifies this
      ensures Some((Inside(), status)) == ExecLoop(ops, fuel, until, test, body, old(Inside()), 0)
      decreases fuel, Loop(until, test, body), 0
    {
      hide Exec, ExecLoop, PendingFlow;
      status := 0;
      loopDepth := loopDepth + 1;
      ghost var left: nat := fuel;
      ghost var whole := ExecLoop(ops, fuel, until, test, body, View(), 0);
      LoopStops(ops, left, until, test, body, View(), status);
      while !shouldExit
        invariant left <= fuel && loopDepth == old(loopDepth) + 1
        invariant whole.Some? && ExecLoop(ops, left, until, test, body, View(), status) == whole
        invariant if shouldExit then Some((View(), status)) == whole else left > 0
        decreases left
      {
        left := left - 1;
        var again;
        status, again := RunRound(until, test, body, status, left, whole);
        if !again {
          break;
        }
        LoopStops(ops, left, until, test, body, View(), status);
      }
      loopDepth := loopDepth - 1;
    }

    /** One turn of the `while`: the condition, the body and the flags behind it. */
    method RunRound(until: bool, test: Node<C>, body: Node<C>, before: int, ghost left: nat,
                    ghost whole: Option<(State<W>, int)>) returns (status: int, again: bool)
      requires !shouldExit && loopDepth > 0
      requires whole.Some? && ExecLoop(ops, left + 1, until, test, body, View(), before) == whole
      modifies this
      ensures loopDepth == old(loopDepth)
      ensures again ==> ExecLoop(ops, left, until, test, body, View(), status) == whole
      ensures !again ==> Some((View(), status)) == whole
      decreases left, Loop(until, test, body), 0
    {
      hide Exec, ExecLoop, ExecRound, AfterBody, MaybeErrexit, PendingFlow;
      LoopTests(ops, left, until, test, body, View(), before);
      status := before;
      var saved := data.errexit;
      data := data.(errexit := false);
      var testStatus := ExecuteNode(test, left);
      data := data.(errexit := saved);
      if shouldExit || returnRequested {
        return status, false;
      }
      if (!until && testStatus != 0) || (until && testStatus == 0) {
        return status, false;
      }
      LoopTurns(ops, left, until, test, body, View());
      status, again := RunBody(body, left);
    }

    /** The body of either kind of loop, `errexit`, and the flags. */
    method RunBody(body: Node<C>, ghost fuel: nat) returns (status: int, again: bool)
      requires Exec(ops, fuel, body, View()).Some?
      modifies this
      ensures loopDepth == old(loopDepth)
      ensures var (s, b) := old(Exec(ops, fuel, body, View())).value;
              AfterBody(MaybeErrexit(s, b), b) == (if again then Again(View(), status) else Leave(View(), status))
      decreases fuel, body, 3
    {
      hide Exec, AfterBody, MaybeErrexit, PendingFlow;
      status := ExecuteNode(body, fuel);
      MaybeTriggerErrexit(status);
      status, again := AfterBodyFlags(status);
    }

    /** The flags after the body of a loop. */
    method AfterBodyFlags(bodyStatus: int) returns (status: int, again: bool)
      modifies this
      ensures loopDepth == old(loopDepth)
      ensures AfterBody(old(View()), bodyStatus) == if again then Again(View(), status) else Leave(View(), status)
    {
      status := bodyStatus;
      if shouldExit || returnRequested {
        return status, false;
      }
      if breakLevels > 0 {
        breakLevels := breakLevels - 1;
        return 0, false;
      }
      if continueLevels > 0 {
        continueLevels := continueLevels - 1;
        return 0, continueLevels == 0;
      }
      again := true;
    }

    method RunFor(words: C, body: Node<C>, list: seq<string>, ghost fuel: nat) returns (status: int)
      requires ExecFor(ops, fuel, words, body, list, 0, Inside(), 0).Some?
      modifies this
      ensures Some((Inside(), status)) == ExecFor(ops, fuel, words, body, list, 0, old(Inside()), 0)
      decreases fuel, For(words, body), 1
    {
      hide Exec, AfterBody, MaybeErrexit, PendingFlow;
      status := 0;
      loopDepth := loopDepth + 1;
      ghost var whole := ExecFor(ops, fuel, words, body, list, 0, View(), 0);
      var i := 0;
      while i < |list| && !shouldExit
        invariant i <= |list| && loopDepth == old(loopDepth) + 1
        invariant whole.Some? && ExecFor(ops, fuel, words, body, list, i, View(), status) == whole
        decreases |list| - i
      {
        var again;
        status, again := RunForRound(words, body, list, i, status, fuel, whole);
        if !again {
          break;
        }
        i := i + 1;
      }
      loopDepth := loopDepth - 1;
    }

    /** One turn of the `for`: the assignment, the body and the flags behind it. */
    method RunForRound(words: C, body: Node<C>, list: seq<string>, i: nat, before: int, ghost fuel: nat,
                       ghost whole: Option<(State<W>, int)>) returns (status: int, again: bool)
      requires i < |list| && !shouldExit && loopDepth > 0
      requires whole.Some? && ExecFor(ops, fuel, words, body, list, i, View(), before) == whole
      modifies this
      ensures loopDepth == old(loopDepth)
      ensures again ==> ExecFor(ops, fuel, words, body, list, i + 1, View(), status) == whole
      ensures !again ==> Some((View(), status)) == whole
      decreases fuel, For(words, body), 0
    {
      hide Exec, AfterBody, MaybeErrexit, PendingFlow;
      var (d, bound) := ops.bind(data, words, list[i]);
      data := d;
      if !bound {
        if !data.interactive {
          data := data.(exitStatus := 1);
          shouldExit := true;
        }
        return 1, false;
      }
      status, again := RunBody(body, fuel);
    }
  }
}
