/** The flag-driven interpreter refines the semantics with completions, in both directions: on the runs whose
    conditions do not break one ends exactly when the other does, and then in the same way. */
module ControlRefines {
  import opened Common
  import opened Control
  import opened ControlLog

  // ---------- flags refine completions ----------

  /** The semantics ends, with no condition breaking, exactly when the interpreter does, and then the
      interpreter ends in the flags of the completion, with the same data and status. */
  ghost predicate Agrees<W>(r: Option<Run<W>>, e: Option<(State<W>, int)>, calm: bool, depth: nat) {
    && (r.Some? && r.value.quiet <==> calm)
    && (calm ==> e == Some(EncodeRun(r.value, depth)))
  }

  ghost predicate RunAgrees<W, C>(ops: Ops<W, C>, fuel: nat, n: Node<C>, d: Data<W>, depth: nat) {
    var s := Encode(d, Normal, depth);
    Agrees(Sem(AsGiven, ops, fuel, n, d, depth), Exec(ops, fuel, n, s), CalmRun(ops, fuel, n, s), depth)
  }

  lemma {:induction false} FlagsRefine<W, C>(ops: Ops<W, C>, fuel: nat, n: Node<C>, d: Data<W>, depth: nat)
    ensures RunAgrees(ops, fuel, n, d, depth)
    decreases fuel, n, 0
  {
    var s := Encode(d, Normal, depth);
    match n
    case Empty =>
    case Simple(_) =>
    case Sequence(items) => SequenceRefines(ops, fuel, items, 0, Run(d, 0, Normal, true, false), depth);
    case AndOr(first, operators, rest) =>
      FlagsRefine(ops, fuel, first, d, depth);
      if CalmRun(ops, fuel, first, s) {
        AndOrRefines(ops, fuel, operators, rest, 0, Sem(AsGiven, ops, fuel, first, d, depth).value, depth);
      }
    case Negated(child) => FlagsRefine(ops, fuel, child, d, depth);
    case If(_, _, _) => IfRefines(ops, fuel, n, d, depth);
    case Loop(until, test, body) => LoopRefines(ops, fuel, until, test, body, Run(d, 0, Normal, true, false), depth);
    case For(words, body) =>
      var (d1, list) := ops.expand(d, words);
      if list.Some? {
        ForRefines(ops, fuel, words, body, list.value, 0, Run(d1, 0, Normal, true, false), depth);
      }
    case Redirected(redirs, command) =>
      if ops.redirect(d, redirs).1 {
        FlagsRefine(ops, fuel, command, ops.redirect(d, redirs).0, depth);
      }
  }

  /** An `if` taken apart, and what makes it calm. */
  lemma IfTurns<W, C>(ops: Ops<W, C>, fuel: nat, n: Node<C>, s: State<W>)
    requires n.If?
    ensures !CalmRun(ops, fuel, n.test, WithErrexit(s, false)) ==> !CalmRun(ops, fuel, n, s)
    ensures CalmRun(ops, fuel, n.test, WithErrexit(s, false)) ==>
              var t := Exec(ops, fuel, n.test, WithErrexit(s, false)).value;
              var s2 := WithErrexit(t.0, s.data.errexit);
              if Stopped(s2) then CalmRun(ops, fuel, n, s) && Exec(ops, fuel, n, s) == Some((s2, t.1))
              else if t.1 != 0 && n.no.NoNode? then CalmRun(ops, fuel, n, s) && Exec(ops, fuel, n, s) == Some((s2, 0))
              else
                var branch := if t.1 == 0 then n.yes else n.no.node;
                var r := Exec(ops, fuel, branch, s2);
                && (CalmRun(ops, fuel, n, s) <==> CalmRun(ops, fuel, branch, s2))
                && (r.Some? ==> Exec(ops, fuel, n, s) == Some((MaybeErrexit(r.value.0, r.value.1), r.value.1)))
  {
    hide WithErrexit, Stopped, MaybeErrexit, Log;
    if Exec(ops, fuel, n, s).Some? {
      IfLogged(ops, fuel, n, s);
    }
  }

  lemma IfLogged<W, C>(ops: Ops<W, C>, fuel: nat, n: Node<C>, s: State<W>)
    requires n.If? && Exec(ops, fuel, n, s).Some?
    ensures var t := Exec(ops, fuel, n.test, WithErrexit(s, false));
            && t.Some?
            && var s2 := WithErrexit(t.value.0, s.data.errexit);
            var branch := if t.value.1 == 0 then Some(n.yes) else if n.no.SomeNode? then Some(n.no.node) else None;
            && (!Stopped(s2) && branch.Some? ==> Exec(ops, fuel, branch.value, s2).Some?)
            && (TestBroke !in Log(ops, fuel, n, s) <==>
                  && TestBroke !in Log(ops, fuel, n.test, WithErrexit(s, false))
                  && (!Stopped(s2) && branch.Some? ==> TestBroke !in Log(ops, fuel, branch.value, s2)))
  {
    hide WithErrexit, Stopped, MaybeErrexit;
    assert Log(ops, fuel, n, s) == LogIf(ops, fuel, n, s);
  }

  lemma SemBranches<W, C>(ops: Ops<W, C>, fuel: nat, n: Node<C>, d: Data<W>, depth: nat)
    requires n.If?
    ensures var t := Sem(AsGiven, ops, fuel, n.test, d.(errexit := false), depth);
            var r := Sem(AsGiven, ops, fuel, n, d, depth);
            && (t.None? ==> r.None?)
            && (t.Some? ==>
                  var tested := t.value.(data := t.value.data.(errexit := d.errexit));
                  && (r.Some? && r.value.quiet ==> t.value.quiet)
                  && if !tested.completion.Normal? then r == Some(tested)
                     else if tested.status != 0 && n.no.NoNode? then r == Some(tested.(status := 0))
                     else
                       var branch := if tested.status == 0 then n.yes else n.no.node;
                       var b := Sem(AsGiven, ops, fuel, branch, tested.data, depth);
                       r == if b.None? then None else Some(After(tested, Settle(b.value))))
  {
    hide Settle;
  }

  lemma {:induction false} IfRefines<W, C>(ops: Ops<W, C>, fuel: nat, n: Node<C>, d: Data<W>, depth: nat)
    requires n.If?
    ensures RunAgrees(ops, fuel, n, d, depth)
    decreases fuel, n, 0, 0
  {
    hide Sem, Exec, CalmRun, Settle, MaybeErrexit, WithErrexit;
    var s := Encode(d, Normal, depth);
    FlagsRefine(ops, fuel, n.test, d.(errexit := false), depth);
    ErrexitRefines(d, false, Normal, depth);
    IfTurns(ops, fuel, n, s);
    SemBranches(ops, fuel, n, d, depth);
    if CalmRun(ops, fuel, n.test, WithErrexit(s, false)) {
      var t := Sem(AsGiven, ops, fuel, n.test, d.(errexit := false), depth).value;
      var tested := t.(data := t.data.(errexit := d.errexit));
      ErrexitRefines(t.data, d.errexit, t.completion, depth);
      if tested.completion.Normal? && (tested.status == 0 || n.no.SomeNode?) {
        var branch := if tested.status == 0 then n.yes else n.no.node;
        FlagsRefine(ops, fuel, branch, tested.data, depth);
        if CalmRun(ops, fuel, branch, Encode(tested.data, Normal, depth)) {
          SettleRefines(Sem(AsGiven, ops, fuel, branch, tested.data, depth).value, depth);
        }
      }
    }
  }

  lemma {:induction false} SequenceRefines<W, C>(ops: Ops<W, C>, fuel: nat, items: seq<Node<C>>, i: nat,
      sofar: Run<W>, depth: nat)
    requires i <= |items| && sofar.completion.Normal? && sofar.quiet
    ensures Agrees(SemSequence(AsGiven, ops, fuel, items, i, sofar, depth),
                   ExecSequence(ops, fuel, items, i, Encode(sofar.data, Normal, depth), sofar.status),
                   CalmSequence(ops, fuel, items, i, Encode(sofar.data, Normal, depth), sofar.status), depth)
    decreases fuel, items, |items| - i
  {
    if i < |items| {
      FlagsRefine(ops, fuel, items[i], sofar.data, depth);
      if CalmRun(ops, fuel, items[i], Encode(sofar.data, Normal, depth)) {
        var r := Sem(AsGiven, ops, fuel, items[i], sofar.data, depth).value;
        var last := r.(data := r.data.(lastStatus := r.status));
        SettleRefines(last, depth);
        var done := After(sofar, Settle(last));
        if done.completion.Normal? {
          SequenceRefines(ops, fuel, items, i + 1, done, depth);
        }
      }
    }
  }

  lemma {:induction false} AndOrRefines<W, C>(ops: Ops<W, C>, fuel: nat, operators: seq<AndOrOp>,
      rest: seq<Node<C>>, i: nat, sofar: Run<W>, depth: nat)
    requires i <= |rest| && sofar.quiet
    ensures Agrees(SemAndOr(AsGiven, ops, fuel, operators, rest, i, sofar, depth),
                   ExecAndOr(ops, fuel, operators, rest, i, Encode(sofar.data, sofar.completion, depth), sofar.status),
                   CalmAndOr(ops, fuel, operators, rest, i, Encode(sofar.data, sofar.completion, depth), sofar.status),
                   depth)
    decreases fuel, rest, |rest| - i
  {
    if i < |rest| && i < |operators| && sofar.completion.Normal? {
      if (operators[i] == OpAnd) == (sofar.status == 0) {
        FlagsRefine(ops, fuel, rest[i], sofar.data, depth);
        if CalmRun(ops, fuel, rest[i], Encode(sofar.data, Normal, depth)) {
          AndOrRefines(ops, fuel, operators, rest, i + 1, After(sofar,
              Sem(AsGiven, ops, fuel, rest[i], sofar.data, depth).value), depth);
        }
      } else if operators[i] == OpAnd {
        AndOrRefines(ops, fuel, operators, rest, i + 1, sofar.(data := sofar.data.(errexitIgnored := true)), depth);
      } else {
        AndOrRefines(ops, fuel, operators, rest, i + 1, sofar, depth);
      }
    }
  }

  /** One round's end: the counters say exactly what the completion says. */
  lemma BodyRefines<W>(done: Run<W>, depth: nat)
    ensures AfterBody(Encode(done.data, done.completion, depth + 1), done.status)
         == (var left := LeaveLoop(done);
             if left.Some? then Leave(Encode(left.value.data, left.value.completion, depth + 1), left.value.status)
             else Again(Encode(NextRound(done).data, Normal, depth + 1), NextRound(done).status))
  {
  }

  lemma ErrexitRefines<W>(d: Data<W>, errexit: bool, c: Completion, depth: nat)
    ensures WithErrexit(Encode(d, c, depth), errexit) == Encode(d.(errexit := errexit), c, depth)
  {
  }

  lemma SettleRefines<W>(r: Run<W>, depth: nat)
    ensures MaybeErrexit(Encode(r.data, r.completion, depth), r.status)
         == Encode(Settle(r).data, Settle(r).completion, depth)
  {
  }

  /** The condition of a flag-driven loop taken apart. */
  lemma TestTurns<W, C>(ops: Ops<W, C>, fuel: nat, until: bool, test: Node<C>, body: Node<C>, s: State<W>, status: int)
    requires fuel > 0 && !s.shouldExit
    ensures var t := Exec(ops, fuel - 1, test, WithErrexit(s, false));
            && (t.None? ==> ExecLoop(ops, fuel, until, test, body, s, status).None?)
            && (t.Some? ==>
                  ExecLoop(ops, fuel, until, test, body, s, status)
                    == ExecAfterTest(ops, fuel - 1, until, test, body, status,
                                     WithErrexit(t.value.0, s.data.errexit), t.value.1))
  {
    hide Exec, ExecAfterTest, WithErrexit;
  }

  lemma TestLogged<W, C>(ops: Ops<W, C>, fuel: nat, until: bool, test: Node<C>, body: Node<C>, s: State<W>, status: int)
    requires fuel > 0 && !s.shouldExit && ExecLoop(ops, fuel, until, test, body, s, status).Some?
    ensures var t := Exec(ops, fuel - 1, test, WithErrexit(s, false));
            && t.Some?
            && var s2 := WithErrexit(t.value.0, s.data.errexit);
            && ExecAfterTest(ops, fuel - 1, until, test, body, status, s2, t.value.1).Some?
            && LogLoop(ops, fuel, until, test, body, s, status)
                 == Log(ops, fuel - 1, test, WithErrexit(s, false))
                    + (TestLog(s2) + LogAfterTest(ops, fuel - 1, until, test, body, status, s2, t.value.1))
  {
    hide Exec, ExecLoop, ExecAfterTest, WithErrexit, Log, LogAfterTest, TestLog;
    TestTurns(ops, fuel, until, test, body, s, status);
  }

  lemma NotInThree<T>(x: T, a: seq<T>, b: seq<T>, c: seq<T>)
    ensures x !in a + (b + c) <==> x !in a && x !in b && x !in c
  {
  }

  /** What makes a loop calm. */
  lemma TestCalm<W, C>(ops: Ops<W, C>, fuel: nat, until: bool, test: Node<C>, body: Node<C>, s: State<W>, status: int)
    requires fuel > 0 && !s.shouldExit
    ensures !CalmRun(ops, fuel - 1, test, WithErrexit(s, false)) ==> !CalmLoop(ops, fuel, until, test, body, s, status)
    ensures CalmRun(ops, fuel - 1, test, WithErrexit(s, false)) ==>
              var t := Exec(ops, fuel - 1, test, WithErrexit(s, false)).value;
              var s2 := WithErrexit(t.0, s.data.errexit);
              CalmLoop(ops, fuel, until, test, body, s, status) <==>
                Pending(s2) == 0 && CalmAfterTest(ops, fuel - 1, until, test, body, status, s2, t.1)
  {
    hide Exec, ExecLoop, ExecAfterTest, WithErrexit, Log, LogLoop, LogAfterTest;
    TestTurns(ops, fuel, until, test, body, s, status);
    if ExecLoop(ops, fuel, until, test, body, s, status).Some? {
      TestLogged(ops, fuel, until, test, body, s, status);
      var t := Exec(ops, fuel - 1, test, WithErrexit(s, false)).value;
      var s2 := WithErrexit(t.0, s.data.errexit);
      NotInThree(TestBroke, Log(ops, fuel - 1, test, WithErrexit(s, false)), TestLog(s2),
                 LogAfterTest(ops, fuel - 1, until, test, body, status, s2, t.1));
    }
  }

  lemma NothingPending<W>(d: Data<W>, c: Completion, depth: nat)
    ensures Pending(Encode(d, c, depth)) == (if c.Breaking? || c.Continuing? then c.levels else 0)
  {
  }

  /** The semantics of a loop, once its condition is known. */
  lemma SemTests<W, C>(ops: Ops<W, C>, fuel: nat, until: bool, test: Node<C>, body: Node<C>, sofar: Run<W>, depth: nat)
    requires fuel > 0
    ensures var t := Sem(AsGiven, ops, fuel - 1, test, sofar.data.(errexit := false), depth + 1);
            var r := SemLoop(AsGiven, ops, fuel, until, test, body, sofar, depth);
            && (t.None? ==> r.None?)
            && (t.Some? ==>
                  && r == SemAfterTest(AsGiven, ops, fuel - 1, until, test, body, sofar.status,
                                       Tested(sofar, t.value), depth)
                  && (r.Some? && r.value.quiet ==> t.value.quiet))
  {
    hide Sem, SemAfterTest;
  }

  ghost predicate LoopAgrees<W, C>(ops: Ops<W, C>, fuel: nat, until: bool, test: Node<C>, body: Node<C>,
                                   sofar: Run<W>, depth: nat)
  {
    var s := Encode(sofar.data, Normal, depth + 1);
    Agrees(SemLoop(AsGiven, ops, fuel, until, test, body, sofar, depth),
           ExecLoop(ops, fuel, until, test, body, s, sofar.status),
           CalmLoop(ops, fuel, until, test, body, s, sofar.status), depth + 1)
  }

  /** The condition agrees, and what follows it. */
  ghost predicate TestAgrees<W, C>(ops: Ops<W, C>, fuel: nat, until: bool, test: Node<C>, body: Node<C>,
                                   sofar: Run<W>, depth: nat)
    requires fuel > 0
  {
    var d := sofar.data.(errexit := false);
    var t := Sem(AsGiven, ops, fuel - 1, test, d, depth + 1);
    && RunAgrees(ops, fuel - 1, test, d, depth + 1)
    && (t.Some? && t.value.quiet ==>
          AfterTestAgrees(ops, fuel - 1, until, test, body, sofar.status, Tested(sofar, t.value), depth))
  }

  lemma LoopFromTest<W, C>(ops: Ops<W, C>, fuel: nat, until: bool, test: Node<C>, body: Node<C>, sofar: Run<W>,
      depth: nat)
    requires fuel > 0 && sofar.completion.Normal? && sofar.quiet
    requires TestAgrees(ops, fuel, until, test, body, sofar, depth)
    ensures LoopAgrees(ops, fuel, until, test, body, sofar, depth)
  {
    hide Sem, Exec, Encode, CalmRun, TestAgrees, LoopAgrees;
    if CalmRun(ops, fuel - 1, test, Encode(sofar.data.(errexit := false), Normal, depth + 1)) {
      LoopFromCalm(ops, fuel, until, test, body, sofar, depth);
    } else {
      LoopFromOther(ops, fuel, until, test, body, sofar, depth);
    }
  }

  lemma LoopFromOther<W, C>(ops: Ops<W, C>, fuel: nat, until: bool, test: Node<C>, body: Node<C>, sofar: Run<W>,
      depth: nat)
    requires fuel > 0 && TestAgrees(ops, fuel, until, test, body, sofar, depth)
    requires !CalmRun(ops, fuel - 1, test, Encode(sofar.data.(errexit := false), Normal, depth + 1))
    ensures LoopAgrees(ops, fuel, until, test, body, sofar, depth)
  {
    hide Sem, SemLoop, SemAfterTest, Exec, ExecLoop, ExecAfterTest, Encode, WithErrexit, AfterTestAgrees;
    hide CalmRun, CalmLoop, CalmAfterTest, Pending;
    SemTests(ops, fuel, until, test, body, sofar, depth);
    ErrexitRefines(sofar.data, false, Normal, depth + 1);
    TestCalm(ops, fuel, until, test, body, Encode(sofar.data, Normal, depth + 1), sofar.status);
  }

  lemma LoopFromCalm<W, C>(ops: Ops<W, C>, fuel: nat, until: bool, test: Node<C>, body: Node<C>, sofar: Run<W>,
      depth: nat)
    requires fuel > 0 && sofar.completion.Normal? && sofar.quiet
    requires TestAgrees(ops, fuel, until, test, body, sofar, depth)
    requires CalmRun(ops, fuel - 1, test, Encode(sofar.data.(errexit := false), Normal, depth + 1))
    ensures LoopAgrees(ops, fuel, until, test, body, sofar, depth)
  {
    hide Sem, SemLoop, SemAfterTest, Exec, ExecLoop, ExecAfterTest, Encode, WithErrexit;
    hide CalmRun, CalmLoop, CalmAfterTest, Pending;
    var s := Encode(sofar.data, Normal, depth + 1);
    var t := Sem(AsGiven, ops, fuel - 1, test, sofar.data.(errexit := false), depth + 1).value;
    ErrexitRefines(sofar.data, false, Normal, depth + 1);
    ErrexitRefines(t.data, sofar.data.errexit, t.completion, depth + 1);
    NothingPending(Tested(sofar, t).data, t.completion, depth + 1);
    TestTurns(ops, fuel, until, test, body, s, sofar.status);
    TestCalm(ops, fuel, until, test, body, s, sofar.status);
    SemTests(ops, fuel, until, test, body, sofar, depth);
  }

  lemma {:induction false} LoopRefines<W, C>(ops: Ops<W, C>, fuel: nat, until: bool, test: Node<C>,
      body: Node<C>, sofar: Run<W>, depth: nat)
    requires sofar.completion.Normal? && sofar.quiet
    ensures LoopAgrees(ops, fuel, until, test, body, sofar, depth)
    decreases fuel, body, 1
  {
    hide Sem, RunAgrees, AfterTestAgrees;
    if fuel == 0 {
      NoFuel(ops, until, test, body, sofar, depth);
    } else {
      hide LoopAgrees;
      FlagsRefine(ops, fuel - 1, test, sofar.data.(errexit := false), depth + 1);
      var t := Sem(AsGiven, ops, fuel - 1, test, sofar.data.(errexit := false), depth + 1);
      if t.Some? && t.value.quiet {
        AfterTestRefines(ops, fuel - 1, until, test, body, sofar.status, Tested(sofar, t.value), depth);
      }
      LoopFromTest(ops, fuel, until, test, body, sofar, depth);
    }
  }

  lemma NoFuel<W, C>(ops: Ops<W, C>, until: bool, test: Node<C>, body: Node<C>, sofar: Run<W>, depth: nat)
    ensures SemLoop(AsGiven, ops, 0, until, test, body, sofar, depth) == None
    ensures !CalmLoop(ops, 0, until, test, body, Encode(sofar.data, Normal, depth + 1), sofar.status)
  {
  }

  lemma CalmDecides<W, C>(ops: Ops<W, C>, fuel: nat, until: bool, test: Node<C>, body: Node<C>, status: int,
      s: State<W>, testStatus: int)
    ensures CalmAfterTest(ops, fuel, until, test, body, status, s, testStatus) <==>
              s.shouldExit || s.returnRequested || (testStatus == 0) == until
              || CalmRound(ops, fuel, until, test, body, s)
  {
    hide ExecRound, LogRound;
  }

  /** A condition that breaks makes the run of the semantics one that is not quiet. */
  ghost predicate AfterTestAgrees<W, C>(ops: Ops<W, C>, fuel: nat, until: bool, test: Node<C>, body: Node<C>,
                                        status: int, tested: Run<W>, depth: nat)
  {
    var r := SemAfterTest(AsGiven, ops, fuel, until, test, body, status, tested, depth);
    var s := Encode(tested.data, tested.completion, depth + 1);
    if tested.completion.Breaking? || tested.completion.Continuing? then r.Some? ==> !r.value.quiet
    else
      Agrees(r, ExecAfterTest(ops, fuel, until, test, body, status, s, tested.status),
             CalmAfterTest(ops, fuel, until, test, body, status, s, tested.status), depth + 1)
  }

  lemma ExecDecides<W, C>(ops: Ops<W, C>, fuel: nat, until: bool, test: Node<C>, body: Node<C>, status: int,
      s: State<W>, testStatus: int)
    ensures ExecAfterTest(ops, fuel, until, test, body, status, s, testStatus)
         == if s.shouldExit || s.returnRequested || (testStatus == 0) == until then Some((s, status))
            else ExecRound(ops, fuel, until, test, body, s)
  {
    hide ExecRound;
  }

  lemma SemDecides<W, C>(ops: Ops<W, C>, fuel: nat, until: bool, test: Node<C>, body: Node<C>, status: int,
      tested: Run<W>, depth: nat)
    ensures var r := SemAfterTest(AsGiven, ops, fuel, until, test, body, status, tested, depth);
            if tested.completion.Breaking? || tested.completion.Continuing? then r.Some? ==> !r.value.quiet
            else if !tested.completion.Normal? || (tested.status == 0) == until then
              r == Some(tested.(status := status))
            else r == SemRound(AsGiven, ops, fuel, until, test, body, tested, depth)
  {
    hide SemRound, SemTestLeaves;
  }

  lemma AfterTestFromRound<W, C>(ops: Ops<W, C>, fuel: nat, until: bool, test: Node<C>, body: Node<C>, status: int,
      tested: Run<W>, depth: nat)
    requires tested.quiet
    requires tested.completion.Normal? && (tested.status == 0) != until ==>
               RoundAgrees(ops, fuel, until, test, body, tested, depth)
    ensures AfterTestAgrees(ops, fuel, until, test, body, status, tested, depth)
  {
    hide SemRound, SemAfterTest, ExecRound, ExecAfterTest, CalmRound, Encode, CalmAfterTest;
    var s := Encode(tested.data, tested.completion, depth + 1);
    SemDecides(ops, fuel, until, test, body, status, tested, depth);
    ExecDecides(ops, fuel, until, test, body, status, s, tested.status);
    CalmDecides(ops, fuel, until, test, body, status, s, tested.status);
  }

  lemma {:induction false} AfterTestRefines<W, C>(ops: Ops<W, C>, fuel: nat, until: bool, test: Node<C>,
      body: Node<C>, status: int, tested: Run<W>, depth: nat)
    requires tested.quiet
    ensures AfterTestAgrees(ops, fuel, until, test, body, status, tested, depth)
    decreases fuel, body, 3
  {
    hide AfterTestAgrees, RoundAgrees;
    if tested.completion.Normal? && (tested.status == 0) != until {
      RoundRefines(ops, fuel, until, test, body, tested, depth);
    }
    AfterTestFromRound(ops, fuel, until, test, body, status, tested, depth);
  }

  ghost predicate RoundAgrees<W, C>(ops: Ops<W, C>, fuel: nat, until: bool, test: Node<C>, body: Node<C>,
                                    tested: Run<W>, depth: nat)
  {
    var s := Encode(tested.data, Normal, depth + 1);
    Agrees(SemRound(AsGiven, ops, fuel, until, test, body, tested, depth),
           ExecRound(ops, fuel, until, test, body, s), CalmRound(ops, fuel, until, test, body, s), depth + 1)
  }

  /** A round of the semantics taken apart. */
  lemma SemTurns<W, C>(ops: Ops<W, C>, fuel: nat, until: bool, test: Node<C>, body: Node<C>, tested: Run<W>, depth: nat)
    ensures var b := Sem(AsGiven, ops, fuel, body, tested.data, depth + 1);
            var r := SemRound(AsGiven, ops, fuel, until, test, body, tested, depth);
            && (b.None? ==> r.None?)
            && (b.Some? ==>
                  var done := After(tested, Settle(b.value));
                  && r == (if LeaveLoop(done).Some? then LeaveLoop(done)
                           else SemLoop(AsGiven, ops, fuel, until, test, body, NextRound(done), depth))
                  && (r.Some? && r.value.quiet ==> b.value.quiet))
  {
    hide Sem, SemLoop, NextRound;
  }

  /** What makes a round calm. */
  lemma CalmTurns<W, C>(ops: Ops<W, C>, fuel: nat, until: bool, test: Node<C>, body: Node<C>, s: State<W>)
    ensures !CalmRun(ops, fuel, body, s) ==> !CalmRound(ops, fuel, until, test, body, s)
    ensures CalmRun(ops, fuel, body, s) ==>
              var b := Exec(ops, fuel, body, s).value;
              var turn := AfterBody(MaybeErrexit(b.0, b.1), b.1);
              CalmRound(ops, fuel, until, test, body, s) <==>
                turn.Leave? || CalmLoop(ops, fuel, until, test, body, turn.s, turn.status)
  {
    hide Exec, ExecLoop, ExecRound, AfterBody, MaybeErrexit, Log, LogLoop, LogRound;
    LoopTurns(ops, fuel, until, test, body, s);
    if ExecRound(ops, fuel, until, test, body, s).Some? {
      RoundLogged(ops, fuel, until, test, body, s);
    }
  }

  lemma RoundLogged<W, C>(ops: Ops<W, C>, fuel: nat, until: bool, test: Node<C>, body: Node<C>, s: State<W>)
    requires ExecRound(ops, fuel, until, test, body, s).Some?
    ensures var b := Exec(ops, fuel, body, s);
            && b.Some?
            && var s2 := MaybeErrexit(b.value.0, b.value.1);
            var turn := AfterBody(s2, b.value.1);
            && (turn.Again? ==> ExecLoop(ops, fuel, until, test, body, turn.s, turn.status).Some?)
            && (TestBroke !in LogRound(ops, fuel, until, test, body, s) <==>
                  && TestBroke !in Log(ops, fuel, body, s)
                  && (turn.Again? ==> TestBroke !in LogLoop(ops, fuel, until, test, body, turn.s, turn.status)))
  {
    hide Exec, ExecLoop, ExecRound, AfterBody, MaybeErrexit, Log, LogLoop;
    LoopTurns(ops, fuel, until, test, body, s);
  }

  /** The body of a round agrees, and it has left the loop, or the rounds after it agree. */
  ghost predicate BodyAgrees<W, C>(ops: Ops<W, C>, fuel: nat, until: bool, test: Node<C>, body: Node<C>,
                                   tested: Run<W>, depth: nat)
  {
    var b := Sem(AsGiven, ops, fuel, body, tested.data, depth + 1);
    && RunAgrees(ops, fuel, body, tested.data, depth + 1)
    && (b.Some? && b.value.quiet ==>
          var done := After(tested, Settle(b.value));
          LeaveLoop(done).None? ==> LoopAgrees(ops, fuel, until, test, body, NextRound(done), depth))
  }

  lemma RoundFromBody<W, C>(ops: Ops<W, C>, fuel: nat, until: bool, test: Node<C>, body: Node<C>, tested: Run<W>,
      depth: nat)
    requires tested.completion.Normal? && tested.quiet
    requires BodyAgrees(ops, fuel, until, test, body, tested, depth)
    ensures RoundAgrees(ops, fuel, until, test, body, tested, depth)
  {
    hide Sem, Exec, SemLoop, ExecLoop, SemRound, ExecRound, CalmRun, CalmLoop, CalmRound, BodyAgrees, RoundAgrees;
    hide AfterBody, MaybeErrexit, Settle, LeaveLoop, NextRound, Encode;
    if CalmRun(ops, fuel, body, Encode(tested.data, Normal, depth + 1)) {
      RoundFromCalm(ops, fuel, until, test, body, tested, depth);
    } else {
      RoundFromOther(ops, fuel, until, test, body, tested, depth);
    }
  }

  lemma RoundFromOther<W, C>(ops: Ops<W, C>, fuel: nat, until: bool, test: Node<C>, body: Node<C>, tested: Run<W>,
      depth: nat)
    requires BodyAgrees(ops, fuel, until, test, body, tested, depth)
    requires !CalmRun(ops, fuel, body, Encode(tested.data, Normal, depth + 1))
    ensures RoundAgrees(ops, fuel, until, test, body, tested, depth)
  {
    hide Sem, Exec, SemLoop, ExecLoop, SemRound, ExecRound, CalmRun, CalmLoop, CalmRound;
    hide AfterBody, MaybeErrexit, Settle, LeaveLoop, NextRound, Encode;
    SemTurns(ops, fuel, until, test, body, tested, depth);
    CalmTurns(ops, fuel, until, test, body, Encode(tested.data, Normal, depth + 1));
  }

  /** What the semantics and the flags make of the end of a body. */
  lemma BodyEnds<W>(b: Run<W>, tested: Run<W>, depth: nat)
    ensures AfterBody(MaybeErrexit(Encode(b.data, b.completion, depth + 1), b.status), b.status)
         == (var done := After(tested, Settle(b));
             var left := LeaveLoop(done);
             if left.Some? then Leave(Encode(left.value.data, left.value.completion, depth + 1), left.value.status)
             else Again(Encode(NextRound(done).data, Normal, depth + 1), NextRound(done).status))
  {
    hide AfterBody, MaybeErrexit, Settle, LeaveLoop, NextRound, Encode;
    SettleRefines(b, depth + 1);
    BodyRefines(After(tested, Settle(b)), depth);
  }

  lemma RoundFromCalm<W, C>(ops: Ops<W, C>, fuel: nat, until: bool, test: Node<C>, body: Node<C>, tested: Run<W>,
      depth: nat)
    requires tested.completion.Normal? && tested.quiet
    requires BodyAgrees(ops, fuel, until, test, body, tested, depth)
    requires CalmRun(ops, fuel, body, Encode(tested.data, Normal, depth + 1))
    ensures RoundAgrees(ops, fuel, until, test, body, tested, depth)
  {
    hide Sem, Exec, SemLoop, ExecLoop, SemRound, ExecRound, CalmRun, CalmLoop, CalmRound;
    hide AfterBody, MaybeErrexit, Settle, LeaveLoop, NextRound, Encode;
    var s := Encode(tested.data, Normal, depth + 1);
    SemTurns(ops, fuel, until, test, body, tested, depth);
    LoopTurns(ops, fuel, until, test, body, s);
    CalmTurns(ops, fuel, until, test, body, s);
    BodyEnds(Sem(AsGiven, ops, fuel, body, tested.data, depth + 1).value, tested, depth);
  }

  lemma {:induction false} RoundRefines<W, C>(ops: Ops<W, C>, fuel: nat, until: bool, test: Node<C>,
      body: Node<C>, tested: Run<W>, depth: nat)
    requires tested.completion.Normal? && tested.quiet
    ensures RoundAgrees(ops, fuel, until, test, body, tested, depth)
    decreases fuel, body, 2
  {
    hide Sem, Settle, LeaveLoop, NextRound, RunAgrees, LoopAgrees, RoundAgrees;
    FlagsRefine(ops, fuel, body, tested.data, depth + 1);
    var b := Sem(AsGiven, ops, fuel, body, tested.data, depth + 1);
    if b.Some? && b.value.quiet {
      var done := After(tested, Settle(b.value));
      if LeaveLoop(done).None? {
        LoopRefines(ops, fuel, until, test, body, NextRound(done), depth);
      }
    }
    RoundFromBody(ops, fuel, until, test, body, tested, depth);
  }

  ghost predicate ForAgrees<W, C>(ops: Ops<W, C>, fuel: nat, words: C, body: Node<C>, list: seq<string>, i: nat,
                                  sofar: Run<W>, depth: nat)
    requires i <= |list|
  {
    var s := Encode(sofar.data, Normal, depth + 1);
    Agrees(SemFor(AsGiven, ops, fuel, words, body, list, i, sofar, depth),
           ExecFor(ops, fuel, words, body, list, i, s, sofar.status),
           CalmFor(ops, fuel, words, body, list, i, s, sofar.status), depth + 1)
  }

  lemma ForFromBody<W, C>(ops: Ops<W, C>, fuel: nat, words: C, body: Node<C>, list: seq<string>, i: nat,
      sofar: Run<W>, depth: nat)
    requires i < |list| && sofar.completion.Normal? && sofar.quiet
    requires ops.bind(sofar.data, words, list[i]).1 ==>
               var d := ops.bind(sofar.data, words, list[i]).0;
               var b := Sem(AsGiven, ops, fuel, body, d, depth + 1);
               && RunAgrees(ops, fuel, body, d, depth + 1)
               && (b.Some? && b.value.quiet ==>
                     var done := After(sofar, Settle(b.value));
                     LeaveLoop(done).None? ==>
                       ForAgrees(ops, fuel, words, body, list, i + 1, NextRound(done), depth))
    ensures ForAgrees(ops, fuel, words, body, list, i, sofar, depth)
  {
    hide Sem, Exec, Log, AfterBody, MaybeErrexit, Settle;
    var (d, bound) := ops.bind(sofar.data, words, list[i]);
    if bound && CalmRun(ops, fuel, body, Encode(d, Normal, depth + 1)) {
      var b := Sem(AsGiven, ops, fuel, body, d, depth + 1).value;
      SettleRefines(b, depth + 1);
      BodyRefines(After(sofar, Settle(b)), depth);
    }
  }

  lemma {:induction false} ForRefines<W, C>(ops: Ops<W, C>, fuel: nat, words: C, body: Node<C>,
      list: seq<string>, i: nat, sofar: Run<W>, depth: nat)
    requires i <= |list| && sofar.completion.Normal? && sofar.quiet
    ensures ForAgrees(ops, fuel, words, body, list, i, sofar, depth)
    decreases fuel, body, |list| - i + 1
  {
    if i < |list| {
      hide Sem, Settle, LeaveLoop, NextRound, RunAgrees, ForAgrees;
      var (d, bound) := ops.bind(sofar.data, words, list[i]);
      if bound {
        FlagsRefine(ops, fuel, body, d, depth + 1);
        var b := Sem(AsGiven, ops, fuel, body, d, depth + 1);
        if b.Some? && b.value.quiet {
          var done := After(sofar, Settle(b.value));
          if LeaveLoop(done).None? {
            ForRefines(ops, fuel, words, body, list, i + 1, NextRound(done), depth);
          }
        }
      }
      ForFromBody(ops, fuel, words, body, list, i, sofar, depth);
    }
  }

  // ---------- counts beyond the enclosing loops ----------

  predicate Beyond(c: Completion, depth: nat) {
    (c.Breaking? || c.Continuing?) && c.levels > depth
  }

  /** A run that named too many loops is on its way out of all of them, and no other run is. */
  predicate OverIsBeyond<W>(r: Run<W>, depth: nat) {
    r.quiet ==> (r.over <==> Beyond(r.completion, depth))
  }

  lemma {:induction false} OverSurvives<W, C>(ops: Ops<W, C>, fuel: nat, n: Node<C>, d: Data<W>, depth: nat)
    requires Sem(AsGiven, ops, fuel, n, d, depth).Some?
    ensures OverIsBeyond(Sem(AsGiven, ops, fuel, n, d, depth).value, depth)
    decreases fuel, n, 0
  {
    match n
    case Empty =>
    case Simple(_) =>
    case Sequence(items) => OverSequence(ops, fuel, items, 0, Run(d, 0, Normal, true, false), depth);
    case AndOr(first, operators, rest) =>
      OverSurvives(ops, fuel, first, d, depth);
      OverAndOr(ops, fuel, operators, rest, 0, Sem(AsGiven, ops, fuel, first, d, depth).value, depth);
    case Negated(child) => OverSurvives(ops, fuel, child, d, depth);
    case If(test, yes, no) =>
      OverSurvives(ops, fuel, test, d.(errexit := false), depth);
      var t := Sem(AsGiven, ops, fuel, test, d.(errexit := false), depth).value;
      var tested := t.(data := t.data.(errexit := d.errexit));
      if tested.completion.Normal? && tested.status == 0 {
        OverSurvives(ops, fuel, yes, tested.data, depth);
      } else if tested.completion.Normal? && no.SomeNode? {
        OverSurvives(ops, fuel, no.node, tested.data, depth);
      }
    case Loop(until, test, body) => OverLoop(ops, fuel, until, test, body, Run(d, 0, Normal, true, false), depth);
    case For(words, body) =>
      var (d1, list) := ops.expand(d, words);
      if list.Some? {
        OverFor(ops, fuel, words, body, list.value, 0, Run(d1, 0, Normal, true, false), depth);
      }
    case Redirected(redirs, command) =>
      if ops.redirect(d, redirs).1 {
        OverSurvives(ops, fuel, command, ops.redirect(d, redirs).0, depth);
      }
  }

  lemma {:induction false} OverSequence<W, C>(ops: Ops<W, C>, fuel: nat, items: seq<Node<C>>, i: nat,
      sofar: Run<W>, depth: nat)
    requires i <= |items| && OverIsBeyond(sofar, depth)
    requires SemSequence(AsGiven, ops, fuel, items, i, sofar, depth).Some?
    ensures OverIsBeyond(SemSequence(AsGiven, ops, fuel, items, i, sofar, depth).value, depth)
    decreases fuel, items, |items| - i
  {
    if i < |items| && sofar.completion.Normal? {
      OverSurvives(ops, fuel, items[i], sofar.data, depth);
      var r := Sem(AsGiven, ops, fuel, items[i], sofar.data, depth).value;
      OverSequence(ops, fuel, items, i + 1, After(sofar, Settle(r.(data := r.data.(lastStatus := r.status)))), depth);
    }
  }

  lemma {:induction false} OverAndOr<W, C>(ops: Ops<W, C>, fuel: nat, operators: seq<AndOrOp>,
      rest: seq<Node<C>>, i: nat, sofar: Run<W>, depth: nat)
    requires i <= |rest| && OverIsBeyond(sofar, depth)
    requires SemAndOr(AsGiven, ops, fuel, operators, rest, i, sofar, depth).Some?
    ensures OverIsBeyond(SemAndOr(AsGiven, ops, fuel, operators, rest, i, sofar, depth).value, depth)
    decreases fuel, rest, |rest| - i
  {
    if i < |rest| && i < |operators| && sofar.completion.Normal? {
      if (operators[i] == OpAnd) == (sofar.status == 0) {
        OverSurvives(ops, fuel, rest[i], sofar.data, depth);
        OverAndOr(ops, fuel, operators, rest, i + 1, After(sofar,
            Sem(AsGiven, ops, fuel, rest[i], sofar.data, depth).value), depth);
      } else if operators[i] == OpAnd {
        OverAndOr(ops, fuel, operators, rest, i + 1, sofar.(data := sofar.data.(errexitIgnored := true)), depth);
      } else {
        OverAndOr(ops, fuel, operators, rest, i + 1, sofar, depth);
      }
    }
  }

  lemma {:induction false} OverLoop<W, C>(ops: Ops<W, C>, fuel: nat, until: bool, test: Node<C>, body: Node<C>,
      sofar: Run<W>, depth: nat)
    requires sofar.completion.Normal? && OverIsBeyond(sofar, depth)
    requires SemLoop(AsGiven, ops, fuel, until, test, body, sofar, depth).Some?
    ensures OverIsBeyond(SemLoop(AsGiven, ops, fuel, until, test, body, sofar, depth).value, depth)
    decreases fuel, body, 1
  {
    hide Sem, SemRound, SemTestLeaves;
    var t := Sem(AsGiven, ops, fuel - 1, test, sofar.data.(errexit := false), depth + 1).value;
    OverSurvives(ops, fuel - 1, test, sofar.data.(errexit := false), depth + 1);
    var tested := Tested(sofar, t);
    if tested.completion.Normal? && (tested.status == 0) != until {
      OverRound(ops, fuel - 1, until, test, body, tested, depth);
    }
  }

  lemma {:induction false} OverRound<W, C>(ops: Ops<W, C>, fuel: nat, until: bool, test: Node<C>,
      body: Node<C>, tested: Run<W>, depth: nat)
    requires tested.completion.Normal? && OverIsBeyond(tested, depth)
    requires SemRound(AsGiven, ops, fuel, until, test, body, tested, depth).Some?
    ensures OverIsBeyond(SemRound(AsGiven, ops, fuel, until, test, body, tested, depth).value, depth)
    decreases fuel, body, 2
  {
    hide Sem, SemLoop;
    OverSurvives(ops, fuel, body, tested.data, depth + 1);
    var done := After(tested, Settle(Sem(AsGiven, ops, fuel, body, tested.data, depth + 1).value));
    if LeaveLoop(done).None? {
      OverLoop(ops, fuel, until, test, body, NextRound(done), depth);
    }
  }

  lemma {:induction false} OverFor<W, C>(ops: Ops<W, C>, fuel: nat, words: C, body: Node<C>, list: seq<string>,
      i: nat, sofar: Run<W>, depth: nat)
    requires i <= |list| && sofar.completion.Normal? && OverIsBeyond(sofar, depth)
    requires SemFor(AsGiven, ops, fuel, words, body, list, i, sofar, depth).Some?
    ensures OverIsBeyond(SemFor(AsGiven, ops, fuel, words, body, list, i, sofar, depth).value, depth)
    decreases fuel, body, |list| - i + 1
  {
    if i < |list| && ops.bind(sofar.data, words, list[i]).1 {
      var d := ops.bind(sofar.data, words, list[i]).0;
      OverSurvives(ops, fuel, body, d, depth + 1);
      var done := After(sofar, Settle(Sem(AsGiven, ops, fuel, body, d, depth + 1).value));
      if LeaveLoop(done).None? {
        OverFor(ops, fuel, words, body, list, i + 1, NextRound(done), depth);
      }
    }
  }

  // ---------- both ways of counting agree while no count is too large ----------

  lemma {:induction false} CountingAgrees<W, C>(c: Counting, c': Counting, ops: Ops<W, C>, fuel: nat,
      n: Node<C>, d: Data<W>, depth: nat)
    requires var r := Sem(c, ops, fuel, n, d, depth); r.Some? && !r.value.over
    ensures Sem(c', ops, fuel, n, d, depth) == Sem(c, ops, fuel, n, d, depth)
    decreases fuel, n, 0
  {
    match n
    case Empty =>
    case Simple(_) =>
    case Sequence(items) => SequenceCounts(c, c', ops, fuel, items, 0, Run(d, 0, Normal, true, false), depth);
    case AndOr(first, operators, rest) =>
      CountingAgrees(c, c', ops, fuel, first, d, depth);
      AndOrCounts(c, c', ops, fuel, operators, rest, 0, Sem(c, ops, fuel, first, d, depth).value, depth);
    case Negated(child) => CountingAgrees(c, c', ops, fuel, child, d, depth);
    case If(test, yes, no) =>
      CountingAgrees(c, c', ops, fuel, test, d.(errexit := false), depth);
      var t := Sem(c, ops, fuel, test, d.(errexit := false), depth).value;
      var tested := t.(data := t.data.(errexit := d.errexit));
      if tested.completion.Normal? && tested.status == 0 {
        CountingAgrees(c, c', ops, fuel, yes, tested.data, depth);
      } else if tested.completion.Normal? && no.SomeNode? {
        CountingAgrees(c, c', ops, fuel, no.node, tested.data, depth);
      }
    case Loop(until, test, body) => LoopCounts(c, c', ops, fuel, until, test, body,
        Run(d, 0, Normal, true, false), depth);
    case For(words, body) =>
      var (d1, list) := ops.expand(d, words);
      if list.Some? {
        ForCounts(c, c', ops, fuel, words, body, list.value, 0, Run(d1, 0, Normal, true, false), depth);
      }
    case Redirected(redirs, command) =>
      if ops.redirect(d, redirs).1 {
        CountingAgrees(c, c', ops, fuel, command, ops.redirect(d, redirs).0, depth);
      }
  }

  lemma {:induction false} SequenceCounts<W, C>(c: Counting, c': Counting, ops: Ops<W, C>, fuel: nat,
      items: seq<Node<C>>, i: nat, sofar: Run<W>, depth: nat)
    requires i <= |items|
    requires var r := SemSequence(c, ops, fuel, items, i, sofar, depth); r.Some? && !r.value.over
    ensures SemSequence(c', ops, fuel, items, i, sofar, depth) == SemSequence(c, ops, fuel, items, i, sofar, depth)
    decreases fuel, items, |items| - i
  {
    if i < |items| && sofar.completion.Normal? {
      CountingAgrees(c, c', ops, fuel, items[i], sofar.data, depth);
      var r := Sem(c, ops, fuel, items[i], sofar.data, depth).value;
      SequenceCounts(c, c', ops, fuel, items, i + 1,
          After(sofar, Settle(r.(data := r.data.(lastStatus := r.status)))), depth);
    }
  }

  lemma {:induction false} AndOrCounts<W, C>(c: Counting, c': Counting, ops: Ops<W, C>, fuel: nat,
      operators: seq<AndOrOp>, rest: seq<Node<C>>, i: nat, sofar: Run<W>, depth: nat)
    requires i <= |rest|
    requires var r := SemAndOr(c, ops, fuel, operators, rest, i, sofar, depth); r.Some? && !r.value.over
    ensures SemAndOr(c', ops, fuel, operators, rest, i, sofar, depth)
        == SemAndOr(c, ops, fuel, operators, rest, i, sofar, depth)
    decreases fuel, rest, |rest| - i
  {
    if i < |rest| && i < |operators| && sofar.completion.Normal? {
      if (operators[i] == OpAnd) == (sofar.status == 0) {
        CountingAgrees(c, c', ops, fuel, rest[i], sofar.data, depth);
        AndOrCounts(c, c', ops, fuel, operators, rest, i + 1, After(sofar,
            Sem(c, ops, fuel, rest[i], sofar.data, depth).value), depth);
      } else if operators[i] == OpAnd {
        AndOrCounts(c, c', ops, fuel, operators, rest, i + 1,
            sofar.(data := sofar.data.(errexitIgnored := true)), depth);
      } else {
        AndOrCounts(c, c', ops, fuel, operators, rest, i + 1, sofar, depth);
      }
    }
  }

  lemma {:induction false} LoopCounts<W, C>(c: Counting, c': Counting, ops: Ops<W, C>, fuel: nat, until: bool,
      test: Node<C>, body: Node<C>, sofar: Run<W>, depth: nat)
    requires var r := SemLoop(c, ops, fuel, until, test, body, sofar, depth); r.Some? && !r.value.over
    ensures SemLoop(c', ops, fuel, until, test, body, sofar, depth)
        == SemLoop(c, ops, fuel, until, test, body, sofar, depth)
    decreases fuel, body, 1
  {
    hide Sem, SemAfterTest;
    var t := Sem(c, ops, fuel - 1, test, sofar.data.(errexit := false), depth + 1).value;
    CountingAgrees(c, c', ops, fuel - 1, test, sofar.data.(errexit := false), depth + 1);
    AfterTestCounts(c, c', ops, fuel - 1, until, test, body, sofar.status, Tested(sofar, t), depth);
  }

  lemma {:induction false} AfterTestCounts<W, C>(c: Counting, c': Counting, ops: Ops<W, C>, fuel: nat,
      until: bool, test: Node<C>, body: Node<C>, status: int, tested: Run<W>, depth: nat)
    requires var r := SemAfterTest(c, ops, fuel, until, test, body, status, tested, depth); r.Some? && !r.value.over
    ensures SemAfterTest(c', ops, fuel, until, test, body, status, tested, depth)
        == SemAfterTest(c, ops, fuel, until, test, body, status, tested, depth)
    decreases fuel, body, 3
  {
    hide SemRound, SemTestLeaves;
    if tested.completion.Breaking? || tested.completion.Continuing? {
      TestLeavesCounts(c, c', ops, fuel, until, test, body, tested.(quiet := false), depth);
    } else if tested.completion.Normal? && (tested.status == 0) != until {
      RoundCounts(c, c', ops, fuel, until, test, body, tested, depth);
    }
  }

  lemma {:induction false} TestLeavesCounts<W, C>(c: Counting, c': Counting, ops: Ops<W, C>, fuel: nat,
      until: bool, test: Node<C>, body: Node<C>, tested: Run<W>, depth: nat)
    requires var r := SemTestLeaves(c, ops, fuel, until, test, body, tested, depth); r.Some? && !r.value.over
    ensures SemTestLeaves(c', ops, fuel, until, test, body, tested, depth)
        == SemTestLeaves(c, ops, fuel, until, test, body, tested, depth)
    decreases fuel, body, 2
  {
    hide SemLoop;
    if LeaveLoop(tested).None? {
      LoopCounts(c, c', ops, fuel, until, test, body, NextRound(tested), depth);
    }
  }

  lemma {:induction false} RoundCounts<W, C>(c: Counting, c': Counting, ops: Ops<W, C>, fuel: nat, until: bool,
      test: Node<C>, body: Node<C>, tested: Run<W>, depth: nat)
    requires var r := SemRound(c, ops, fuel, until, test, body, tested, depth); r.Some? && !r.value.over
    ensures SemRound(c', ops, fuel, until, test, body, tested, depth)
        == SemRound(c, ops, fuel, until, test, body, tested, depth)
    decreases fuel, body, 2
  {
    hide Sem, SemLoop;
    CountingAgrees(c, c', ops, fuel, body, tested.data, depth + 1);
    var done := After(tested, Settle(Sem(c, ops, fuel, body, tested.data, depth + 1).value));
    if LeaveLoop(done).None? {
      LoopCounts(c, c', ops, fuel, until, test, body, NextRound(done), depth);
    }
  }

  lemma {:induction false} ForCounts<W, C>(c: Counting, c': Counting, ops: Ops<W, C>, fuel: nat, words: C,
      body: Node<C>, list: seq<string>, i: nat, sofar: Run<W>, depth: nat)
    requires i <= |list|
    requires var r := SemFor(c, ops, fuel, words, body, list, i, sofar, depth); r.Some? && !r.value.over
    ensures SemFor(c', ops, fuel, words, body, list, i, sofar, depth)
        == SemFor(c, ops, fuel, words, body, list, i, sofar, depth)
    decreases fuel, body, |list| - i + 1
  {
    if i < |list| && ops.bind(sofar.data, words, list[i]).1 {
      var d := ops.bind(sofar.data, words, list[i]).0;
      CountingAgrees(c, c', ops, fuel, body, d, depth + 1);
      var done := After(sofar, Settle(Sem(c, ops, fuel, body, d, depth + 1).value));
      if LeaveLoop(done).None? {
        ForCounts(c, c', ops, fuel, words, body, list, i + 1, NextRound(done), depth);
      }
    }
  }

  // ---------- whole programs ----------

  /** Behind a whole program that the interpreter has run to its end with no condition breaking, a level is
      pending if and only if some `break` or `continue` found fewer loops around it than it named. */
  lemma PendingIffOver<W, C>(ops: Ops<W, C>, fuel: nat, program: Node<C>, d: Data<W>)
    requires CalmRun(ops, fuel, program, Encode(d, Normal, 0))
    ensures Sem(AsGiven, ops, fuel, program, d, 0).Some?
    ensures Pending(Exec(ops, fuel, program, Encode(d, Normal, 0)).value.0) > 0
            <==> Sem(AsGiven, ops, fuel, program, d, 0).value.over
  {
    hide Sem, Exec, Log, Encode;
    FlagsRefine(ops, fuel, program, d, 0);
    OverSurvives(ops, fuel, program, d, 0);
    var r := Sem(AsGiven, ops, fuel, program, d, 0).value;
    NothingPending(r.data, r.completion, 0);
  }

  /** The interpreter runs a whole program to its end, with no condition breaking and no level pending
      afterwards, exactly when the standard's semantics runs it to its end with no condition breaking and no
      count larger than the loops around it; and then both runs are the same. */
  lemma ProgramRefines<W, C>(ops: Ops<W, C>, fuel: nat, program: Node<C>, d: Data<W>)
    ensures var r := Sem(Clamped, ops, fuel, program, d, 0);
            var s := Encode(d, Normal, 0);
            var calm := CalmRun(ops, fuel, program, s) && Pending(Exec(ops, fuel, program, s).value.0) == 0;
            && (r.Some? && r.value.quiet && !r.value.over <==> calm)
            && (calm ==> Exec(ops, fuel, program, s) == Some(EncodeRun(r.value, 0)))
  {
    hide Sem, Exec, Log, Encode, Pending;
    var given, clamped := Sem(AsGiven, ops, fuel, program, d, 0), Sem(Clamped, ops, fuel, program, d, 0);
    FlagsRefine(ops, fuel, program, d, 0);
    if CalmRun(ops, fuel, program, Encode(d, Normal, 0)) {
      PendingIffOver(ops, fuel, program, d);
    }
    if given.Some? && !given.value.over {
      CountingAgrees(AsGiven, Clamped, ops, fuel, program, d, 0);
    }
    if clamped.Some? && !clamped.value.over {
      CountingAgrees(Clamped, AsGiven, ops, fuel, program, d, 0);
    }
  }

  // ---------- where the interpreter departs from the standard ----------

  /** Commands for the two examples: the world counts how often "echo" ran. */
  function ExampleRun(d: Data<nat>, c: string): Effect<nat> {
    if c == "echo" then Effect(d.(world := d.world + 1), 0, Proceed)
    else if c == "break 1" then Effect(d, 0, BreakOut(1))
    else if c == "break 2" then Effect(d, 0, BreakOut(2))
    else Effect(d, 0, Proceed)
  }

  const EXAMPLE: Ops<nat, string> :=
    Ops(ExampleRun, (d, _) => (d, None), (d, _, _) => (d, true), (d, _) => (d, true), (_, d, _) => d)
  const FRESH: Data<nat> := Data(0, 0, 0, false, false, false)

  /** `while true; do break 2; done; echo` */
  const TOO_MANY: Node<string> :=
    Sequence([Loop(false, Simple("true"), Simple("break 2")), Simple("echo")])

  /** `while break 1; do echo; done` */
  const BREAKING_TEST: Node<string> := Loop(false, Simple("break 1"), Simple("echo"))

  /** A count above the number of loops leaves a level pending that silences the rest of the program. */
  lemma TooManyLevelsDiffers()
    ensures Sem(Clamped, EXAMPLE, 1, TOO_MANY, FRESH, 0).Some?
    ensures Sem(Clamped, EXAMPLE, 1, TOO_MANY, FRESH, 0).value.data.world == 1
    ensures Exec(EXAMPLE, 1, TOO_MANY, Encode(FRESH, Normal, 0)).Some?
    ensures var s := Exec(EXAMPLE, 1, TOO_MANY, Encode(FRESH, Normal, 0)).value.0;
            s.data.world == 0 && s.breakLevels == 1 && s.loopDepth == 0
  {
    var loop := TOO_MANY.items[0];
    var start := Run(FRESH, 0, Normal, true, false);
    assert SemLoop(Clamped, EXAMPLE, 1, false, loop.test, loop.body, start, 0)
        == Some(Run(FRESH, 0, Normal, true, true));
    assert Sem(Clamped, EXAMPLE, 1, loop, FRESH, 0) == Some(Run(FRESH, 0, Normal, true, true));
    var s := Encode(FRESH, Normal, 0);
    assert ExecLoop(EXAMPLE, 1, false, loop.test, loop.body, s.(loopDepth := 1), 0)
        == Some((State(FRESH, false, false, 1, 0, 1), 0));
    assert Exec(EXAMPLE, 1, loop, s) == Some((State(FRESH, false, false, 1, 0, 0), 0));
  }

  /** The counters are not looked at between a condition and the body: a condition that breaks still runs the body. */
  lemma BreakingTestDiffers()
    ensures Sem(Clamped, EXAMPLE, 1, BREAKING_TEST, FRESH, 0) == Some(Run(FRESH, 0, Normal, false, false))
    ensures Exec(EXAMPLE, 1, BREAKING_TEST, Encode(FRESH, Normal, 0)).Some?
    ensures Exec(EXAMPLE, 1, BREAKING_TEST, Encode(FRESH, Normal, 0)).value.0.data.world == 1
  {
    var start := Run(FRESH, 0, Normal, true, false);
    assert SemLoop(Clamped, EXAMPLE, 1, false, BREAKING_TEST.test, BREAKING_TEST.body, start, 0)
        == Some(Run(FRESH, 0, Normal, false, false));
    var s := Encode(FRESH, Normal, 0).(loopDepth := 1);
    assert ExecLoop(EXAMPLE, 1, false, BREAKING_TEST.test, BREAKING_TEST.body, s, 0)
        == Some((State(FRESH.(world := 1), false, false, 0, 0, 1), 0));
  }
}
