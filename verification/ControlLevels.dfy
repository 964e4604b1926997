/** Where the levels of `break` and `continue` go, on every run: also on those whose loop conditions break,
    for which the flags do not do what the completions say. */
module ControlLevels {
  import opened Common
  import opened Control
  import opened ControlLog
  import opened ControlRefines

  // ---------- conditions that break ----------

  /** The loop does not look at the counters between its condition and its body.  A condition that ends in a
      `break` or `continue` of n levels therefore leaves the loop with all n still pending, if its status
      ends the loop; if not, the body starts with all n pending. */
  lemma BreakingTest<W, C>(ops: Ops<W, C>, fuel: nat, until: bool, test: Node<C>, body: Node<C>,
      sofar: Run<W>, depth: nat)
    requires fuel > 0 && Sem(AsGiven, ops, fuel - 1, test, sofar.data.(errexit := false), depth + 1).Some?
    requires var t := Sem(AsGiven, ops, fuel - 1, test, sofar.data.(errexit := false), depth + 1).value;
             t.quiet && (t.completion.Breaking? || t.completion.Continuing?)
    ensures var t := Sem(AsGiven, ops, fuel - 1, test, sofar.data.(errexit := false), depth + 1).value;
            var s := Encode(Tested(sofar, t).data, t.completion, depth + 1);
            && Pending(s) == t.completion.levels
            && ExecLoop(ops, fuel, until, test, body, Encode(sofar.data, Normal, depth + 1), sofar.status)
                 == if (t.status == 0) == until then Some((s, sofar.status))
                    else ExecRound(ops, fuel - 1, until, test, body, s)
  {
    hide Sem, Exec, ExecLoop, ExecRound, CalmRun, WithErrexit;
    var t := Sem(AsGiven, ops, fuel - 1, test, sofar.data.(errexit := false), depth + 1).value;
    FlagsRefine(ops, fuel - 1, test, sofar.data.(errexit := false), depth + 1);
    ErrexitRefines(sofar.data, false, Normal, depth + 1);
    ErrexitRefines(t.data, sofar.data.errexit, t.completion, depth + 1);
    TestTurns(ops, fuel, until, test, body, Encode(sofar.data, Normal, depth + 1), sofar.status);
  }

  /** A whole program that is such a loop: all n levels outlive it, however few they are. */
  lemma BreakingTestOutlives<W, C>(ops: Ops<W, C>, fuel: nat, until: bool, test: Node<C>, body: Node<C>, d: Data<W>)
    requires fuel > 0 && Sem(AsGiven, ops, fuel - 1, test, d.(errexit := false), 1).Some?
    requires var t := Sem(AsGiven, ops, fuel - 1, test, d.(errexit := false), 1).value;
             && t.quiet && (t.completion.Breaking? || t.completion.Continuing?)
             && (t.status == 0) == until
    ensures var t := Sem(AsGiven, ops, fuel - 1, test, d.(errexit := false), 1).value;
            var r := Exec(ops, fuel, Loop(until, test, body), Encode(d, Normal, 0));
            r == Some((Encode(t.data.(errexit := d.errexit), t.completion, 0), 0))
  {
    hide Sem, ExecLoop;
    BreakingTest(ops, fuel, until, test, body, Run(d, 0, Normal, true, false), 0);
  }

  // ---------- what becomes of every level ----------

  predicate OneKind<W>(s: State<W>) {
    s.breakLevels == 0 || s.continueLevels == 0
  }

  /** The levels left of `pending` ones: a new `break` or `continue` takes the place of an older one, and each
      loop body that ends takes one off, if there is one. */
  function Remaining(pending: nat, log: seq<Event>): nat
    decreases |log|
  {
    if log == [] then pending else Remaining(Next(pending, log[0]), log[1..])
  }

  function Next(pending: nat, e: Event): nat {
    match e
    case Named(levels) => levels
    case BodyEnded => Less(pending, 1)
    case TestBroke => pending
  }

  function Less(a: nat, b: nat): nat {
    if a > b then a - b else 0
  }

  lemma {:induction false} RemainingConcat(pending: nat, a: seq<Event>, b: seq<Event>)
    ensures Remaining(pending, a + b) == Remaining(Remaining(pending, a), b)
    decreases |a|
  {
    if a == [] {
      assert a + b == b;
    } else {
      assert (a + b)[1..] == a[1..] + b;
      RemainingConcat(Next(pending, a[0]), a[1..], b);
    }
  }

  /** The levels pending in `s` and the events of `log` account for those pending in `after`. */
  predicate Accounts<W>(s: State<W>, log: seq<Event>, after: State<W>) {
    OneKind(after) && Pending(after) == Remaining(Pending(s), log)
  }

  /** A state with the same counters. */
  predicate SameLevels<W>(s: State<W>, t: State<W>) {
    s.breakLevels == t.breakLevels && s.continueLevels == t.continueLevels
  }

  /** One stretch of a run behind another, with nothing that concerns the counters around them. */
  lemma Chain<W>(s: State<W>, s': State<W>, a: seq<Event>, mid: State<W>, mid': State<W>, b: seq<Event>,
      after: State<W>)
    requires SameLevels(s, s') && Accounts(s', a, mid) && SameLevels(mid, mid') && Accounts(mid', b, after)
    ensures Accounts(s, a + b, after)
  {
    hide Remaining;
    RemainingConcat(Pending(s), a, b);
  }

  lemma Around<W>(s: State<W>, s': State<W>, log: seq<Event>, after: State<W>, after': State<W>)
    requires SameLevels(s, s') && Accounts(s', log, after) && SameLevels(after, after')
    ensures Accounts(s, log, after')
  {
  }

  lemma NothingHappens<W>(s: State<W>)
    requires OneKind(s)
    ensures Accounts(s, [], s)
  {
  }

  lemma BodyAccounts<W>(s: State<W>, status: int)
    requires OneKind(s)
    ensures Accounts(s, BodyLog(s), AfterBody(s, status).s)
  {
    assert Remaining(Pending(s), [BodyEnded]) == Remaining(Less(Pending(s), 1), []);
  }

  lemma TestAccounts<W>(s: State<W>)
    requires OneKind(s)
    ensures Accounts(s, TestLog(s), s)
  {
    assert Remaining(Pending(s), [TestBroke]) == Remaining(Pending(s), []);
  }

  lemma SimpleAccounts<W>(e: Effect<W>, s: State<W>)
    requires OneKind(s)
    ensures Accounts(s, SimpleLog(e, s), ApplyRequest(e, s).0)
  {
    if SimpleLog(e, s) != [] {
      assert SimpleLog(e, s)[1..] == [];
    }
  }

  /** On every terminating run of every command, from any state: the levels pending behind it are those the
      last `break` or `continue` named, less one for each loop body that has ended since, as long as there are
      any. */
  lemma {:induction false} LevelsConserved<W, C>(ops: Ops<W, C>, fuel: nat, n: Node<C>, s: State<W>)
    requires OneKind(s) && Exec(ops, fuel, n, s).Some?
    ensures Accounts(s, Log(ops, fuel, n, s), Exec(ops, fuel, n, s).value.0)
    decreases fuel, n, 0
  {
    hide Pending, Remaining, SimpleLog;
    match n
    case Empty => NothingHappens(s);
    case Simple(c) => SimpleAccounts(ops.run(s.data, c), s);
    case Sequence(items) => SequenceConserved(ops, fuel, items, 0, s, 0);
    case AndOr(first, operators, rest) =>
      var r := Exec(ops, fuel, first, s).value;
      LevelsConserved(ops, fuel, first, s);
      AndOrConserved(ops, fuel, operators, rest, 0, r.0, r.1);
      Chain(s, s, Log(ops, fuel, first, s), r.0, r.0, LogAndOr(ops, fuel, operators, rest, 0, r.0, r.1),
            Exec(ops, fuel, n, s).value.0);
    case Negated(child) =>
      LevelsConserved(ops, fuel, child, s);
      Around(s, s, Log(ops, fuel, child, s), Exec(ops, fuel, child, s).value.0, Exec(ops, fuel, n, s).value.0);
    case If(_, _, _) => IfConserved(ops, fuel, n, s);
    case Loop(until, test, body) =>
      var inside := s.(loopDepth := s.loopDepth + 1);
      LoopConserved(ops, fuel, until, test, body, inside, 0);
      Around(s, inside, LogLoop(ops, fuel, until, test, body, inside, 0),
             ExecLoop(ops, fuel, until, test, body, inside, 0).value.0, Exec(ops, fuel, n, s).value.0);
    case For(words, body) =>
      var (d, list) := ops.expand(s.data, words);
      var inside := s.(data := d, loopDepth := s.loopDepth + 1);
      if list.None? {
        NothingHappens(s);
        Around(s, s, [], s, s.(data := d));
      } else {
        ForConserved(ops, fuel, words, body, list.value, 0, inside, 0);
        Around(s, inside, LogFor(ops, fuel, words, body, list.value, 0, inside, 0),
               ExecFor(ops, fuel, words, body, list.value, 0, inside, 0).value.0, Exec(ops, fuel, n, s).value.0);
      }
    case Redirected(redirs, command) =>
      var (d, ok) := ops.redirect(s.data, redirs);
      var inside := s.(data := d);
      if ok {
        LevelsConserved(ops, fuel, command, inside);
        Around(s, inside, Log(ops, fuel, command, inside), Exec(ops, fuel, command, inside).value.0,
               Exec(ops, fuel, n, s).value.0);
      } else {
        NothingHappens(s);
        Around(s, s, [], s, inside);
      }
  }

  lemma {:induction false} IfConserved<W, C>(ops: Ops<W, C>, fuel: nat, n: Node<C>, s: State<W>)
    requires n.If? && OneKind(s) && Exec(ops, fuel, n, s).Some?
    ensures Accounts(s, LogIf(ops, fuel, n, s), Exec(ops, fuel, n, s).value.0)
    decreases fuel, n, 0, 0
  {
    hide Pending, Remaining;
    var quiet := WithErrexit(s, false);
    var (s1, status) := Exec(ops, fuel, n.test, quiet).value;
    var s2 := WithErrexit(s1, s.data.errexit);
    LevelsConserved(ops, fuel, n.test, quiet);
    var log := Log(ops, fuel, n.test, quiet);
    if !Stopped(s2) && (status == 0 || n.no.SomeNode?) {
      var branch := if status == 0 then n.yes else n.no.node;
      LevelsConserved(ops, fuel, branch, s2);
      var r := Exec(ops, fuel, branch, s2).value;
      Around(s2, s2, Log(ops, fuel, branch, s2), r.0, MaybeErrexit(r.0, r.1));
      Chain(s, quiet, log, s1, s2, Log(ops, fuel, branch, s2), MaybeErrexit(r.0, r.1));
    } else {
      NothingHappens(s2);
      Chain(s, quiet, log, s1, s2, [], s2);
    }
  }

  lemma {:induction false} SequenceConserved<W, C>(ops: Ops<W, C>, fuel: nat, items: seq<Node<C>>, i: nat,
      s: State<W>, status: int)
    requires i <= |items| && OneKind(s) && ExecSequence(ops, fuel, items, i, s, status).Some?
    ensures Accounts(s, LogSequence(ops, fuel, items, i, s, status),
                     ExecSequence(ops, fuel, items, i, s, status).value.0)
    decreases fuel, items, |items| - i
  {
    hide Pending, Remaining;
    if i == |items| {
      NothingHappens(s);
    } else {
      var r := Exec(ops, fuel, items[i], s).value;
      var s1 := MaybeErrexit(r.0.(data := r.0.data.(lastStatus := r.1)), r.1);
      LevelsConserved(ops, fuel, items[i], s);
      if Stopped(s1) {
        NothingHappens(s1);
        Chain(s, s, Log(ops, fuel, items[i], s), r.0, s1, [], s1);
      } else {
        SequenceConserved(ops, fuel, items, i + 1, s1, r.1);
        Chain(s, s, Log(ops, fuel, items[i], s), r.0, s1, LogSequence(ops, fuel, items, i + 1, s1, r.1),
              ExecSequence(ops, fuel, items, i, s, status).value.0);
      }
    }
  }

  lemma {:induction false} AndOrConserved<W, C>(ops: Ops<W, C>, fuel: nat, operators: seq<AndOrOp>,
      rest: seq<Node<C>>, i: nat, s: State<W>, status: int)
    requires i <= |rest| && OneKind(s) && ExecAndOr(ops, fuel, operators, rest, i, s, status).Some?
    ensures Accounts(s, LogAndOr(ops, fuel, operators, rest, i, s, status),
                     ExecAndOr(ops, fuel, operators, rest, i, s, status).value.0)
    decreases fuel, rest, |rest| - i
  {
    hide Pending, Remaining;
    if i == |rest| || i >= |operators| || Stopped(s) {
      NothingHappens(s);
    } else if (operators[i] == OpAnd) == (status == 0) {
      var r := Exec(ops, fuel, rest[i], s).value;
      LevelsConserved(ops, fuel, rest[i], s);
      AndOrConserved(ops, fuel, operators, rest, i + 1, r.0, r.1);
      Chain(s, s, Log(ops, fuel, rest[i], s), r.0, r.0, LogAndOr(ops, fuel, operators, rest, i + 1, r.0, r.1),
            ExecAndOr(ops, fuel, operators, rest, i, s, status).value.0);
    } else if operators[i] == OpAnd {
      var s1 := s.(data := s.data.(errexitIgnored := true));
      AndOrConserved(ops, fuel, operators, rest, i + 1, s1, status);
      Around(s, s1, LogAndOr(ops, fuel, operators, rest, i + 1, s1, status),
             ExecAndOr(ops, fuel, operators, rest, i + 1, s1, status).value.0,
             ExecAndOr(ops, fuel, operators, rest, i, s, status).value.0);
    } else {
      AndOrConserved(ops, fuel, operators, rest, i + 1, s, status);
    }
  }

  lemma {:induction false} LoopConserved<W, C>(ops: Ops<W, C>, fuel: nat, until: bool, test: Node<C>,
      body: Node<C>, s: State<W>, status: int)
    requires OneKind(s) && ExecLoop(ops, fuel, until, test, body, s, status).Some?
    ensures Accounts(s, LogLoop(ops, fuel, until, test, body, s, status),
                     ExecLoop(ops, fuel, until, test, body, s, status).value.0)
    decreases fuel, body, 1
  {
    hide Pending, Remaining, Exec, Log, ExecRound, LogRound, TestLog;
    if s.shouldExit {
      NothingHappens(s);
    } else {
      var quiet := WithErrexit(s, false);
      var (s1, t) := Exec(ops, fuel - 1, test, quiet).value;
      var s2 := WithErrexit(s1, s.data.errexit);
      LevelsConserved(ops, fuel - 1, test, quiet);
      TestAccounts(s2);
      var last := LogAfterTest(ops, fuel - 1, until, test, body, status, s2, t);
      var after := ExecLoop(ops, fuel, until, test, body, s, status).value.0;
      if s2.shouldExit || s2.returnRequested || (t == 0) == until {
        NothingHappens(s2);
      } else {
        RoundConserved(ops, fuel - 1, until, test, body, s2);
      }
      Chain(s2, s2, TestLog(s2), s2, s2, last, after);
      Chain(s, quiet, Log(ops, fuel - 1, test, quiet), s1, s2, TestLog(s2) + last, after);
    }
  }

  /** A body, the errexit check and the flags. */
  lemma {:induction false} BodyConserved<W, C>(ops: Ops<W, C>, fuel: nat, body: Node<C>, s: State<W>)
    requires OneKind(s) && Exec(ops, fuel, body, s).Some?
    ensures var (s1, b) := Exec(ops, fuel, body, s).value;
            var s2 := MaybeErrexit(s1, b);
            Accounts(s, Log(ops, fuel, body, s) + BodyLog(s2), AfterBody(s2, b).s)
    decreases fuel, body, 1
  {
    hide Pending, Remaining, Exec, Log, AfterBody, BodyLog;
    var (s1, b) := Exec(ops, fuel, body, s).value;
    var s2 := MaybeErrexit(s1, b);
    LevelsConserved(ops, fuel, body, s);
    BodyAccounts(s2, b);
    Chain(s, s, Log(ops, fuel, body, s), s1, s2, BodyLog(s2), AfterBody(s2, b).s);
  }

  lemma {:induction false} RoundConserved<W, C>(ops: Ops<W, C>, fuel: nat, until: bool, test: Node<C>,
      body: Node<C>, s: State<W>)
    requires OneKind(s) && ExecRound(ops, fuel, until, test, body, s).Some?
    ensures Accounts(s, LogRound(ops, fuel, until, test, body, s),
                     ExecRound(ops, fuel, until, test, body, s).value.0)
    decreases fuel, body, 2
  {
    hide Pending, Remaining, Exec, Log, ExecLoop, LogLoop, AfterBody, BodyLog, MaybeErrexit;
    var (s1, b) := Exec(ops, fuel, body, s).value;
    var s2 := MaybeErrexit(s1, b);
    var turn := AfterBody(s2, b);
    var log := Log(ops, fuel, body, s) + BodyLog(s2);
    BodyConserved(ops, fuel, body, s);
    if turn.Leave? {
      NothingHappens(turn.s);
      Chain(s, s, log, turn.s, turn.s, [], turn.s);
    } else {
      LoopConserved(ops, fuel, until, test, body, turn.s, turn.status);
      Chain(s, s, log, turn.s, turn.s, LogLoop(ops, fuel, until, test, body, turn.s, turn.status),
            ExecLoop(ops, fuel, until, test, body, turn.s, turn.status).value.0);
    }
  }

  lemma {:induction false} ForConserved<W, C>(ops: Ops<W, C>, fuel: nat, words: C, body: Node<C>,
      list: seq<string>, i: nat, s: State<W>, status: int)
    requires i <= |list| && OneKind(s) && ExecFor(ops, fuel, words, body, list, i, s, status).Some?
    ensures Accounts(s, LogFor(ops, fuel, words, body, list, i, s, status),
                     ExecFor(ops, fuel, words, body, list, i, s, status).value.0)
    decreases fuel, body, |list| - i + 1
  {
    hide Pending, Remaining, Exec, Log, AfterBody, BodyLog, MaybeErrexit;
    if i == |list| || s.shouldExit {
      NothingHappens(s);
    } else {
      var (d, bound) := ops.bind(s.data, words, list[i]);
      if !bound {
        NothingHappens(s);
        Around(s, s, [], s, ExecFor(ops, fuel, words, body, list, i, s, status).value.0);
      } else {
        var s0 := s.(data := d);
        var (s1, b) := Exec(ops, fuel, body, s0).value;
        var s2 := MaybeErrexit(s1, b);
        var turn := AfterBody(s2, b);
        var log := Log(ops, fuel, body, s0) + BodyLog(s2);
        BodyConserved(ops, fuel, body, s0);
        if turn.Leave? {
          NothingHappens(turn.s);
          Chain(s, s0, log, turn.s, turn.s, [], turn.s);
        } else {
          ForConserved(ops, fuel, words, body, list, i + 1, turn.s, turn.status);
          Chain(s, s0, log, turn.s, turn.s, LogFor(ops, fuel, words, body, list, i + 1, turn.s, turn.status),
                ExecFor(ops, fuel, words, body, list, i + 1, turn.s, turn.status).value.0);
        }
      }
    }
  }

  // ---------- when a level outlives the loops ----------

  /** The place of the last `break` or `continue`, or the number of events if there is none. */
  function LastNamed(log: seq<Event>): (k: nat)
    ensures k <= |log|
    ensures k < |log| ==> log[k].Named? && forall j :: k < j < |log| ==> !log[j].Named?
    ensures k == |log| ==> forall j :: 0 <= j < |log| ==> !log[j].Named?
  {
    if log == [] then 0
    else
      var k := LastNamed(log[1..]);
      if k < |log| - 1 then k + 1 else if log[0].Named? then 0 else |log|
  }

  function BodiesEnded(log: seq<Event>): nat {
    if log == [] then 0 else (if log[0].BodyEnded? then 1 else 0) + BodiesEnded(log[1..])
  }

  lemma {:induction false} RemainingIs(pending: nat, log: seq<Event>)
    ensures var k := LastNamed(log);
            Remaining(pending, log) == if k == |log| then Less(pending, BodiesEnded(log))
                                       else Less(log[k].levels, BodiesEnded(log[k + 1..]))
    decreases |log|
  {
    if log != [] {
      RemainingIs(Next(pending, log[0]), log[1..]);
      var k := LastNamed(log[1..]);
      if k < |log| - 1 {
        assert log[1..][k + 1..] == log[k + 2..];
      }
    }
  }

  /** Behind a whole program, whatever its conditions do, the levels pending are those by which the last `break`
      or `continue` obeyed in it named more than loop bodies have ended since; there are none if it named no
      more, or if none was obeyed. */
  lemma PendingIffUncounted<W, C>(ops: Ops<W, C>, fuel: nat, program: Node<C>, d: Data<W>)
    requires Exec(ops, fuel, program, Encode(d, Normal, 0)).Some?
    ensures var log := Log(ops, fuel, program, Encode(d, Normal, 0));
            var k := LastNamed(log);
            Pending(Exec(ops, fuel, program, Encode(d, Normal, 0)).value.0)
              == if k == |log| then 0 else Less(log[k].levels, BodiesEnded(log[k + 1..]))
  {
    hide Exec, Log;
    var start := Encode(d, Normal, 0);
    LevelsConserved(ops, fuel, program, start);
    RemainingIs(0, Log(ops, fuel, program, start));
  }
}
