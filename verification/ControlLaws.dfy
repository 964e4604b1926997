/** What lists, conditions, loops and and-or lists do, and when `set -e` ends a run: facts about the interpreter that
    do not mention the functions by which it decides. */
module ControlLaws {
  import opened Common
  import opened Control

  // ---------- lists ----------

  /** The state and status behind the first `k` commands, run one after another with no flag looked at. */
  ghost function Chain<W, C>(ops: Ops<W, C>, fuel: nat, items: seq<Node<C>>, k: nat, s: State<W>)
    : Option<(State<W>, int)>
    requires k <= |items|
  {
    if k == 0 then Some((s, 0))
    else
      var p := Chain(ops, fuel, items, k - 1, s);
      if p.None? then None
      else
        var r := Exec(ops, fuel, items[k - 1], p.value.0);
        if r.None? then None
        else Some((r.value.0.(data := r.value.0.data.(lastStatus := r.value.1)), r.value.1))
  }

  /** No `break`, `continue`, `return` or `exit` is under way. */
  predicate NothingUnderWay<W>(s: State<W>) {
    s.breakLevels == 0 && s.continueLevels == 0 && !s.returnRequested && !s.shouldExit
  }

  /** `set -e` is in force: the shell is not interactive, and no failure is to be overlooked. */
  predicate InForce<W>(d: Data<W>) {
    d.errexit && !d.interactive && !d.errexitIgnored
  }

  /** All of the first `k` commands end, with nothing under way; those that fail find `set -e` not in force. */
  ghost predicate Passes<W, C>(ops: Ops<W, C>, fuel: nat, items: seq<Node<C>>, k: nat, s: State<W>)
    requires k <= |items|
  {
    forall j :: 0 < j <= k ==>
      var r := Chain(ops, fuel, items, j, s);
      r.Some? && NothingUnderWay(r.value.0) && (r.value.1 == 0 || !InForce(r.value.0.data))
  }

  lemma {:induction false} ReachesItem<W, C>(ops: Ops<W, C>, fuel: nat, items: seq<Node<C>>, k: nat, s: State<W>)
    requires k <= |items| && Passes(ops, fuel, items, k, s)
    ensures (var r := Chain(ops, fuel, items, k, s);
             && r.Some?
             && Exec(ops, fuel, Sequence(items), s) == ExecSequence(ops, fuel, items, k, r.value.0, r.value.1))
  {
    if k > 0 {
      ReachesItem(ops, fuel, items, k - 1, s);
      var p, r := Chain(ops, fuel, items, k - 1, s), Chain(ops, fuel, items, k, s);
      ItemTurns(ops, fuel, items, k - 1, p.value.0, p.value.1);
      assert NothingUnderWay(r.value.0) && (r.value.1 == 0 || !InForce(r.value.0.data));
    }
  }

  lemma ItemTurns<W, C>(ops: Ops<W, C>, fuel: nat, items: seq<Node<C>>, i: nat, s: State<W>, status: int)
    requires i < |items|
    ensures (var r := Exec(ops, fuel, items[i], s);
             var whole := ExecSequence(ops, fuel, items, i, s, status);
             if r.None? then whole == None
             else
               var done := r.value.0.(data := r.value.0.data.(lastStatus := r.value.1));
               var ended := done.(shouldExit := true, data := done.data.(exitStatus := r.value.1));
               if !NothingUnderWay(done) then whole == Some((done, r.value.1))
               else if r.value.1 != 0 && InForce(done.data) then whole == Some((ended, r.value.1))
               else whole == ExecSequence(ops, fuel, items, i + 1, done, r.value.1))
  {
    hide Exec;
  }

  /** The shell ends here, with that status. */
  function Ended<W>(s: State<W>, status: int): State<W> {
    s.(shouldExit := true, data := s.data.(exitStatus := status))
  }

  /** A list goes on behind commands that end with status 0, or that fail while `set -e` is not in force.  The
      first that fails while it is ends the run there, with its status as that of the shell: no later command is
      run.  A `break`, `continue`, `return` or `exit` ends the list whatever the status. */
  lemma ListUnderErrexit<W, C>(ops: Ops<W, C>, fuel: nat, items: seq<Node<C>>, k: nat, s: State<W>)
    requires k <= |items| && Passes(ops, fuel, items, k, s)
    ensures k == |items| ==> Exec(ops, fuel, Sequence(items), s) == Chain(ops, fuel, items, k, s)
    ensures k < |items| && Chain(ops, fuel, items, k + 1, s).Some? ==>
              var (last, status) := Chain(ops, fuel, items, k + 1, s).value;
              && (NothingUnderWay(last) && status != 0 && InForce(last.data) ==>
                    Exec(ops, fuel, Sequence(items), s) == Some((Ended(last, status), status)))
              && (!NothingUnderWay(last) ==> Exec(ops, fuel, Sequence(items), s) == Some((last, status)))
  {
    hide Exec, ExecSequence, Passes;
    ReachesItem(ops, fuel, items, k, s);
    var p := Chain(ops, fuel, items, k, s);
    if k < |items| {
      ItemTurns(ops, fuel, items, k, p.value.0, p.value.1);
    } else {
      ListIsOver(ops, fuel, items, p.value.0, p.value.1);
    }
  }

  lemma ListIsOver<W, C>(ops: Ops<W, C>, fuel: nat, items: seq<Node<C>>, s: State<W>, status: int)
    ensures ExecSequence(ops, fuel, items, |items|, s, status) == Some((s, status))
  {
  }

  // ---------- conditions, branches and bodies ----------

  /** A condition runs with `errexit` off, which is put back behind it; that it fails chooses the other branch and
      is never the end of the run.  A branch that fails while `set -e` is in force is. */
  lemma IfUnderErrexit<W, C>(ops: Ops<W, C>, fuel: nat, test: Node<C>, yes: Node<C>, no: Node<C>, s: State<W>)
    requires (var t := Exec(ops, fuel, test, s.(data := s.data.(errexit := false)));
              t.Some? && NothingUnderWay(t.value.0))
    ensures (var (s1, status) := Exec(ops, fuel, test, s.(data := s.data.(errexit := false))).value;
             var s2 := s1.(data := s1.data.(errexit := s.data.errexit));
             var branch := Exec(ops, fuel, if status == 0 then yes else no, s2);
             var failed := branch.Some? && NothingUnderWay(branch.value.0) && branch.value.1 != 0
                           && InForce(branch.value.0.data);
             && (status != 0 ==> Exec(ops, fuel, If(test, yes, NoNode), s) == Some((s2, 0)))
             && (!failed ==> Exec(ops, fuel, If(test, yes, SomeNode(no)), s) == branch)
             && (failed ==> Exec(ops, fuel, If(test, yes, SomeNode(no)), s)
                            == Some((Ended(branch.value.0, branch.value.1), branch.value.1))))
  {
    var t := Exec(ops, fuel, test, WithErrexit(s, false));
    BranchTurns(ops, fuel, If(test, yes, NoNode), s);
    BranchTurns(ops, fuel, If(test, yes, SomeNode(no)), s);
  }

  lemma BranchTurns<W, C>(ops: Ops<W, C>, fuel: nat, n: Node<C>, s: State<W>)
    requires n.If? && Exec(ops, fuel, n.test, WithErrexit(s, false)).Some?
    ensures (var (s1, status) := Exec(ops, fuel, n.test, WithErrexit(s, false)).value;
             var s2 := WithErrexit(s1, s.data.errexit);
             var whole := Exec(ops, fuel, n, s);
             if Stopped(s2) then whole == Some((s2, status))
             else if status != 0 && n.no.NoNode? then whole == Some((s2, 0))
             else
               var r := Exec(ops, fuel, if status == 0 then n.yes else n.no.node, s2);
               whole == if r.None? then None else Some((MaybeErrexit(r.value.0, r.value.1), r.value.1)))
  {
    hide MaybeErrexit, WithErrexit, Stopped;
  }

  /** What a loop makes of its first round.  The condition runs with `errexit` off: that it fails ends a `while`
      and starts the body of an `until`, and is never the end of the run.  A body that fails while `set -e` is
      in force is; behind any other the loop starts again. */
  lemma LoopUnderErrexit<W, C>(ops: Ops<W, C>, fuel: nat, until: bool, test: Node<C>, body: Node<C>, s: State<W>)
    requires !s.shouldExit
    requires (var t := Exec(ops, fuel, test, s.(loopDepth := s.loopDepth + 1, data := s.data.(errexit := false)));
              t.Some? && NothingUnderWay(t.value.0))
    ensures (var (s1, status) :=
               Exec(ops, fuel, test, s.(loopDepth := s.loopDepth + 1, data := s.data.(errexit := false))).value;
             var s2 := s1.(data := s1.data.(errexit := s.data.errexit));
             var runsBody := if until then status != 0 else status == 0;
             var b := Exec(ops, fuel, body, s2);
             var whole := Exec(ops, fuel + 1, Loop(until, test, body), s);
             && (!runsBody ==> whole == Some((s2.(loopDepth := s.loopDepth), 0)))
             && (runsBody && b.Some? && NothingUnderWay(b.value.0) ==>
                   var (s3, bodyStatus) := b.value;
                   var out := s3.(loopDepth := s.loopDepth);
                   if bodyStatus != 0 && InForce(s3.data) then whole == Some((Ended(out, bodyStatus), bodyStatus))
                   else
                     var rest := Exec(ops, fuel, Loop(until, test, body), out);
                     && (whole.Some? <==> rest.Some?)
                     && (whole.Some? ==> whole.value.0 == rest.value.0)))
  {
    hide Exec, ExecLoop;
    var inside := s.(loopDepth := s.loopDepth + 1);
    LoopInside(ops, fuel + 1, until, test, body, s);
    FirstTest(ops, fuel, until, test, body, inside);
    var t := Exec(ops, fuel, test, WithErrexit(inside, false));
    var s2 := WithErrexit(t.value.0, s.data.errexit);
    LoopTurns(ops, fuel, until, test, body, s2);
    var b := Exec(ops, fuel, body, s2);
    if b.Some? {
      LoopInside(ops, fuel, until, test, body, b.value.0.(loopDepth := s.loopDepth));
      StatusIsPassedOn(ops, fuel, until, test, body, b.value.0, b.value.1, 0);
    }
  }

  lemma LoopInside<W, C>(ops: Ops<W, C>, fuel: nat, until: bool, test: Node<C>, body: Node<C>, s: State<W>)
    ensures (var r := ExecLoop(ops, fuel, until, test, body, s.(loopDepth := s.loopDepth + 1), 0);
             Exec(ops, fuel, Loop(until, test, body), s)
             == if r.None? then None else Some((r.value.0.(loopDepth := s.loopDepth), r.value.1)))
  {
    hide ExecLoop;
  }

  lemma FirstTest<W, C>(ops: Ops<W, C>, fuel: nat, until: bool, test: Node<C>, body: Node<C>, s: State<W>)
    requires !s.shouldExit && Exec(ops, fuel, test, WithErrexit(s, false)).Some?
    ensures (var (s1, status) := Exec(ops, fuel, test, WithErrexit(s, false)).value;
             var s2 := WithErrexit(s1, s.data.errexit);
             ExecLoop(ops, fuel + 1, until, test, body, s, 0)
             == if s2.shouldExit || s2.returnRequested || (status == 0) == until then Some((s2, 0))
                else ExecRound(ops, fuel, until, test, body, s2))
  {
    hide Exec, ExecRound, WithErrexit;
  }

  /** The status of the last body is only passed on. */
  lemma StatusIsPassedOn<W, C>(ops: Ops<W, C>, fuel: nat, until: bool, test: Node<C>, body: Node<C>, s: State<W>,
                               x: int, y: int)
    ensures (var r, r' := ExecLoop(ops, fuel, until, test, body, s, x), ExecLoop(ops, fuel, until, test, body, s, y);
             (r.Some? <==> r'.Some?) && (r.Some? ==> r.value.0 == r'.value.0))
  {
    hide Exec, ExecRound, WithErrexit;
  }

  /** What a loop makes of a body that ends with a jump: it takes one level off a `break` and is left, takes one
      level off a `continue` and is left if any remain, and is left as things are by `return` and `exit`. */
  lemma JumpsLeaveLoops<W, C>(ops: Ops<W, C>, fuel: nat, until: bool, test: Node<C>, body: Node<C>, s: State<W>)
    requires !s.shouldExit
    requires (var t := Exec(ops, fuel, test, s.(loopDepth := s.loopDepth + 1, data := s.data.(errexit := false)));
              t.Some? && NothingUnderWay(t.value.0) && ((t.value.1 == 0) != until))
    ensures (var started := s.(loopDepth := s.loopDepth + 1, data := s.data.(errexit := false));
             var s1 := Exec(ops, fuel, test, started).value.0;
             var b := Exec(ops, fuel, body, s1.(data := s1.data.(errexit := s.data.errexit)));
             var whole := Exec(ops, fuel + 1, Loop(until, test, body), s);
             b.Some? && !NothingUnderWay(b.value.0) ==>
               var (s3, status) := b.value;
               var out := s3.(loopDepth := s.loopDepth);
               if s3.shouldExit || s3.returnRequested then whole == Some((out, status))
               else if s3.breakLevels > 0 then whole == Some((out.(breakLevels := s3.breakLevels - 1), 0))
               else if s3.continueLevels > 1 then whole == Some((out.(continueLevels := s3.continueLevels - 1), 0))
               else
                 var rest := Exec(ops, fuel, Loop(until, test, body), out.(continueLevels := 0));
                 (whole.Some? <==> rest.Some?) && (whole.Some? ==> whole.value.0 == rest.value.0))
  {
    hide Exec, ExecLoop;
    var inside := s.(loopDepth := s.loopDepth + 1);
    LoopInside(ops, fuel + 1, until, test, body, s);
    FirstTest(ops, fuel, until, test, body, inside);
    var t := Exec(ops, fuel, test, WithErrexit(inside, false));
    var s2 := WithErrexit(t.value.0, s.data.errexit);
    LoopTurns(ops, fuel, until, test, body, s2);
    var b := Exec(ops, fuel, body, s2);
    if b.Some? {
      var again := b.value.0.(continueLevels := 0);
      LoopInside(ops, fuel, until, test, body, again.(loopDepth := s.loopDepth));
      StatusIsPassedOn(ops, fuel, until, test, body, again, 0, 0);
    }
  }

  /** A `break` or `continue` outside any loop fails and leaves nothing under way; inside one it succeeds, and asks
      for its levels and nothing else. */
  lemma JumpsNeedALoop<W, C>(ops: Ops<W, C>, fuel: nat, command: C, s: State<W>)
    requires NothingUnderWay(s)
    ensures (var e := ops.run(s.data, command);
             var after := s.(data := e.data);
             var whole := Exec(ops, fuel, Simple(command), s);
             && (e.request.BreakOut? && s.loopDepth == 0 ==> whole == Some((after, 1)))
             && (e.request.ContinueAt? && s.loopDepth == 0 ==> whole == Some((after, 1)))
             && (e.request.BreakOut? && s.loopDepth > 0 ==> whole == Some((after.(breakLevels := e.request.n), 0)))
             && (e.request.ContinueAt? && s.loopDepth > 0 ==>
                   whole == Some((after.(continueLevels := e.request.n), 0))))
  {
  }

  // ---------- `for` ----------

  /** The state and status behind the first `k` rounds: each word assigned and the body run, with no flag looked at. */
  ghost function Rounds<W, C>(ops: Ops<W, C>, fuel: nat, words: C, body: Node<C>, list: seq<string>, k: nat,
                              s: State<W>): Option<(State<W>, int)>
    requires k <= |list|
  {
    if k == 0 then Some((s, 0))
    else
      var p := Rounds(ops, fuel, words, body, list, k - 1, s);
      if p.None? || !ops.bind(p.value.0.data, words, list[k - 1]).1 then None
      else Exec(ops, fuel, body, p.value.0.(data := ops.bind(p.value.0.data, words, list[k - 1]).0))
  }

  /** All of the first `k` rounds end, with nothing under way, and none fails while `set -e` is in force. */
  ghost predicate RoundsPass<W, C>(ops: Ops<W, C>, fuel: nat, words: C, body: Node<C>, list: seq<string>, k: nat,
                                   s: State<W>)
    requires k <= |list|
  {
    forall j :: 0 < j <= k ==>
      var r := Rounds(ops, fuel, words, body, list, j, s);
      r.Some? && NothingUnderWay(r.value.0) && (r.value.1 == 0 || !InForce(r.value.0.data))
  }

  lemma ForTurns<W, C>(ops: Ops<W, C>, fuel: nat, words: C, body: Node<C>, list: seq<string>, i: nat, s: State<W>,
                       status: int)
    requires i < |list| && !s.shouldExit && ops.bind(s.data, words, list[i]).1
    ensures (var b := Exec(ops, fuel, body, s.(data := ops.bind(s.data, words, list[i]).0));
             var whole := ExecFor(ops, fuel, words, body, list, i, s, status);
             if b.None? then whole == None
             else if NothingUnderWay(b.value.0) && b.value.1 != 0 && InForce(b.value.0.data) then
               whole == Some((Ended(b.value.0, b.value.1), b.value.1))
             else NothingUnderWay(b.value.0) ==>
                    whole == ExecFor(ops, fuel, words, body, list, i + 1, b.value.0, b.value.1))
  {
    hide Exec;
  }

  lemma {:induction false} ReachesRound<W, C>(ops: Ops<W, C>, fuel: nat, words: C, body: Node<C>, list: seq<string>,
                                              k: nat, s: State<W>)
    requires k <= |list| && !s.shouldExit && RoundsPass(ops, fuel, words, body, list, k, s)
    ensures (var r := Rounds(ops, fuel, words, body, list, k, s);
             && r.Some? && !r.value.0.shouldExit
             && ExecFor(ops, fuel, words, body, list, 0, s, 0)
                == ExecFor(ops, fuel, words, body, list, k, r.value.0, r.value.1))
  {
    hide Exec, ExecFor;
    if k > 0 {
      ReachesRound(ops, fuel, words, body, list, k - 1, s);
      var p, r := Rounds(ops, fuel, words, body, list, k - 1, s), Rounds(ops, fuel, words, body, list, k, s);
      ForTurns(ops, fuel, words, body, list, k - 1, p.value.0, p.value.1);
      assert NothingUnderWay(r.value.0) && (r.value.1 == 0 || !InForce(r.value.0.data));
    }
  }

  /** A `for` expands its words once, and then assigns each in turn and runs the body; the first body that fails
      while `set -e` is in force ends the run. */
  lemma ForRunsEachWord<W, C>(ops: Ops<W, C>, fuel: nat, words: C, body: Node<C>, list: seq<string>, k: nat,
                              s: State<W>)
    requires !s.shouldExit && ops.expand(s.data, words).1 == Some(list) && k <= |list|
    requires RoundsPass(ops, fuel, words, body, list, k,
                        s.(data := ops.expand(s.data, words).0, loopDepth := s.loopDepth + 1))
    ensures (var inside := s.(data := ops.expand(s.data, words).0, loopDepth := s.loopDepth + 1);
             var whole := Exec(ops, fuel, For(words, body), s);
             && (k == |list| ==>
                   var (last, status) := Rounds(ops, fuel, words, body, list, k, inside).value;
                   whole == Some((last.(loopDepth := s.loopDepth), status)))
             && (k < |list| && Rounds(ops, fuel, words, body, list, k + 1, inside).Some? ==>
                   var (last, status) := Rounds(ops, fuel, words, body, list, k + 1, inside).value;
                   NothingUnderWay(last) && status != 0 && InForce(last.data) ==>
                     whole == Some((Ended(last.(loopDepth := s.loopDepth), status), status))))
  {
    var inside := s.(data := ops.expand(s.data, words).0, loopDepth := s.loopDepth + 1);
    ForInside(ops, fuel, words, body, list, s);
    hide Exec, ExecFor, RoundsPass;
    ReachesRound(ops, fuel, words, body, list, k, inside);
    var r := Rounds(ops, fuel, words, body, list, k, inside).value;
    if k < |list| {
      if ops.bind(r.0.data, words, list[k]).1 {
        ForTurns(ops, fuel, words, body, list, k, r.0, r.1);
      }
    } else {
      ForIsOver(ops, fuel, words, body, list, r.0, r.1);
    }
  }

  lemma ForInside<W, C>(ops: Ops<W, C>, fuel: nat, words: C, body: Node<C>, list: seq<string>, s: State<W>)
    requires ops.expand(s.data, words).1 == Some(list)
    ensures (var inside := s.(data := ops.expand(s.data, words).0, loopDepth := s.loopDepth + 1);
             var r := ExecFor(ops, fuel, words, body, list, 0, inside, 0);
             Exec(ops, fuel, For(words, body), s)
             == if r.None? then None else Some((r.value.0.(loopDepth := r.value.0.loopDepth - 1), r.value.1)))
  {
    hide ExecFor;
  }

  lemma ForIsOver<W, C>(ops: Ops<W, C>, fuel: nat, words: C, body: Node<C>, list: seq<string>, s: State<W>, status: int)
    ensures ExecFor(ops, fuel, words, body, list, |list|, s, status) == Some((s, status))
  {
  }

  // ---------- negation, `&&` and `||` ----------

  /** `!` turns the status over, and whatever it is, `set -e` is not in force behind it. */
  lemma NegationIsExempt<W, C>(ops: Ops<W, C>, fuel: nat, child: Node<C>, s: State<W>)
    requires Exec(ops, fuel, child, s).Some?
    ensures (var (s1, status) := Exec(ops, fuel, child, s).value;
             var whole := Exec(ops, fuel, Negated(child), s);
             && whole.Some?
             && whole.value.1 == (if status == 0 then 1 else 0)
             && !InForce(whole.value.0.data)
             && (NothingUnderWay(s1) ==> NothingUnderWay(whole.value.0)))
  {
    hide Exec;
    assert Exec(ops, fuel, Negated(child), s).Some? by {
      NegatedTurns(ops, fuel, child, s);
    }
    NegatedTurns(ops, fuel, child, s);
  }

  lemma NegatedTurns<W, C>(ops: Ops<W, C>, fuel: nat, child: Node<C>, s: State<W>)
    requires Exec(ops, fuel, child, s).Some?
    ensures (var (s1, status) := Exec(ops, fuel, child, s).value;
             var flipped := if status == 0 then 1 else 0;
             Exec(ops, fuel, Negated(child), s)
             == Some((s1.(data := s1.data.(errexitIgnored := true, lastStatus := flipped)), flipped)))
  {
  }

  /** `&&` and `||` bind alike and group to the left: a list with one more operand runs the list before it, and
      then the operand if the status asks for it.  If `&&` skips it, `set -e` is not in force. */
  lemma AndOrGroupsLeft<W, C>(ops: Ops<W, C>, fuel: nat, first: Node<C>, operators: seq<AndOrOp>, rest: seq<Node<C>>,
                              last: Node<C>, s: State<W>)
    requires |operators| == |rest| && Exec(ops, fuel, AndOr(first, operators, rest), s).Some?
    requires NothingUnderWay(Exec(ops, fuel, AndOr(first, operators, rest), s).value.0)
    ensures (var (s1, status) := Exec(ops, fuel, AndOr(first, operators, rest), s).value;
             var and := Exec(ops, fuel, AndOr(first, operators + [OpAnd], rest + [last]), s);
             var or := Exec(ops, fuel, AndOr(first, operators + [OpOr], rest + [last]), s);
             && (status == 0 ==> and == Exec(ops, fuel, last, s1) && or == Some((s1, status)))
             && (status != 0 ==> or == Exec(ops, fuel, last, s1) && and.Some? && and.value.1 == status
                                 && NothingUnderWay(and.value.0) && !InForce(and.value.0.data)))
  {
    hide Exec, ExecAndOr;
    var (s1, status) := Exec(ops, fuel, AndOr(first, operators, rest), s).value;
    forall op: AndOrOp ensures Exec(ops, fuel, AndOr(first, operators + [op], rest + [last]), s)
        == ExecAndOr(ops, fuel, operators + [op], rest + [last], |rest|, s1, status)
    {
      AndOrTurns(ops, fuel, first, operators, rest, s);
      AndOrTurns(ops, fuel, first, operators + [op], rest + [last], s);
      var f := Exec(ops, fuel, first, s).value;
      OperatorsBefore(ops, fuel, operators, rest, op, last, 0, f.0, f.1);
    }
    LastOperand(ops, fuel, operators, rest, OpAnd, last, s1, status);
    LastOperand(ops, fuel, operators, rest, OpOr, last, s1, status);
  }

  lemma AndOrTurns<W, C>(ops: Ops<W, C>, fuel: nat, first: Node<C>, operators: seq<AndOrOp>, rest: seq<Node<C>>,
                         s: State<W>)
    ensures (var r := Exec(ops, fuel, first, s);
             Exec(ops, fuel, AndOr(first, operators, rest), s)
             == if r.None? then None else ExecAndOr(ops, fuel, operators, rest, 0, r.value.0, r.value.1))
  {
    hide ExecAndOr;
  }

  lemma {:induction false} OperatorsBefore<W, C>(ops: Ops<W, C>, fuel: nat, operators: seq<AndOrOp>,
                                                 rest: seq<Node<C>>, op: AndOrOp, last: Node<C>, i: nat,
                                                 s: State<W>, status: int)
    requires i <= |rest| == |operators|
    ensures (var r := ExecAndOr(ops, fuel, operators, rest, i, s, status);
             r.Some? && NothingUnderWay(r.value.0) ==>
               ExecAndOr(ops, fuel, operators + [op], rest + [last], i, s, status)
               == ExecAndOr(ops, fuel, operators + [op], rest + [last], |rest|, r.value.0, r.value.1))
    decreases |rest| - i
  {
    hide Exec;
    if i < |rest| && !Stopped(s) {
      if (operators[i] == OpAnd) == (status == 0) {
        var r := Exec(ops, fuel, rest[i], s);
        if r.Some? {
          OperatorsBefore(ops, fuel, operators, rest, op, last, i + 1, r.value.0, r.value.1);
        }
      } else if operators[i] == OpAnd {
        var s1 := s.(data := s.data.(errexitIgnored := true));
        OperatorsBefore(ops, fuel, operators, rest, op, last, i + 1, s1, status);
      } else {
        OperatorsBefore(ops, fuel, operators, rest, op, last, i + 1, s, status);
      }
    }
  }

  lemma LastOperand<W, C>(ops: Ops<W, C>, fuel: nat, operators: seq<AndOrOp>, rest: seq<Node<C>>, op: AndOrOp,
                          last: Node<C>, s: State<W>, status: int)
    requires |operators| == |rest| && NothingUnderWay(s)
    ensures (var r := ExecAndOr(ops, fuel, operators + [op], rest + [last], |rest|, s, status);
             if (op == OpAnd) == (status == 0) then r == Exec(ops, fuel, last, s)
             else r == Some((if op == OpAnd then s.(data := s.data.(errexitIgnored := true)) else s, status)))
  {
    hide Exec;
  }

  lemma AndOrOfOne<W, C>(ops: Ops<W, C>, fuel: nat, first: Node<C>, s: State<W>)
    ensures Exec(ops, fuel, AndOr(first, [], []), s) == Exec(ops, fuel, first, s)
  {
    hide Stopped;
  }

  // ---------- a failure that is overlooked ----------

  predicate SameOptions<W>(d: Data<W>, d': Data<W>) {
    d'.errexit == d.errexit && d'.interactive == d.interactive && d'.errexitIgnored == d.errexitIgnored
  }

  /** Commands that leave these three settings alone, do not exit, and assign loop variables without an error. */
  ghost predicate LeavesOptions<W(!new), C(!new)>(ops: Ops<W, C>) {
    && (forall d, c :: SameOptions(d, ops.run(d, c).data) && !ops.run(d, c).request.Exit?)
    && (forall d, c :: SameOptions(d, ops.expand(d, c).0))
    && (forall d, c, w :: SameOptions(d, ops.bind(d, c, w).0) && ops.bind(d, c, w).1)
    && (forall d, c :: SameOptions(d, ops.redirect(d, c).0))
    && (forall d, d', c :: SameOptions(d', ops.restore(d, d', c)))
  }

  /** No `!`, `&&` or `||` anywhere inside. */
  predicate Plain<C>(n: Node<C>) {
    match n
    case Empty => true
    case Simple(_) => true
    case Sequence(items) => forall i :: 0 <= i < |items| ==> Plain(items[i])
    case AndOr(_, _, _) => false
    case Negated(_) => false
    case If(test, yes, no) => Plain(test) && Plain(yes) && (no.SomeNode? ==> Plain(no.node))
    case Loop(_, test, body) => Plain(test) && Plain(body)
    case For(_, body) => Plain(body)
    case Redirected(_, command) => Plain(command)
  }

  /** The options are as before; a failure that was to be overlooked still is, and nothing has exited; and if none
      was, it still is not behind a plain command. */
  predicate Kept<W>(plain: bool, s: State<W>, r: Option<(State<W>, int)>) {
    r.Some? ==>
      && r.value.0.data.errexit == s.data.errexit && r.value.0.data.interactive == s.data.interactive
      && (s.data.errexitIgnored && !s.shouldExit ==> r.value.0.data.errexitIgnored && !r.value.0.shouldExit)
      && (plain && !s.data.errexitIgnored ==> !r.value.0.data.errexitIgnored)
  }

  /** Once a `!` or a skipped operand has set the mark, no failure ends the run any more. */
  lemma {:induction false} MarkStays<W(!new), C(!new)>(ops: Ops<W, C>, fuel: nat, n: Node<C>, s: State<W>)
    requires LeavesOptions(ops)
    ensures Kept(Plain(n), s, Exec(ops, fuel, n, s))
    decreases fuel, n, 0
  {
    match n
    case Empty =>
    case Simple(_) =>
    case Sequence(items) => MarkStaysInList(ops, fuel, items, 0, s, 0);
    case AndOr(first, operators, rest) =>
      MarkStays(ops, fuel, first, s);
      var r := Exec(ops, fuel, first, s);
      if r.Some? {
        MarkStaysInAndOr(ops, fuel, operators, rest, 0, r.value.0, r.value.1);
      }
    case Negated(child) => MarkStays(ops, fuel, child, s);
    case If(test, yes, no) => MarkStaysInIf(ops, fuel, test, yes, no, s);
    case Loop(until, test, body) =>
      MarkStaysInLoop(ops, fuel, until, test, body, s.(loopDepth := s.loopDepth + 1), 0);
    case For(words, body) =>
      var (d, list) := ops.expand(s.data, words);
      if list.Some? {
        MarkStaysInFor(ops, fuel, words, body, list.value, 0, s.(data := d, loopDepth := s.loopDepth + 1), 0);
      }
    case Redirected(redirs, command) =>
      var (d, ok) := ops.redirect(s.data, redirs);
      if ok {
        MarkStays(ops, fuel, command, s.(data := d));
      }
  }

  lemma {:induction false} MarkStaysInList<W(!new), C(!new)>(ops: Ops<W, C>, fuel: nat, items: seq<Node<C>>, i: nat,
                                                             s: State<W>, status: int)
    requires LeavesOptions(ops) && i <= |items|
    ensures Kept(Plain(Sequence(items)), s, ExecSequence(ops, fuel, items, i, s, status))
    decreases fuel, items, |items| - i
  {
    hide Exec, LeavesOptions;
    if i < |items| {
      MarkStays(ops, fuel, items[i], s);
      var r := Exec(ops, fuel, items[i], s);
      if r.Some? {
        var s1 := MaybeErrexit(r.value.0.(data := r.value.0.data.(lastStatus := r.value.1)), r.value.1);
        MarkStaysInList(ops, fuel, items, i + 1, s1, r.value.1);
      }
    }
  }

  lemma {:induction false} MarkStaysInAndOr<W(!new), C(!new)>(ops: Ops<W, C>, fuel: nat, operators: seq<AndOrOp>,
                                                              rest: seq<Node<C>>, i: nat, s: State<W>, status: int)
    requires LeavesOptions(ops) && i <= |rest|
    ensures Kept(false, s, ExecAndOr(ops, fuel, operators, rest, i, s, status))
    decreases fuel, rest, |rest| - i
  {
    hide Exec, LeavesOptions, Plain;
    if i < |rest| && i < |operators| && !Stopped(s) {
      if (operators[i] == OpAnd) == (status == 0) {
        MarkStays(ops, fuel, rest[i], s);
        var r := Exec(ops, fuel, rest[i], s);
        if r.Some? {
          MarkStaysInAndOr(ops, fuel, operators, rest, i + 1, r.value.0, r.value.1);
        }
      } else {
        MarkStaysInAndOr(ops, fuel, operators, rest, i + 1, s.(data := s.data.(errexitIgnored := true)), status);
        MarkStaysInAndOr(ops, fuel, operators, rest, i + 1, s, status);
      }
    }
  }

  lemma {:induction false} MarkStaysInIf<W(!new), C(!new)>(ops: Ops<W, C>, fuel: nat, test: Node<C>, yes: Node<C>,
                                                           no: OptionalNode<C>, s: State<W>)
    requires LeavesOptions(ops)
    ensures Kept(Plain(If(test, yes, no)), s, Exec(ops, fuel, If(test, yes, no), s))
    decreases fuel, If(test, yes, no), 0, 0
  {
    hide Exec, LeavesOptions;
    IfNeedsItsTest(ops, fuel, test, yes, no, s);
    MarkStays(ops, fuel, test, WithErrexit(s, false));
    var t := Exec(ops, fuel, test, WithErrexit(s, false));
    if t.Some? {
      BranchTurns(ops, fuel, If(test, yes, no), s);
      var s2 := WithErrexit(t.value.0, s.data.errexit);
      if t.value.1 == 0 {
        MarkStays(ops, fuel, yes, s2);
      } else if no.SomeNode? {
        MarkStays(ops, fuel, no.node, s2);
      }
    }
  }

  lemma IfNeedsItsTest<W, C>(ops: Ops<W, C>, fuel: nat, test: Node<C>, yes: Node<C>, no: OptionalNode<C>, s: State<W>)
    ensures Exec(ops, fuel, If(test, yes, no), s).Some? ==> Exec(ops, fuel, test, WithErrexit(s, false)).Some?
  {
  }

  lemma {:induction false} MarkStaysInLoop<W(!new), C(!new)>(ops: Ops<W, C>, fuel: nat, until: bool, test: Node<C>,
                                                             body: Node<C>, s: State<W>, status: int)
    requires LeavesOptions(ops)
    ensures Kept(Plain(Loop(until, test, body)), s, ExecLoop(ops, fuel, until, test, body, s, status))
    decreases fuel, body, 1
  {
    hide Exec, ExecRound, LeavesOptions;
    if !s.shouldExit && fuel > 0 {
      MarkStays(ops, fuel - 1, test, WithErrexit(s, false));
      var t := Exec(ops, fuel - 1, test, WithErrexit(s, false));
      if t.Some? {
        MarkStaysInRound(ops, fuel - 1, until, test, body, WithErrexit(t.value.0, s.data.errexit));
      }
    }
  }

  lemma {:induction false} MarkStaysInRound<W(!new), C(!new)>(ops: Ops<W, C>, fuel: nat, until: bool, test: Node<C>,
                                                              body: Node<C>, s: State<W>)
    requires LeavesOptions(ops)
    ensures Kept(Plain(Loop(until, test, body)), s, ExecRound(ops, fuel, until, test, body, s))
    decreases fuel, body, 2
  {
    hide Exec, ExecLoop, ExecRound, LeavesOptions;
    LoopTurns(ops, fuel, until, test, body, s);
    MarkStays(ops, fuel, body, s);
    var b := Exec(ops, fuel, body, s);
    if b.Some? {
      var turn := AfterBody(MaybeErrexit(b.value.0, b.value.1), b.value.1);
      if turn.Again? {
        MarkStaysInLoop(ops, fuel, until, test, body, turn.s, turn.status);
      }
    }
  }

  lemma {:induction false} MarkStaysInFor<W(!new), C(!new)>(ops: Ops<W, C>, fuel: nat, words: C, body: Node<C>,
                                                            list: seq<string>, i: nat, s: State<W>, status: int)
    requires LeavesOptions(ops) && i <= |list|
    ensures Kept(Plain(body), s, ExecFor(ops, fuel, words, body, list, i, s, status))
    decreases fuel, body, |list| - i + 1
  {
    hide Exec, Plain;
    if i < |list| && !s.shouldExit {
      var (d, bound) := ops.bind(s.data, words, list[i]);
      MarkStays(ops, fuel, body, s.(data := d));
      var b := Exec(ops, fuel, body, s.(data := d));
      if b.Some? {
        var turn := AfterBody(MaybeErrexit(b.value.0, b.value.1), b.value.1);
        if turn.Again? {
          MarkStaysInFor(ops, fuel, words, body, list, i + 1, turn.s, turn.status);
        }
      }
    }
  }

  lemma {:induction false} ChainKeeps<W(!new), C(!new)>(ops: Ops<W, C>, fuel: nat, items: seq<Node<C>>, k: nat,
                                                        s: State<W>)
    requires LeavesOptions(ops) && Plain(Sequence(items)) && k <= |items| && InForce(s.data)
    ensures Chain(ops, fuel, items, k, s).Some? ==> InForce(Chain(ops, fuel, items, k, s).value.0.data)
  {
    hide Exec, LeavesOptions;
    if k > 0 {
      ChainKeeps(ops, fuel, items, k - 1, s);
      var p := Chain(ops, fuel, items, k - 1, s);
      if p.Some? {
        MarkStays(ops, fuel, items[k - 1], p.value.0);
      }
    }
  }

  /** A list without `!`, `&&` and `||` ends at its first failure, which is what `set -e` is for. */
  lemma PlainListEnds<W(!new), C(!new)>(ops: Ops<W, C>, fuel: nat, items: seq<Node<C>>, k: nat, s: State<W>)
    requires LeavesOptions(ops) && Plain(Sequence(items)) && InForce(s.data) && k < |items|
    requires forall j :: 0 < j <= k + 1 ==>
               var r := Chain(ops, fuel, items, j, s);
               r.Some? && NothingUnderWay(r.value.0) && (r.value.1 == 0 <==> j <= k)
    ensures (var (last, status) := Chain(ops, fuel, items, k + 1, s).value;
             Exec(ops, fuel, Sequence(items), s) == Some((Ended(last, status), status)))
  {
    hide Exec, LeavesOptions, Plain, Chain, Ended;
    ChainKeeps(ops, fuel, items, k + 1, s);
    ListUnderErrexit(ops, fuel, items, k, s);
  }

  /** Any other list may not: the mark that a `!` or a skipped operand sets is never taken away by the commands
      behind it, and then no failure of theirs ends the run. */
  lemma MarkedNeverEnds<W(!new), C(!new)>(ops: Ops<W, C>, fuel: nat, n: Node<C>, s: State<W>)
    requires LeavesOptions(ops) && s.data.errexitIgnored && !s.shouldExit && Exec(ops, fuel, n, s).Some?
    ensures !Exec(ops, fuel, n, s).value.0.shouldExit
  {
    hide Exec, LeavesOptions, Plain;
    MarkStays(ops, fuel, n, s);
  }

  /** Commands for the two examples: the world counts how often "echo" ran. */
  function ExampleRun(d: Data<nat>, c: string): Effect<nat> {
    if c == "echo" then Effect(d.(world := d.world + 1), 0, Proceed)
    else Effect(d, if c == "false" then 1 else 0, Proceed)
  }

  const EXAMPLE: Ops<nat, string> :=
    Ops(ExampleRun, (d, _) => (d, None), (d, _, _) => (d, true), (d, _) => (d, true), (_, d, _) => d)
  /** A shell with `set -e`. */
  const STRICT: State<nat> := State(Data(0, 0, 0, true, false, false), false, false, 0, 0, 0)

  /** `true; false; echo` ends at `false`, with its status, and `echo` is not run. */
  lemma FailureEndsExample()
    ensures (var r := Exec(EXAMPLE, 0, Sequence([Simple("true"), Simple("false"), Simple("echo")]), STRICT);
             r == Some((State(Data(0, 1, 1, true, false, false), true, false, 0, 0, 0), 1)))
  {
    var items := [Simple("true"), Simple("false"), Simple("echo")];
    assert ExecSequence(EXAMPLE, 0, items, 1, STRICT, 0)
        == Some((State(Data(0, 1, 1, true, false, false), true, false, 0, 0, 0), 1));
  }

  /** `! true; false; echo` does not: the mark of the `!` is still there behind `false`, and `echo` is run. */
  lemma StaleMarkExample()
    ensures (var r := Exec(EXAMPLE, 0, Sequence([Negated(Simple("true")), Simple("false"), Simple("echo")]), STRICT);
             r == Some((State(Data(1, 0, 0, true, true, false), false, false, 0, 0, 0), 0)))
  {
    var items := [Negated(Simple("true")), Simple("false"), Simple("echo")];
    var marked := STRICT.(data := STRICT.data.(lastStatus := 1, errexitIgnored := true));
    assert ExecSequence(EXAMPLE, 0, items, 2, marked, 1)
        == Some((State(Data(1, 0, 0, true, true, false), false, false, 0, 0, 0), 0));
    assert ExecSequence(EXAMPLE, 0, items, 1, marked, 1)
        == Some((State(Data(1, 0, 0, true, true, false), false, false, 0, 0, 0), 0));
  }

  // ---------- redirections, and a `for` that fails ----------

  /** A compound command with redirections runs between setting and undoing them, and not at all, with status 1, if
      they fail. */
  lemma RedirectedRunsBetween<W, C>(ops: Ops<W, C>, fuel: nat, redirs: C, command: Node<C>, s: State<W>)
    ensures (var (d, ok) := ops.redirect(s.data, redirs);
             var r := Exec(ops, fuel, command, s.(data := d));
             var whole := Exec(ops, fuel, Redirected(redirs, command), s);
             && (!ok ==> whole == Some((s.(data := d), 1)))
             && (ok && r.Some? ==>
                   whole == Some((r.value.0.(data := ops.restore(d, r.value.0.data, redirs)), r.value.1))))
  {
  }

  /** A `for` whose words cannot be expanded has status 2; one whose variable cannot be assigned has status 1, and
      ends a shell that is not interactive. */
  lemma ForMayFail<W, C>(ops: Ops<W, C>, fuel: nat, words: C, body: Node<C>, s: State<W>)
    requires !s.shouldExit
    ensures (var (d, list) := ops.expand(s.data, words);
             var whole := Exec(ops, fuel, For(words, body), s);
             && (list == None ==> whole == Some((s.(data := d), 2)))
             && (list.Some? && list.value != [] && !ops.bind(d, words, list.value[0]).1 ==>
                   var after := s.(data := ops.bind(d, words, list.value[0]).0);
                   whole == Some((if after.data.interactive then after else Ended(after, 1), 1))))
  {
  }
}
