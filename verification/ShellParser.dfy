/** The parser as it runs: index loops over one text, calling each other on ranges of it. */
module ShellParser {
  import opened Common
  import opened Text
  import opened ShellSyntax

  lemma AppendNone(o: Outcome<seq<Node>>)
    ensures ThenAppend([], o) == o
  {
    if o.Parsed? {
      assert [] + o.value == o.value;
    }
  }

  lemma AppendOne(items: seq<Node>, n: Node, o: Outcome<seq<Node>>)
    ensures ThenAppend(items, ThenAppend([n], o)) == ThenAppend(items + [n], o)
  {
    if o.Parsed? {
      assert items + ([n] + o.value) == (items + [n]) + o.value;
    }
  }

  method SkipSpaces(s: string, start: nat, end: nat) returns (i: nat)
    requires start <= end <= |s|
    ensures i == TrimStart(s, start, end)
  {
    i := start;
    while i < end && IsSpace(s[i])
      invariant start <= i <= end
      invariant TrimStart(s, i, end) == TrimStart(s, start, end)
    {
      i := i + 1;
    }
  }

  method DropSpaces(s: string, start: nat, end: nat) returns (e: nat)
    requires start <= end <= |s|
    ensures e == TrimEnd(s, start, end)
  {
    e := end;
    while e > start && IsSpace(s[e - 1])
      invariant start <= e <= end
      invariant TrimEnd(s, start, e) == TrimEnd(s, start, end)
    {
      e := e - 1;
    }
  }

  method SplitWords(s: string) returns (words: seq<string>)
    ensures words == Words(s, 0)
  {
    words := [];
    var p := 0;
    while p < |s|
      invariant p <= |s|
      invariant words + Words(s, p) == Words(s, 0)
      decreases |s| - p
    {
      if IsSpace(s[p]) {
        p := p + 1;
      } else {
        var begin := p;
        while p < |s| && !IsSpace(s[p])
          invariant begin <= p <= |s|
          invariant BlankFrom(s, p) == BlankFrom(s, begin)
        {
          p := p + 1;
        }
        assert Words(s, begin) == [s[begin..p]] + Words(s, p);
        words := words + [s[begin..p]];
      }
    }
  }

  /** Finds the parenthesis that closes the group a text begins with. */
  method UnwrapSubshell(s: string) returns (close: Option<nat>)
    ensures close == GroupClose(s)
  {
    if |s| < 2 || s[0] != '(' {
      return None;
    }
    var depth := 1;
    var i := 1;
    while i < |s|
      invariant 1 <= i <= |s| && depth >= 1
      invariant NextCut(OfGroup, s, i, |s|, depth - 1) == NextCut(OfGroup, s, 1, |s|, 0)
    {
      if s[i] == '(' {
        depth := depth + 1;
      } else if s[i] == ')' {
        depth := depth - 1;
        if depth == 0 {
          break;
        }
      }
      i := i + 1;
    }
    if i < |s| && SpaceEnd(s, i + 1) == |s| {
      return Some(i);
    }
    return None;
  }

  method ParseCommandAtom(s: string, start: nat, end: nat) returns (r: Outcome<Node>)
    requires start <= end <= |s|
    ensures r == ParseAtom(s, start, end)
    decreases end - start, 0
  {
    hide TrimStart, TrimEnd, FunctionHead, GroupClose, Words, ParseList;
    var a := SkipSpaces(s, start, end);
    var b := DropSpaces(s, a, end);
    var text := s[a..b];
    if text == "" {
      return Parsed(Empty);
    }
    if FunctionHead(text) {
      return Unmodelled;
    }
    var close := UnwrapSubshell(text);
    if close.Some? {
      var body := ParseSequence(s, a + 1, a + close.value);
      return if body.Parsed? then Parsed(Subshell(body.value)) else body;
    }
    var words := SplitWords(text);
    return Parsed(Simple(words));
  }

  /** What one character does to a scan. */
  lemma CutTurn(level: Level, s: string, i: nat, end: nat, depth: nat)
    requires i <= end <= |s|
    ensures NextCut(level, s, i, end, depth) ==
            if i == end then end
            else if s[i] == '(' then NextCut(level, s, i + 1, end, depth + 1)
            else if s[i] == ')' && depth > 0 then NextCut(level, s, i + 1, end, depth - 1)
            else if depth == 0 && IsCut(level, s, i, end) then i
            else NextCut(level, s, i + 1, end, depth)
  {
  }

  method ParseStages(s: string, start: nat, end: nat) returns (r: Outcome<seq<Node>>)
    requires start <= end <= |s|
    ensures r == Stages(s, start, end)
    decreases end - start, 1
  {
    hide TrimStart, ParseAtom, ThenAppend, NextCut, Stages;
    var stages: seq<Node> := [];
    var partStart, i, depth := start, start, 0;
    AppendNone(Stages(s, start, end));
    while i <= end
      invariant start <= partStart && i <= end + 1
      invariant i <= end ==> partStart <= i
      invariant i <= end ==> NextCut(OfPipeline, s, partStart, end, 0) == NextCut(OfPipeline, s, i, end, depth)
      invariant i <= end ==> Stages(s, start, end) == ThenAppend(stages, Stages(s, partStart, end))
      invariant i > end ==> Stages(s, start, end) == Parsed(stages)
      decreases end + 1 - i
    {
      CutTurn(OfPipeline, s, i, end, depth);
      var delim := i == end;
      if i < end {
        if s[i] == '(' {
          depth := depth + 1;
        } else if s[i] == ')' && depth > 0 {
          depth := depth - 1;
        } else if depth == 0 && s[i] == '|' && i + 1 < end && s[i + 1] != '|'
            && !(i > 0 && (s[i - 1] == '|' || s[i - 1] == '>')) {
          delim := true;
        }
      }
      if delim {
        StageStep(s, partStart, i, end, stages);
        var b := SkipSpaces(s, partStart, i);
        if b == i {
          return Unexpected;
        }
        var stage := ParseCommandAtom(s, b, i);
        if !stage.Parsed? {
          return Failed(stage);
        }
        stages := stages + [stage.value];
        partStart := i + 1;
      }
      i := i + 1;
    }
    return Parsed(stages);
  }

  /** What one turn of the pipeline scanner does to the result. */
  lemma StageStep(s: string, start: nat, p: nat, end: nat, done: seq<Node>)
    requires start <= p <= end <= |s| && NextCut(OfPipeline, s, start, end, 0) == p
    ensures (var b := TrimStart(s, start, p);
             var whole := ThenAppend(done, Stages(s, start, end));
             if b == p then whole == Unexpected
             else
               var stage := ParseAtom(s, b, p);
               if !stage.Parsed? then whole == Failed(stage)
               else if p == end then whole == Parsed(done + [stage.value])
               else whole == ThenAppend(done + [stage.value], Stages(s, p + 1, end)))
  {
    hide TrimStart, NextCut, ParseAtom;
    var b := TrimStart(s, start, p);
    if b < p && ParseAtom(s, b, p).Parsed? && p < end {
      AppendOne(done, ParseAtom(s, b, p).value, Stages(s, p + 1, end));
    }
  }

  method ParsePipelineAt(s: string, start: nat, end: nat) returns (r: Outcome<Node>)
    requires start <= end <= |s|
    ensures r == ParsePipeline(s, start, end)
    decreases end - start, 2
  {
    hide TrimStart, Stages, SkipBangs;
    var negate := false;
    var partStart := SkipSpaces(s, start, end);
    TrimTwice(s, start, end);
    BangsFrom(s, start, end, negate);
    while partStart < end && s[partStart] == '!'
      invariant start <= partStart <= end
      invariant TrimStart(s, partStart, end) == partStart
      invariant SkipBangs(s, partStart, end, negate) == SkipBangs(s, start, end, false)
      decreases end - partStart
    {
      var next := SkipSpaces(s, partStart + 1, end);
      TrimTwice(s, partStart + 1, end);
      BangTurn(s, partStart, end, negate);
      negate := !negate;
      partStart := next;
    }
    BangTurn(s, partStart, end, negate);
    var stages := ParseStages(s, partStart, end);
    if !stages.Parsed? {
      return Failed(stages);
    }
    if |stages.value| == 1 && !negate {
      return Parsed(stages.value[0]);
    }
    return Parsed(Pipeline(stages.value, negate));
  }

  lemma {:induction false} TrimTwice(s: string, i: nat, end: nat)
    requires i <= end <= |s|
    ensures TrimStart(s, TrimStart(s, i, end), end) == TrimStart(s, i, end)
  {
  }

  lemma BangsFrom(s: string, i: nat, end: nat, negate: bool)
    requires i <= end <= |s|
    ensures SkipBangs(s, TrimStart(s, i, end), end, negate) == SkipBangs(s, i, end, negate)
  {
    hide TrimStart;
    TrimTwice(s, i, end);
  }

  lemma BangTurn(s: string, b: nat, end: nat, negate: bool)
    requires b <= end <= |s| && TrimStart(s, b, end) == b
    ensures SkipBangs(s, b, end, negate) ==
            if b < end && s[b] == '!' then SkipBangs(s, TrimStart(s, b + 1, end), end, !negate) else (b, negate)
  {
    hide TrimStart;
    if b < end {
      BangsFrom(s, b + 1, end, !negate);
    }
  }

  method ParseAndOrAt(s: string, start: nat, end: nat) returns (r: Outcome<Node>)
    requires start <= end <= |s|
    ensures r == ParseAndOr(s, start, end)
    decreases end - start, 4
  {
    hide TrimStart, ParsePipeline, NextCut, Parts, ThenJoin;
    var parts: seq<Node> := [];
    var operators: seq<AndOrOp> := [];
    var partStart, i, depth := start, start, 0;
    JoinNone(Parts(s, start, end));
    while i <= end
      invariant start <= partStart && i <= end + 1
      invariant i <= end ==> partStart <= i
      invariant i <= end ==> NextCut(OfAndOr, s, partStart, end, 0) == NextCut(OfAndOr, s, i, end, depth)
      invariant i <= end ==> Parts(s, start, end) == ThenJoin(parts, operators, Parts(s, partStart, end))
      invariant i > end ==> Parts(s, start, end) == Parsed((parts, operators))
      decreases end + 1 - i
    {
      CutTurn(OfAndOr, s, i, end, depth);
      var delim, delimEnd := i == end, i;
      if i < end {
        if s[i] == '(' {
          depth := depth + 1;
        } else if s[i] == ')' && depth > 0 {
          depth := depth - 1;
        } else if depth == 0 && s[i] == '&' {
          if i + 1 < end && s[i + 1] == '&' {
            delim, delimEnd := true, i + 1;
          }
        } else if depth == 0 && s[i] == '|' {
          if i + 1 < end && s[i + 1] == '|' {
            delim, delimEnd := true, i + 1;
          }
        }
      }
      if delim {
        PartStep(s, partStart, i, end, parts, operators);
        var b := SkipSpaces(s, partStart, i);
        if b == i {
          return Unexpected;
        }
        var part := ParsePipelineAt(s, b, i);
        if !part.Parsed? {
          return Failed(part);
        }
        parts := parts + [part.value];
        if i < end {
          operators := operators + [if s[i] == '&' then OpAnd else OpOr];
          i := delimEnd;
        }
        partStart := i + 1;
      }
      i := i + 1;
    }
    if |parts| == 1 {
      return Parsed(parts[0]);
    }
    return Parsed(AndOr(parts, operators));
  }

  function ThenJoin(parts: seq<Node>, operators: seq<AndOrOp>, rest: Outcome<(seq<Node>, seq<AndOrOp>)>)
    : Outcome<(seq<Node>, seq<AndOrOp>)>
  {
    if rest.Parsed? then Parsed((parts + rest.value.0, operators + rest.value.1)) else rest
  }

  lemma JoinNone(o: Outcome<(seq<Node>, seq<AndOrOp>)>)
    ensures ThenJoin([], [], o) == o
  {
    if o.Parsed? {
      assert [] + o.value.0 == o.value.0 && [] + o.value.1 == o.value.1;
    }
  }

  lemma PartStep(s: string, start: nat, p: nat, end: nat, done: seq<Node>, operators: seq<AndOrOp>)
    requires start <= p <= end <= |s| && NextCut(OfAndOr, s, start, end, 0) == p
    ensures (var b := TrimStart(s, start, p);
             var whole := ThenJoin(done, operators, Parts(s, start, end));
             if b == p then whole == Unexpected
             else
               var part := ParsePipeline(s, b, p);
               if !part.Parsed? then whole == Failed(part)
               else if p == end then whole == Parsed((done + [part.value], operators))
               else
                 p + 2 <= end &&
                 whole == ThenJoin(done + [part.value],
                     operators + [if s[p] == '&' then OpAnd else OpOr], Parts(s, p + 2, end)))
  {
    hide TrimStart, NextCut, ParsePipeline;
    var b := TrimStart(s, start, p);
    if b < p && ParsePipeline(s, b, p).Parsed? {
      var n := ParsePipeline(s, b, p).value;
      if p == end {
        assert operators + [] == operators;
      } else {
        var rest := Parts(s, p + 2, end);
        if rest.Parsed? {
          assert done + ([n] + rest.value.0) == (done + [n]) + rest.value.0;
          var op := if s[p] == '&' then OpAnd else OpOr;
          assert operators + ([op] + rest.value.1) == (operators + [op]) + rest.value.1;
        }
      }
    }
  }

  method ParseSequence(s: string, start: nat, end: nat) returns (r: Outcome<Node>)
    requires start <= end <= |s|
    ensures r == ParseList(s, start, end)
    decreases end - start, 6
  {
    hide TrimStart, ParseAndOr, ThenAppend, NextCut, Items;
    var items: seq<Node> := [];
    var partStart, i, depth := start, start, 0;
    AppendNone(Items(s, start, end));
    while i <= end
      invariant start <= partStart && i <= end + 1
      invariant i <= end ==> partStart <= i
      invariant i <= end ==> NextCut(OfList, s, partStart, end, 0) == NextCut(OfList, s, i, end, depth)
      invariant i <= end ==> Items(s, start, end) == ThenAppend(items, Items(s, partStart, end))
      invariant i > end ==> Items(s, start, end) == Parsed(items)
      decreases end + 1 - i
    {
      CutTurn(OfList, s, i, end, depth);
      var delim, async := i == end, false;
      if i < end {
        if s[i] == '(' {
          depth := depth + 1;
        } else if s[i] == ')' && depth > 0 {
          depth := depth - 1;
        } else if depth == 0 && s[i] == ';' {
          delim := true;
        } else if depth == 0 && s[i] == '&' && At(s, i + 1) != '&'
            && !(i > 0 && (s[i - 1] == '&' || s[i - 1] == '<' || s[i - 1] == '>')) {
          delim, async := true, true;
        }
      }
      if delim {
        ItemStep(s, partStart, i, end, items);
        var b := SkipSpaces(s, partStart, i);
        if b < i {
          var part := ParseAndOrAt(s, b, i);
          if !part.Parsed? {
            return Failed(part);
          }
          items := items + [if async then Async(part.value) else part.value];
        } else if async {
          return Unexpected;
        }
        partStart := i + 1;
      }
      i := i + 1;
    }
    if |items| == 0 {
      return Parsed(Empty);
    }
    if |items| == 1 {
      return Parsed(items[0]);
    }
    return Parsed(Sequence(items));
  }

  lemma ItemStep(s: string, start: nat, p: nat, end: nat, done: seq<Node>)
    requires start <= p <= end <= |s| && NextCut(OfList, s, start, end, 0) == p
    ensures (var b := TrimStart(s, start, p);
             var async := p < end && s[p] == '&';
             var whole := ThenAppend(done, Items(s, start, end));
             if b == p then
               if async then whole == Unexpected
               else if p == end then whole == Parsed(done)
               else whole == ThenAppend(done, Items(s, p + 1, end))
             else
               var part := ParseAndOr(s, b, p);
               if !part.Parsed? then whole == Failed(part)
               else
                 var item := if async then Async(part.value) else part.value;
                 if p == end then whole == Parsed(done + [item])
                 else whole == ThenAppend(done + [item], Items(s, p + 1, end)))
  {
    hide TrimStart, NextCut, ParseAndOr;
    var b := TrimStart(s, start, p);
    assert done + [] == done;
    if b < p && ParseAndOr(s, b, p).Parsed? && p < end {
      var n := ParseAndOr(s, b, p).value;
      AppendOne(done, if s[p] == '&' then Async(n) else n, Items(s, p + 1, end));
    }
  }

  method ParseText(s: string) returns (r: Outcome<Node>)
    ensures r == ParseProgram(s)
  {
    if !CoreText(s, 0) {
      return Unmodelled;
    }
    r := ParseSequence(s, 0, |s|);
  }
}
