/** Texts that the command parser refuses: an operator with no command in front of it, or none behind it. */
module ShellRefusals {
  import opened Common
  import opened Text
  import opened ShellSyntax
  import opened ShellRoundTrip

  // ---------- nothing in front ----------

  /** A text that begins with an operator which wants a command in front of it is refused. */
  lemma NothingInFront(s: string, x: nat)
    requires CoreText(s, 0) && Blanks(s, 0, x) && x + 1 < |s|
    requires s[x] == '&' || (s[x] == '|' && (s[x + 1] == '|' || Blank(s[x + 1]) || Opening(s[x + 1])))
    ensures ParseProgram(s) == Unexpected
  {
    hide CoreText, NextCut;
    PassBlanks(OfList, s, 0, x, |s|, 0);
    TrimStartIs(s, 0, x, |s|);
    assert x > 0 ==> Blank(s[x - 1]);
    if s[x] == '&' && s[x + 1] != '&' {
      CutHere(OfList, s, x, |s|);
      TrimStartIs(s, 0, x, x);
      NoItem(s, 0, x);
    } else {
      OperatorGoesOn(s, x);
      var p := NextCut(OfList, s, x, |s|, 0);
      TrimStartIs(s, 0, x, p);
      FirstPartRefused(s, x, p);
      ItemRefused(s, 0, x, p);
    }
  }

  lemma CutHere(level: Level, s: string, x: nat, end: nat)
    requires x < end <= |s| && IsCut(level, s, x, end) && s[x] != '(' && s[x] != ')'
    ensures NextCut(level, s, x, end, 0) == x
  {
    hide IsCut;
  }

  lemma NoItem(s: string, start: nat, x: nat)
    requires start <= x < |s| && NextCut(OfList, s, start, |s|, 0) == x && TrimStart(s, start, x) == x && s[x] == '&'
    ensures Items(s, start, |s|) == Unexpected
  {
    hide NextCut, TrimStart, ParseAndOr;
  }

  lemma ItemRefused(s: string, start: nat, x: nat, p: nat)
    requires start <= x < p <= |s| && NextCut(OfList, s, start, |s|, 0) == p && TrimStart(s, start, p) == x
    requires ParseAndOr(s, x, p) == Unexpected
    ensures Items(s, start, |s|) == Unexpected
  {
    hide NextCut, TrimStart, ParseAndOr;
  }

  /** Such an operator does not end an item. */
  lemma OperatorGoesOn(s: string, x: nat)
    requires x + 1 < |s| && (x > 0 ==> Blank(s[x - 1]))
    requires (s[x] == '&' && s[x + 1] == '&') || (s[x] == '|' && s[x + 1] != ';' && s[x + 1] != '&')
    ensures NextCut(OfList, s, x, |s|, 0) > x + 1
  {
  }

  lemma FirstPartRefused(s: string, x: nat, p: nat)
    requires x + 1 < p <= |s| && (x > 0 ==> Blank(s[x - 1])) && s[x] in {'&', '|'}
    requires s[x + 1] == s[x] || (s[x] == '|' && (Blank(s[x + 1]) || Opening(s[x + 1])))
    ensures ParseAndOr(s, x, p) == Unexpected
  {
    TrimStartIs(s, x, x, p);
    if s[x] == s[x + 1] {
      CutHere(OfAndOr, s, x, p);
      TrimStartIs(s, x, x, x);
      hide NextCut, TrimStart, ParsePipeline;
    } else {
      var q := NextCut(OfAndOr, s, x, p, 0);
      assert q == NextCut(OfAndOr, s, x + 1, p, 0);
      BeyondNext(s, x + 1, p);
      BarRefused(s, x, q);
      TrimStartIs(s, x, x, q);
      hide NextCut, TrimStart, ParsePipeline;
    }
  }

  lemma BeyondNext(s: string, i: nat, p: nat)
    requires i < p <= |s| && (Blank(s[i]) || Opening(s[i]))
    ensures NextCut(OfAndOr, s, i, p, 0) > i
  {
  }

  lemma BarRefused(s: string, x: nat, q: nat)
    requires x + 1 < q <= |s| && s[x] == '|' && s[x + 1] != '|' && (x > 0 ==> Blank(s[x - 1]))
    ensures ParsePipeline(s, x, q) == Unexpected
  {
    NoBangRead(s, x, q, false);
    CutHere(OfPipeline, s, x, q);
    TrimStartIs(s, x, x, x);
    hide NextCut, TrimStart, ParseAtom, SkipBangs;
    assert Stages(s, x, q) == Unexpected;
  }

  // ---------- nothing behind ----------

  /** An operator with nothing but blanks behind it, as the text of a list goes on to `end`. */
  ghost predicate OpenAt(s: string, m: nat, end: nat, op: string) {
    op in ["&&", "||"] && OperatorIn(s, m, end, op)
  }

  lemma OpenOperator(s: string, x: nat, m: nat, end: nat, op: string) returns (p: nat)
    requires OpenAt(s, m, end, op) && Framed(s, x, m) && end <= |s|
    ensures Blanks(s, m, p) && Blanks(s, p + 2, end) && p + 2 <= end && s[p] == s[p + 1] == op[0]
    ensures CutsAt(OfAndOr, s, p, end) && Ends(s, m) && m > 0 && s[m - 1] != '&'
  {
    hide WordChar;
    p :| Blanks(s, m, p) && Reads(s, p, p + |op|, op) && Blanks(s, p + |op|, end);
    assert s[p..p + |op|][0] == s[p] && s[p..p + |op|][1] == s[p + 1];
    FramedAt(s, x, m);
    BlankEnds(s, p);
    BlanksEnd(s, m, p);
  }

  lemma NoPartLeft(s: string, start: nat, end: nat)
    requires Blanks(s, start, end)
    ensures Parts(s, start, end) == Unexpected
  {
    hide CoreText;
    PassBlanks(OfAndOr, s, start, end, end, 0);
    TrimStartIs(s, start, end, end);
    hide NextCut, TrimStart, ParsePipeline;
  }

  lemma RefusedTurn(s: string, start: nat, q: nat, b: nat, end: nat, n: Node)
    requires start <= end <= |s| && NextCut(OfAndOr, s, start, end, 0) == q && q + 2 <= end
    requires TrimStart(s, start, q) == b < q && ParsePipeline(s, b, q) == ShellSyntax.Parsed(n)
    requires Parts(s, q + 2, end) == Unexpected
    ensures Parts(s, start, end) == Unexpected
  {
    hide NextCut, TrimStart, ParsePipeline;
  }

  lemma {:induction false} PartsRefused(s: string, start: nat, x: nat, m: nat, end: nat, parts: seq<Node>,
                                        operators: seq<AndOrOp>, op: string)
    requires SpelledParts(s, x, m, parts, operators) && AllFit(parts, 1)
    requires Blanks(s, start, x) && x <= m && OpenAt(s, m, end, op) && m <= end <= |s|
    ensures Parts(s, start, end) == Unexpected
    decreases |parts|
  {
    hide Fits, NextCut, TrimStart, ParsePipeline, Ends, Size, SizeAll, Parts, IsCut, SpelledParts, SpelledPipeline,
      Framed, OperatorIn, AllFit, CoreText, CutsAt, OpenAt;
    RestFits(parts, 1);
    OnePart(s, x, m, parts, operators);
    if |parts| == 1 {
      PipelineFramed(s, x, m, parts[0]);
      FramedAt(s, x, m);
      var p := OpenOperator(s, x, m, end, op);
      PartCutAndRead(s, start, x, m, p, end, parts[0]);
      NoPartLeft(s, p + 2, end);
      RefusedTurn(s, start, p, x, end, parts[0]);
    } else {
      var k, j := SplitParts(s, x, m, parts, operators);
      var op' := OperatorText(operators[0]);
      PipelineFramed(s, x, k, parts[0]);
      PartsFramed(s, j, m, parts[1..], operators[1..]);
      FramedAt(s, x, k);
      FramedAt(s, j, m);
      var p := OperatorCuts(s, x, k, j, m, op', end);
      OperatorStops(s, k, j, op');
      PartCutAndRead(s, start, x, k, p, end, parts[0]);
      PartsRefused(s, p + 2, j, m, end, parts[1..], operators[1..], op);
      RefusedTurn(s, start, p, x, end, parts[0]);
    }
  }

  lemma PartCutAndRead(s: string, start: nat, x: nat, y: nat, p: nat, end: nat, n: Node)
    requires SpelledPipeline(s, x, y, n) && Fits(n, 1) && Framed(s, x, y) && Ends(s, y)
    requires Blanks(s, start, x) && Blanks(s, y, p) && CutsAt(OfAndOr, s, p, end)
    ensures NextCut(OfAndOr, s, start, end, 0) == p && TrimStart(s, start, p) == x < p
    ensures ParsePipeline(s, x, p) == ShellSyntax.Parsed(n)
  {
    assert Ends(s, p) && x < y <= end && p <= end <= |s|;
    hide *;
    PassPipeline(OfAndOr, s, x, y, n, end, 0);
    PartCut(OfAndOr, s, start, x, y, p, end);
    PipelineRead(s, x, y, p, n);
  }

  /** A text that ends in `&&` or `||` is refused, however many commands stand in front of it. */
  lemma NothingBehind(s: string, x: nat, m: nat, n: Node, op: string)
    requires CoreText(s, 0) && Blanks(s, 0, x) && Fits(n, 2) && SpelledAndOr(s, x, m, n) && OpenAt(s, m, |s|, op)
    ensures ParseProgram(s) == Unexpected
  {
    hide CoreText, NextCut, Fits, SpelledAndOr, SpelledParts, PartsOf, OperatorsOf, AllFit, Framed, OpenAt, OperatorIn,
      Parts, TrimStart, AndOrNode, CutsAt;
    AndOrShape(n);
    AndOrFramed(s, x, m, n);
    FramedAt(s, x, m);
    OpenEnds(s, m, |s|, op);
    PartsRefused(s, x, x, m, |s|, PartsOf(n), OperatorsOf(n), op) by {
      SpelledAsParts(s, x, m, n);
    }
    ListGoesThrough(s, x, m, n, op);
    TrimStartIs(s, 0, x, |s|);
    AndOrRefused(s, x);
    ItemRefused(s, 0, x, |s|);
  }

  lemma SpelledAsParts(s: string, x: nat, m: nat, n: Node)
    requires SpelledAndOr(s, x, m, n)
    ensures SpelledParts(s, x, m, PartsOf(n), OperatorsOf(n))
  {
  }

  lemma OpenEnds(s: string, m: nat, end: nat, op: string)
    requires OpenAt(s, m, end, op)
    ensures m <= end <= |s|
  {
  }

  lemma AndOrRefused(s: string, x: nat)
    requires x <= |s| && Parts(s, x, |s|) == Unexpected
    ensures ParseAndOr(s, x, |s|) == Unexpected
  {
  }

  /** The scanner of lists finds nothing to cut at in such a text. */
  lemma ListGoesThrough(s: string, x: nat, m: nat, n: Node, op: string)
    requires Blanks(s, 0, x) && Fits(n, 2) && SpelledAndOr(s, x, m, n) && OpenAt(s, m, |s|, op)
    requires Framed(s, x, m)
    ensures NextCut(OfList, s, 0, |s|, 0) == |s|
  {
    hide CoreText, NextCut, Fits, SpelledAndOr, Framed, OpenAt, OperatorIn;
    var p := OpenOperator(s, x, m, |s|, op);
    PassBlanks(OfList, s, 0, x, |s|, 0);
    PassAndOr(OfList, s, x, m, n, |s|, 0);
    PassBlanks(OfList, s, m, p, |s|, 0);
    OpenPassed(s, m, p);
    PassBlanks(OfList, s, p + 2, |s|, |s|, 0);
    NothingToCut(s);
  }

  lemma OpenPassed(s: string, m: nat, p: nat)
    requires 0 < m <= p && p + 2 <= |s| && s[p] == s[p + 1] && s[p] in {'&', '|'} && Blanks(s, m, p)
    ensures NextCut(OfList, s, p, |s|, 0) == NextCut(OfList, s, p + 2, |s|, 0)
  {
  }

  lemma NothingToCut(s: string)
    ensures NextCut(OfList, s, |s|, |s|, 0) == |s|
  {
  }
}
