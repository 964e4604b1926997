/** Parsing undoes spelling: every command tree of the core language is read back from each of its texts, whatever
    blanks stand around the operators, or none. */
module ShellRoundTrip {
  import opened Common
  import opened Text
  import opened ShellSyntax

  // ---------- trees ----------

  predicate PlainWord(w: string) {
    w != "" && (forall k :: 0 <= k < |w| ==> WordChar(w[k])) && Unbanged(w) !in RESERVED
  }

  /** A simple command that would be taken for a negation at the start of a pipeline. */
  predicate Banged(n: Node) {
    n.Simple? && n.words != [] && n.words[0] != "" && n.words[0][0] == '!'
  }

  /** The trees that can stand in a pipeline (rank 0), in an and-or list (1), in front of `&` (2), in a
      list (3), and as a whole program or in a subshell (4). */
  predicate Fits(n: Node, rank: nat) {
    match n
    case Empty => rank >= 4
    case Simple(words) =>
      words != [] && (forall k :: 0 <= k < |words| ==> PlainWord(words[k])) && (rank == 0 || !Banged(n))
    case Subshell(body) => Fits(body, 4)
    case Pipeline(stages, negate) =>
      && rank >= 1 && (|stages| >= 2 || (negate && |stages| == 1)) && !Banged(stages[0])
      && forall k :: 0 <= k < |stages| ==> Fits(stages[k], 0)
    case AndOr(parts, operators) =>
      && rank >= 2 && |parts| >= 2 && |operators| == |parts| - 1
      && forall k :: 0 <= k < |parts| ==> Fits(parts[k], 1)
    case Async(child) => rank >= 3 && Fits(child, 2)
    case Sequence(items) => rank >= 4 && |items| >= 2 && forall k :: 0 <= k < |items| ==> Fits(items[k], 3)
  }

  function Size(n: Node): (k: nat)
    ensures k >= 1
  {
    match n
    case Empty => 1
    case Simple(_) => 1
    case Subshell(body) => 1 + Size(body)
    case Pipeline(stages, _) => 1 + SizeAll(stages)
    case AndOr(parts, _) => 1 + SizeAll(parts)
    case Async(child) => 1 + Size(child)
    case Sequence(items) => 1 + SizeAll(items)
  }

  function SizeAll(ns: seq<Node>): nat {
    if ns == [] then 0 else Size(ns[0]) + SizeAll(ns[1..])
  }

  lemma SizeSplit(ns: seq<Node>)
    requires ns != []
    ensures SizeAll(ns) == Size(ns[0]) + SizeAll(ns[1..])
    ensures |ns| == 1 ==> SizeAll(ns) == Size(ns[0])
  {
  }

  /** A command that is no pipeline is one of a single stage; and so for and-or lists and lists. */
  function StagesOf(n: Node): (ns: seq<Node>)
    ensures SizeAll(ns) <= Size(n)
  {
    if n.Pipeline? then n.stages else [n]
  }

  function PartsOf(n: Node): (ns: seq<Node>)
    ensures SizeAll(ns) <= Size(n)
  {
    if n.AndOr? then n.parts else [n]
  }

  function OperatorsOf(n: Node): seq<AndOrOp> {
    if n.AndOr? then n.operators else []
  }

  function ItemsOf(n: Node): (ns: seq<Node>)
    ensures SizeAll(ns) <= Size(n)
  {
    if n.Empty? then [] else if n.Sequence? then n.items else [n]
  }

  /** What stands in front of the `&` or `;` of an item. */
  function Core(item: Node): (n: Node)
    ensures Size(n) <= Size(item)
  {
    if item.Async? then item.child else item
  }

  // ---------- the texts that spell a tree ----------

  predicate Blanks(s: string, x: nat, y: nat) {
    x <= y <= |s| && forall k :: x <= k < y ==> Blank(s[k])
  }

  /** Blanks, and semicolons with nothing in front of them. */
  predicate Gap(s: string, x: nat, y: nat) {
    x <= y <= |s| && forall k :: x <= k < y ==> Blank(s[k]) || s[k] == ';'
  }

  predicate Reads(s: string, x: nat, y: nat, t: string) {
    x <= y <= |s| && s[x..y] == t
  }

  /** The operator stands between `m` and `k`, with any blanks on either side, or none. */
  ghost predicate OperatorIn(s: string, m: nat, k: nat, op: string) {
    exists p: nat :: Blanks(s, m, p) && Reads(s, p, p + |op|, op) && Blanks(s, p + |op|, k)
  }

  /** Words with blanks between them. */
  ghost predicate SpelledWords(s: string, x: nat, y: nat, words: seq<string>)
    decreases |words|
  {
    words != [] &&
    if |words| == 1 then Reads(s, x, y, words[0])
    else
      exists m: nat, k: nat ::
        Reads(s, x, m, words[0]) && m < k && Blanks(s, m, k) && SpelledWords(s, k, y, words[1..])
  }

  predicate BangAt(s: string, x: nat, b: nat) {
    x < b <= |s| && s[x] == '!' && Blanks(s, x + 1, b)
  }

  /** Any number of `!`, with any blanks behind each, or none; an odd number negates. */
  ghost predicate Bangs(s: string, x: nat, p: nat, negate: bool)
    decreases p - x
  {
    x <= p <= |s| &&
    if x == p then !negate
    else exists b: nat :: BangAt(s, x, b) && b <= p && Bangs(s, b, p, !negate)
  }

  /** A simple command, or a list in parentheses. */
  ghost predicate SpelledAtom(s: string, x: nat, y: nat, n: Node)
    decreases Size(n), 0
  {
    match n
    case Simple(words) => SpelledWords(s, x, y, words)
    case Subshell(body) => x + 2 <= y <= |s| && s[x] == '(' && s[y - 1] == ')' && SpelledList(s, x + 1, y - 1, body)
    case _ => false
  }

  ghost predicate SpelledStages(s: string, x: nat, y: nat, stages: seq<Node>)
    decreases SizeAll(stages), 1
  {
    stages != [] &&
    if |stages| == 1 then SpelledAtom(s, x, y, stages[0])
    else
      exists m: nat, k: nat ::
        SpelledAtom(s, x, m, stages[0]) && OperatorIn(s, m, k, "|") && SpelledStages(s, k, y, stages[1..])
  }

  ghost predicate SpelledPipeline(s: string, x: nat, y: nat, n: Node)
    decreases Size(n), 2
  {
    exists p: nat :: Bangs(s, x, p, n.Pipeline? && n.negate) && SpelledStages(s, p, y, StagesOf(n))
  }

  function OperatorText(op: AndOrOp): string {
    if op == OpAnd then "&&" else "||"
  }

  ghost predicate SpelledParts(s: string, x: nat, y: nat, parts: seq<Node>, operators: seq<AndOrOp>)
    decreases SizeAll(parts), 3
  {
    parts != [] && |operators| == |parts| - 1 &&
    if |parts| == 1 then SpelledPipeline(s, x, y, parts[0])
    else
      exists m: nat, k: nat ::
        && SpelledPipeline(s, x, m, parts[0]) && OperatorIn(s, m, k, OperatorText(operators[0]))
        && SpelledParts(s, k, y, parts[1..], operators[1..])
  }

  ghost predicate SpelledAndOr(s: string, x: nat, y: nat, n: Node)
    decreases Size(n), 4
  {
    SpelledParts(s, x, y, PartsOf(n), OperatorsOf(n))
  }

  /** An item up to `k`, where its `&` or `;` stands or the list ends. */
  ghost predicate SpelledItem(s: string, x: nat, k: nat, item: Node)
    decreases Size(item), 5
  {
    exists a: nat, m: nat :: Gap(s, x, a) && SpelledAndOr(s, a, m, Core(item)) && Blanks(s, m, k)
  }

  ghost predicate SpelledItems(s: string, x: nat, y: nat, items: seq<Node>)
    decreases SizeAll(items), 6
  {
    if items == [] then Gap(s, x, y)
    else
      exists k: nat :: SpelledItem(s, x, k, items[0]) && x <= k <= y <= |s| &&
        if items[0].Async? then k < y && s[k] == '&' && SpelledItems(s, k + 1, y, items[1..])
        else if k == y then |items| == 1
        else s[k] == ';' && SpelledItems(s, k + 1, y, items[1..])
  }

  ghost predicate SpelledList(s: string, x: nat, y: nat, n: Node)
    decreases Size(n), 7
  {
    SpelledItems(s, x, y, ItemsOf(n))
  }

  // ---------- taking a text apart ----------

  lemma SplitStages(s: string, x: nat, y: nat, stages: seq<Node>) returns (m: nat, k: nat)
    requires SpelledStages(s, x, y, stages) && |stages| > 1
    ensures SpelledAtom(s, x, m, stages[0]) && OperatorIn(s, m, k, "|") && SpelledStages(s, k, y, stages[1..])
  {
    hide SpelledAtom, OperatorIn;
    m, k :| SpelledAtom(s, x, m, stages[0]) && OperatorIn(s, m, k, "|") && SpelledStages(s, k, y, stages[1..]);
  }

  lemma OneStage(s: string, x: nat, y: nat, stages: seq<Node>)
    requires SpelledStages(s, x, y, stages)
    ensures stages != [] && (|stages| == 1 ==> SpelledAtom(s, x, y, stages[0]))
  {
  }

  lemma SplitParts(s: string, x: nat, y: nat, parts: seq<Node>, operators: seq<AndOrOp>) returns (m: nat, k: nat)
    requires SpelledParts(s, x, y, parts, operators) && |parts| > 1
    ensures |operators| == |parts| - 1
    ensures SpelledPipeline(s, x, m, parts[0]) && OperatorIn(s, m, k, OperatorText(operators[0]))
    ensures SpelledParts(s, k, y, parts[1..], operators[1..])
  {
    hide SpelledPipeline, OperatorIn;
    m, k :|
      && SpelledPipeline(s, x, m, parts[0]) && OperatorIn(s, m, k, OperatorText(operators[0]))
      && SpelledParts(s, k, y, parts[1..], operators[1..]);
  }

  lemma OnePart(s: string, x: nat, y: nat, parts: seq<Node>, operators: seq<AndOrOp>)
    requires SpelledParts(s, x, y, parts, operators)
    ensures parts != [] && (|parts| == 1 ==> operators == [] && SpelledPipeline(s, x, y, parts[0]))
  {
  }

  lemma NoItemsSpelled(s: string, x: nat, y: nat)
    ensures SpelledItems(s, x, y, []) <==> Gap(s, x, y)
  {
  }

  lemma SplitItems(s: string, x: nat, y: nat, items: seq<Node>) returns (k: nat)
    requires SpelledItems(s, x, y, items) && items != []
    ensures SpelledItem(s, x, k, items[0]) && x <= k <= y <= |s|
    ensures k < y ==> s[k] == (if items[0].Async? then '&' else ';') && SpelledItems(s, k + 1, y, items[1..])
    ensures k == y ==> !items[0].Async? && |items| == 1
  {
    hide SpelledItem;
    k :| SpelledItem(s, x, k, items[0]) && x <= k <= y <= |s| &&
      if items[0].Async? then k < y && s[k] == '&' && SpelledItems(s, k + 1, y, items[1..])
      else if k == y then |items| == 1
      else s[k] == ';' && SpelledItems(s, k + 1, y, items[1..]);
  }

  // ---------- how the texts begin and end ----------

  predicate Opening(c: char) {
    WordChar(c) || c == '('
  }

  predicate Closing(c: char) {
    WordChar(c) || c == ')'
  }

  /** A text of a command: it neither begins nor ends with a blank or an operator. */
  predicate Framed(s: string, x: nat, y: nat) {
    x < y <= |s| && Opening(s[x]) && Closing(s[y - 1])
  }

  lemma WordFramed(s: string, x: nat, y: nat, w: string)
    requires PlainWord(w) && Reads(s, x, y, w)
    ensures Framed(s, x, y) && s[x] == w[0] && forall k :: x <= k < y ==> WordChar(s[k])
  {
    hide WordChar;
    forall k | x <= k < y ensures s[k] == w[k - x] {
      assert s[x..y][k - x] == s[k];
    }
  }

  lemma FramedConcat(s: string, x: nat, m: nat, k: nat, y: nat)
    requires Framed(s, x, m) && m <= k && Framed(s, k, y)
    ensures Framed(s, x, y)
  {
  }

  lemma {:induction false} WordsFramed(s: string, x: nat, y: nat, words: seq<string>)
    requires SpelledWords(s, x, y, words) && forall k :: 0 <= k < |words| ==> PlainWord(words[k])
    ensures Framed(s, x, y) && s[x] == words[0][0]
    decreases |words|
  {
    hide PlainWord, Framed, Reads;
    if |words| == 1 {
      WordFramed(s, x, y, words[0]);
    } else {
      var m: nat, k: nat :|
        Reads(s, x, m, words[0]) && m < k && Blanks(s, m, k) && SpelledWords(s, k, y, words[1..]);
      WordFramed(s, x, m, words[0]);
      WordsFramed(s, k, y, words[1..]);
      FramedConcat(s, x, m, k, y);
    }
  }

  lemma AtomFramed(s: string, x: nat, y: nat, n: Node, rank: nat)
    requires SpelledAtom(s, x, y, n) && Fits(n, rank)
    ensures Framed(s, x, y) && (!Banged(n) ==> s[x] != '!')
  {
    hide PlainWord, SpelledWords, SpelledList;
    if n.Simple? {
      WordsFramed(s, x, y, n.words);
      assert PlainWord(n.words[0]);
      WordNotEmpty(n.words[0]);
    }
  }

  lemma WordNotEmpty(w: string)
    requires PlainWord(w)
    ensures w != ""
  {
  }

  predicate AllFit(ns: seq<Node>, rank: nat) {
    ns != [] && forall k :: 0 <= k < |ns| ==> Fits(ns[k], rank)
  }

  lemma RestFits(ns: seq<Node>, rank: nat)
    requires AllFit(ns, rank)
    ensures Fits(ns[0], rank) && (|ns| > 1 ==> AllFit(ns[1..], rank))
    ensures |ns| == 1 ==> ns == [ns[0]]
    ensures ns == [ns[0]] + ns[1..]
  {
  }

  lemma OperatorAfter(s: string, m: nat, k: nat, op: string)
    requires OperatorIn(s, m, k, op)
    ensures m <= k <= |s|
  {
  }

  lemma {:induction false} StagesFramed(s: string, x: nat, y: nat, stages: seq<Node>)
    requires SpelledStages(s, x, y, stages) && AllFit(stages, 0)
    ensures Framed(s, x, y) && (!Banged(stages[0]) ==> s[x] != '!')
    decreases |stages|
  {
    hide Fits, Framed, SpelledAtom, OperatorIn, Banged;
    RestFits(stages, 0);
    if |stages| == 1 {
      AtomFramed(s, x, y, stages[0], 0);
    } else {
      var m, k := SplitStages(s, x, y, stages);
      AtomFramed(s, x, m, stages[0], 0);
      OperatorAfter(s, m, k, "|");
      StagesFramed(s, k, y, stages[1..]);
      FramedConcat(s, x, m, k, y);
    }
  }

  /** What a pipeline, or a command in its place, is made of. */
  lemma PipelineShape(n: Node)
    requires Fits(n, 1)
    ensures AllFit(StagesOf(n), 0) && !Banged(StagesOf(n)[0])
    ensures PipelineNode(StagesOf(n), n.Pipeline? && n.negate) == n
    ensures n.Pipeline? ==> SizeAll(StagesOf(n)) < Size(n)
  {
    hide PlainWord;
  }

  lemma BangsFramed(s: string, x: nat, p: nat, y: nat, negate: bool)
    requires Bangs(s, x, p, negate) && Framed(s, p, y)
    ensures Framed(s, x, y)
  {
    assert WordChar('!');
  }

  lemma PipelineFramed(s: string, x: nat, y: nat, n: Node)
    requires SpelledPipeline(s, x, y, n) && Fits(n, 1)
    ensures Framed(s, x, y)
  {
    hide Fits, Framed, SpelledStages, Bangs, StagesOf;
    PipelineShape(n);
    var p: nat :| Bangs(s, x, p, n.Pipeline? && n.negate) && SpelledStages(s, p, y, StagesOf(n));
    StagesFramed(s, p, y, StagesOf(n));
    BangsFramed(s, x, p, y, n.Pipeline? && n.negate);
  }

  lemma {:induction false} PartsFramed(s: string, x: nat, y: nat, parts: seq<Node>, operators: seq<AndOrOp>)
    requires SpelledParts(s, x, y, parts, operators) && AllFit(parts, 1)
    ensures Framed(s, x, y)
    decreases |parts|
  {
    hide Fits, Framed, SpelledPipeline, OperatorIn;
    RestFits(parts, 1);
    if |parts| == 1 {
      PipelineFramed(s, x, y, parts[0]);
    } else {
      var m, k := SplitParts(s, x, y, parts, operators);
      PipelineFramed(s, x, m, parts[0]);
      OperatorAfter(s, m, k, OperatorText(operators[0]));
      PartsFramed(s, k, y, parts[1..], operators[1..]);
      FramedConcat(s, x, m, k, y);
    }
  }

  lemma AndOrShape(n: Node)
    requires Fits(n, 2)
    ensures AllFit(PartsOf(n), 1) && |OperatorsOf(n)| == |PartsOf(n)| - 1
    ensures AndOrNode(PartsOf(n), OperatorsOf(n)) == n
    ensures n.AndOr? ==> SizeAll(PartsOf(n)) < Size(n)
  {
    hide PlainWord;
  }

  lemma AndOrFramed(s: string, x: nat, y: nat, n: Node)
    requires SpelledAndOr(s, x, y, n) && Fits(n, 2)
    ensures Framed(s, x, y)
  {
    hide Fits, Framed, SpelledParts;
    AndOrShape(n);
    PartsFramed(s, x, y, PartsOf(n), OperatorsOf(n));
  }

  lemma CoreShape(item: Node)
    requires Fits(item, 3)
    ensures Fits(Core(item), 2) && (item.Async? ==> Size(Core(item)) < Size(item))
    ensures (if item.Async? then Async(Core(item)) else Core(item)) == item
  {
    hide PlainWord;
  }

  lemma ListShape(n: Node)
    requires Fits(n, 4)
    ensures ItemsOf(n) == [] || AllFit(ItemsOf(n), 3)
    ensures ListNode(ItemsOf(n)) == n
    ensures n.Sequence? ==> SizeAll(ItemsOf(n)) < Size(n)
  {
    hide PlainWord;
  }

  // ---------- the scanners run over whole texts ----------

  /** No word goes on behind `y`. */
  predicate Ends(s: string, y: nat) {
    y <= |s| && (y == |s| || !WordChar(s[y]))
  }

  /** Nothing that can be cut at this level shows in a tree of this rank. */
  predicate Above(level: Level, rank: nat, depth: nat) {
    depth >= 1 || level == OfGroup || (level == OfList && rank <= 2) || (level == OfAndOr && rank <= 1)
    || rank == 0
  }

  /** The scan, and the check for reserved words, come from `x` to `y` without stopping. */
  ghost predicate Passes(level: Level, s: string, x: nat, y: nat, end: nat, depth: nat) {
    && x <= y <= end <= |s|
    && NextCut(level, s, x, end, depth) == NextCut(level, s, y, end, depth)
    && CoreText(s, x) == CoreText(s, y)
  }

  lemma {:induction false} PassFree(level: Level, s: string, x: nat, y: nat, end: nat, depth: nat)
    requires x <= y <= end <= |s|
    requires forall k :: x <= k < y ==> !WordChar(s[k]) && s[k] != '(' && s[k] != ')'
    requires forall k :: x <= k < y ==> Blank(s[k]) || Operator(s[k])
    requires forall k :: x <= k < y ==> depth > 0 || !IsCut(level, s, k, end)
    ensures Passes(level, s, x, y, end, depth)
    decreases y - x
  {
    hide IsCut, WordChar, Blank, Operator;
    if x < y {
      PassFree(level, s, x + 1, y, end, depth);
    }
  }

  lemma {:induction false} WordEndIs(s: string, x: nat, y: nat)
    requires x <= y && Ends(s, y) && forall k :: x <= k < y ==> WordChar(s[k])
    ensures WordEnd(s, x) == y
    decreases y - x
  {
    hide WordChar;
    if x < y {
      WordEndIs(s, x + 1, y);
    }
  }

  lemma {:induction false} CutPassesWord(level: Level, s: string, x: nat, y: nat, end: nat, depth: nat)
    requires x <= y <= end <= |s| && forall k :: x <= k < y ==> WordChar(s[k])
    ensures NextCut(level, s, x, end, depth) == NextCut(level, s, y, end, depth)
    decreases y - x
  {
    if x < y {
      CutPassesWord(level, s, x + 1, y, end, depth);
    }
  }

  lemma PassWord(level: Level, s: string, x: nat, y: nat, w: string, end: nat, depth: nat)
    requires PlainWord(w) && Reads(s, x, y, w) && Ends(s, y) && y <= end <= |s|
    ensures Passes(level, s, x, y, end, depth)
  {
    hide WordChar, NextCut, Framed;
    WordFramed(s, x, y, w);
    CutPassesWord(level, s, x, y, end, depth);
    WordEndIs(s, x, y);
    WordStarts(s, x, y);
  }

  lemma WordStarts(s: string, x: nat, y: nat)
    requires x < y <= |s| && Reads(s, x, y, s[x..y]) && WordChar(s[x]) && WordEnd(s, x) == y
    ensures CoreText(s, x) == (Unbanged(s[x..y]) !in RESERVED && CoreText(s, y))
  {
    hide WordEnd, WordChar;
  }

  lemma {:induction false} PassBlanks(level: Level, s: string, x: nat, y: nat, end: nat, depth: nat)
    requires Blanks(s, x, y) && y <= end <= |s|
    ensures Passes(level, s, x, y, end, depth)
  {
    PassFree(level, s, x, y, end, depth);
  }

  lemma BlankEnds(s: string, y: nat)
    requires y < |s| && (IsSpace(s[y]) || Operator(s[y]))
    ensures Ends(s, y)
  {
  }

  lemma BlanksEnd(s: string, y: nat, q: nat)
    requires Blanks(s, y, q) && Ends(s, q)
    ensures Ends(s, y)
  {
  }

  lemma PassOpen(level: Level, s: string, x: nat, end: nat, depth: nat)
    requires x < end <= |s| && s[x] == '('
    ensures NextCut(level, s, x, end, depth) == NextCut(level, s, x + 1, end, depth + 1)
    ensures CoreText(s, x) == CoreText(s, x + 1)
  {
  }

  lemma PassClose(level: Level, s: string, x: nat, end: nat, depth: nat)
    requires x < end <= |s| && s[x] == ')' && depth > 0
    ensures NextCut(level, s, x, end, depth) == NextCut(level, s, x + 1, end, depth - 1)
    ensures CoreText(s, x) == CoreText(s, x + 1)
  {
  }

  lemma {:induction false} PassWords(level: Level, s: string, x: nat, y: nat, words: seq<string>, end: nat, depth: nat)
    requires SpelledWords(s, x, y, words) && forall k :: 0 <= k < |words| ==> PlainWord(words[k])
    requires Ends(s, y) && y <= end <= |s|
    ensures Passes(level, s, x, y, end, depth)
    decreases |words|
  {
    hide PlainWord, NextCut, CoreText, WordChar, Reads, Ends;
    if |words| == 1 {
      PassWord(level, s, x, y, words[0], end, depth);
    } else {
      var m: nat, k: nat :|
        Reads(s, x, m, words[0]) && m < k && Blanks(s, m, k) && SpelledWords(s, k, y, words[1..]);
      WordsFramed(s, k, y, words[1..]);
      BlankEnds(s, m);
      PassWord(level, s, x, m, words[0], end, depth);
      PassBlanks(level, s, m, k, end, depth);
      PassWords(level, s, k, y, words[1..], end, depth);
    }
  }

  /** A `!` is passed, whether a word follows it at once or not. */
  lemma PassBang(level: Level, s: string, x: nat, end: nat, depth: nat)
    requires x < end <= |s| && s[x] == '!'
    ensures Passes(level, s, x, x + 1, end, depth)
  {
    var e := WordEnd(s, x);
    var w := s[x..e];
    assert w[0] == '!' && w[1..] == s[x + 1..e];
    if e == x + 1 {
      assert Unbanged(w) == "";
    } else {
      assert e == WordEnd(s, x + 1);
    }
  }

  lemma {:induction false} PassBangs(level: Level, s: string, x: nat, p: nat, negate: bool, end: nat, depth: nat)
    requires Bangs(s, x, p, negate) && p <= end <= |s|
    ensures Passes(level, s, x, p, end, depth)
    decreases p - x
  {
    hide NextCut, CoreText;
    if x < p {
      var b: nat :| BangAt(s, x, b) && b <= p && Bangs(s, b, p, !negate);
      PassBang(level, s, x, end, depth);
      PassBlanks(level, s, x + 1, b, end, depth);
      PassBangs(level, s, b, p, !negate, end, depth);
    }
  }

  /** The rank of the lists that an operator makes. */
  function RankOf(op: string): nat {
    if op == "|" then 1 else 2
  }

  lemma OperatorStops(s: string, m: nat, k: nat, op: string)
    requires OperatorIn(s, m, k, op) && op in ["|", "&&", "||"]
    ensures Ends(s, m) && m <= k
  {
    hide WordChar;
    var p: nat :| Blanks(s, m, p) && Reads(s, p, p + |op|, op) && Blanks(s, p + |op|, k);
    assert s[p..p + |op|][0] == s[p];
    BlankEnds(s, p);
    BlanksEnd(s, m, p);
  }

  /** An operator between two commands is passed by the scanners of looser levels. */
  lemma PassOperator(level: Level, s: string, m: nat, k: nat, op: string, end: nat, depth: nat)
    requires OperatorIn(s, m, k, op) && op in ["|", "&&", "||"] && Above(level, RankOf(op), depth)
    requires k < end <= |s| && Opening(s[k])
    ensures Passes(level, s, m, k, end, depth)
  {
    hide NextCut, CoreText, WordChar;
    var p: nat :| Blanks(s, m, p) && Reads(s, p, p + |op|, op) && Blanks(s, p + |op|, k);
    var q := p + |op|;
    PassBlanks(level, s, m, p, end, depth);
    OperatorPassed(level, s, p, op, end, depth);
    PassBlanks(level, s, q, k, end, depth);
  }

  lemma OperatorPassed(level: Level, s: string, p: nat, op: string, end: nat, depth: nat)
    requires op in ["|", "&&", "||"] && Above(level, RankOf(op), depth)
    requires Reads(s, p, p + |op|, op) && p + |op| < end <= |s|
    requires Blank(s[p + |op|]) || Opening(s[p + |op|])
    ensures Passes(level, s, p, p + |op|, end, depth)
  {
    hide NextCut, CoreText;
    assert s[p..p + |op|][0] == s[p];
    assert |op| == 2 ==> s[p..p + |op|][1] == s[p + 1];
    assert !WordChar(s[p]) && s[p] != '(' && s[p] != ')';
    PassFree(level, s, p, p + |op|, end, depth);
  }

  lemma {:induction false} PassAtom(level: Level, s: string, x: nat, y: nat, n: Node, rank: nat, end: nat, depth: nat)
    requires SpelledAtom(s, x, y, n) && Fits(n, rank) && Ends(s, y) && y <= end <= |s|
    ensures Passes(level, s, x, y, end, depth)
    decreases Size(n), 0
  {
    hide NextCut, CoreText, PlainWord, Ends, SpelledWords, SpelledList;
    if n.Simple? {
      PassWords(level, s, x, y, n.words, end, depth);
    } else {
      BlankEnds(s, y - 1);
      PassOpen(level, s, x, end, depth);
      PassList(level, s, x + 1, y - 1, n.body, end, depth + 1);
      PassClose(level, s, y - 1, end, depth + 1);
    }
  }

  lemma {:induction false} PassStages(level: Level, s: string, x: nat, y: nat, stages: seq<Node>, end: nat, depth: nat)
    requires SpelledStages(s, x, y, stages) && AllFit(stages, 0) && Ends(s, y) && y <= end <= |s|
    requires Above(level, if |stages| == 1 then 0 else 1, depth)
    ensures Passes(level, s, x, y, end, depth)
    decreases SizeAll(stages), 1
  {
    hide NextCut, CoreText, Ends, Fits, SpelledStages, SpelledAtom, OperatorIn, Size, SizeAll, AllFit;
    RestFits(stages, 0);
    SizeSplit(stages);
    OneStage(s, x, y, stages);
    if |stages| == 1 {
      PassAtom(level, s, x, y, stages[0], 0, end, depth);
    } else {
      var m, k := SplitStages(s, x, y, stages);
      OperatorStops(s, m, k, "|");
      StagesFramed(s, k, y, stages[1..]);
      PassAtom(level, s, x, m, stages[0], 0, end, depth);
      PassOperator(level, s, m, k, "|", end, depth);
      PassStages(level, s, k, y, stages[1..], end, depth);
    }
  }

  lemma {:induction false} PassPipeline(level: Level, s: string, x: nat, y: nat, n: Node, end: nat, depth: nat)
    requires SpelledPipeline(s, x, y, n) && Fits(n, 1) && Ends(s, y) && y <= end <= |s| && Above(level, 1, depth)
    ensures Passes(level, s, x, y, end, depth)
    decreases Size(n), 2
  {
    hide NextCut, CoreText, Ends, Fits, SpelledStages, Bangs, StagesOf, AllFit;
    PipelineShape(n);
    var p: nat :| Bangs(s, x, p, n.Pipeline? && n.negate) && SpelledStages(s, p, y, StagesOf(n));
    StagesFramed(s, p, y, StagesOf(n));
    PassBangs(level, s, x, p, n.Pipeline? && n.negate, end, depth);
    PassStages(level, s, p, y, StagesOf(n), end, depth);
  }

  lemma {:induction false} PassParts(level: Level, s: string, x: nat, y: nat, parts: seq<Node>, operators: seq<AndOrOp>,
                                     end: nat, depth: nat)
    requires SpelledParts(s, x, y, parts, operators) && AllFit(parts, 1) && Ends(s, y) && y <= end <= |s|
    requires Above(level, 2, depth)
    ensures Passes(level, s, x, y, end, depth)
    decreases SizeAll(parts), 3
  {
    hide NextCut, CoreText, Ends, Fits, SpelledParts, SpelledPipeline, OperatorIn, Size, SizeAll, AllFit;
    RestFits(parts, 1);
    SizeSplit(parts);
    OnePart(s, x, y, parts, operators);
    if |parts| == 1 {
      PassPipeline(level, s, x, y, parts[0], end, depth);
    } else {
      var m, k := SplitParts(s, x, y, parts, operators);
      var op := OperatorText(operators[0]);
      OperatorStops(s, m, k, op);
      PartsFramed(s, k, y, parts[1..], operators[1..]);
      PassPipeline(level, s, x, m, parts[0], end, depth);
      PassOperator(level, s, m, k, op, end, depth);
      PassParts(level, s, k, y, parts[1..], operators[1..], end, depth);
    }
  }

  /** The scanner of lists, and every looser one, comes through an and-or list without cutting it. */
  lemma {:induction false} PassAndOr(level: Level, s: string, x: nat, y: nat, n: Node, end: nat, depth: nat)
    requires SpelledAndOr(s, x, y, n) && Fits(n, 2) && Ends(s, y) && y <= end <= |s| && Above(level, 2, depth)
    ensures Passes(level, s, x, y, end, depth)
    decreases Size(n), 4
  {
    hide NextCut, CoreText, Ends, Fits, SpelledParts, PartsOf, OperatorsOf, AllFit;
    AndOrShape(n);
    PassParts(level, s, x, y, PartsOf(n), OperatorsOf(n), end, depth);
  }

  /** Blanks and separators are passed inside parentheses, and in the search for the closing one. */
  lemma PassGap(level: Level, s: string, x: nat, y: nat, end: nat, depth: nat)
    requires Gap(s, x, y) && y <= end <= |s| && Above(level, 4, depth)
    ensures Passes(level, s, x, y, end, depth)
  {
    PassFree(level, s, x, y, end, depth);
  }

  lemma PassSeparator(level: Level, s: string, k: nat, end: nat, depth: nat)
    requires k < end <= |s| && s[k] in {'&', ';'} && Above(level, 4, depth)
    ensures Passes(level, s, k, k + 1, end, depth)
  {
    PassFree(level, s, k, k + 1, end, depth);
  }

  lemma {:induction false} PassItem(level: Level, s: string, x: nat, k: nat, item: Node, end: nat, depth: nat)
    requires SpelledItem(s, x, k, item) && Fits(item, 3) && Ends(s, k) && k <= end <= |s| && Above(level, 4, depth)
    ensures Passes(level, s, x, k, end, depth)
    decreases Size(item), 5
  {
    hide NextCut, CoreText, Ends, Fits, SpelledAndOr, Framed, Gap, Core;
    CoreShape(item);
    var a: nat, m: nat :| Gap(s, x, a) && SpelledAndOr(s, a, m, Core(item)) && Blanks(s, m, k);
    AndOrFramed(s, a, m, Core(item));
    FramedBounds(s, a, m);
    BlanksEnd(s, m, k);
    PassGap(level, s, x, a, end, depth);
    PassAndOr(level, s, a, m, Core(item), end, depth);
    PassBlanks(level, s, m, k, end, depth);
  }

  lemma FramedBounds(s: string, x: nat, y: nat)
    requires Framed(s, x, y)
    ensures x < y <= |s|
  {
  }

  lemma {:induction false} PassItems(level: Level, s: string, x: nat, y: nat, items: seq<Node>, end: nat, depth: nat)
    requires SpelledItems(s, x, y, items) && (items == [] || AllFit(items, 3))
    requires Ends(s, y) && y <= end <= |s| && Above(level, 4, depth)
    ensures Passes(level, s, x, y, end, depth)
    decreases SizeAll(items), 6
  {
    hide NextCut, CoreText, Ends, Fits, SpelledItems, SpelledItem, Gap, Size, SizeAll, AllFit;
    if items == [] {
      NoItemsSpelled(s, x, y);
      PassGap(level, s, x, y, end, depth);
    } else {
      RestFits(items, 3);
      SizeSplit(items);
      var k := SplitItems(s, x, y, items);
      if k < y {
        BlankEnds(s, k);
        PassItem(level, s, x, k, items[0], end, depth);
        PassSeparator(level, s, k, end, depth);
        PassItems(level, s, k + 1, y, items[1..], end, depth);
      } else {
        PassItem(level, s, x, k, items[0], end, depth);
      }
    }
  }

  lemma {:induction false} PassList(level: Level, s: string, x: nat, y: nat, n: Node, end: nat, depth: nat)
    requires SpelledList(s, x, y, n) && Fits(n, 4) && Ends(s, y) && y <= end <= |s| && Above(level, 4, depth)
    ensures Passes(level, s, x, y, end, depth)
    decreases Size(n), 7
  {
    hide NextCut, CoreText, Ends, Fits, SpelledItems, ItemsOf, AllFit;
    ListShape(n);
    PassItems(level, s, x, y, ItemsOf(n), end, depth);
  }

  // ---------- the parts the scanners cut out ----------

  lemma {:induction false} TrimStartIs(s: string, i: nat, x: nat, end: nat)
    requires Blanks(s, i, x) && x <= end <= |s| && (x == end || !IsSpace(s[x]))
    ensures TrimStart(s, i, end) == x
    decreases x - i
  {
    if i < x {
      TrimStartIs(s, i + 1, x, end);
    }
  }

  lemma {:induction false} TrimEndIs(s: string, i: nat, y: nat, end: nat)
    requires Blanks(s, y, end) && i <= y && (i == y || !IsSpace(s[y - 1]))
    ensures TrimEnd(s, i, end) == y
    decreases end - y
  {
    if y < end {
      TrimEndIs(s, i, y, end - 1);
    }
  }

  lemma FramedAt(s: string, x: nat, y: nat)
    requires Framed(s, x, y)
    ensures x < y <= |s| && !IsSpace(s[x]) && !IsSpace(s[y - 1])
    ensures s[x] !in {'&', '|', ';', ')'} && s[y - 1] !in {'&', '|', ';', '(', '<', '>'}
  {
  }

  lemma {:induction false} BlankFromIs(s: string, i: nat, e: nat)
    requires i <= e <= |s| && (e == |s| || IsSpace(s[e])) && forall k :: i <= k < e ==> !IsSpace(s[k])
    ensures BlankFrom(s, i) == e
    decreases e - i
  {
    if i < e {
      BlankFromIs(s, i + 1, e);
    }
  }

  /** The words of a text that goes on to `y`, from `x` in it. */
  lemma {:induction false} WordsRead(s: string, a: nat, x: nat, y: nat, words: seq<string>)
    requires SpelledWords(s, x, y, words) && forall k :: 0 <= k < |words| ==> PlainWord(words[k])
    requires a <= x <= y <= |s|
    ensures Words(s[a..y], x - a) == words
    decreases |words|
  {
    hide PlainWord, Words, WordChar;
    if |words| == 1 {
      FirstWord(s, a, x, y, y, words[0]);
      NoWords(s[a..y]);
      assert words == [words[0]];
    } else {
      var m: nat, k: nat :|
        Reads(s, x, m, words[0]) && m < k && Blanks(s, m, k) && SpelledWords(s, k, y, words[1..]);
      WordsFramed(s, k, y, words[1..]);
      FramedAt(s, k, y);
      FirstWord(s, a, x, m, y, words[0]);
      BlanksSkipped(s, a, m, k, y);
      WordsRead(s, a, k, y, words[1..]);
      assert [words[0]] + words[1..] == words;
    }
  }

  lemma NoWords(t: string)
    ensures Words(t, |t|) == []
  {
  }

  lemma FirstWord(s: string, a: nat, x: nat, m: nat, y: nat, w: string)
    requires PlainWord(w) && Reads(s, x, m, w) && a <= x <= m <= y <= |s| && (m == y || Blank(s[m]))
    ensures Words(s[a..y], x - a) == [w] + Words(s[a..y], m - a)
  {
    var t := s[a..y];
    WordFramed(s, x, m, w);
    forall k | x - a <= k < m - a ensures !IsSpace(t[k]) {
      assert t[k] == s[a + k];
    }
    assert m < y ==> t[m - a] == s[m];
    BlankFromIs(t, x - a, m - a);
    SliceOfSlice(s, a, x, m, y);
    assert !IsSpace(t[x - a]);
  }

  lemma SliceOfSlice(s: string, a: nat, x: nat, m: nat, y: nat)
    requires a <= x <= m <= y <= |s|
    ensures s[a..y][x - a..m - a] == s[x..m]
  {
    var t := s[a..y];
    assert |t[x - a..m - a]| == |s[x..m]|;
    assert forall j :: 0 <= j < m - x ==> t[x - a..m - a][j] == t[x - a + j] == s[x + j] == s[x..m][j];
  }

  lemma BlanksSkipped(s: string, a: nat, m: nat, k: nat, y: nat)
    requires a <= m <= k <= y <= |s| && Blanks(s, m, k)
    ensures Words(s[a..y], m - a) == Words(s[a..y], k - a)
  {
    hide Words;
    var t := s[a..y];
    forall j | m - a <= j < k - a ensures Blank(t[j]) {
      assert t[j] == s[a + j];
    }
    SpacesSkipped(t, m - a, k - a);
  }

  lemma {:induction false} SpacesSkipped(t: string, i: nat, j: nat)
    requires Blanks(t, i, j)
    ensures Words(t, i) == Words(t, j)
    decreases j - i
  {
    if i < j {
      SpacesSkipped(t, i + 1, j);
    }
  }

  lemma NoParentheses(s: string)
    requires forall k :: 0 <= k < |s| ==> s[k] != '('
    ensures !FunctionHead(s) && GroupClose(s) == None
  {
  }

  lemma {:induction false} WordsHaveNoParentheses(s: string, x: nat, y: nat, words: seq<string>)
    requires SpelledWords(s, x, y, words) && forall k :: 0 <= k < |words| ==> PlainWord(words[k])
    requires x <= y <= |s|
    ensures forall k :: x <= k < y ==> s[k] != '('
    decreases |words|
  {
    hide PlainWord, Reads, Framed;
    if |words| == 1 {
      WordFramed(s, x, y, words[0]);
    } else {
      var m: nat, k: nat :|
        Reads(s, x, m, words[0]) && m < k && Blanks(s, m, k) && SpelledWords(s, k, y, words[1..]);
      WordFramed(s, x, m, words[0]);
      WordsFramed(s, k, y, words[1..]);
      FramedAt(s, k, y);
      WordsHaveNoParentheses(s, k, y, words[1..]);
    }
  }

  lemma SimpleRead(s: string, x: nat, y: nat, words: seq<string>)
    requires SpelledWords(s, x, y, words) && (forall k :: 0 <= k < |words| ==> PlainWord(words[k])) && x <= y <= |s|
    ensures !FunctionHead(s[x..y]) && GroupClose(s[x..y]) == None && Words(s[x..y], 0) == words
  {
    hide FunctionHead, GroupClose, Words, PlainWord, SpelledWords;
    WordsHaveNoParentheses(s, x, y, words);
    NoParentheses(s[x..y]);
    WordsRead(s, x, x, y, words);
  }

  /** The search for the closing parenthesis sees nothing outside its range. */
  lemma {:induction false} CutInSlice(s: string, a: nat, t: string, i: nat, depth: nat)
    requires a + |t| <= |s| && i <= |t| && forall j :: 0 <= j < |t| ==> t[j] == s[a + j]
    ensures a + NextCut(OfGroup, t, i, |t|, depth) == NextCut(OfGroup, s, a + i, a + |t|, depth)
    decreases |t| - i
  {
    if i < |t| {
      assert t[i] == s[a + i];
      if t[i] == '(' {
        CutInSlice(s, a, t, i + 1, depth + 1);
      } else if t[i] == ')' && depth > 0 {
        CutInSlice(s, a, t, i + 1, depth - 1);
      } else if !(depth == 0 && t[i] == ')') {
        CutInSlice(s, a, t, i + 1, depth);
      }
    }
  }

  lemma GroupRead(s: string, x: nat, y: nat, n: Node)
    requires n.Subshell? && SpelledAtom(s, x, y, n) && Fits(n.body, 4)
    ensures x + 2 <= y <= |s| && !FunctionHead(s[x..y]) && GroupClose(s[x..y]) == Some((y - x - 1) as nat)
  {
    hide Fits, CoreText, NextCut, SpelledList;
    BlankEnds(s, y - 1);
    PassList(OfGroup, s, x + 1, y - 1, n.body, y, 0);
    GroupCut(s, y - 1, y);
    CutInSlice(s, x, s[x..y], 1, 0);
    assert s[x..y][0] == '(';
  }

  lemma GroupCut(s: string, i: nat, end: nat)
    requires i < end <= |s| && s[i] == ')'
    ensures NextCut(OfGroup, s, i, end, 0) == i
  {
  }

  // ---------- the parser reads back what a text spells ----------

  lemma {:induction false} AtomRead(s: string, start: nat, x: nat, y: nat, end: nat, n: Node)
    requires SpelledAtom(s, x, y, n) && Fits(n, 0) && Blanks(s, start, x) && x <= y && Blanks(s, y, end)
    ensures ParseAtom(s, start, end) == Parsed(n)
    decreases Size(n), 0
  {
    hide FunctionHead, GroupClose, Words, ParseList, PlainWord, TrimStart, TrimEnd, Framed, Ends, SpelledWords,
      SpelledList;
    AtomFramed(s, x, y, n, 0);
    FramedAt(s, x, y);
    TrimStartIs(s, start, x, end);
    TrimEndIs(s, x, y, end);
    if n.Simple? {
      SimpleRead(s, x, y, n.words);
    } else {
      GroupRead(s, x, y, n);
      BlankEnds(s, y - 1);
      ListRead(s, x + 1, y - 1, n.body);
    }
  }

  /** One turn of each scanner, once it is known where the part ends and what it is. */
  lemma StagesTurn(s: string, start: nat, q: nat, b: nat, end: nat, n: Node)
    requires start <= end <= |s| && NextCut(OfPipeline, s, start, end, 0) == q
    requires TrimStart(s, start, q) == b < q && ParseAtom(s, b, q) == Parsed(n)
    ensures q == end ==> Stages(s, start, end) == Parsed([n])
    ensures q < end ==> Stages(s, start, end) == ThenAppend([n], Stages(s, q + 1, end))
  {
    hide NextCut, TrimStart, ParseAtom;
  }

  lemma PartsTurn(s: string, start: nat, q: nat, b: nat, end: nat, n: Node, rest: seq<Node>, operators: seq<AndOrOp>)
    requires start <= end <= |s| && NextCut(OfAndOr, s, start, end, 0) == q
    requires TrimStart(s, start, q) == b < q && ParsePipeline(s, b, q) == Parsed(n)
    requires q < end ==> q + 2 <= end && Parts(s, q + 2, end) == Parsed((rest, operators))
    ensures q == end ==> Parts(s, start, end) == Parsed(([n], []))
    ensures q < end ==> Parts(s, start, end) == Parsed(([n] + rest, [if s[q] == '&' then OpAnd else OpOr] + operators))
  {
    hide NextCut, TrimStart, ParsePipeline;
  }

  lemma ItemsTurn(s: string, start: nat, q: nat, b: nat, end: nat, n: Node)
    requires start <= end <= |s| && NextCut(OfList, s, start, end, 0) == q
    requires TrimStart(s, start, q) == b < q && ParseAndOr(s, b, q) == Parsed(n)
    ensures q == end ==> Items(s, start, end) == Parsed([n])
    ensures q < end ==>
              Items(s, start, end) == ThenAppend([if s[q] == '&' then Async(n) else n], Items(s, q + 1, end))
  {
    hide NextCut, TrimStart, ParseAndOr;
  }

  /** A command at this level is what its scanner cuts out, up to the next cut or the end of the range. */
  predicate CutsAt(level: Level, s: string, q: nat, end: nat) {
    q <= end <= |s| && Ends(s, q) && (q == end || (IsCut(level, s, q, end) && s[q] != '(' && s[q] != ')'))
  }

  lemma PartCut(level: Level, s: string, start: nat, x: nat, y: nat, q: nat, end: nat)
    requires Blanks(s, start, x) && Framed(s, x, y) && Blanks(s, y, q) && CutsAt(level, s, q, end)
    requires Passes(level, s, x, y, end, 0)
    ensures NextCut(level, s, start, end, 0) == q && TrimStart(s, start, q) == x < q
  {
    hide CoreText, IsCut, Framed, Ends;
    FramedAt(s, x, y);
    PassBlanks(level, s, start, x, end, 0);
    PassBlanks(level, s, y, q, end, 0);
    TrimStartIs(s, start, x, q);
  }

  /** Where the operator stands, between what can be around it, its scanner cuts. */
  lemma OperatorCuts(s: string, x: nat, m: nat, k: nat, y: nat, op: string, end: nat) returns (p: nat)
    requires OperatorIn(s, m, k, op) && op in ["|", "&&", "||"]
    requires Framed(s, x, m) && Framed(s, k, y) && y <= end <= |s|
    ensures Blanks(s, m, p) && Blanks(s, p + |op|, k) && p + |op| <= end
    ensures p < end && CutsAt(if op == "|" then OfPipeline else OfAndOr, s, p, end) && s[p] == op[0]
    ensures Ends(s, p)
  {
    hide WordChar;
    p :| Blanks(s, m, p) && Reads(s, p, p + |op|, op) && Blanks(s, p + |op|, k);
    assert s[p..p + |op|][0] == s[p];
    assert |op| == 2 ==> s[p..p + |op|][1] == s[p + 1];
    FramedAt(s, x, m);
    FramedAt(s, k, y);
    BlankEnds(s, p);
    if op == "|" {
      BarCuts(s, p, end);
    }
  }

  lemma BarCuts(s: string, i: nat, end: nat)
    requires 0 < i && i + 1 < end <= |s| && s[i] == '|' && s[i - 1] !in {'|', '>'} && s[i + 1] != '|'
    ensures IsCut(OfPipeline, s, i, end)
  {
  }

  lemma {:induction false} StagesRead(s: string, start: nat, x: nat, y: nat, end: nat, stages: seq<Node>)
    requires SpelledStages(s, x, y, stages) && AllFit(stages, 0)
    requires Blanks(s, start, x) && x <= y && Blanks(s, y, end) && Ends(s, end)
    ensures Stages(s, start, end) == Parsed(stages)
    decreases SizeAll(stages), 1
  {
    hide Fits, NextCut, TrimStart, ParseAtom, Ends, Size, SizeAll, Stages, IsCut, SpelledStages, SpelledAtom, Framed,
      OperatorIn, AllFit, CoreText, CutsAt;
    RestFits(stages, 0);
    SizeSplit(stages);
    OneStage(s, x, y, stages);
    if |stages| == 1 {
      var n := stages[0];
      AtomFramed(s, x, y, n, 0);
      BlanksEnd(s, y, end);
      PassAtom(OfPipeline, s, x, y, n, 0, end, 0);
      EndCuts(OfPipeline, s, end);
      PartCut(OfPipeline, s, start, x, y, end, end);
      AtomRead(s, x, x, y, end, n);
      StagesTurn(s, start, end, x, end, n);
    } else {
      var m, k := SplitStages(s, x, y, stages);
      var n, rest := stages[0], stages[1..];
      AtomFramed(s, x, m, n, 0);
      StagesFramed(s, k, y, rest);
      FramedAt(s, x, m);
      FramedAt(s, k, y);
      var p := OperatorCuts(s, x, m, k, y, "|", end);
      OperatorStops(s, m, k, "|");
      PassAtom(OfPipeline, s, x, m, n, 0, end, 0);
      PartCut(OfPipeline, s, start, x, m, p, end);
      AtomRead(s, x, x, m, p, n);
      StagesTurn(s, start, p, x, end, n);
      StagesRead(s, p + 1, k, y, end, rest);
    }
  }

  lemma EndCuts(level: Level, s: string, end: nat)
    requires Ends(s, end)
    ensures CutsAt(level, s, end, end)
  {
  }

  lemma BangRead(s: string, x: nat, b: nat, end: nat, sofar: bool)
    requires BangAt(s, x, b) && b < end <= |s| && !IsSpace(s[b])
    ensures SkipBangs(s, x, end, sofar) == SkipBangs(s, b, end, !sofar)
  {
    TrimStartIs(s, x, x, end);
    TrimStartIs(s, x + 1, b, end);
    TrimStartIs(s, b, b, end);
    hide TrimStart;
  }

  lemma NoBangRead(s: string, p: nat, end: nat, sofar: bool)
    requires p < end <= |s| && s[p] != '!' && !IsSpace(s[p])
    ensures SkipBangs(s, p, end, sofar) == (p, sofar)
  {
  }

  lemma BangsBegin(s: string, x: nat, p: nat, negate: bool)
    requires Bangs(s, x, p, negate) && x < p
    ensures x < |s| && s[x] == '!'
  {
    hide Blanks;
  }

  lemma {:induction false} BangsRead(s: string, x: nat, p: nat, end: nat, negate: bool, sofar: bool)
    requires Bangs(s, x, p, negate) && p < end <= |s| && s[p] != '!' && !IsSpace(s[p])
    ensures SkipBangs(s, x, end, sofar) == (p, negate != sofar)
    decreases p - x
  {
    hide SkipBangs, IsSpace, Blanks;
    if x == p {
      NoBangRead(s, p, end, sofar);
    } else {
      var b: nat :| BangAt(s, x, b) && b <= p && Bangs(s, b, p, !negate);
      if b < p {
        BangsBegin(s, b, p, !negate);
        BangIsNoSpace();
      }
      BangRead(s, x, b, end, sofar);
      BangsRead(s, b, p, end, !negate, !sofar);
    }
  }

  lemma BangIsNoSpace()
    ensures !IsSpace('!')
  {
  }

  /** A pipeline with its negations, from its first character. */
  lemma {:induction false} PipelineRead(s: string, x: nat, y: nat, end: nat, n: Node)
    requires SpelledPipeline(s, x, y, n) && Fits(n, 1) && x <= y && Blanks(s, y, end) && Ends(s, end)
    ensures ParsePipeline(s, x, end) == Parsed(n)
    decreases Size(n), 2
  {
    hide Fits, Stages, Ends, SkipBangs, StagesOf, Size, SizeAll, SpelledStages, Bangs, AllFit, PipelineNode, Framed,
      Banged;
    var negate := n.Pipeline? && n.negate;
    PipelineShape(n);
    var p: nat :| Bangs(s, x, p, negate) && SpelledStages(s, p, y, StagesOf(n));
    StagesFramed(s, p, y, StagesOf(n));
    FramedAt(s, p, y);
    BangsRead(s, x, p, end, negate, false);
    StagesSmaller(n);
    StagesRead(s, p, p, y, end, StagesOf(n));
  }

  lemma StagesSmaller(n: Node)
    ensures SizeAll(StagesOf(n)) <= Size(n) && SizeAll(PartsOf(n)) <= Size(n) && SizeAll(ItemsOf(n)) <= Size(n)
  {
  }

  lemma {:induction false} PartsRead(s: string, start: nat, x: nat, y: nat, end: nat, parts: seq<Node>,
                                     operators: seq<AndOrOp>)
    requires SpelledParts(s, x, y, parts, operators) && AllFit(parts, 1)
    requires Blanks(s, start, x) && x <= y && Blanks(s, y, end) && Ends(s, end)
    ensures Parts(s, start, end) == Parsed((parts, operators))
    decreases SizeAll(parts), 3
  {
    hide Fits, NextCut, TrimStart, ParsePipeline, Ends, Size, SizeAll, Parts, IsCut, SpelledParts, SpelledPipeline,
      Framed, OperatorIn, AllFit, CoreText, CutsAt;
    RestFits(parts, 1);
    SizeSplit(parts);
    OnePart(s, x, y, parts, operators);
    if |parts| == 1 {
      var n := parts[0];
      PipelineFramed(s, x, y, n);
      BlanksEnd(s, y, end);
      PassPipeline(OfAndOr, s, x, y, n, end, 0);
      EndCuts(OfAndOr, s, end);
      PartCut(OfAndOr, s, start, x, y, end, end);
      PipelineRead(s, x, y, end, n);
      PartsTurn(s, start, end, x, end, n, [], []);
    } else {
      var m, k := SplitParts(s, x, y, parts, operators);
      var n, rest, op := parts[0], parts[1..], OperatorText(operators[0]);
      PipelineFramed(s, x, m, n);
      PartsFramed(s, k, y, rest, operators[1..]);
      FramedAt(s, x, m);
      FramedAt(s, k, y);
      var p := OperatorCuts(s, x, m, k, y, op, end);
      OperatorStops(s, m, k, op);
      PassPipeline(OfAndOr, s, x, m, n, end, 0);
      PartCut(OfAndOr, s, start, x, m, p, end);
      PipelineRead(s, x, m, p, n);
      PartsRead(s, p + 2, k, y, end, rest, operators[1..]);
      PartsTurn(s, start, p, x, end, n, rest, operators[1..]);
      assert [operators[0]] + operators[1..] == operators;
    }
  }

  /** An and-or list, from its first character. */
  lemma {:induction false} AndOrRead(s: string, x: nat, y: nat, end: nat, n: Node)
    requires SpelledAndOr(s, x, y, n) && Fits(n, 2) && x <= y && Blanks(s, y, end) && Ends(s, end)
    ensures ParseAndOr(s, x, end) == Parsed(n)
    decreases Size(n), 4
  {
    hide Fits, Parts, Ends, PartsOf, OperatorsOf, Size, SizeAll, SpelledParts, AllFit, AndOrNode;
    AndOrShape(n);
    StagesSmaller(n);
    PartsRead(s, x, x, y, end, PartsOf(n), OperatorsOf(n));
  }

  /** Blanks and semicolons in front of an item make no difference. */
  lemma {:induction false} GapSkipped(s: string, x: nat, a: nat, end: nat)
    requires Gap(s, x, a) && a <= end <= |s|
    ensures Items(s, x, end) == Items(s, a, end)
    decreases a - x
  {
    hide Items, NextCut, ParseAndOr;
    if x < a {
      if s[x] == ';' {
        SemicolonSkipped(s, x, end);
      } else {
        BlankSkipped(s, x, end);
      }
      GapSkipped(s, x + 1, a, end);
    }
  }

  lemma SemicolonSkipped(s: string, x: nat, end: nat)
    requires x < end <= |s| && s[x] == ';'
    ensures Items(s, x, end) == Items(s, x + 1, end)
  {
    hide ParseAndOr;
    assert NextCut(OfList, s, x, end, 0) == x;
    assert TrimStart(s, x, x) == x;
    hide NextCut, TrimStart;
  }

  lemma BlankSkipped(s: string, x: nat, end: nat)
    requires x < end <= |s| && Blank(s[x])
    ensures Items(s, x, end) == Items(s, x + 1, end)
  {
    hide ParseAndOr;
    var p := NextCut(OfList, s, x + 1, end, 0);
    assert NextCut(OfList, s, x, end, 0) == p;
    assert TrimStart(s, x, p) == TrimStart(s, x + 1, p);
    hide NextCut, TrimStart;
  }

  lemma NothingLeft(s: string, end: nat)
    requires end <= |s|
    ensures Items(s, end, end) == Parsed([])
  {
  }

  /** No item begins with `&`. */
  lemma ItemsBegin(s: string, x: nat, y: nat, items: seq<Node>)
    requires SpelledItems(s, x, y, items) && (items == [] || AllFit(items, 3)) && x < y <= |s|
    ensures s[x] != '&'
  {
    hide Fits, SpelledItems, SpelledAndOr, Framed, AllFit, Core;
    if items == [] {
      NoItemsSpelled(s, x, y);
    } else {
      RestFits(items, 3);
      var k := SplitItems(s, x, y, items);
      CoreShape(items[0]);
      var a: nat, m: nat :| Gap(s, x, a) && SpelledAndOr(s, a, m, Core(items[0])) && Blanks(s, m, k);
      AndOrFramed(s, a, m, Core(items[0]));
      FramedAt(s, a, m);
    }
  }

  lemma ItemCuts(s: string, m: nat, k: nat, y: nat)
    requires k <= y <= |s| && Ends(s, y) && 0 < m <= k && Blanks(s, m, k) && s[m - 1] !in {'&', '<', '>'}
    requires k < y ==> s[k] == ';' || (s[k] == '&' && At(s, k + 1) != '&')
    ensures CutsAt(OfList, s, k, y)
  {
    if k < y {
      BlankEnds(s, k);
      assert s[k - 1] !in {'&', '<', '>'};
    }
  }

  lemma {:induction false} ItemsRead(s: string, x: nat, y: nat, items: seq<Node>)
    requires SpelledItems(s, x, y, items) && (items == [] || AllFit(items, 3))
    requires x <= y && Ends(s, y) && At(s, y) != '&'
    ensures Items(s, x, y) == Parsed(items)
    decreases SizeAll(items), 6
  {
    hide Fits, NextCut, TrimStart, ParseAndOr, Ends, Size, SizeAll, Items, IsCut, SpelledItems, SpelledAndOr, Framed,
      Gap, AllFit, CoreText, CutsAt, Core;
    if items == [] {
      NoItemsSpelled(s, x, y);
      GapEnds(s, x, y);
      GapSkipped(s, x, y, y);
      NothingLeft(s, y);
    } else {
      RestFits(items, 3);
      SizeSplit(items);
      var k := SplitItems(s, x, y, items);
      var item, n := items[0], Core(items[0]);
      CoreShape(item);
      var a: nat, m: nat :| Gap(s, x, a) && SpelledAndOr(s, a, m, n) && Blanks(s, m, k);
      AndOrFramed(s, a, m, n);
      FramedAt(s, a, m);
      if k < y {
        if k + 1 < y {
          ItemsBegin(s, k + 1, y, items[1..]);
        }
        ItemsRead(s, k + 1, y, items[1..]);
      }
      ItemCuts(s, m, k, y);
      BlanksEnd(s, m, k);
      GapSkipped(s, x, a, y);
      PassAndOr(OfList, s, a, m, n, y, 0);
      PartCut(OfList, s, a, a, m, k, y);
      AndOrRead(s, a, m, k, n);
      ItemsTurn(s, a, k, a, y, n);
    }
  }

  lemma GapEnds(s: string, x: nat, y: nat)
    requires Gap(s, x, y)
    ensures y <= |s|
  {
  }

  lemma {:induction false} ListRead(s: string, x: nat, y: nat, n: Node)
    requires SpelledList(s, x, y, n) && Fits(n, 4) && x <= y && Ends(s, y) && At(s, y) != '&'
    ensures ParseList(s, x, y) == Parsed(n)
    decreases Size(n), 7
  {
    hide Fits, Items, Ends, ItemsOf, Size, SizeAll, SpelledItems, AllFit, ListNode;
    ListShape(n);
    StagesSmaller(n);
    ItemsRead(s, x, y, ItemsOf(n));
  }

  /** Every tree of the core language is read back from every text that spells it. */
  lemma ParseUndoesSpelling(s: string, n: Node)
    requires Fits(n, 4) && SpelledList(s, 0, |s|, n)
    ensures ParseProgram(s) == Parsed(n)
  {
    hide Fits, ParseList, CoreText, NextCut, SpelledList;
    PassList(OfGroup, s, 0, |s|, n, |s|, 0);
    EmptyIsCore(s);
    ListRead(s, 0, |s|, n);
  }

  lemma EmptyIsCore(s: string)
    ensures CoreText(s, |s|)
  {
  }

  /** So no text spells two trees. */
  lemma SpellingUnique(s: string, n: Node, m: Node)
    requires Fits(n, 4) && Fits(m, 4) && SpelledList(s, 0, |s|, n) && SpelledList(s, 0, |s|, m)
    ensures n == m
  {
    ParseUndoesSpelling(s, n);
    ParseUndoesSpelling(s, m);
  }

  // ---------- every tree has a text ----------

  function Join(words: seq<string>): string {
    if words == [] then ""
    else if |words| == 1 then words[0]
    else words[0] + (" " + Join(words[1..]))
  }

  /** The shortest text of a tree. */
  function Print(n: Node): string
    decreases Size(n), 0
  {
    match n
    case Empty => ""
    case Simple(words) => Join(words)
    case Subshell(body) => "(" + (Print(body) + ")")
    case Pipeline(stages, negate) => (if negate then "!" else "") + PrintStages(stages)
    case AndOr(parts, operators) => PrintParts(parts, operators)
    case Async(child) => Print(child) + "&"
    case Sequence(items) => PrintItems(items)
  }

  function PrintStages(stages: seq<Node>): string
    decreases SizeAll(stages), 1
  {
    if stages == [] then ""
    else if |stages| == 1 then Print(stages[0])
    else Print(stages[0]) + ("|" + PrintStages(stages[1..]))
  }

  function PrintParts(parts: seq<Node>, operators: seq<AndOrOp>): string
    decreases SizeAll(parts), 1
  {
    if parts == [] then ""
    else if |parts| == 1 || operators == [] then Print(parts[0])
    else Print(parts[0]) + (OperatorText(operators[0]) + PrintParts(parts[1..], operators[1..]))
  }

  function PrintItems(items: seq<Node>): string
    decreases SizeAll(items), 1
  {
    if items == [] then ""
    else if |items| == 1 then Print(items[0])
    else Print(items[0]) + ((if items[0].Async? then "" else ";") + PrintItems(items[1..]))
  }

  predicate Has(s: string, x: nat, t: string) {
    Reads(s, x, x + |t|, t)
  }

  lemma HasConcat(s: string, x: nat, a: string, b: string)
    requires Has(s, x, a + b)
    ensures Has(s, x, a) && Has(s, x + |a|, b)
  {
    assert s[x..x + |a|] == (a + b)[..|a|];
    assert s[x + |a|..x + |a| + |b|] == (a + b)[|a|..];
  }

  lemma HasChar(s: string, x: nat, t: string)
    requires Has(s, x, t) && |t| == 1
    ensures x < |s| && s[x] == t[0]
  {
    assert s[x..x + 1][0] == s[x];
  }

  lemma Stays(s: string, x: nat)
    requires x <= |s|
    ensures Blanks(s, x, x) && Gap(s, x, x)
  {
  }

  lemma OperatorPrinted(s: string, p: nat, op: string)
    requires Has(s, p, op)
    ensures OperatorIn(s, p, p + |op|, op)
  {
    Stays(s, p);
    Stays(s, p + |op|);
  }

  lemma {:induction false} WordsPrinted(s: string, x: nat, words: seq<string>)
    requires words != [] && Has(s, x, Join(words))
    ensures SpelledWords(s, x, x + |Join(words)|, words)
    decreases |words|
  {
    if |words| > 1 {
      var rest := Join(words[1..]);
      var m := x + |words[0]|;
      HasConcat(s, x, words[0], " " + rest);
      HasConcat(s, m, " ", rest);
      HasChar(s, m, " ");
      WordsPrinted(s, m + 1, words[1..]);
      assert Blanks(s, m, m + 1) && Reads(s, x, m, words[0]);
    }
  }

  lemma {:induction false} AtomPrinted(s: string, x: nat, n: Node, rank: nat)
    requires Fits(n, rank) && (n.Simple? || n.Subshell?) && Has(s, x, Print(n))
    ensures SpelledAtom(s, x, x + |Print(n)|, n)
    decreases Size(n), 0
  {
    hide Has, PlainWord, SpelledWords, SpelledList;
    if n.Simple? {
      WordsPrinted(s, x, n.words);
    } else {
      var y := x + |Print(n)|;
      HasConcat(s, x, "(", Print(n.body) + ")");
      HasConcat(s, x + 1, Print(n.body), ")");
      HasChar(s, x, "(");
      HasChar(s, y - 1, ")");
      ListPrinted(s, x + 1, n.body);
    }
  }

  lemma {:induction false} StagesPrinted(s: string, x: nat, stages: seq<Node>)
    requires AllFit(stages, 0) && Has(s, x, PrintStages(stages))
    ensures SpelledStages(s, x, x + |PrintStages(stages)|, stages)
    decreases SizeAll(stages), 1
  {
    hide Fits, Has, SpelledAtom, Size, SizeAll, OperatorIn, Print, AllFit;
    RestFits(stages, 0);
    SizeSplit(stages);
    AtomRank(stages[0]);
    if |stages| == 1 {
      AtomPrinted(s, x, stages[0], 0);
    } else {
      var m := x + |Print(stages[0])|;
      HasConcat(s, x, Print(stages[0]), "|" + PrintStages(stages[1..]));
      HasConcat(s, m, "|", PrintStages(stages[1..]));
      AtomPrinted(s, x, stages[0], 0);
      OperatorPrinted(s, m, "|");
      StagesPrinted(s, m + 1, stages[1..]);
    }
  }

  lemma AtomRank(n: Node)
    requires Fits(n, 0)
    ensures n.Simple? || n.Subshell?
  {
  }

  lemma BangPrinted(s: string, x: nat, negate: bool)
    requires Has(s, x, if negate then "!" else "")
    ensures Bangs(s, x, if negate then x + 1 else x, negate)
  {
    if negate {
      HasChar(s, x, "!");
      assert BangAt(s, x, x + 1);
      assert Bangs(s, x + 1, x + 1, false);
    }
  }

  lemma JoinPipeline(s: string, x: nat, p: nat, y: nat, n: Node)
    requires Bangs(s, x, p, n.Pipeline? && n.negate) && SpelledStages(s, p, y, StagesOf(n))
    ensures SpelledPipeline(s, x, y, n)
  {
    hide Bangs, SpelledStages, StagesOf;
  }

  lemma {:induction false} PipelinePrinted(s: string, x: nat, n: Node)
    requires Fits(n, 1) && Has(s, x, Print(n))
    ensures SpelledPipeline(s, x, x + |Print(n)|, n)
    decreases Size(n), 2
  {
    hide *;
    var negate := n.Pipeline? && n.negate;
    var bang := if negate then "!" else "";
    PrintedPipeline(n);
    PipelineShape(n);
    StagesSmaller(n);
    HasConcat(s, x, bang, PrintStages(StagesOf(n)));
    BangPrinted(s, x, negate);
    StagesPrinted(s, x + |bang|, StagesOf(n));
    JoinPipeline(s, x, x + |bang|, x + |Print(n)|, n);
  }

  lemma PrintedPipeline(n: Node)
    ensures Print(n) == (if n.Pipeline? && n.negate then "!" else "") + PrintStages(StagesOf(n))
  {
    assert "" + PrintStages(StagesOf(n)) == PrintStages(StagesOf(n));
  }

  lemma {:induction false} PartsPrinted(s: string, x: nat, parts: seq<Node>, operators: seq<AndOrOp>)
    requires AllFit(parts, 1) && |operators| == |parts| - 1 && Has(s, x, PrintParts(parts, operators))
    ensures SpelledParts(s, x, x + |PrintParts(parts, operators)|, parts, operators)
    decreases SizeAll(parts), 3
  {
    hide Fits, Has, SpelledPipeline, Size, SizeAll, OperatorIn, Print, AllFit;
    RestFits(parts, 1);
    SizeSplit(parts);
    if |parts| == 1 {
      PipelinePrinted(s, x, parts[0]);
    } else {
      var op := OperatorText(operators[0]);
      var m := x + |Print(parts[0])|;
      HasConcat(s, x, Print(parts[0]), op + PrintParts(parts[1..], operators[1..]));
      HasConcat(s, m, op, PrintParts(parts[1..], operators[1..]));
      PipelinePrinted(s, x, parts[0]);
      OperatorPrinted(s, m, op);
      PartsPrinted(s, m + |op|, parts[1..], operators[1..]);
    }
  }

  lemma {:induction false} AndOrPrinted(s: string, x: nat, n: Node)
    requires Fits(n, 2) && Has(s, x, Print(n))
    ensures SpelledAndOr(s, x, x + |Print(n)|, n)
    decreases Size(n), 4
  {
    assert Print(n) == PrintParts(PartsOf(n), OperatorsOf(n));
    hide Fits, Has, SpelledParts, PartsOf, OperatorsOf, Size, SizeAll, Print, PrintParts, AllFit, AndOrNode;
    AndOrShape(n);
    StagesSmaller(n);
    PartsPrinted(s, x, PartsOf(n), OperatorsOf(n));
  }

  /** The item without its `&` or `;`. */
  lemma {:induction false} ItemPrinted(s: string, x: nat, item: Node)
    requires Fits(item, 3) && Has(s, x, Print(Core(item)))
    ensures x + |Print(Core(item))| <= |s| && SpelledItem(s, x, x + |Print(Core(item))|, item)
    decreases Size(item), 5
  {
    hide Fits, SpelledAndOr, Core, Print;
    CoreShape(item);
    AndOrPrinted(s, x, Core(item));
    Stays(s, x);
    Stays(s, x + |Print(Core(item))|);
  }

  lemma JoinItems(s: string, x: nat, k: nat, y: nat, items: seq<Node>)
    requires items != [] && SpelledItem(s, x, k, items[0]) && x <= k <= y <= |s|
    requires k < y ==> s[k] == (if items[0].Async? then '&' else ';') && SpelledItems(s, k + 1, y, items[1..])
    requires k == y ==> !items[0].Async? && |items| == 1
    ensures SpelledItems(s, x, y, items)
  {
    hide SpelledItem;
  }

  lemma HasThree(s: string, x: nat, t: string, a: string, b: string, c: string)
    requires Has(s, x, t) && t == a + (b + c)
    ensures Has(s, x, a) && Has(s, x + |a|, b) && Has(s, x + |a| + |b|, c) && |t| == |a| + |b| + |c|
  {
    hide Has;
    HasConcat(s, x, a, b + c);
    HasConcat(s, x + |a|, b, c);
  }

  function MarkOf(items: seq<Node>): string
    requires items != []
  {
    if items[0].Async? then "&" else if |items| == 1 then "" else ";"
  }

  lemma {:induction false} ItemsPrinted(s: string, x: nat, items: seq<Node>)
    requires AllFit(items, 3) && Has(s, x, PrintItems(items))
    ensures SpelledItems(s, x, x + |PrintItems(items)|, items)
    decreases SizeAll(items), 7
  {
    RestFits(items, 3);
    PrintedItems(items);
    hide *;
    HasThree(s, x, PrintItems(items), Print(Core(items[0])), MarkOf(items), PrintItems(items[1..]));
    if |items| == 1 {
      NothingPrinted();
      LastItemPrinted(s, x, items);
    } else {
      MoreItemsPrinted(s, x, items);
    }
  }

  lemma {:induction false} LastItemPrinted(s: string, x: nat, items: seq<Node>)
    requires |items| == 1 && Fits(items[0], 3) && Has(s, x, Print(Core(items[0])))
    requires Has(s, x + |Print(Core(items[0]))|, MarkOf(items))
    ensures SpelledItems(s, x, x + |Print(Core(items[0]))| + |MarkOf(items)|, items)
    decreases SizeAll(items), 6
  {
    hide Fits, Has, SpelledItem, Size, SizeAll, Print, Core, Gap, SpelledItems;
    SizeSplit(items);
    var k := x + |Print(Core(items[0]))|;
    ItemPrinted(s, x, items[0]);
    if items[0].Async? {
      HasChar(s, k, "&");
      Stays(s, k + 1);
      NoItemsSpelled(s, k + 1, k + 1);
      assert items[1..] == [];
    }
    JoinItems(s, x, k, k + |MarkOf(items)|, items);
  }

  lemma {:induction false} MoreItemsPrinted(s: string, x: nat, items: seq<Node>)
    requires |items| > 1 && Fits(items[0], 3) && AllFit(items[1..], 3) && Has(s, x, Print(Core(items[0])))
    requires (var k := x + |Print(Core(items[0]))|;
              Has(s, k, MarkOf(items)) && Has(s, k + 1, PrintItems(items[1..])))
    ensures SpelledItems(s, x, x + |Print(Core(items[0]))| + 1 + |PrintItems(items[1..])|, items)
    decreases SizeAll(items), 6
  {
    hide Fits, Has, SpelledItem, Size, SizeAll, Print, Core, SpelledItems, AllFit, PrintItems;
    SizeSplit(items);
    ItemIsThere(items[0]);
    var k := x + |Print(Core(items[0]))|;
    ItemPrinted(s, x, items[0]);
    HasChar(s, k, MarkOf(items));
    HasEnds(s, k + 1, PrintItems(items[1..]));
    ItemsPrinted(s, k + 1, items[1..]);
    JoinItems(s, x, k, k + 1 + |PrintItems(items[1..])|, items);
  }

  lemma ItemIsThere(n: Node)
    ensures Size(n) > 0
  {
  }

  lemma HasEnds(s: string, x: nat, t: string)
    requires Has(s, x, t)
    ensures x + |t| <= |s|
  {
  }

  lemma PrintedItems(items: seq<Node>)
    requires items != []
    ensures PrintItems(items) == Print(Core(items[0])) + (MarkOf(items) + PrintItems(items[1..]))
  {
    PrintedItem(items[0]);
    NothingPrinted();
    var core, rest := Print(Core(items[0])), PrintItems(items[1..]);
    MarkMoves(core, if items[0].Async? then "&" else "", if items[0].Async? then "" else ";", rest);
    MarkMoves(core, if items[0].Async? then "&" else "", "", "");
    hide Print, Core;
  }

  lemma PrintedItem(item: Node)
    ensures Print(item) == Print(Core(item)) + if item.Async? then "&" else ""
  {
    assert Print(item) + "" == Print(item);
  }

  lemma MarkMoves(core: string, mark: string, more: string, rest: string)
    ensures (core + mark) + (more + rest) == core + ((mark + more) + rest)
    ensures core + mark == core + (mark + "")
    ensures "" + more == more && mark + "" == mark
  {
  }

  lemma {:induction false} ListPrinted(s: string, x: nat, n: Node)
    requires Fits(n, 4) && Has(s, x, Print(n))
    ensures SpelledList(s, x, x + |Print(n)|, n)
    decreases Size(n), 8
  {
    assert Print(n) == PrintItems(ItemsOf(n));
    hide Fits, SpelledItems, ItemsOf, Size, SizeAll, Print, PrintItems, AllFit, ListNode;
    ListShape(n);
    StagesSmaller(n);
    if ItemsOf(n) == [] {
      Stays(s, x);
      NoItemsSpelled(s, x, x);
      NothingPrinted();
    } else {
      ItemsPrinted(s, x, ItemsOf(n));
    }
  }

  lemma NothingPrinted()
    ensures PrintItems([]) == ""
  {
  }

  /** Every tree of the core language has a text, with no blank that is not needed, and is read back from it. */
  lemma ParseUndoesPrint(n: Node)
    requires Fits(n, 4)
    ensures ParseProgram(Print(n)) == Parsed(n)
  {
    hide Fits, ParseProgram, SpelledList, Print;
    var text := Print(n);
    assert text[0..0 + |text|] == text;
    ListPrinted(text, 0, n);
    ParseUndoesSpelling(text, n);
  }
}
