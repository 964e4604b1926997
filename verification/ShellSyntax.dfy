/** The command parser on its core language: lists, and-or lists, pipelines, subshells and simple
    commands.  Three nested scanners cut one text by index ranges; a subshell starts over inside. */
module ShellSyntax {
  import opened Common
  import opened Text

  datatype Node =
    | Empty
    | Simple(words: seq<string>)
    | Subshell(body: Node)
    | Pipeline(stages: seq<Node>, negate: bool)
    | AndOr(parts: seq<Node>, operators: seq<AndOrOp>)
    | Async(child: Node)
    | Sequence(items: seq<Node>)

  /** Unmodelled: the text is outside the core language, so nothing is said about the parser there. */
  datatype Outcome<T> = Parsed(value: T) | Unexpected | Unmodelled

  // ---------- the characters of the core language ----------

  predicate Blank(c: char) {
    c == ' ' || c == '\t'
  }

  predicate Operator(c: char) {
    c in {';', '&', '|', '(', ')'}
  }

  /** A character that no scanner of the parser treats specially. */
  predicate WordChar(c: char) {
    !IsSpace(c) && !Operator(c) && c !in {'\0', '{', '}', '<', '>', '\'', '"', '\\', '$', '`', '#'}
  }

  const RESERVED := {"if", "then", "elif", "else", "fi", "while", "until", "for", "do", "done", "case", "esac"}

  function WordEnd(s: string, i: nat): (e: nat)
    requires i <= |s|
    ensures i <= e <= |s|
    ensures forall k :: i <= k < e ==> WordChar(s[k])
    ensures e < |s| ==> !WordChar(s[e])
    decreases |s| - i
  {
    if i < |s| && WordChar(s[i]) then WordEnd(s, i + 1) else i
  }

  /** What is left of a word when the negation of a pipeline has taken the `!` in front of it. */
  function Unbanged(w: string): string {
    if w != "" && w[0] == '!' then Unbanged(w[1..]) else w
  }

  /** Only blanks, operators and words, and no word is reserved, with or without `!` in front. */
  predicate CoreText(s: string, i: nat)
    requires i <= |s|
    decreases |s| - i
  {
    if i == |s| then true
    else if WordChar(s[i]) then Unbanged(s[i..WordEnd(s, i)]) !in RESERVED && CoreText(s, WordEnd(s, i))
    else (Blank(s[i]) || Operator(s[i])) && CoreText(s, i + 1)
  }

  function TrimStart(s: string, i: nat, end: nat): (b: nat)
    requires i <= end <= |s|
    ensures i <= b <= end
    ensures b < end ==> !IsSpace(s[b])
    ensures forall k :: i <= k < b ==> IsSpace(s[k])
    decreases end - i
  {
    if i < end && IsSpace(s[i]) then TrimStart(s, i + 1, end) else i
  }

  function TrimEnd(s: string, i: nat, end: nat): (e: nat)
    requires i <= end <= |s|
    ensures i <= e <= end
    ensures i < e ==> !IsSpace(s[e - 1])
    ensures forall k :: e <= k < end ==> IsSpace(s[k])
    decreases end - i
  {
    if i < end && IsSpace(s[end - 1]) then TrimEnd(s, i, end - 1) else end
  }

  // ---------- where the scanners cut ----------

  /** The three scanners, and the search for the parenthesis that closes a subshell. */
  datatype Level = OfList | OfAndOr | OfPipeline | OfGroup

  /** Whether the character at `i`, outside any parentheses, ends a part of the range up to `end`. */
  predicate IsCut(level: Level, s: string, i: nat, end: nat)
    requires i < end <= |s|
  {
    match level
    case OfList =>
      s[i] == ';' || (s[i] == '&' && At(s, i + 1) != '&' && !(i > 0 && s[i - 1] in {'&', '<', '>'}))
    case OfAndOr =>
      (s[i] == '&' || s[i] == '|') && i + 1 < end && s[i + 1] == s[i]
    case OfPipeline =>
      s[i] == '|' && i + 1 < end && s[i + 1] != '|' && !(i > 0 && s[i - 1] in {'|', '>'})
    case OfGroup =>
      s[i] == ')'
  }

  /** The end of the part that goes on at `i`, `depth` parentheses deep. */
  function NextCut(level: Level, s: string, i: nat, end: nat, depth: nat): (p: nat)
    requires i <= end <= |s|
    ensures i <= p <= end
    ensures p < end ==> IsCut(level, s, p, end)
    decreases end - i
  {
    if i == end then end
    else if s[i] == '(' then NextCut(level, s, i + 1, end, depth + 1)
    else if s[i] == ')' && depth > 0 then NextCut(level, s, i + 1, end, depth - 1)
    else if depth == 0 && IsCut(level, s, i, end) then i
    else NextCut(level, s, i + 1, end, depth)
  }

  // ---------- simple commands ----------

  function Words(s: string, i: nat): seq<string>
    requires i <= |s|
    decreases |s| - i
  {
    if i == |s| then []
    else if IsSpace(s[i]) then Words(s, i + 1)
    else
      var e := BlankFrom(s, i);
      [s[i..e]] + Words(s, e)
  }

  function BlankFrom(s: string, i: nat): (e: nat)
    requires i <= |s|
    ensures i <= e <= |s|
    ensures i < |s| && !IsSpace(s[i]) ==> i < e
    ensures forall k :: i <= k < e ==> !IsSpace(s[k])
    ensures e < |s| ==> IsSpace(s[e])
    decreases |s| - i
  {
    if i < |s| && !IsSpace(s[i]) then BlankFrom(s, i + 1) else i
  }

  /** `name ( ) body`, the form of a function definition. */
  predicate FunctionHead(s: string) {
    var name := SpaceEnd(s, 0);
    IsNameStart(At(s, name)) &&
    var open := SpaceEnd(s, NameEnd(s, name));
    At(s, open) == '(' &&
    var close := SpaceEnd(s, open + 1);
    At(s, close) == ')' && SpaceEnd(s, close + 1) < |s|
  }

  /** The position of the parenthesis that closes the group a text begins with, if nothing follows it. */
  function GroupClose(s: string): (close: Option<nat>)
    ensures close.Some? ==> 1 <= close.value < |s|
  {
    if |s| < 2 || s[0] != '(' then None
    else
      var close := NextCut(OfGroup, s, 1, |s|, 0);
      if close < |s| && SpaceEnd(s, close + 1) == |s| then Some(close) else None
  }

  // ---------- the parser ----------

  function ThenAppend(items: seq<Node>, rest: Outcome<seq<Node>>): Outcome<seq<Node>> {
    match rest
    case Parsed(more) => Parsed(items + more)
    case _ => rest
  }

  function ParseAtom(s: string, start: nat, end: nat): Outcome<Node>
    requires start <= end <= |s|
    decreases end - start, 0
  {
    var a := TrimStart(s, start, end);
    var b := TrimEnd(s, a, end);
    var text := s[a..b];
    if text == "" then Parsed(Empty)
    else if FunctionHead(text) then Unmodelled
    else
      var close := GroupClose(text);
      if close.None? then Parsed(Simple(Words(text, 0)))
      else
        var body := ParseList(s, a + 1, a + close.value);
        if body.Parsed? then Parsed(Subshell(body.value)) else body
  }

  /** Skips the `!` a pipeline begins with; `negate` is turned over at each. */
  function SkipBangs(s: string, i: nat, end: nat, negate: bool): (r: (nat, bool))
    requires i <= end <= |s|
    ensures i <= r.0 <= end
    decreases end - i
  {
    var b := TrimStart(s, i, end);
    if b < end && s[b] == '!' then SkipBangs(s, b + 1, end, !negate) else (b, negate)
  }

  function Stages(s: string, start: nat, end: nat): Outcome<seq<Node>>
    requires start <= end <= |s|
    decreases end - start, 1
  {
    var p := NextCut(OfPipeline, s, start, end, 0);
    var b := TrimStart(s, start, p);
    if b == p then Unexpected
    else
      var stage := ParseAtom(s, b, p);
      if !stage.Parsed? then Failed(stage)
      else if p == end then Parsed([stage.value])
      else ThenAppend([stage.value], Stages(s, p + 1, end))
  }

  function Failed<T, U>(o: Outcome<T>): Outcome<U>
    requires !o.Parsed?
  {
    if o.Unexpected? then Unexpected else Unmodelled
  }

  function ParsePipeline(s: string, start: nat, end: nat): Outcome<Node>
    requires start <= end <= |s|
    decreases end - start, 2
  {
    var (b, negate) := SkipBangs(s, start, end, false);
    var stages := Stages(s, b, end);
    if !stages.Parsed? then Failed(stages) else Parsed(PipelineNode(stages.value, negate))
  }

  function PipelineNode(stages: seq<Node>, negate: bool): Node {
    if |stages| == 1 && !negate then stages[0] else Pipeline(stages, negate)
  }

  function Parts(s: string, start: nat, end: nat): Outcome<(seq<Node>, seq<AndOrOp>)>
    requires start <= end <= |s|
    decreases end - start, 3
  {
    var p := NextCut(OfAndOr, s, start, end, 0);
    var b := TrimStart(s, start, p);
    if b == p then Unexpected
    else
      var part := ParsePipeline(s, b, p);
      if !part.Parsed? then Failed(part)
      else if p == end then Parsed(([part.value], []))
      else
        var rest := Parts(s, p + 2, end);
        if !rest.Parsed? then rest
        else Parsed(([part.value] + rest.value.0, [if s[p] == '&' then OpAnd else OpOr] + rest.value.1))
  }

  function ParseAndOr(s: string, start: nat, end: nat): Outcome<Node>
    requires start <= end <= |s|
    decreases end - start, 4
  {
    var parts := Parts(s, start, end);
    if !parts.Parsed? then Failed(parts) else Parsed(AndOrNode(parts.value.0, parts.value.1))
  }

  function AndOrNode(parts: seq<Node>, operators: seq<AndOrOp>): Node {
    if |parts| == 1 then parts[0] else AndOr(parts, operators)
  }

  function Items(s: string, start: nat, end: nat): Outcome<seq<Node>>
    requires start <= end <= |s|
    decreases end - start, 5
  {
    var p := NextCut(OfList, s, start, end, 0);
    var b := TrimStart(s, start, p);
    var async := p < end && s[p] == '&';
    if b == p then
      if async then Unexpected
      else if p == end then Parsed([])
      else Items(s, p + 1, end)
    else
      var part := ParseAndOr(s, b, p);
      if !part.Parsed? then Failed(part)
      else
        var item := if async then Async(part.value) else part.value;
        if p == end then Parsed([item]) else ThenAppend([item], Items(s, p + 1, end))
  }

  function ParseList(s: string, start: nat, end: nat): Outcome<Node>
    requires start <= end <= |s|
    decreases end - start, 6
  {
    var items := Items(s, start, end);
    if !items.Parsed? then Failed(items) else Parsed(ListNode(items.value))
  }

  function ListNode(items: seq<Node>): Node {
    if items == [] then Empty
    else if |items| == 1 then items[0]
    else Sequence(items)
  }

  function ParseProgram(s: string): Outcome<Node> {
    if CoreText(s, 0) then ParseList(s, 0, |s|) else Unmodelled
  }
}
