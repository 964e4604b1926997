/** Alias expansion of a command text: a scan over a token list that replaces entries of the list it
    is walking, and ends only because of the chains the replacement tokens carry. */
module AliasRewrite {
  import opened Common
  import opened Text
  import opened AliasTokens

  type Aliases = map<string, string>

  // ---------- suppression chains ----------

  function LineEnd(s: string, i: nat): (e: nat)
    requires i <= |s|
    ensures i <= e <= |s|
    ensures e < |s| ==> s[e] == '\n'
    ensures '\n' !in s[i..e]
    decreases |s| - i
  {
    if i < |s| && s[i] != '\n' then LineEnd(s, i + 1) else i
  }

  /** The lines of a chain from `i` on. */
  function Lines(s: string, i: nat): seq<string>
    requires i <= |s|
    decreases |s| - i
  {
    if i == |s| then []
    else
      var e := LineEnd(s, i);
      [s[i..e]] + (if e == |s| then [] else Lines(s, e + 1))
  }

  function Names(chain: Option<string>): seq<string> {
    match chain
    case None => []
    case Some(s) => Lines(s, 0)
  }

  lemma LinesStep(s: string, i: nat)
    requires i < |s|
    ensures (var e := LineEnd(s, i);
             Lines(s, i) == [s[i..e]] + (if e == |s| then [] else Lines(s, e + 1)))
  {
  }

  lemma NoLines(s: string)
    ensures Lines(s, |s|) == []
  {
  }

  method ChainContains(chain: Option<string>, name: string) returns (b: bool)
    ensures b <==> name in Names(chain)
  {
    hide LineEnd, Lines;
    if chain.None? {
      return false;
    }
    var s := chain.value;
    NoLines(s);
    var p := 0;
    while p < |s|
      invariant p <= |s|
      invariant name in Lines(s, 0) <==> name in Lines(s, p)
      decreases |s| - p
    {
      LinesStep(s, p);
      var e := LineEnd(s, p);
      if s[p..e] == name {
        return true;
      }
      if e == |s| {
        return false;
      }
      p := e + 1;
    }
    return false;
  }

  function ChainAppend(chain: Option<string>, name: string): Option<string> {
    if name == "" then chain
    else if chain.None? || chain.value == "" then Some(name)
    else Some(chain.value + "\n" + name)
  }

  lemma {:induction false} LineEndIs(s: string, i: nat, e: nat)
    requires i <= e <= |s| && (e < |s| ==> s[e] == '\n') && '\n' !in s[i..e]
    ensures LineEnd(s, i) == e
    decreases e - i
  {
    if i < e {
      assert s[i] == s[i..e][0];
      assert s[i + 1..e] == s[i..e][1..];
      LineEndIs(s, i + 1, e);
    }
  }

  lemma LastLine(s: string, name: string)
    requires name != "" && '\n' !in name
    ensures Lines(s + "\n" + name, |s| + 1) == [name]
  {
    hide Lines, LineEnd;
    var t := s + "\n" + name;
    assert t[|s| + 1..|t|] == name;
    LineEndIs(t, |s| + 1, |t|);
    LinesStep(t, |s| + 1);
  }

  lemma SameLine(s: string, i: nat, more: string)
    requires i < |s|
    ensures LineEnd(s + "\n" + more, i) == LineEnd(s, i)
    ensures (s + "\n" + more)[i..LineEnd(s, i)] == s[i..LineEnd(s, i)]
  {
    hide LineEnd;
    var t := s + "\n" + more;
    var e := LineEnd(s, i);
    assert t[i..e] == s[i..e];
    LineEndIs(t, i, e);
  }

  lemma {:induction false} LinesAppend(s: string, i: nat, name: string)
    requires i < |s| && s[|s| - 1] != '\n' && name != "" && '\n' !in name
    ensures Lines(s + "\n" + name, i) == Lines(s, i) + [name]
    decreases |s| - i
  {
    hide Lines, LineEnd;
    var t := s + "\n" + name;
    var e := LineEnd(s, i);
    SameLine(s, i, name);
    LinesStep(s, i);
    LinesStep(t, i);
    if e < |s| {
      LinesAppend(s, e + 1, name);
    } else {
      LastLine(s, name);
    }
  }

  // ---------- the words of a command ----------

  predicate Redirection(op: string) {
    op in {"<", ">", "<<", "<<-", ">>", "<&", ">&", "<>"}
  }

  predicate OpensCommand(word: string) {
    word in {"then", "do", "else", "elif"}
  }

  predicate IoNumber(word: string) {
    word != "" && forall i :: 0 <= i < |word| ==> IsDigit(word[i])
  }

  predicate Plain(word: string) {
    word != "" && forall i :: 0 <= i < |word| ==> word[i] != '/' && !Quoting(word[i])
  }

  predicate AssignmentWord(word: string) {
    word != "" && IsNameStart(word[0]) && NameEnd(word, 1) < |word| && word[NameEnd(word, 1)] == '='
  }

  predicate HasTrailingBlank(value: string) {
    value != "" && value[|value| - 1] in {' ', '\t'}
  }

  // ---------- the scanner ----------

  /** forState: 1 name, 2 in/do, 3 word list, 4 body.  caseState: 1 subject, 2 in, 3 clauses. */
  datatype Scan = Scan(commandPosition: bool, expectRedir: bool, heredocOperand: bool, trailingBlank: bool,
                       clauseCommands: bool, afterSeparator: bool, forState: nat, caseState: nat)

  const START := Scan(true, false, false, false, false, false, 0, 0)

  predicate Reserved(word: string, sc: Scan) {
    if !sc.commandPosition || sc.forState == 1 then false
    else if sc.caseState == 1 then true
    else if sc.forState == 2 then word in {"in", "do"}
    else if sc.forState == 3 then word == "do"
    else if sc.forState == 4 && word == "done" then true
    else if sc.caseState == 2 then word == "in"
    else if sc.caseState == 3 then word == "esac"
    else word in {"if", "then", "elif", "else", "fi", "while", "until", "for", "in", "do", "done", "case", "esac"}
  }

  function OnOperator(sc: Scan, op: string): Scan {
    var sc :=
      if sc.caseState == 3 && op == ")" && !sc.clauseCommands then sc.(clauseCommands := true)
      else if sc.caseState == 3 && op == ";;" then sc.(clauseCommands := false, afterSeparator := true)
      else sc;
    if Redirection(op) then sc.(expectRedir := true, heredocOperand := op in {"<<", "<<-"})
    else sc.(commandPosition := true, expectRedir := false, heredocOperand := false, trailingBlank := false)
  }

  function NextFor(sc: Scan, word: string): nat {
    if sc.forState == 0 && sc.commandPosition && word == "for" then 1
    else if sc.forState == 1 then 2
    else if sc.forState == 2 && word == "in" then 3
    else if sc.forState in {2, 3} && word == "do" then 4
    else if sc.forState == 4 && word == "done" then 0
    else sc.forState
  }

  function OnCase(sc: Scan, word: string): Scan {
    var sc :=
      if sc.caseState == 0 && sc.commandPosition && word == "case" then sc.(caseState := 1)
      else if sc.caseState == 1 then sc.(caseState := 2)
      else if sc.caseState == 2 && word == "in" then
        sc.(caseState := 3, clauseCommands := false, afterSeparator := false)
      else if sc.caseState == 3 && word == "esac" then
        sc.(caseState := 0, clauseCommands := false, afterSeparator := false)
      else sc;
    if sc.caseState == 3 && !sc.clauseCommands then sc.(afterSeparator := false) else sc
  }

  /** The state behind a word that stays as it is. */
  function OnWord(sc: Scan, word: string): Scan {
    var sc := OnCase(sc.(forState := NextFor(sc, word)), word);
    if OpensCommand(word) then sc.(commandPosition := true, trailingBlank := false)
    else if sc.trailingBlank then sc.(commandPosition := true, trailingBlank := false)
    else sc.(commandPosition := false)
  }

  datatype Verdict = Keep(sc: Scan) | Expand(sc: Scan)

  /** Whether a word is in command position, once its own marks have been looked at. */
  function InPosition(sc: Scan, t: AToken): Scan {
    if t.force || sc.commandPosition then sc.(commandPosition := true)
    else if '\n' in t.ws then sc.(commandPosition := true)
    else if sc.caseState == 3 && !sc.clauseCommands && t.chain.None? && !sc.afterSeparator then
      sc.(commandPosition := true)
    else sc
  }

  predicate Expandable(aliases: Aliases, t: AToken, sc: Scan) {
    && !Reserved(t.text, sc)
    && Plain(t.text)
    && !(sc.caseState == 3 && !sc.clauseCommands && !t.force)
    && t.text !in Names(t.chain)
    && t.text in aliases
  }

  /** What happens to the word `ts[i]` once its position is known. */
  function JudgeWord(aliases: Aliases, sc: Scan, ts: seq<AToken>, i: nat): Verdict
    requires i < |ts|
  {
    var t := ts[i];
    if !sc.commandPosition then
      Keep(OnWord(if OpensCommand(t.text) then sc.(commandPosition := true) else sc, t.text))
    else if AssignmentWord(t.text) then Keep(sc)
    else if IoNumber(t.text) && i + 1 < |ts| && ts[i + 1].isOp && Redirection(ts[i + 1].text) then
      Keep(sc.(expectRedir := true))
    else if Expandable(aliases, t, sc) then Expand(sc)
    else Keep(OnWord(sc, t.text))
  }

  /** What happens to the word `ts[i]`. */
  function Judge(aliases: Aliases, sc: Scan, ts: seq<AToken>, i: nat): Verdict
    requires i < |ts|
  {
    var t := ts[i];
    if sc.expectRedir && !sc.heredocOperand then Keep(sc.(expectRedir := false))
    else
      var sc :=
        if sc.expectRedir then sc.(expectRedir := false, heredocOperand := false, commandPosition := true)
        else sc;
      JudgeWord(aliases, InPosition(sc, t), ts, i)
  }

  // ---------- replacing a token ----------

  /** The replacement tokens take the place of `ts[i]`; its white space goes to whatever follows it. */
  function Replace(ts: seq<AToken>, i: nat, repl: seq<AToken>): (r: seq<AToken>)
    requires i < |ts|
    ensures |r| == |ts| - 1 + |repl|
  {
    var after := ts[i + 1..];
    if repl == [] then
      if after == [] then ts[..i] else ts[..i] + [after[0].(ws := ts[i].ws + after[0].ws)] + after[1..]
    else ts[..i] + [repl[0].(ws := ts[i].ws + repl[0].ws)] + repl[1..] + after
  }

  function ForceAt(ts: seq<AToken>, k: nat): (r: seq<AToken>)
    ensures |r| == |ts|
  {
    if k < |ts| then ts[k := ts[k].(force := true)] else ts
  }

  function Replacement(aliases: Aliases, t: AToken): seq<AToken>
    requires t.text in aliases
  {
    Tokenize(aliases[t.text], ChainAppend(t.chain, t.text))
  }

  function ExpandAt(aliases: Aliases, ts: seq<AToken>, i: nat): seq<AToken>
    requires i < |ts| && ts[i].text in aliases
  {
    var repl := Replacement(aliases, ts[i]);
    var replaced := Replace(ts, i, repl);
    if HasTrailingBlank(aliases[ts[i].text]) then ForceAt(replaced, i + |repl|) else replaced
  }

  function AfterExpand(aliases: Aliases, sc: Scan, t: AToken): Scan
    requires t.text in aliases
  {
    sc.(trailingBlank := HasTrailingBlank(aliases[t.text]), commandPosition := true, expectRedir := false)
  }

  // ---------- what every token keeps ----------

  ghost predicate Distinct(names: seq<string>) {
    forall i, j :: 0 <= i < j < |names| ==> names[i] != names[j]
  }

  /** A chain lists different aliases of the table, and the next name can be appended to it as a line. */
  ghost predicate ChainOk(aliases: Aliases, chain: Option<string>) {
    && (chain.Some? ==> chain.value != "" && chain.value[|chain.value| - 1] != '\n')
    && Distinct(Names(chain))
    && forall k :: 0 <= k < |Names(chain)| ==> Names(chain)[k] in aliases
  }

  /** The text that a token with this history was split from. */
  ghost function Source(aliases: Aliases, command: string, names: seq<string>): string {
    if names == [] || names[|names| - 1] !in aliases then command else aliases[names[|names| - 1]]
  }

  ghost predicate HasWord(text: string, word: string) {
    exists k :: 0 <= k < |Tokenize(text, None)| && Tokenize(text, None)[k].text == word
  }

  /** The oldest name is a word of the command, each further one a word of the value of the alias before it. */
  ghost predicate History(aliases: Aliases, command: string, names: seq<string>)
    decreases |names|
  {
    names == [] ||
    var init := names[..|names| - 1];
    History(aliases, command, init) && HasWord(Source(aliases, command, init), names[|names| - 1])
  }

  /** A plain word has no white space in it, so it fits on one line of a chain. */
  predicate Fits(t: AToken) {
    !t.isOp && Plain(t.text) ==> '\n' !in t.text
  }

  /** The chain is the history of the token: the token itself is a word of the value of the youngest name. */
  ghost predicate TokenOk(aliases: Aliases, command: string, t: AToken) {
    && Fits(t)
    && ChainOk(aliases, t.chain)
    && History(aliases, command, Names(t.chain))
    && HasWord(Source(aliases, command, Names(t.chain)), t.text)
  }

  ghost predicate AllOk(aliases: Aliases, command: string, ts: seq<AToken>) {
    forall k :: 0 <= k < |ts| ==> TokenOk(aliases, command, ts[k])
  }

  lemma TokenFits(s: string, i: nat, chain: Option<string>)
    requires i <= |s| && SpaceEnd(s, i) < |s|
    ensures Fits(TokenAt(s, i, chain).0)
  {
    hide OperatorLen, WordEnd, SpaceEnd;
    var t := TokenAt(s, i, chain).0;
    if !t.isOp && Plain(t.text) {
      var j := SpaceEnd(s, i);
      var e := WordEnd(s, j, '\0');
      forall m | j <= m < e ensures !Quoting(s[m]) {
        assert s[m] == t.text[m - j];
      }
    }
  }

  /** Splitting a text gives the same words whatever chain they are to carry. */
  lemma {:induction false} SplitWith(s: string, i: nat, chain: Option<string>, k: nat)
    requires i <= |s| && k < |TokensFrom(s, i, chain)|
    ensures |TokensFrom(s, i, None)| == |TokensFrom(s, i, chain)|
    ensures TokensFrom(s, i, None)[k].text == TokensFrom(s, i, chain)[k].text
    ensures TokensFrom(s, i, chain)[k].chain == chain && Fits(TokensFrom(s, i, chain)[k])
    ensures TokensFrom(s, i, None)[k].isOp == TokensFrom(s, i, chain)[k].isOp && !TokensFrom(s, i, chain)[k].force
    ensures TokensFrom(s, i, None)[k].ws == TokensFrom(s, i, chain)[k].ws
    decreases |s| - i
  {
    hide TokensFrom, SpaceEnd, Fits;
    if SpaceEnd(s, i) == |s| {
      TokensEnd(s, i, chain);
      assert false;
    } else {
      SplitFirst(s, i, chain);
      TokenFits(s, i, chain);
      if k > 0 {
        SplitWith(s, TokenAt(s, i, chain).1, chain, k - 1);
      } else {
        SplitLength(s, TokenAt(s, i, chain).1, chain);
      }
    }
  }

  lemma SplitFirst(s: string, i: nat, chain: Option<string>)
    requires i <= |s| && SpaceEnd(s, i) < |s|
    ensures (var (t, e) := TokenAt(s, i, chain);
             && TokensFrom(s, i, chain) == [t] + TokensFrom(s, e, chain)
             && TokensFrom(s, i, None) == [t.(chain := None)] + TokensFrom(s, e, None))
  {
    hide OperatorLen, WordEnd, SpaceEnd, TokensFrom;
    TokensStep(s, i, chain);
    TokensStep(s, i, None);
  }

  lemma {:induction false} SplitLength(s: string, i: nat, chain: Option<string>)
    requires i <= |s|
    ensures |TokensFrom(s, i, None)| == |TokensFrom(s, i, chain)|
    decreases |s| - i
  {
    hide TokensFrom, SpaceEnd;
    if SpaceEnd(s, i) == |s| {
      TokensEnd(s, i, chain);
      TokensEnd(s, i, None);
    } else {
      SplitFirst(s, i, chain);
      SplitLength(s, TokenAt(s, i, chain).1, chain);
    }
  }

  lemma SplitOk(aliases: Aliases, command: string, chain: Option<string>)
    requires ChainOk(aliases, chain) && History(aliases, command, Names(chain))
    ensures AllOk(aliases, command, Tokenize(Source(aliases, command, Names(chain)), chain))
  {
    hide ChainOk, History, Source, TokensFrom, Fits, Collapse, Names;
    var text := Source(aliases, command, Names(chain));
    var s := Collapse(text, 0, '\0');
    forall k | 0 <= k < |Tokenize(text, chain)| ensures TokenOk(aliases, command, Tokenize(text, chain)[k]) {
      SplitWith(s, 0, chain, k);
      assert Tokenize(text, None)[k].text == Tokenize(text, chain)[k].text;
    }
  }

  lemma ChainGrows(aliases: Aliases, chain: Option<string>, name: string)
    requires ChainOk(aliases, chain) && name in aliases && name !in Names(chain)
    requires name != "" && '\n' !in name
    ensures Names(ChainAppend(chain, name)) == Names(chain) + [name]
    ensures ChainOk(aliases, ChainAppend(chain, name))
  {
    hide Lines, LineEnd;
    if chain.Some? {
      LinesAppend(chain.value, 0, name);
    } else {
      assert name[0..|name|] == name;
      LineEndIs(name, 0, |name|);
      LinesStep(name, 0);
    }
  }

  lemma HistoryGrows(aliases: Aliases, command: string, names: seq<string>, name: string)
    requires History(aliases, command, names) && name in aliases
    requires HasWord(Source(aliases, command, names), name)
    ensures History(aliases, command, names + [name])
    ensures Source(aliases, command, names + [name]) == aliases[name]
  {
    hide HasWord;
    assert (names + [name])[..|names|] == names;
  }

  predicate MayExpand(aliases: Aliases, t: AToken) {
    !t.isOp && Plain(t.text) && t.text !in Names(t.chain) && t.text in aliases
  }

  lemma ReplacementOk(aliases: Aliases, command: string, t: AToken)
    requires TokenOk(aliases, command, t) && MayExpand(aliases, t)
    ensures AllOk(aliases, command, Replacement(aliases, t))
    ensures Names(ChainAppend(t.chain, t.text)) == Names(t.chain) + [t.text]
  {
    hide ChainOk, History, Source, HasWord, ChainAppend, Names, Tokenize;
    ChainGrows(aliases, t.chain, t.text);
    HistoryGrows(aliases, command, Names(t.chain), t.text);
    SplitOk(aliases, command, ChainAppend(t.chain, t.text));
  }

  lemma ReplaceOk(aliases: Aliases, command: string, ts: seq<AToken>, i: nat, repl: seq<AToken>, k: nat)
    requires AllOk(aliases, command, ts) && AllOk(aliases, command, repl) && i < |ts|
    ensures AllOk(aliases, command, Replace(ts, i, repl))
    ensures AllOk(aliases, command, ForceAt(Replace(ts, i, repl), k))
  {
    hide ChainOk, History, Source, HasWord, Names;
  }

  /** Expanding keeps every token's history. */
  lemma ExpandOk(aliases: Aliases, command: string, ts: seq<AToken>, i: nat)
    requires i < |ts| && AllOk(aliases, command, ts) && MayExpand(aliases, ts[i])
    ensures AllOk(aliases, command, ExpandAt(aliases, ts, i))
  {
    hide TokenOk, Replace, ForceAt, Replacement;
    ReplacementOk(aliases, command, ts[i]);
    ReplaceOk(aliases, command, ts, i, Replacement(aliases, ts[i]), i + |Replacement(aliases, ts[i])|);
  }

  // ---------- termination ----------

  ghost predicate Bounded(aliases: Aliases, b: nat) {
    b > 0 && forall name :: name in aliases ==> |aliases[name]| < b
  }

  lemma {:induction false} BoundExists(aliases: Aliases)
    ensures exists b: nat :: Bounded(aliases, b)
    decreases |aliases|
  {
    if |aliases| == 0 {
      assert Bounded(aliases, 1);
    } else {
      var name :| name in aliases;
      BoundExists(aliases - {name});
      var b: nat :| Bounded(aliases - {name}, b);
      var c := if |aliases[name]| < b then b else |aliases[name]| + 1;
      forall other | other in aliases ensures |aliases[other]| < c {
        assert other != name ==> other in aliases - {name};
      }
      assert Bounded(aliases, c);
    }
  }

  /** More than the length of any alias value. */
  ghost function Bound(aliases: Aliases): (b: nat)
    ensures Bounded(aliases, b)
  {
    BoundExists(aliases);
    var b: nat :| Bounded(aliases, b);
    b
  }

  ghost function Pow(b: nat, e: nat): (p: nat)
    ensures b > 0 ==> p > 0
  {
    if e == 0 then 1 else b * Pow(b, e - 1)
  }

  /** How many more aliases can be expanded one inside the other, starting from this token. */
  ghost function Left(aliases: Aliases, t: AToken): nat {
    if |Names(t.chain)| <= |aliases| then |aliases| - |Names(t.chain)| else 0
  }

  ghost function Weight(aliases: Aliases, ts: seq<AToken>): nat {
    if ts == [] then 0 else Pow(Bound(aliases), Left(aliases, ts[0])) + Weight(aliases, ts[1..])
  }

  lemma {:induction false} DistinctWithin(names: seq<string>, keys: set<string>)
    requires Distinct(names) && forall k :: 0 <= k < |names| ==> names[k] in keys
    ensures |names| <= |keys|
    decreases |names|
  {
    if names != [] {
      var last := names[|names| - 1];
      forall k | 0 <= k < |names| - 1 ensures names[k] in keys - {last} {
      }
      DistinctWithin(names[..|names| - 1], keys - {last});
    }
  }

  lemma {:induction false} WeightConcat(aliases: Aliases, a: seq<AToken>, b: seq<AToken>)
    ensures Weight(aliases, a + b) == Weight(aliases, a) + Weight(aliases, b)
  {
    if a == [] {
      assert a + b == b;
    } else {
      assert (a + b)[1..] == a[1..] + b;
      WeightConcat(aliases, a[1..], b);
    }
  }

  /** Leading white space and the force mark weigh nothing. */
  lemma {:induction false} WeightSame(aliases: Aliases, a: seq<AToken>, b: seq<AToken>)
    requires SameWords(a, b)
    ensures Weight(aliases, a) == Weight(aliases, b)
  {
    if a != [] {
      WeightSame(aliases, a[1..], b[1..]);
    }
  }

  lemma {:induction false} WeightUniform(aliases: Aliases, ts: seq<AToken>, left: nat)
    requires forall k :: 0 <= k < |ts| ==> Left(aliases, ts[k]) == left
    ensures Weight(aliases, ts) == |ts| * Pow(Bound(aliases), left)
  {
    hide Left, Pow;
    if ts != [] {
      WeightUniform(aliases, ts[1..], left);
    }
  }

  lemma {:induction false} CollapseShort(s: string, i: nat, quote: char)
    requires i <= |s|
    ensures |Collapse(s, i, quote)| <= |s| - i
    decreases |s| - i
  {
    if i < |s| {
      CollapseShort(s, i + 1, if s[i] == '\'' then '\0' else quote);
      CollapseShort(s, i + 1, if s[i] == '"' then '\0' else quote);
      CollapseShort(s, i + 1, if s[i] == '\'' || s[i] == '"' then s[i] else quote);
      if i + 1 < |s| {
        CollapseShort(s, i + 2, quote);
      }
    }
  }

  lemma ReplacementShort(aliases: Aliases, t: AToken)
    requires t.text in aliases
    ensures |Replacement(aliases, t)| < Bound(aliases)
    ensures forall k :: 0 <= k < |Replacement(aliases, t)| ==>
              Replacement(aliases, t)[k].chain == ChainAppend(t.chain, t.text)
  {
    hide TokensFrom, Collapse, ChainAppend, Fits;
    var chain := ChainAppend(t.chain, t.text);
    var value := aliases[t.text];
    CollapseShort(value, 0, '\0');
    forall k | 0 <= k < |Replacement(aliases, t)| ensures Replacement(aliases, t)[k].chain == chain {
      SplitWith(Collapse(value, 0, '\0'), 0, chain, k);
    }
  }

  lemma PowStep(b: nat, e: nat, n: nat)
    requires n < b
    ensures n * Pow(b, e) < Pow(b, e + 1)
  {
    var p := Pow(b, e);
    assert Pow(b, e + 1) == b * p;
    assert n * p < b * p by {
      assert (b - n) * p > 0;
      assert (b - n) * p == b * p - n * p;
    }
  }

  /** The replacement of a token weighs less than the token did. */
  lemma ReplacementLighter(aliases: Aliases, command: string, t: AToken)
    requires TokenOk(aliases, command, t) && MayExpand(aliases, t)
    ensures Weight(aliases, Replacement(aliases, t)) < Pow(Bound(aliases), Left(aliases, t))
  {
    hide History, Source, HasWord, ChainAppend, Names, Replacement, Pow, Lines;
    ReplacementOk(aliases, command, t);
    ReplacementShort(aliases, t);
    var repl := Replacement(aliases, t);
    var chain := ChainAppend(t.chain, t.text);
    var names := Names(t.chain) + [t.text];
    DistinctWithin(names, aliases.Keys);
    var rest := |aliases| - |names|;
    WeightUniform(aliases, repl, rest);
    PowStep(Bound(aliases), rest, |repl|);
  }

  ghost predicate SameWords(a: seq<AToken>, b: seq<AToken>) {
    |a| == |b| && forall k :: 0 <= k < |a| ==> a[k].chain == b[k].chain && a[k].text == b[k].text
  }

  lemma ReplaceTail(ts: seq<AToken>, i: nat, repl: seq<AToken>, k: nat)
    requires i < |ts| && i <= k
    ensures SameWords(Replace(ts, i, repl)[i..], repl + ts[i + 1..])
    ensures SameWords(ForceAt(Replace(ts, i, repl), k)[i..], repl + ts[i + 1..])
    ensures Replace(ts, i, repl)[..i] == ts[..i] == ForceAt(Replace(ts, i, repl), k)[..i]
  {
  }

  lemma ExpandTail(aliases: Aliases, ts: seq<AToken>, i: nat)
    requires i < |ts| && ts[i].text in aliases
    ensures SameWords(ExpandAt(aliases, ts, i)[i..], Replacement(aliases, ts[i]) + ts[i + 1..])
    ensures ExpandAt(aliases, ts, i)[..i] == ts[..i]
  {
    hide Replace, ForceAt, Replacement;
    var repl := Replacement(aliases, ts[i]);
    ReplaceTail(ts, i, repl, i + |repl|);
  }

  lemma ExpandLighter(aliases: Aliases, command: string, ts: seq<AToken>, i: nat)
    requires i < |ts| && AllOk(aliases, command, ts) && MayExpand(aliases, ts[i])
    ensures i <= |ExpandAt(aliases, ts, i)| && ExpandAt(aliases, ts, i)[..i] == ts[..i]
    ensures Weight(aliases, ExpandAt(aliases, ts, i)[i..]) < Weight(aliases, ts[i..])
  {
    hide TokenOk, Replace, ForceAt, Replacement, Pow;
    var repl := Replacement(aliases, ts[i]);
    var out := ExpandAt(aliases, ts, i);
    ExpandTail(aliases, ts, i);
    WeightSame(aliases, out[i..], repl + ts[i + 1..]);
    WeightConcat(aliases, repl, ts[i + 1..]);
    ReplacementLighter(aliases, command, ts[i]);
    StepLighter(aliases, ts, i);
  }

  lemma StepLighter(aliases: Aliases, ts: seq<AToken>, i: nat)
    requires i < |ts|
    ensures Weight(aliases, ts[i..]) == Pow(Bound(aliases), Left(aliases, ts[i])) + Weight(aliases, ts[i + 1..])
    ensures Weight(aliases, ts[i + 1..]) < Weight(aliases, ts[i..])
  {
    assert ts[i..][1..] == ts[i + 1..];
  }

  // ---------- the whole scan ----------

  /** Only a plain unblocked alias word is expanded. */
  lemma ExpandMeans(aliases: Aliases, sc: Scan, ts: seq<AToken>, i: nat)
    requires i < |ts| && !ts[i].isOp && Judge(aliases, sc, ts, i).Expand?
    ensures MayExpand(aliases, ts[i])
  {
  }

  /** The token list when the scan ends, and whether anything was expanded. */
  ghost function Rewritten(aliases: Aliases, command: string, sc: Scan, ts: seq<AToken>,
                           i: nat): (r: (seq<AToken>, bool))
    requires i <= |ts| && AllOk(aliases, command, ts)
    ensures AllOk(aliases, command, r.0)
    decreases Weight(aliases, ts[i..])
  {
    if i == |ts| then (ts, false)
    else
      StepLighter(aliases, ts, i);
      if ts[i].isOp then Rewritten(aliases, command, OnOperator(sc, ts[i].text), ts, i + 1)
      else
        var verdict := Judge(aliases, sc, ts, i);
        if verdict.Keep? then Rewritten(aliases, command, verdict.sc, ts, i + 1)
        else
          ExpandMeans(aliases, sc, ts, i);
          ExpandOk(aliases, command, ts, i);
          ExpandLighter(aliases, command, ts, i);
          (Rewritten(aliases, command, AfterExpand(aliases, verdict.sc, ts[i]), ExpandAt(aliases, ts, i), i).0, true)
  }

  /** The words behind the scan are not touched again. */
  lemma {:induction false} RewrittenPrefix(aliases: Aliases, command: string, sc: Scan, ts: seq<AToken>, i: nat)
    requires i <= |ts| && AllOk(aliases, command, ts)
    ensures (var r := Rewritten(aliases, command, sc, ts, i).0; i <= |r| && r[..i] == ts[..i])
    decreases Weight(aliases, ts[i..])
  {
    hide TokenOk, OnOperator, Judge, AfterExpand, ExpandAt, Replacement, Weight, MayExpand;
    if i < |ts| {
      StepLighter(aliases, ts, i);
      var verdict := if ts[i].isOp then Keep(OnOperator(sc, ts[i].text)) else Judge(aliases, sc, ts, i);
      if verdict.Keep? {
        RewrittenPrefix(aliases, command, verdict.sc, ts, i + 1);
        var r := Rewritten(aliases, command, sc, ts, i).0;
        assert r[..i] == r[..i + 1][..i] == ts[..i + 1][..i] == ts[..i];
      } else {
        ExpandMeans(aliases, sc, ts, i);
        ExpandOk(aliases, command, ts, i);
        ExpandLighter(aliases, command, ts, i);
        MayLookUp(aliases, ts[i]);
        RewrittenPrefix(aliases, command, AfterExpand(aliases, verdict.sc, ts[i]), ExpandAt(aliases, ts, i), i);
      }
    }
  }

  lemma CommandOk(aliases: Aliases, text: string)
    ensures AllOk(aliases, text, Tokenize(text, None))
  {
    hide TokenOk, Tokenize;
    SplitOk(aliases, text, None);
  }

  /** What alias expansion makes of a command text, as tokens. */
  ghost function Expansion(aliases: Aliases, text: string): (r: (seq<AToken>, bool))
    ensures AllOk(aliases, text, r.0)
  {
    CommandOk(aliases, text);
    Rewritten(aliases, text, START, Tokenize(text, None), 0)
  }

  // ---------- the scan as it is carried out ----------

  method ReplaceToken(ts: seq<AToken>, index: nat, repl: seq<AToken>) returns (items: seq<AToken>)
    requires index < |ts|
    ensures items == Replace(ts, index, repl)
  {
    var ws := ts[index].ws;
    items := ts[..index];
    for r := 0 to |repl|
      invariant r == 0 ==> items == ts[..index]
      invariant r > 0 ==> items == ts[..index] + [repl[0].(ws := ws + repl[0].ws)] + repl[1..r]
    {
      if r == 0 {
        items := items + [repl[0].(ws := ws + repl[0].ws)];
      } else {
        items := items + [repl[r]];
      }
    }
    items := items + ts[index + 1..];
    if |repl| == 0 && index < |items| {
      items := items[index := items[index].(ws := ws + items[index].ws)];
    }
  }

  method UpdateFor(before: Scan, word: string) returns (forState: nat)
    ensures forState == NextFor(before, word)
  {
    forState := before.forState;
    if forState == 0 && before.commandPosition && word == "for" {
      forState := 1;
    } else if forState == 1 {
      forState := 2;
    } else if forState == 2 && word == "in" {
      forState := 3;
    } else if forState == 2 && word == "do" {
      forState := 4;
    } else if forState == 3 && word == "do" {
      forState := 4;
    } else if forState == 4 && word == "done" {
      forState := 0;
    }
  }

  method UpdateCase(before: Scan, word: string) returns (sc: Scan)
    ensures sc == OnCase(before, word)
  {
    sc := before;
    if sc.caseState == 0 && sc.commandPosition && word == "case" {
      sc := sc.(caseState := 1);
    } else if sc.caseState == 1 {
      sc := sc.(caseState := 2);
    } else if sc.caseState == 2 && word == "in" {
      sc := sc.(caseState := 3, clauseCommands := false, afterSeparator := false);
    } else if sc.caseState == 3 && word == "esac" {
      sc := sc.(caseState := 0, clauseCommands := false, afterSeparator := false);
    }
    if sc.caseState == 3 && !sc.clauseCommands {
      sc := sc.(afterSeparator := false);
    }
  }

  method UpdateState(before: Scan, word: string) returns (sc: Scan)
    ensures sc == OnWord(before, word)
  {
    hide NextFor, OnCase, OpensCommand;
    var forState := UpdateFor(before, word);
    sc := UpdateCase(before.(forState := forState), word);
    if OpensCommand(word) {
      sc := sc.(commandPosition := true, trailingBlank := false);
    } else if sc.trailingBlank {
      sc := sc.(commandPosition := true, trailingBlank := false);
    } else {
      sc := sc.(commandPosition := false);
    }
  }

  /** What the scan does at a word whose position is known: go on with a new state, or replace the word. */
  method VisitPlacedWord(aliases: Aliases, before: Scan, ts: seq<AToken>, i: nat) returns (sc: Scan, expand: bool)
    requires i < |ts| && !ts[i].isOp
    ensures JudgeWord(aliases, before, ts, i) == if expand then Expand(sc) else Keep(sc)
  {
    hide OnWord, Names, Plain, IoNumber, AssignmentWord, Reserved, OpensCommand, Redirection;
    var t := ts[i];
    sc, expand := before, false;
    if !sc.commandPosition {
      if OpensCommand(t.text) {
        sc := sc.(commandPosition := true);
      }
      sc := UpdateState(sc, t.text);
      return;
    }
    if AssignmentWord(t.text) {
      return;
    }
    if IoNumber(t.text) && i + 1 < |ts| && ts[i + 1].isOp && Redirection(ts[i + 1].text) {
      sc := sc.(expectRedir := true);
      return;
    }
    if !Reserved(t.text, sc) && Plain(t.text) {
      if !(sc.caseState == 3 && !sc.clauseCommands && !t.force) {
        var blocked := ChainContains(t.chain, t.text);
        if !blocked && t.text in aliases {
          expand := true;
          return;
        }
      }
    }
    sc := UpdateState(sc, t.text);
  }

  method VisitWord(aliases: Aliases, before: Scan, ts: seq<AToken>, i: nat) returns (sc: Scan, expand: bool)
    requires i < |ts| && !ts[i].isOp
    ensures Judge(aliases, before, ts, i) == if expand then Expand(sc) else Keep(sc)
  {
    hide JudgeWord;
    var t := ts[i];
    sc, expand := before, false;
    if sc.expectRedir {
      if sc.heredocOperand {
        sc := sc.(expectRedir := false, heredocOperand := false, commandPosition := true);
      } else {
        sc := sc.(expectRedir := false);
        return;
      }
    }
    if t.force {
      sc := sc.(commandPosition := true);
    }
    if !sc.commandPosition && '\n' in t.ws {
      sc := sc.(commandPosition := true);
    }
    if !sc.commandPosition && sc.caseState == 3 && !sc.clauseCommands && t.chain.None? && !sc.afterSeparator {
      sc := sc.(commandPosition := true);
    }
    sc, expand := VisitPlacedWord(aliases, sc, ts, i);
  }

  method VisitOperator(before: Scan, op: string) returns (sc: Scan)
    ensures sc == OnOperator(before, op)
  {
    sc := before;
    if sc.caseState == 3 {
      if op == ")" && !sc.clauseCommands {
        sc := sc.(clauseCommands := true);
      } else if op == ";;" {
        sc := sc.(clauseCommands := false, afterSeparator := true);
      }
    }
    if Redirection(op) {
      sc := sc.(expectRedir := true, heredocOperand := op == "<<" || op == "<<-");
    } else {
      sc := sc.(commandPosition := true, expectRedir := false, heredocOperand := false, trailingBlank := false);
    }
  }

  /** One expansion, with the scan state behind it. */
  method ReplaceAlias(aliases: Aliases, ts: seq<AToken>, i: nat, before: Scan) returns (tokens: seq<AToken>, sc: Scan)
    requires i < |ts| && ts[i].text in aliases
    ensures tokens == ExpandAt(aliases, ts, i) && sc == AfterExpand(aliases, before, ts[i])
  {
    hide Replace, ChainAppend, Collapse, TokensFrom;
    var value := aliases[ts[i].text];
    var repl := TokenizeWithSuppress(value, ChainAppend(ts[i].chain, ts[i].text));
    sc := before.(trailingBlank := HasTrailingBlank(value));
    tokens := ReplaceToken(ts, i, repl);
    if sc.trailingBlank && i + |repl| < |tokens| {
      tokens := tokens[i + |repl| := tokens[i + |repl|].(force := true)];
    }
    sc := sc.(commandPosition := true, expectRedir := false);
  }

  /** The scan ends for every alias table and every text, however the aliases refer to each other. */
  method RewriteSnippet(aliases: Aliases, text: string) returns (out: string, changed: bool)
    ensures out == Render(Expansion(aliases, text).0)
    ensures changed == Expansion(aliases, text).1
  {
    hide Judge, OnOperator, AfterExpand, ExpandAt, Tokenize, TokenOk, Weight, Render, MayExpand, AllOk;
    var tokens := TokenizeWithSuppress(text, None);
    CommandOk(aliases, text);
    changed := false;
    var sc := START;
    var i := 0;
    while i < |tokens|
      invariant i <= |tokens|
      invariant AllOk(aliases, text, tokens)
      invariant (var r := Rewritten(aliases, text, sc, tokens, i);
                 Expansion(aliases, text) == (r.0, changed || r.1))
      decreases Weight(aliases, tokens[i..])
    {
      StepLighter(aliases, tokens, i);
      if tokens[i].isOp {
        sc := VisitOperator(sc, tokens[i].text);
        i := i + 1;
      } else {
        var next, expand := VisitWord(aliases, sc, tokens, i);
        if expand {
          ExpandMeans(aliases, sc, tokens, i);
          ExpandOk(aliases, text, tokens, i);
          ExpandLighter(aliases, text, tokens, i);
          MayLookUp(aliases, tokens[i]);
          tokens, sc := ReplaceAlias(aliases, tokens, i, next);
          changed := true;
        } else {
          sc := next;
          i := i + 1;
        }
      }
    }
    out := RenderTokens(tokens);
  }

  lemma MayLookUp(aliases: Aliases, t: AToken)
    requires MayExpand(aliases, t)
    ensures t.text in aliases
  {
  }

  // ---------- consequences ----------

  /** No alias is expanded inside its own expansion: the aliases a token came out of are all different,
      and the token is a word of the youngest one's value. */
  lemma NoSelfExpansion(aliases: Aliases, text: string, k: nat)
    requires k < |Expansion(aliases, text).0|
    ensures var t := Expansion(aliases, text).0[k];
            && Distinct(Names(t.chain))
            && |Names(t.chain)| <= |aliases|
            && HasWord(Source(aliases, text, Names(t.chain)), t.text)
  {
    hide Rewritten, Tokenize, Names, Source, History, HasWord;
    var t := Expansion(aliases, text).0[k];
    assert TokenOk(aliases, text, t);
    DistinctWithin(Names(t.chain), aliases.Keys);
  }

  /** A word with what it unfolds to; `outer` lists the aliases it is inside of. */
  datatype Unfolding = Unfolding(word: string, outer: seq<string>, expanded: bool, parts: seq<Unfolding>)

  /** Each part of an expanded word is a word of the alias value, in order, and is inside that alias. */
  ghost predicate Sound(aliases: Aliases, u: Unfolding) {
    u.expanded ==>
      && u.word in aliases && u.word !in u.outer
      && |u.parts| == |Tokenize(aliases[u.word], None)|
      && forall k :: 0 <= k < |u.parts| ==>
           && u.parts[k].word == Tokenize(aliases[u.word], None)[k].text
           && u.parts[k].outer == u.outer + [u.word]
           && Sound(aliases, u.parts[k])
  }

  ghost function Leaves(us: seq<Unfolding>): seq<string> {
    if us == [] then []
    else (if us[0].expanded then Leaves(us[0].parts) else [us[0].word]) + Leaves(us[1..])
  }

  ghost function Texts(ts: seq<AToken>): seq<string> {
    if ts == [] then [] else [ts[0].text] + Texts(ts[1..])
  }

  ghost predicate Grown(aliases: Aliases, us: seq<Unfolding>, ts: seq<AToken>) {
    && |us| == |ts|
    && forall k :: 0 <= k < |us| ==>
         us[k].word == ts[k].text && us[k].outer == Names(ts[k].chain) && Sound(aliases, us[k])
  }

  lemma {:induction false} LeavesConcat(a: seq<Unfolding>, b: seq<Unfolding>)
    ensures Leaves(a + b) == Leaves(a) + Leaves(b)
    decreases |a|
  {
    if a == [] {
      assert a + b == b;
    } else {
      assert (a + b)[1..] == a[1..] + b;
      LeavesConcat(a[1..], b);
    }
  }

  lemma KeptWord(us: seq<Unfolding>, word: string, outer: seq<string>)
    ensures Leaves([Unfolding(word, outer, false, [])] + us) == [word] + Leaves(us)
  {
  }

  lemma ExpandedFirst(u: Unfolding, us: seq<Unfolding>)
    requires u.expanded
    ensures Leaves([u] + us) == Leaves(u.parts) + Leaves(us)
  {
    assert ([u] + us)[1..] == us;
  }

  lemma ExpandedWord(us: seq<Unfolding>, word: string, outer: seq<string>, n: nat)
    requires n <= |us|
    ensures Leaves([Unfolding(word, outer, true, us[..n])] + us[n..]) == Leaves(us)
  {
    hide Leaves;
    LeavesConcat(us[..n], us[n..]);
    assert us[..n] + us[n..] == us;
    ExpandedFirst(Unfolding(word, outer, true, us[..n]), us[n..]);
  }

  lemma ExpandedSound(aliases: Aliases, command: string, t: AToken, us: seq<Unfolding>, ts: seq<AToken>)
    requires TokenOk(aliases, command, t) && MayExpand(aliases, t)
    requires SameWords(ts, Replacement(aliases, t)) && Grown(aliases, us, ts)
    ensures Sound(aliases, Unfolding(t.text, Names(t.chain), true, us))
  {
    hide TokenOk, Names, ChainAppend, TokensFrom, Fits, Collapse, Plain;
    ReplacementOk(aliases, command, t);
    ReplacementShort(aliases, t);
    var s := Collapse(aliases[t.text], 0, '\0');
    var chain := ChainAppend(t.chain, t.text);
    SplitLength(s, 0, chain);
    forall k | 0 <= k < |us| ensures us[k].word == TokensFrom(s, 0, None)[k].text {
      SplitWith(s, 0, chain, k);
    }
  }

  lemma GrownParts(aliases: Aliases, us: seq<Unfolding>, ts: seq<AToken>, a: seq<AToken>, b: seq<AToken>)
    requires Grown(aliases, us, ts) && SameWords(ts, a + b)
    ensures Grown(aliases, us[..|a|], ts[..|a|]) && SameWords(ts[..|a|], a)
    ensures Grown(aliases, us[|a|..], b)
  {
    hide Sound, Names;
    forall k | 0 <= k < |b| ensures ts[|a| + k].chain == b[k].chain && ts[|a| + k].text == b[k].text {
      assert (a + b)[|a| + k] == b[k];
    }
    assert us[|a|..] == seq(|b|, k requires 0 <= k < |b| => us[|a| + k]);
  }

  lemma TextsStep(ts: seq<AToken>, i: nat)
    requires i < |ts|
    ensures Texts(ts[i..]) == [ts[i].text] + Texts(ts[i + 1..])
  {
  }

  /** The scan unfolds the words that are left: what it leaves are the leaves of their unfoldings. */
  lemma {:induction false} Unfolds(aliases: Aliases, command: string, sc: Scan, ts: seq<AToken>, i: nat)
    returns (us: seq<Unfolding>)
    requires i <= |ts| && AllOk(aliases, command, ts)
    ensures Grown(aliases, us, ts[i..])
    ensures (var out := Rewritten(aliases, command, sc, ts, i).0; i <= |out| && Leaves(us) == Texts(out[i..]))
    decreases Weight(aliases, ts[i..])
  {
    hide TokenOk, OnOperator, Judge, AfterExpand, ExpandAt, Replacement, Weight, MayExpand, Names, Leaves, Texts, Sound;
    if i == |ts| {
      us := [];
      NoUnfolding(ts, i);
    } else {
      StepLighter(aliases, ts, i);
      var verdict := if ts[i].isOp then Keep(OnOperator(sc, ts[i].text)) else Judge(aliases, sc, ts, i);
      if verdict.Keep? {
        var rest := Unfolds(aliases, command, verdict.sc, ts, i + 1);
        us := [Unfolding(ts[i].text, Names(ts[i].chain), false, [])] + rest;
        KeptWord(rest, ts[i].text, Names(ts[i].chain));
        var final := Rewritten(aliases, command, verdict.sc, ts, i + 1).0;
        RewrittenPrefix(aliases, command, verdict.sc, ts, i + 1);
        TextsStep(final, i);
        assert final[i] == final[..i + 1][i] == ts[..i + 1][i];
        KeptGrown(aliases, rest, ts, i);
      } else {
        ExpandMeans(aliases, sc, ts, i);
        ExpandOk(aliases, command, ts, i);
        ExpandLighter(aliases, command, ts, i);
        MayLookUp(aliases, ts[i]);
        var next := ExpandAt(aliases, ts, i);
        var repl := Replacement(aliases, ts[i]);
        var all := Unfolds(aliases, command, AfterExpand(aliases, verdict.sc, ts[i]), next, i);
        ExpandTail(aliases, ts, i);
        GrownParts(aliases, all, next[i..], repl, ts[i + 1..]);
        ExpandedSound(aliases, command, ts[i], all[..|repl|], next[i..][..|repl|]);
        us := [Unfolding(ts[i].text, Names(ts[i].chain), true, all[..|repl|])] + all[|repl|..];
        ExpandedWord(all, ts[i].text, Names(ts[i].chain), |repl|);
        assert ts[i..] == [ts[i]] + ts[i + 1..];
      }
    }
  }

  lemma KeptGrown(aliases: Aliases, us: seq<Unfolding>, ts: seq<AToken>, i: nat)
    requires i < |ts| && Grown(aliases, us, ts[i + 1..])
    ensures Grown(aliases, [Unfolding(ts[i].text, Names(ts[i].chain), false, [])] + us, ts[i..])
  {
    assert ts[i..] == [ts[i]] + ts[i + 1..];
  }

  lemma NoUnfolding(ts: seq<AToken>, i: nat)
    requires i == |ts|
    ensures Leaves([]) == Texts(ts[i..]) == []
  {
  }

  /** Alias expansion unfolds the words of the command in place: every word of the result is a leaf of an
      unfolding of a word of the command, in order and without loss, no alias being unfolded inside itself. */
  lemma ExpansionUnfolds(aliases: Aliases, text: string)
    ensures exists us :: Grown(aliases, us, Tokenize(text, None)) && Leaves(us) == Texts(Expansion(aliases, text).0)
  {
    hide Rewritten, Tokenize, TokenOk, Grown, Leaves, Texts;
    CommandOk(aliases, text);
    var us := Unfolds(aliases, text, START, Tokenize(text, None), 0);
    assert Tokenize(text, None)[0..] == Tokenize(text, None);
    assert Expansion(aliases, text).0[0..] == Expansion(aliases, text).0;
  }

  /** Words that are no alias, or an alias they came out of themselves, pass through unchanged. */
  lemma {:induction false} NothingToExpand(aliases: Aliases, command: string, sc: Scan, ts: seq<AToken>, i: nat)
    requires i <= |ts| && AllOk(aliases, command, ts)
    requires forall k :: i <= k < |ts| ==> ts[k].isOp || ts[k].text !in aliases || ts[k].text in Names(ts[k].chain)
    ensures Rewritten(aliases, command, sc, ts, i) == (ts, false)
    decreases |ts| - i
  {
    hide AllOk, OnOperator, Weight, OnWord, Names, Plain, IoNumber, AssignmentWord, Reserved, OpensCommand, Redirection;
    if i < |ts| {
      if ts[i].isOp {
        NothingToExpand(aliases, command, OnOperator(sc, ts[i].text), ts, i + 1);
      } else {
        NothingToExpand(aliases, command, Judge(aliases, sc, ts, i).sc, ts, i + 1);
      }
    }
  }

  lemma NoAliasNoChange(aliases: Aliases, text: string)
    requires forall name :: name in aliases ==> !HasWord(text, name)
    ensures !Expansion(aliases, text).1
    ensures Collapse(text, 0, '\0') == Render(Expansion(aliases, text).0) + Tail(Collapse(text, 0, '\0'), 0)
  {
    hide Rewritten, Collapse, Render, Tail, TokensFrom, AllOk;
    var ts := Tokenize(text, None);
    CommandOk(aliases, text);
    forall k | 0 <= k < |ts| ensures ts[k].text !in aliases {
      assert HasWord(text, ts[k].text);
    }
    NothingToExpand(aliases, text, START, ts, 0);
    var s := Collapse(text, 0, '\0');
    assert s[0..] == s;
    RenderUndoesTokens(s, 0, None);
  }

  /** The first word of a command is expanded whenever it is an alias and nothing else is meant by it. */
  lemma CommandWordExpands(aliases: Aliases, text: string)
    requires (var ts := Tokenize(text, None);
              ts != [] && !ts[0].isOp && Plain(ts[0].text) && ts[0].text in aliases
              && !AssignmentWord(ts[0].text) && !Reserved(ts[0].text, START)
              && !(IoNumber(ts[0].text) && |ts| > 1 && ts[1].isOp && Redirection(ts[1].text)))
    ensures Expansion(aliases, text).1
  {
    hide Tokenize, AllOk, Plain, AssignmentWord, IoNumber, Reserved, OnWord, Redirection, OpensCommand, Weight;
    var ts := Tokenize(text, None);
    CommandOk(aliases, text);
    FirstToken(text);
    assert Judge(aliases, START, ts, 0).Expand?;
  }

  lemma FirstToken(text: string)
    ensures forall k :: 0 <= k < |Tokenize(text, None)| ==>
              Tokenize(text, None)[k].chain == None && !Tokenize(text, None)[k].force
  {
    hide TokensFrom, Collapse, Fits;
    forall k | 0 <= k < |Tokenize(text, None)|
      ensures Tokenize(text, None)[k].chain == None && !Tokenize(text, None)[k].force
    {
      SplitWith(Collapse(text, 0, '\0'), 0, None, k);
    }
  }

  /** Where the scan gets to the word behind an expanded alias out of command position, as it does to an
      ordinary argument, that word is expanded as a command word if and only if the value ends in a blank. */
  lemma BlankValueReachesNextWord(aliases: Aliases, ts: seq<AToken>, i: nat, sc: Scan)
    requires i + 1 < |ts| && ts[i].text in aliases && !ts[i + 1].isOp && !ts[i + 1].force
    requires !sc.commandPosition && !sc.expectRedir && sc.caseState != 3 && '\n' !in ts[i + 1].ws
    requires Replacement(aliases, ts[i]) != []
    requires Plain(ts[i + 1].text) && ts[i + 1].text in aliases && ts[i + 1].chain.None?
    requires !AssignmentWord(ts[i + 1].text)
    requires !(IoNumber(ts[i + 1].text) && i + 2 < |ts| && ts[i + 2].isOp && Redirection(ts[i + 2].text))
    requires !Reserved(ts[i + 1].text, sc.(commandPosition := true))
    ensures (var next := ExpandAt(aliases, ts, i);
             var n := i + |Replacement(aliases, ts[i])|;
             var value := aliases[ts[i].text];
             && n < |next|
             && next[n].text == ts[i + 1].text
             && (Judge(aliases, sc, next, n).Expand? <==> value != "" && value[|value| - 1] in {' ', '\t'}))
  {
    hide Replacement, Plain, AssignmentWord, IoNumber, Reserved, OnWord, Redirection, OpensCommand;
  }
}
