/** Which words alias expansion replaces, said of texts and aliases: the states of the scan are not mentioned. */
module AliasLaws {
  import opened Common
  import opened Text
  import opened AliasTokens
  import opened AliasSpelling
  import opened AliasRewrite

  // ---------- which words are in command position ----------

  predicate HereDocument(op: string) {
    op == "<<" || op == "<<-"
  }

  predicate Opens(word: string) {
    word in ["then", "do", "else", "elif"]
  }

  /** A redirection operator other than those of here-documents: the word behind it is its operand. */
  predicate TakesFile(t: AToken) {
    t.isOp && t.text in ["<", ">", ">>", "<&", ">&", "<>"]
  }

  predicate Redirects(t: AToken) {
    TakesFile(t) || (t.isOp && HereDocument(t.text))
  }

  /** A command may begin in front of token `k`: at the start of the text, behind an operator, behind a word that
      opens a command, behind an assignment or the number of a redirection that stand there themselves; and
      a redirection with its operand makes no difference. */
  predicate CommandBegins(ts: seq<AToken>, k: nat)
    requires k <= |ts|
    decreases k, 0
  {
    if k == 0 then true
    else
      var p := ts[k - 1];
      if p.isOp then !Redirects(p) || CommandBegins(ts, k - 1)
      else if k >= 2 && TakesFile(ts[k - 2]) then CommandBegins(ts, k - 1)
      else if Opens(p.text) then true
      else
        InCommandPosition(ts, k - 1)
        && (AssignmentWord(p.text) || (IoNumber(p.text) && k < |ts| && Redirects(ts[k])))
  }

  /** The word `k` may name a command; a word that a newline is in front of and the delimiter of a here-document
      always may, and the operand of another redirection never. */
  predicate InCommandPosition(ts: seq<AToken>, k: nat)
    requires k < |ts|
    decreases k, 1
  {
    if k > 0 && TakesFile(ts[k - 1]) then false
    else if k > 0 && Redirects(ts[k - 1]) then true
    else CommandBegins(ts, k) || '\n' in ts[k].ws
  }

  predicate Keyword(word: string) {
    word in ["if", "then", "elif", "else", "fi", "while", "until", "for", "in", "do", "done", "case", "esac"]
  }

  /** A word that is an alias, stands where a command may be named, and nothing else is meant by it. */
  predicate CommandAlias(aliases: Aliases, ts: seq<AToken>, k: nat)
    requires k < |ts|
  {
    var w := ts[k].text;
    && !ts[k].isOp && InCommandPosition(ts, k) && w in aliases
    && w != "" && (forall i :: 0 <= i < |w| ==> w[i] != '/' && !Quoting(w[i]))
    && !AssignmentWord(w)
    && !(IoNumber(w) && k + 1 < |ts| && Redirects(ts[k + 1]))
    && !Keyword(w)
  }

  /** No `for` and no `case` is begun before token `k`: their own words are looked at further below. */
  predicate NoForOrCase(ts: seq<AToken>, k: nat)
    requires k <= |ts|
  {
    forall j :: 0 <= j < k && !ts[j].isOp && InCommandPosition(ts, j) ==> ts[j].text != "for" && ts[j].text != "case"
  }

  // ---------- the scan, followed along the text ----------

  /** The state in which the scan gets to token `k` if it has expanded nothing. */
  predicate Tracks(sc: Scan, ts: seq<AToken>, k: nat)
    requires k <= |ts|
  {
    && sc.forState == 0 && sc.caseState == 0 && !sc.trailingBlank
    && sc.commandPosition == CommandBegins(ts, k)
    && (k == |ts| || !ts[k].isOp ==>
          && sc.expectRedir == (k > 0 && Redirects(ts[k - 1]))
          && sc.heredocOperand == (k > 0 && Redirects(ts[k - 1]) && !TakesFile(ts[k - 1])))
  }

  lemma TrackOperator(sc: Scan, ts: seq<AToken>, k: nat)
    requires k < |ts| && ts[k].isOp && Tracks(sc, ts, k)
    ensures Tracks(OnOperator(sc, ts[k].text), ts, k + 1)
  {
    assert Redirection(ts[k].text) <==> Redirects(ts[k]);
    assert CommandBegins(ts, k + 1) <==> !Redirects(ts[k]) || CommandBegins(ts, k);
    hide CommandBegins;
  }

  /** Nothing of `for`, `case` or an expansion is under way. */
  predicate Idle(sc: Scan) {
    sc.forState == 0 && sc.caseState == 0 && !sc.trailingBlank
  }

  lemma KeptWord(sc: Scan, word: string)
    requires Idle(sc) && (sc.commandPosition ==> word != "for" && word != "case")
    ensures OnWord(sc, word) == sc.(commandPosition := Opens(word))
  {
  }

  /** A word is placed, unless it is the operand of a redirection. */
  lemma PlacedWord(aliases: Aliases, sc: Scan, ts: seq<AToken>, k: nat)
    requires k < |ts| && !ts[k].isOp && Tracks(sc, ts, k) && ts[k].chain.None? && !ts[k].force
    ensures (var placed := sc.(expectRedir := false, heredocOperand := false,
                               commandPosition := InCommandPosition(ts, k));
             Judge(aliases, sc, ts, k)
             == if k > 0 && TakesFile(ts[k - 1]) then Keep(sc.(expectRedir := false))
                else JudgeWord(aliases, placed, ts, k))
  {
    hide CommandBegins, JudgeWord;
  }

  lemma JudgedWord(aliases: Aliases, sc: Scan, ts: seq<AToken>, k: nat)
    requires k < |ts| && !ts[k].isOp && Idle(sc) && ts[k].chain.None?
    requires sc.commandPosition == InCommandPosition(ts, k) && NoForOrCase(ts, k + 1)
    ensures (var w := ts[k].text;
             JudgeWord(aliases, sc, ts, k)
             == if sc.commandPosition && AssignmentWord(w) then Keep(sc)
                else if sc.commandPosition && IoNumber(w) && k + 1 < |ts| && Redirects(ts[k + 1]) then
                  Keep(sc.(expectRedir := true))
                else if CommandAlias(aliases, ts, k) then Expand(sc)
                else Keep(sc.(commandPosition := Opens(w))))
  {
    var w := ts[k].text;
    hide InCommandPosition, IoNumber, AssignmentWord, OnWord;
    KeptWord(sc, w);
    if Opens(w) {
      KeptWord(sc.(commandPosition := true), w);
    }
    assert k + 1 < |ts| ==> (ts[k + 1].isOp && Redirection(ts[k + 1].text) <==> Redirects(ts[k + 1]));
  }

  /** The scan takes a word for a command alias exactly when it is one, and otherwise goes on. */
  lemma TrackWord(aliases: Aliases, sc: Scan, ts: seq<AToken>, k: nat)
    requires k < |ts| && !ts[k].isOp && Tracks(sc, ts, k) && NoForOrCase(ts, k + 1)
    requires ts[k].chain.None? && !ts[k].force
    ensures Judge(aliases, sc, ts, k).Expand? <==> CommandAlias(aliases, ts, k)
    ensures Judge(aliases, sc, ts, k).Keep? ==> Tracks(Judge(aliases, sc, ts, k).sc, ts, k + 1)
  {
    hide CommandBegins, IoNumber, AssignmentWord, Judge, JudgeWord;
    PositionBehindWord(ts, k);
    PlacedWord(aliases, sc, ts, k);
    if !(k > 0 && TakesFile(ts[k - 1])) {
      JudgedWord(aliases, sc.(expectRedir := false, heredocOperand := false,
                              commandPosition := InCommandPosition(ts, k)), ts, k);
    }
  }

  lemma PositionBehindWord(ts: seq<AToken>, k: nat)
    requires k < |ts| && !ts[k].isOp
    ensures CommandBegins(ts, k + 1) ==
            if k > 0 && TakesFile(ts[k - 1]) then CommandBegins(ts, k)
            else
              || Opens(ts[k].text)
              || (&& InCommandPosition(ts, k)
                  && (AssignmentWord(ts[k].text) || (IoNumber(ts[k].text) && k + 1 < |ts| && Redirects(ts[k + 1]))))
  {
  }

  /** Up to the first command alias the scan only looks. */
  lemma {:induction false} ScanReaches(aliases: Aliases, text: string, ts: seq<AToken>, k: nat) returns (sc: Scan)
    requires ts == Tokenize(text, None) && k <= |ts| && NoForOrCase(ts, k) && AllOk(aliases, text, ts)
    requires forall j :: 0 <= j < k ==> !CommandAlias(aliases, ts, j)
    ensures Tracks(sc, ts, k)
    ensures Rewritten(aliases, text, START, ts, 0) == Rewritten(aliases, text, sc, ts, k)
  {
    hide Tokenize, AllOk, Judge, OnOperator, CommandAlias, Weight, Tracks, MayExpand, AfterExpand, ExpandAt;
    if k == 0 {
      sc := START;
      TrackStart(ts);
    } else {
      var before := ScanReaches(aliases, text, ts, k - 1);
      FirstToken(text);
      if ts[k - 1].isOp {
        TrackOperator(before, ts, k - 1);
        sc := OnOperator(before, ts[k - 1].text);
      } else {
        TrackWord(aliases, before, ts, k - 1);
        sc := Judge(aliases, before, ts, k - 1).sc;
      }
    }
  }

  lemma TrackStart(ts: seq<AToken>)
    ensures Tracks(START, ts, 0)
  {
  }

  /** Alias expansion changes a text exactly when one of its words is an alias that stands where a command may be
      named, with nothing else meant by it; arguments and operands are left alone, whatever they name. */
  lemma ExpandsExactly(aliases: Aliases, text: string)
    requires NoForOrCase(Tokenize(text, None), |Tokenize(text, None)|)
    ensures (var ts := Tokenize(text, None);
             && (Expansion(aliases, text).1 <==> exists k :: 0 <= k < |ts| && CommandAlias(aliases, ts, k))
             && (!Expansion(aliases, text).1 ==> Expansion(aliases, text).0 == ts))
  {
    hide Tokenize, Rewritten, CommandAlias, NoForOrCase;
    var ts := Tokenize(text, None);
    if k :| 0 <= k < |ts| && CommandAlias(aliases, ts, k) {
      var first := FirstAlias(aliases, ts, k);
      EarlierStill(ts, first);
      FirstIsReplaced(aliases, text, first);
    } else {
      CommandOk(aliases, text);
      var sc := ScanReaches(aliases, text, ts, |ts|);
      AtTheEnd(aliases, text, sc, ts);
    }
  }

  lemma EarlierStill(ts: seq<AToken>, k: nat)
    requires k <= |ts| && NoForOrCase(ts, |ts|)
    ensures NoForOrCase(ts, k)
  {
  }

  lemma AtTheEnd(aliases: Aliases, text: string, sc: Scan, ts: seq<AToken>)
    requires AllOk(aliases, text, ts)
    ensures Rewritten(aliases, text, sc, ts, |ts|) == (ts, false)
  {
  }

  lemma {:induction false} FirstAlias(aliases: Aliases, ts: seq<AToken>, k: nat) returns (first: nat)
    requires k < |ts| && CommandAlias(aliases, ts, k)
    ensures first <= k && CommandAlias(aliases, ts, first)
    ensures forall j :: 0 <= j < first ==> !CommandAlias(aliases, ts, j)
  {
    hide CommandAlias;
    if j :| 0 <= j < k && CommandAlias(aliases, ts, j) {
      first := FirstAlias(aliases, ts, j);
    } else {
      first := k;
    }
  }

  lemma AliasIsWord(aliases: Aliases, ts: seq<AToken>, k: nat)
    requires k < |ts| && CommandAlias(aliases, ts, k) && NoForOrCase(ts, k)
    ensures !ts[k].isOp && ts[k].text in aliases && NoForOrCase(ts, k + 1)
  {
  }

  /** The first such word is replaced, and everything before it stays. */
  lemma FirstIsReplaced(aliases: Aliases, text: string, k: nat)
    requires k < |Tokenize(text, None)| && NoForOrCase(Tokenize(text, None), k)
    requires CommandAlias(aliases, Tokenize(text, None), k)
    requires forall j :: 0 <= j < k ==> !CommandAlias(aliases, Tokenize(text, None), j)
    ensures Expansion(aliases, text).1
    ensures k <= |Expansion(aliases, text).0| && Expansion(aliases, text).0[..k] == Tokenize(text, None)[..k]
  {
    hide Tokenize, CommandAlias, Tracks, NoForOrCase, AllOk, Rewritten;
    var ts := Tokenize(text, None);
    CommandOk(aliases, text);
    var sc := ScanReaches(aliases, text, ts, k);
    ReplacedHere(aliases, text, sc, ts, k);
    RewrittenPrefix(aliases, text, sc, ts, k);
  }

  /** The first word of a value is in command position. */
  predicate CommandNext(sc: Scan) {
    sc.commandPosition && !sc.expectRedir && sc.forState == 0 && sc.caseState == 0
  }

  lemma ReadyForCommand(aliases: Aliases, sc: Scan, ts: seq<AToken>, k: nat)
    requires k < |ts| && Tracks(sc, ts, k) && ts[k].text in aliases
    ensures (var verdict := Judge(aliases, sc, ts, k);
             verdict.Expand? ==> CommandNext(AfterExpand(aliases, verdict.sc, ts[k])))
  {
    hide OnWord, CommandBegins, IoNumber, AssignmentWord;
  }

  lemma ReplacedHere(aliases: Aliases, text: string, sc: Scan, ts: seq<AToken>, k: nat)
    requires k < |ts| && ts == Tokenize(text, None) && AllOk(aliases, text, ts) && Tracks(sc, ts, k)
    requires NoForOrCase(ts, k) && CommandAlias(aliases, ts, k)
    ensures !ts[k].isOp && ts[k].text in aliases && MayExpand(aliases, ts[k])
    ensures AllOk(aliases, text, ExpandAt(aliases, ts, k)) && k <= |ExpandAt(aliases, ts, k)|
    ensures exists next :: CommandNext(next) &&
                           Rewritten(aliases, text, sc, ts, k)
                           == (Rewritten(aliases, text, next, ExpandAt(aliases, ts, k), k).0, true)
  {
    ReadyForCommand(aliases, sc, ts, k);
    hide Tokenize, Judge, CommandAlias, Weight, Tracks, TokenOk, NoForOrCase, MayExpand, ExpandAt, AfterExpand;
    FirstToken(text);
    AliasIsWord(aliases, ts, k);
    TrackWord(aliases, sc, ts, k);
    var verdict := Judge(aliases, sc, ts, k);
    ExpandMeans(aliases, sc, ts, k);
    ExpandOk(aliases, text, ts, k);
    ExpandLighter(aliases, text, ts, k);
    var next := AfterExpand(aliases, verdict.sc, ts[k]);
    assert Rewritten(aliases, text, sc, ts, k)
        == (Rewritten(aliases, text, next, ExpandAt(aliases, ts, k), k).0, true);
  }

  /** A text that begins and ends as its tokens do. */
  predicate Tidy(v: string) {
    v != "" && !IsSpace(v[|v| - 1]) && '\\' !in v
  }

  lemma {:induction false} RenderConcat(a: seq<AToken>, b: seq<AToken>)
    ensures Render(a + b) == Render(a) + Render(b)
  {
    if a == [] {
      assert a + b == b;
    } else {
      assert (a + b)[1..] == a[1..] + b;
      RenderConcat(a[1..], b);
    }
  }

  /** A tidy value is what its tokens render to. */
  lemma ValueRenders(aliases: Aliases, t: AToken)
    requires t.text in aliases && Tidy(aliases[t.text])
    ensures Render(Replacement(aliases, t)) == aliases[t.text] && Replacement(aliases, t) != []
  {
    hide TokensFrom, Tail, Render, ChainAppend;
    var v := aliases[t.text];
    NothingToCollapse(v, 0, '\0');
    assert v[0..] == v;
    var chain := ChainAppend(t.chain, t.text);
    RenderUndoesTokens(v, 0, chain);
    var rendered, tail := Render(TokensFrom(v, 0, chain)), Tail(v, 0);
    if tail != "" {
      LastOfBoth(rendered, tail);
      assert false;
    }
    EmptyRenders();
  }

  lemma LastOfBoth(a: string, b: string)
    requires b != ""
    ensures (a + b)[|a + b| - 1] == b[|b| - 1]
  {
  }

  lemma EmptyRenders()
    ensures Render([]) == ""
  {
  }

  lemma RenderReplaced(ts: seq<AToken>, k: nat, repl: seq<AToken>)
    requires k < |ts| && repl != []
    ensures Render(Replace(ts, k, repl)) == Render(ts[..k]) + (ts[k].ws + Render(repl)) + Render(ts[k + 1..])
  {
    var first := repl[0].(ws := ts[k].ws + repl[0].ws);
    assert Replace(ts, k, repl) == ts[..k] + (([first] + repl[1..]) + ts[k + 1..]);
    RenderFirst(first, repl[1..]);
    RenderFirst(repl[0], repl[1..]);
    assert [repl[0]] + repl[1..] == repl;
    hide Render, Replace;
    RenderConcat([first] + repl[1..], ts[k + 1..]);
    RenderConcat(ts[..k], ([first] + repl[1..]) + ts[k + 1..]);
  }

  /** The tokens of the value are all words that stay. */
  lemma ValueStays(aliases: Aliases, command: string, t: AToken)
    requires TokenOk(aliases, command, t) && MayExpand(aliases, t)
    requires forall w :: w in Tokenize(aliases[t.text], None) ==>
               w.isOp || w.text !in aliases || w.text == t.text || w.text in Names(t.chain)
    ensures forall w :: w in Replacement(aliases, t) ==> w.isOp || w.text !in aliases || w.text in Names(w.chain)
  {
    hide TokensFrom, ChainAppend, Names, Fits, Collapse, TokenOk, Plain;
    ReplacementOk(aliases, command, t);
    ReplacementShort(aliases, t);
    var chain := ChainAppend(t.chain, t.text);
    assert Names(chain) == Names(t.chain) + [t.text];
    var s := Collapse(aliases[t.text], 0, '\0');
    forall w | w in Replacement(aliases, t) ensures w.isOp || w.text !in aliases || w.text in Names(w.chain) {
      var j :| 0 <= j < |TokensFrom(s, 0, chain)| && TokensFrom(s, 0, chain)[j] == w;
      SplitWith(s, 0, chain, j);
      assert TokensFrom(s, 0, None)[j] in Tokenize(aliases[t.text], None);
    }
  }

  lemma NoNames()
    ensures Names(None) == []
  {
  }

  lemma RestStays(aliases: Aliases, ts: seq<AToken>, k: nat)
    requires k < |ts| && ts[k].text in aliases && Replacement(aliases, ts[k]) != [] && Tidy(aliases[ts[k].text])
    requires forall w :: w in Replacement(aliases, ts[k]) ==> w.isOp || w.text !in aliases || w.text in Names(w.chain)
    requires forall j :: k < j < |ts| ==> ts[j].isOp || ts[j].text !in aliases
    ensures ExpandAt(aliases, ts, k) == Replace(ts, k, Replacement(aliases, ts[k]))
    ensures (var out := ExpandAt(aliases, ts, k);
             forall j :: k <= j < |out| ==>
               out[j].isOp || out[j].text !in aliases || out[j].text in Names(out[j].chain))
  {
    hide Replacement, Names, ForceAt;
    var repl := Replacement(aliases, ts[k]);
    var out := Replace(ts, k, repl);
    forall j | k <= j < |out|
      ensures out[j].isOp || out[j].text !in aliases || out[j].text in Names(out[j].chain)
    {
      if j < k + |repl| {
        assert repl[j - k] in repl;
      } else {
        assert out[j] == ts[j - |repl| + 1];
      }
    }
  }

  /** Where no word of its value and none behind it is another alias, the word is replaced by its value and nothing
      else changes. */
  lemma OneAliasReplaced(aliases: Aliases, text: string, k: nat)
    requires k < |Tokenize(text, None)| && NoForOrCase(Tokenize(text, None), k)
    requires CommandAlias(aliases, Tokenize(text, None), k)
    requires forall j :: 0 <= j < k ==> !CommandAlias(aliases, Tokenize(text, None), j)
    requires (var ts := Tokenize(text, None);
              var value := aliases[ts[k].text];
              && Tidy(value)
              && (forall w :: w in Tokenize(value, None) ==> w.isOp || w.text !in aliases || w.text == ts[k].text)
              && (forall j :: k < j < |ts| ==> ts[j].isOp || ts[j].text !in aliases))
    ensures (var ts := Tokenize(text, None);
             Render(Expansion(aliases, text).0)
             == Render(ts[..k]) + (ts[k].ws + aliases[ts[k].text]) + Render(ts[k + 1..]))
  {
    hide Tokenize, CommandAlias, Tracks, NoForOrCase, TokenOk, Rewritten, ExpandAt, Replace, Replacement, Render,
      MayExpand, Tidy;
    var ts := Tokenize(text, None);
    CommandOk(aliases, text);
    FirstToken(text);
    var sc := ScanReaches(aliases, text, ts, k);
    ReplacedHere(aliases, text, sc, ts, k);
    var out := ExpandAt(aliases, ts, k);
    var next :| CommandNext(next)
                && Rewritten(aliases, text, sc, ts, k) == (Rewritten(aliases, text, next, out, k).0, true);
    ValueRenders(aliases, ts[k]);
    ValueStays(aliases, text, ts[k]);
    RestStays(aliases, ts, k);
    NothingToExpand(aliases, text, next, out, k);
    RenderReplaced(ts, k, Replacement(aliases, ts[k]));
  }

  // ---------- simple commands, `for` and `case` ----------

  /** A word with no newline in front of it that opens no command. */
  predicate Argument(t: AToken) {
    !t.isOp && '\n' !in t.ws && !Opens(t.text)
  }

  /** The arguments of a command are left alone, whatever aliases they name. */
  lemma ArgumentsStay(aliases: Aliases, text: string)
    requires (var ts := Tokenize(text, None);
              && ts != [] && !ts[0].isOp && ts[0].text !in aliases && !AssignmentWord(ts[0].text)
              && !Opens(ts[0].text) && ts[0].text != "for" && ts[0].text != "case"
              && forall k :: 0 < k < |ts| ==> Argument(ts[k]))
    ensures Expansion(aliases, text) == (Tokenize(text, None), false)
  {
    hide Tokenize, Expansion, AssignmentWord, Plain, IoNumber;
    var ts := Tokenize(text, None);
    forall k | 0 <= k < |ts| ensures k > 0 ==> !InCommandPosition(ts, k) {
      OutOfPosition(ts, k);
    }
    ExpandsExactly(aliases, text);
  }

  lemma {:induction false} OutOfPosition(ts: seq<AToken>, k: nat)
    requires 0 <= k < |ts| && !ts[0].isOp && !AssignmentWord(ts[0].text) && !Opens(ts[0].text)
    requires forall j :: 0 < j < |ts| ==> Argument(ts[j])
    ensures k > 0 ==> !InCommandPosition(ts, k)
  {
    hide AssignmentWord, IoNumber;
    if k > 1 {
      OutOfPosition(ts, k - 1);
    }
  }

  lemma KeepsOn(aliases: Aliases, text: string, sc: Scan, ts: seq<AToken>, i: nat, next: Scan)
    requires i < |ts| && AllOk(aliases, text, ts)
    requires if ts[i].isOp then next == OnOperator(sc, ts[i].text) else Judge(aliases, sc, ts, i) == Keep(next)
    ensures Rewritten(aliases, text, sc, ts, i) == Rewritten(aliases, text, next, ts, i + 1)
  {
    hide AllOk, Judge, OnOperator, Weight, AfterExpand, ExpandAt;
  }

  lemma ExpandsHere(aliases: Aliases, text: string, sc: Scan, ts: seq<AToken>, i: nat)
    requires i < |ts| && AllOk(aliases, text, ts) && !ts[i].isOp && Judge(aliases, sc, ts, i).Expand?
    ensures Rewritten(aliases, text, sc, ts, i).1
  {
    hide AllOk, Judge, Weight, AfterExpand, ExpandAt;
  }

  /** A word that is an alias and nothing else, apart from its position. */
  predicate PlainAlias(aliases: Aliases, ts: seq<AToken>, k: nat)
    requires k < |ts|
  {
    && !ts[k].isOp && ts[k].text in aliases && Plain(ts[k].text) && !AssignmentWord(ts[k].text)
    && !(IoNumber(ts[k].text) && k + 1 < |ts| && Redirects(ts[k + 1]))
  }

  /** `for` name `in` words: the tokens up to `n`. */
  predicate ForHeader(ts: seq<AToken>, n: nat) {
    && 3 <= n <= |ts| && !ts[0].isOp && ts[0].text == "for" && ts[2].text == "in"
    && forall j :: 0 < j < n ==> Argument(ts[j])
  }

  /** An argument stays, unless it is inside the patterns of a `case`. */
  lemma ArgumentKept(aliases: Aliases, sc: Scan, ts: seq<AToken>, i: nat)
    requires i < |ts| && Argument(ts[i]) && ts[i].chain.None? && !ts[i].force
    requires !sc.commandPosition && !sc.expectRedir && sc.caseState != 3
    ensures Judge(aliases, sc, ts, i) == Keep(OnWord(sc, ts[i].text))
  {
    hide OnWord, Expandable, IoNumber, AssignmentWord;
  }

  /** A word with a meaning of its own where it stands stays. */
  lemma KeywordKept(aliases: Aliases, sc: Scan, ts: seq<AToken>, i: nat)
    requires i < |ts| && !ts[i].isOp && ts[i].chain.None? && !ts[i].force && sc.commandPosition && !sc.expectRedir
    requires Reserved(ts[i].text, sc) && !AssignmentWord(ts[i].text) && !IoNumber(ts[i].text)
    ensures Judge(aliases, sc, ts, i) == Keep(OnWord(sc, ts[i].text))
  {
    hide OnWord, IoNumber, AssignmentWord, Reserved;
    assert InPosition(sc, ts[i]) == sc;
  }

  lemma KeywordTexts()
    ensures forall w :: w in ["for", "case", "do"] ==> !AssignmentWord(w) && !IoNumber(w)
  {
  }

  /** The state of the scan inside the words of a `for`. */
  const FOR_WORDS := Scan(false, false, false, false, false, false, 3, 0)

  lemma ForStates(name: string)
    requires !Opens(name)
    ensures (var named := FOR_WORDS.(forState := 1);
             var wanted := FOR_WORDS.(forState := 2);
             && Reserved("for", START) && OnWord(START, "for") == named
             && OnWord(named, name) == wanted && OnWord(wanted, "in") == FOR_WORDS
             && OnWord(FOR_WORDS, name) == FOR_WORDS)
  {
  }

  lemma ForBegins(aliases: Aliases, text: string, ts: seq<AToken>, n: nat)
    requires ts == Tokenize(text, None) && AllOk(aliases, text, ts) && ForHeader(ts, n)
    ensures Rewritten(aliases, text, START, ts, 0) == Rewritten(aliases, text, FOR_WORDS, ts, 3)
  {
    hide Tokenize, AllOk, IoNumber, Rewritten, AssignmentWord, Judge, OnWord, Reserved;
    FirstToken(text);
    KeywordTexts();
    ForStates(ts[1].text);
    var named, wanted := FOR_WORDS.(forState := 1), FOR_WORDS.(forState := 2);
    KeywordKept(aliases, START, ts, 0);
    KeepsOn(aliases, text, START, ts, 0, named);
    ArgumentKept(aliases, named, ts, 1);
    KeepsOn(aliases, text, named, ts, 1, wanted);
    ArgumentKept(aliases, wanted, ts, 2);
    KeepsOn(aliases, text, wanted, ts, 2, FOR_WORDS);
  }

  lemma {:induction false} ForWordsStay(aliases: Aliases, text: string, ts: seq<AToken>, n: nat, i: nat)
    requires ts == Tokenize(text, None) && AllOk(aliases, text, ts) && ForHeader(ts, n) && 3 <= i <= n
    ensures Rewritten(aliases, text, FOR_WORDS, ts, i) == Rewritten(aliases, text, FOR_WORDS, ts, n)
    decreases n - i
  {
    hide Tokenize, AllOk, Rewritten, Judge, OnWord, Reserved;
    if i < n {
      FirstToken(text);
      ForStates(ts[i].text);
      ArgumentKept(aliases, FOR_WORDS, ts, i);
      KeepsOn(aliases, text, FOR_WORDS, ts, i, FOR_WORDS);
      ForWordsStay(aliases, text, ts, n, i + 1);
    }
  }

  /** The words of a `for` are over, and `do` opens its body. */
  predicate BodyBehind(ts: seq<AToken>, n: nat) {
    && n + 2 < |ts| && ts[n].isOp && ts[n].text == ";" && !ts[n + 1].isOp && ts[n + 1].text == "do"
  }

  const FOR_BODY := Scan(true, false, false, false, false, false, 4, 0)

  lemma BodyStates()
    ensures (var separated := FOR_WORDS.(commandPosition := true);
             && OnOperator(FOR_WORDS, ";") == separated
             && Reserved("do", separated) && OnWord(separated, "do") == FOR_BODY)
  {
  }

  lemma NotReservedInBody(word: string)
    requires !Keyword(word)
    ensures !Reserved(word, FOR_BODY)
  {
  }

  /** A plain alias in command position is expanded, unless it is reserved there. */
  lemma AliasJudged(aliases: Aliases, sc: Scan, ts: seq<AToken>, i: nat)
    requires i < |ts| && PlainAlias(aliases, ts, i) && ts[i].text !in Names(ts[i].chain) && !ts[i].force
    requires sc.commandPosition && !sc.expectRedir && !Reserved(ts[i].text, sc)
    requires sc.caseState == 3 ==> sc.clauseCommands
    ensures Judge(aliases, sc, ts, i).Expand?
  {
    hide OnWord, IoNumber, AssignmentWord, Reserved, Plain, Names;
    assert InPosition(sc, ts[i]) == sc;
    assert i + 1 < |ts| && ts[i + 1].isOp ==> (Redirection(ts[i + 1].text) <==> Redirects(ts[i + 1]));
  }

  lemma BodyBegins(aliases: Aliases, text: string, ts: seq<AToken>, n: nat)
    requires ts == Tokenize(text, None) && AllOk(aliases, text, ts) && BodyBehind(ts, n)
    ensures Rewritten(aliases, text, FOR_WORDS, ts, n) == Rewritten(aliases, text, FOR_BODY, ts, n + 2)
    ensures PlainAlias(aliases, ts, n + 2) && !Keyword(ts[n + 2].text) ==>
              Judge(aliases, FOR_BODY, ts, n + 2).Expand?
  {
    hide Tokenize, AllOk, IoNumber, Rewritten, AssignmentWord, Judge, OnWord, Reserved, PlainAlias, OnOperator, Keyword;
    FirstToken(text);
    KeywordTexts();
    BodyStates();
    var separated := FOR_WORDS.(commandPosition := true);
    KeepsOn(aliases, text, FOR_WORDS, ts, n, separated);
    KeywordKept(aliases, separated, ts, n + 1);
    KeepsOn(aliases, text, separated, ts, n + 1, FOR_BODY);
    if PlainAlias(aliases, ts, n + 2) && !Keyword(ts[n + 2].text) {
      assert !Reserved(ts[n + 2].text, FOR_BODY) by {
        NotReservedInBody(ts[n + 2].text);
      }
      NoNames();
      AliasJudged(aliases, FOR_BODY, ts, n + 2);
    }
  }

  /** The name and the words of a `for` are left alone, whatever aliases they name, and so is its `do`; the command
      behind `do` is expanded if it is an alias. */
  lemma ForExpandsItsBody(aliases: Aliases, text: string, n: nat)
    requires ForHeader(Tokenize(text, None), n)
    ensures (var ts := Tokenize(text, None);
             && n <= |Expansion(aliases, text).0| && Expansion(aliases, text).0[..n] == ts[..n]
             && (n == |ts| ==> !Expansion(aliases, text).1)
             && (BodyBehind(ts, n) ==>
                   && n + 2 <= |Expansion(aliases, text).0| && Expansion(aliases, text).0[..n + 2] == ts[..n + 2]
                   && (PlainAlias(aliases, ts, n + 2) && !Keyword(ts[n + 2].text) ==> Expansion(aliases, text).1)))
  {
    hide Tokenize, AllOk, Rewritten, Judge, Plain, IoNumber, AssignmentWord, Argument;
    var ts := Tokenize(text, None);
    CommandOk(aliases, text);
    FirstToken(text);
    ForBegins(aliases, text, ts, n);
    ForWordsStay(aliases, text, ts, n, 3);
    RewrittenPrefix(aliases, text, FOR_WORDS, ts, n);
    if n == |ts| {
      AtTheEnd(aliases, text, FOR_WORDS, ts);
    }
    if BodyBehind(ts, n) {
      BodyBegins(aliases, text, ts, n);
      RewrittenPrefix(aliases, text, FOR_BODY, ts, n + 2);
      if Judge(aliases, FOR_BODY, ts, n + 2).Expand? && PlainAlias(aliases, ts, n + 2) {
        ExpandsHere(aliases, text, FOR_BODY, ts, n + 2);
      }
    }
  }

  /** `case` word `in` pattern `)`, and a word behind it. */
  predicate CaseHeader(ts: seq<AToken>) {
    && |ts| > 5 && !ts[0].isOp && ts[0].text == "case" && ts[2].text == "in"
    && Argument(ts[1]) && Argument(ts[2]) && !ts[3].isOp && !Opens(ts[3].text) && ts[3].text != "esac"
    && ts[3].text != "for" && !AssignmentWord(ts[3].text) && ts[4].isOp && ts[4].text == ")" && !ts[5].isOp
  }

  const PATTERN := Scan(false, false, false, false, false, false, 0, 3)
  const CLAUSE := Scan(true, false, false, false, true, false, 0, 3)

  lemma CaseStates(word: string)
    requires !Opens(word)
    ensures (var subject, wanted := PATTERN.(caseState := 1), PATTERN.(caseState := 2);
             && Reserved("case", START) && OnWord(START, "case") == subject
             && OnWord(subject, word) == wanted && OnWord(wanted, "in") == PATTERN
             && OnOperator(PATTERN, ")") == CLAUSE)
    ensures word != "esac" && word != "for" ==> OnWord(PATTERN.(commandPosition := true), word) == PATTERN
  {
  }

  lemma CaseBegins(aliases: Aliases, text: string, ts: seq<AToken>)
    requires ts == Tokenize(text, None) && AllOk(aliases, text, ts) && CaseHeader(ts)
    ensures Rewritten(aliases, text, START, ts, 0) == Rewritten(aliases, text, PATTERN, ts, 3)
  {
    hide Tokenize, AllOk, IoNumber, Rewritten, AssignmentWord, Judge, OnWord, Reserved, OnOperator;
    FirstToken(text);
    KeywordTexts();
    CaseStates(ts[1].text);
    var subject, wanted := PATTERN.(caseState := 1), PATTERN.(caseState := 2);
    KeywordKept(aliases, START, ts, 0);
    KeepsOn(aliases, text, START, ts, 0, subject);
    ArgumentKept(aliases, subject, ts, 1);
    KeepsOn(aliases, text, subject, ts, 1, wanted);
    ArgumentKept(aliases, wanted, ts, 2);
    KeepsOn(aliases, text, wanted, ts, 2, PATTERN);
  }

  lemma PatternKept(aliases: Aliases, ts: seq<AToken>, i: nat)
    requires i + 1 < |ts| && !ts[i].isOp && ts[i].chain.None? && !ts[i].force
    requires !AssignmentWord(ts[i].text) && ts[i + 1].text == ")"
    ensures Judge(aliases, PATTERN, ts, i) == Keep(OnWord(PATTERN.(commandPosition := true), ts[i].text))
  {
    assert !Redirection(")");
    hide OnWord, IoNumber, AssignmentWord, Reserved, Plain;
    assert InPosition(PATTERN, ts[i]) == PATTERN.(commandPosition := true);
  }

  lemma ClauseBegins(aliases: Aliases, text: string, ts: seq<AToken>)
    requires ts == Tokenize(text, None) && AllOk(aliases, text, ts) && CaseHeader(ts)
    ensures Rewritten(aliases, text, PATTERN, ts, 3) == Rewritten(aliases, text, CLAUSE, ts, 5)
    ensures PlainAlias(aliases, ts, 5) && ts[5].text != "esac" ==> Judge(aliases, CLAUSE, ts, 5).Expand?
  {
    assert Reserved(ts[5].text, CLAUSE) ==> ts[5].text == "esac";
    hide Tokenize, AllOk, IoNumber, Rewritten, AssignmentWord, Judge, OnWord, Reserved, PlainAlias, OnOperator;
    FirstToken(text);
    CaseStates(ts[3].text);
    PatternKept(aliases, ts, 3);
    KeepsOn(aliases, text, PATTERN, ts, 3, PATTERN);
    KeepsOn(aliases, text, PATTERN, ts, 4, CLAUSE);
    if PlainAlias(aliases, ts, 5) && ts[5].text != "esac" {
      NoNames();
      AliasJudged(aliases, CLAUSE, ts, 5);
    }
  }

  /** The word and the first pattern of a `case` are left alone, whatever aliases they name; the command behind the
      `)` is expanded if it is an alias. */
  lemma CaseExpandsItsClause(aliases: Aliases, text: string)
    requires CaseHeader(Tokenize(text, None))
    ensures (var ts := Tokenize(text, None);
             && |Expansion(aliases, text).0| >= 5 && Expansion(aliases, text).0[..5] == ts[..5]
             && (PlainAlias(aliases, ts, 5) && ts[5].text != "esac" ==> Expansion(aliases, text).1))
  {
    hide Tokenize, AllOk, Rewritten, Judge, Plain, IoNumber, AssignmentWord, Argument;
    var ts := Tokenize(text, None);
    CommandOk(aliases, text);
    CaseBegins(aliases, text, ts);
    ClauseBegins(aliases, text, ts);
    RewrittenPrefix(aliases, text, CLAUSE, ts, 5);
    if Judge(aliases, CLAUSE, ts, 5).Expand? {
      ExpandsHere(aliases, text, CLAUSE, ts, 5);
    }
  }

  // ---------- an alias for an alias ----------

  /** The value is one word, and that is another alias with no other meaning. */
  ghost predicate NamesAlias(aliases: Aliases, name: string) {
    name in aliases && |Tokenize(aliases[name], None)| == 1 && !HasTrailingBlank(aliases[name]) &&
    var t := Tokenize(aliases[name], None)[0];
    && !t.isOp && t.text in aliases && t.text != name && Plain(t.text) && !AssignmentWord(t.text)
    && !IoNumber(t.text) && !Keyword(t.text)
  }

  lemma AfterFirst(aliases: Aliases, command: string, ts: seq<AToken>, k: nat)
    requires k < |ts| && ts[k].chain.None? && TokenOk(aliases, command, ts[k]) && MayExpand(aliases, ts[k])
    requires NamesAlias(aliases, ts[k].text)
    ensures (var out := ExpandAt(aliases, ts, k);
             var t := Tokenize(aliases[ts[k].text], None)[0];
             && k < |out| && out[..k] == ts[..k] && out[k + 1..] == ts[k + 1..]
             && out[k].ws == ts[k].ws + t.ws && out[k].text == t.text && !out[k].isOp && !out[k].force
             && Names(out[k].chain) == [ts[k].text])
  {
    hide TokensFrom, ChainAppend, Names, Fits, Collapse, TokenOk, Plain, IoNumber, AssignmentWord, Keyword,
      HasTrailingBlank;
    var value := aliases[ts[k].text];
    ReplacementOk(aliases, command, ts[k]);
    ReplacementShort(aliases, ts[k]);
    NoNames();
    SplitLength(Collapse(value, 0, '\0'), 0, ChainAppend(ts[k].chain, ts[k].text));
    SplitWith(Collapse(value, 0, '\0'), 0, ChainAppend(ts[k].chain, ts[k].text), 0);
  }

  /** Where the value of an alias is another alias, that one is expanded in its turn. */
  lemma AliasOfAlias(aliases: Aliases, text: string, k: nat)
    requires k < |Tokenize(text, None)| && NoForOrCase(Tokenize(text, None), k)
    requires CommandAlias(aliases, Tokenize(text, None), k)
    requires forall j :: 0 <= j < k ==> !CommandAlias(aliases, Tokenize(text, None), j)
    requires (var ts := Tokenize(text, None);
              NamesAlias(aliases, ts[k].text) &&
              var second := Tokenize(aliases[ts[k].text], None)[0].text;
              && Tidy(aliases[second])
              && (forall w :: w in Tokenize(aliases[second], None) ==>
                    w.isOp || w.text !in aliases || w.text == second || w.text == ts[k].text)
              && (forall j :: k < j < |ts| ==> ts[j].isOp || ts[j].text !in aliases))
    ensures (var ts := Tokenize(text, None);
             var second := Tokenize(aliases[ts[k].text], None)[0];
             Render(Expansion(aliases, text).0)
             == Render(ts[..k]) + (ts[k].ws + second.ws + aliases[second.text]) + Render(ts[k + 1..]))
  {
    hide Tokenize, CommandAlias, Tracks, NoForOrCase, TokenOk, Rewritten, ExpandAt, Replace, Replacement, Render,
      MayExpand, Tidy, Judge, Plain, IoNumber, AssignmentWord, Keyword, HasTrailingBlank, Names, CommandNext;
    var ts := Tokenize(text, None);
    CommandOk(aliases, text);
    FirstToken(text);
    var sc := ScanReaches(aliases, text, ts, k);
    ReplacedHere(aliases, text, sc, ts, k);
    var out := ExpandAt(aliases, ts, k);
    var next :| CommandNext(next)
                && Rewritten(aliases, text, sc, ts, k) == (Rewritten(aliases, text, next, out, k).0, true);
    AfterFirst(aliases, text, ts, k);
    SecondExpands(aliases, text, next, out, k);
    var last :| Rewritten(aliases, text, next, out, k)
                == (Rewritten(aliases, text, last, ExpandAt(aliases, out, k), k).0, true);
    ValueRenders(aliases, out[k]);
    ValueStays(aliases, text, out[k]);
    RestStays(aliases, out, k);
    NothingToExpand(aliases, text, last, ExpandAt(aliases, out, k), k);
    RenderReplaced(out, k, Replacement(aliases, out[k]));
  }

  lemma SecondExpands(aliases: Aliases, command: string, sc: Scan, ts: seq<AToken>, k: nat)
    requires k < |ts| && AllOk(aliases, command, ts) && CommandNext(sc) && !ts[k].isOp && !ts[k].force
    requires ts[k].text in aliases && Plain(ts[k].text) && !AssignmentWord(ts[k].text) && !IoNumber(ts[k].text)
    requires !Keyword(ts[k].text) && ts[k].text !in Names(ts[k].chain)
    ensures MayExpand(aliases, ts[k])
    ensures AllOk(aliases, command, ExpandAt(aliases, ts, k)) && k <= |ExpandAt(aliases, ts, k)|
    ensures exists last :: Rewritten(aliases, command, sc, ts, k)
                           == (Rewritten(aliases, command, last, ExpandAt(aliases, ts, k), k).0, true)
  {
    NotReservedNext(ts[k].text, sc);
    AliasJudged(aliases, sc, ts, k);
    hide Judge, Weight, TokenOk, MayExpand, ExpandAt, AfterExpand, Plain, IoNumber, AssignmentWord, Keyword, Names;
    var verdict := Judge(aliases, sc, ts, k);
    ExpandMeans(aliases, sc, ts, k);
    ExpandOk(aliases, command, ts, k);
    ExpandLighter(aliases, command, ts, k);
    var last := AfterExpand(aliases, verdict.sc, ts[k]);
    assert Rewritten(aliases, command, sc, ts, k)
        == (Rewritten(aliases, command, last, ExpandAt(aliases, ts, k), k).0, true);
  }

  lemma NotReservedNext(word: string, sc: Scan)
    requires !Keyword(word) && CommandNext(sc)
    ensures !Reserved(word, sc)
  {
  }
}
