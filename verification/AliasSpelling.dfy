/** Which tokens a command text is split into, from how it is written. */
module AliasSpelling {
  import opened Common
  import opened Text
  import opened AliasTokens

  predicate OperatorChar(c: char) {
    c in {';', '&', '|', '(', ')', '{', '}', '<', '>'}
  }

  /** A character that stands for itself in a word. */
  predicate WordChar(c: char) {
    !IsSpace(c) && !OperatorChar(c) && !Quoting(c) && c != '!'
  }

  /** From `k` on, the word goes on to its end, with every quote closed; inside double quotes nothing is special. */
  predicate Closed(w: string, k: nat, quote: char)
    requires k <= |w|
    decreases |w| - k
  {
    if k == |w| then quote == '\0'
    else if quote == '\0' then
      if w[k] == '\'' || w[k] == '"' then Closed(w, k + 1, w[k]) else WordChar(w[k]) && Closed(w, k + 1, quote)
    else
      && (quote == '"' ==> w[k] !in {'\\', '$', '`'})
      && Closed(w, k + 1, if w[k] == quote then '\0' else quote)
  }

  /** The character would make a longer operator of this one. */
  predicate Extends(op: string, c: char) {
    || (op == [c] && c in {'&', '|', ';', '<', '>'})
    || (op == "<" && c in {'&', '>'})
    || (op == ">" && c == '&')
    || (op == "<<" && c == '-')
  }

  predicate IsOperator(op: string) {
    op in ["<<-", "&&", "||", ";;", "<<", ">>", "<&", "<>", ">&", ";", "|", "&", "(", ")", "{", "}", "<", ">"]
  }

  /** `!` is an operator where it stands by itself. */
  predicate LoneBang(op: string, s: string, j: nat) {
    && op == "!" && j < |s|
    && (j > 0 ==> IsSpace(s[j - 1]) || OperatorChar(s[j - 1]))
    && (j + 1 < |s| ==> IsSpace(s[j + 1]) || s[j + 1] in {';', '&', '|', '(', ')', '{', '}'})
  }

  /** No word goes on at `e`. */
  predicate WordStops(s: string, e: nat) {
    e < |s| ==> IsSpace(s[e]) || OperatorChar(s[e])
  }

  predicate TextAt(text: string, s: string, j: nat) {
    j + |text| <= |s| && s[j..j + |text|] == text
  }

  predicate OperatorAt(op: string, s: string, j: nat) {
    TextAt(op, s, j) && (LoneBang(op, s, j) || (IsOperator(op) && !Extends(op, At(s, j + |op|))))
  }

  predicate WordAt(w: string, s: string, j: nat) {
    TextAt(w, s, j) && w != "" && Closed(w, 0, '\0') && WordStops(s, j + |w|)
  }

  /** The word or operator stands at `j`, and ends where it ends. */
  predicate Stands(t: AToken, s: string, j: nat) {
    if t.isOp then OperatorAt(t.text, s, j) else WordAt(t.text, s, j)
  }

  /** From `i` on, the text is these words and operators, with any white space in front of each and behind the
      last. */
  ghost predicate Spelled(ts: seq<AToken>, s: string, i: nat)
    decreases |ts|
  {
    if ts == [] then i <= |s| && forall k :: i <= k < |s| ==> IsSpace(s[k])
    else
      var j := i + |ts[0].ws|;
      && j <= |s| && s[i..j] == ts[0].ws && (forall k :: i <= k < j ==> IsSpace(s[k]))
      && Stands(ts[0], s, j) && ts[0].chain.None? && !ts[0].force
      && Spelled(ts[1..], s, j + |ts[0].text|)
  }

  lemma CharsOf(text: string, s: string, j: nat)
    requires TextAt(text, s, j)
    ensures forall k :: 0 <= k < |text| ==> s[j + k] == text[k]
  {
    forall k | 0 <= k < |text| ensures s[j + k] == text[k] {
      assert s[j + k] == s[j..j + |text|][k];
    }
  }

  lemma OperatorStands(text: string, s: string, j: nat)
    requires OperatorAt(text, s, j)
    ensures j < |s| && OperatorLen(s, j) == |text|
  {
    CharsOf(text, s, j);
    assert s[j + 0] == text[0];
    hide TextAt;
    if !LoneBang(text, s, j) {
      assert |text| > 1 ==> s[j + 1] == text[1];
      assert |text| > 2 ==> s[j + 2] == text[2];
    }
  }

  lemma NoOperatorAt(s: string, i: nat)
    requires i < |s| && (WordChar(s[i]) || s[i] == '\'' || s[i] == '"')
    ensures OperatorLen(s, i) == 0 && !IsSpace(s[i])
  {
  }

  lemma CharGoesOn(s: string, i: nat)
    requires i < |s| && (WordChar(s[i]) || s[i] == '\'' || s[i] == '"')
    ensures WordEnd(s, i, '\0') == WordEnd(s, i + 1, if WordChar(s[i]) then '\0' else s[i])
  {
    NoOperatorAt(s, i);
    hide OperatorLen, SpanEnd, IsSpace;
    assert SpanEnd(s, i, false).Some? ==> s[i] in {'$', '`'};
  }

  lemma QuotedCharGoesOn(s: string, i: nat, quote: char)
    requires i < |s| && quote in {'\'', '"'} && (quote == '"' ==> s[i] !in {'\\', '$', '`'})
    ensures WordEnd(s, i, quote) == WordEnd(s, i + 1, if s[i] == quote then '\0' else quote)
  {
    hide OperatorLen, SpanEnd, IsSpace;
    assert SpanEnd(s, i, true).Some? ==> s[i] in {'$', '`'};
  }

  lemma WordEndsHere(s: string, i: nat)
    requires i <= |s| && WordStops(s, i)
    ensures WordEnd(s, i, '\0') == i
  {
  }

  lemma {:induction false} WordGoesOn(s: string, j: nat, w: string, k: nat, quote: char)
    requires k <= |w| && TextAt(w, s, j) && WordStops(s, j + |w|)
    requires quote in {'\0', '\'', '"'} && Closed(w, k, quote)
    ensures WordEnd(s, j + k, quote) == j + |w|
    decreases |w| - k
  {
    hide WordEnd, WordChar, WordStops;
    if k == |w| {
      WordEndsHere(s, j + k);
    } else {
      var c := s[j + k];
      assert c == s[j..j + |w|][k] == w[k];
      QuotesAreNoWordChars();
      if quote == '\0' {
        CharGoesOn(s, j + k);
        WordGoesOn(s, j, w, k + 1, if WordChar(c) then '\0' else c);
      } else {
        QuotedCharGoesOn(s, j + k, quote);
        WordGoesOn(s, j, w, k + 1, if c == quote then '\0' else quote);
      }
    }
  }

  lemma QuotesAreNoWordChars()
    ensures !WordChar('\'') && !WordChar('"')
  {
  }

  lemma FirstOfWord(w: string)
    requires w != "" && Closed(w, 0, '\0')
    ensures WordChar(w[0]) || w[0] == '\'' || w[0] == '"'
  {
    hide WordChar;
  }

  lemma FirstCharOf(w: string, s: string, j: nat)
    requires w != "" && TextAt(w, s, j)
    ensures j < |s| && s[j] == w[0]
  {
    assert s[j] == s[j..j + |w|][0];
  }

  lemma WordStands(w: string, s: string, j: nat)
    requires WordAt(w, s, j)
    ensures j < |s| && OperatorLen(s, j) == 0 && !IsSpace(s[j]) && WordEnd(s, j, '\0') == j + |w|
  {
    assert TextAt(w, s, j) && w != "" && Closed(w, 0, '\0') && WordStops(s, j + |w|);
    hide *;
    FirstOfWord(w);
    FirstCharOf(w, s, j);
    WordGoesOn(s, j, w, 0, '\0');
    NoOperatorAt(s, j);
  }

  /** However they are spaced, a text is split into just these words and operators. */
  lemma {:induction false} TokensUndoSpelling(ts: seq<AToken>, s: string, i: nat)
    requires i <= |s| && Spelled(ts, s, i)
    ensures TokensFrom(s, i, None) == ts
    decreases |ts|
  {
    hide OperatorLen, WordEnd, Stands, TokensFrom;
    if ts == [] {
      SpaceEndIs(s, i, |s|);
      TokensEnd(s, i, None);
    } else {
      var j := i + |ts[0].ws|;
      TokenSpelled(ts[0], s, i, j);
      TokensStep(s, i, None);
      TokensUndoSpelling(ts[1..], s, j + |ts[0].text|);
      assert [ts[0]] + ts[1..] == ts;
    }
  }

  lemma TokenSpelled(t: AToken, s: string, i: nat, j: nat)
    requires i <= j <= |s| && s[i..j] == t.ws && forall k :: i <= k < j ==> IsSpace(s[k])
    requires Stands(t, s, j) && t.chain.None? && !t.force
    ensures SpaceEnd(s, i) == j < |s| && AliasTokens.TokenAt(s, i, None) == (t, j + |t.text|)
  {
    hide OperatorLen, WordEnd, WordStops, Closed;
    if t.isOp {
      OperatorStands(t.text, s, j);
      OperatorNotSpace(t.text);
    } else {
      WordStands(t.text, s, j);
    }
    SpaceEndIs(s, i, j);
  }

  lemma OperatorNotSpace(op: string)
    requires IsOperator(op) || op == "!"
    ensures op != "" && !IsSpace(op[0])
  {
  }

  lemma {:induction false} NothingToCollapse(s: string, i: nat, quote: char)
    requires i <= |s| && '\\' !in s && quote in {'\0', '\'', '"'}
    ensures Collapse(s, i, quote) == s[i..]
    decreases |s| - i
  {
    if i < |s| {
      assert s[i] != '\\';
      assert s[i..] == [s[i]] + s[i + 1..];
      NothingToCollapse(s, i + 1, quote);
      NothingToCollapse(s, i + 1, '\0');
      if s[i] in {'\'', '"'} {
        NothingToCollapse(s, i + 1, s[i]);
      }
    }
  }

  lemma TokenizeSpelled(ts: seq<AToken>, s: string)
    requires '\\' !in s && Spelled(ts, s, 0)
    ensures Tokenize(s, None) == ts
  {
    NothingToCollapse(s, 0, '\0');
    assert s[0..] == s;
    TokensUndoSpelling(ts, s, 0);
  }

  /** A backslash and a newline behind plain text are dropped, and nothing else is. */
  lemma {:induction false} ContinuationGoes(a: string, b: string, i: nat)
    requires i <= |a| && forall k :: 0 <= k < |a| ==> a[k] !in {'\\', '\'', '"'}
    ensures Collapse(a + "\\\n" + b, i, '\0') == a[i..] + Collapse(b, 0, '\0')
    decreases |a| - i
  {
    var s := a + "\\\n" + b;
    if i < |a| {
      assert s[i] == a[i];
      ContinuationGoes(a, b, i + 1);
      assert a[i..] == [a[i]] + a[i + 1..];
    } else {
      assert s[i] == '\\' && s[i + 1] == '\n' && s[i + 2..] == b;
      CollapseFrom(s, i + 2, b, 0, '\0');
      assert a[i..] + Collapse(b, 0, '\0') == Collapse(b, 0, '\0');
    }
  }

  /** Only what stands behind a position matters. */
  lemma {:induction false} CollapseFrom(s: string, i: nat, b: string, k: nat, quote: char)
    requires k <= |b| && i <= |s| && s[i..] == b[k..]
    ensures Collapse(s, i, quote) == Collapse(b, k, quote)
    decreases |b| - k
  {
    if k < |b| {
      assert s[i] == s[i..][0] == b[k];
      assert s[i + 1..] == s[i..][1..] == b[k..][1..] == b[k + 1..];
      CollapseFrom(s, i + 1, b, k + 1, quote);
      CollapseFrom(s, i + 1, b, k + 1, '\0');
      CollapseFrom(s, i + 1, b, k + 1, b[k]);
      if k + 1 < |b| {
        assert s[i + 1] == s[i..][1] == b[k + 1];
        assert s[i + 2..] == s[i..][2..] == b[k..][2..] == b[k + 2..];
        CollapseFrom(s, i + 2, b, k + 2, quote);
      }
    }
  }

  /** Characters that mean nothing inside a substitution either. */
  predicate Harmless(body: string) {
    forall k :: 0 <= k < |body| ==> body[k] !in {'(', ')', '\'', '"', '\\', '$', '`'}
  }

  lemma {:induction false} BodyPassed(s: string, i: nat, body: string, depth: nat)
    requires Harmless(body) && TextAt(body, s, i) && depth > 0
    ensures SubstEnd(s, i, depth, '\0') == SubstEnd(s, i + |body|, depth, '\0')
    decreases |body|
  {
    if body != "" {
      CharsOf(body, s, i);
      assert s[i + 0] == body[0];
      assert s[i + 1..i + |body|] == s[i..i + |body|][1..];
      BodyPassed(s, i + 1, body[1..], depth);
    }
  }

  lemma {:induction false} BackquotePassed(s: string, i: nat, body: string)
    requires Harmless(body) && TextAt(body, s, i)
    ensures BackquoteEnd(s, i) == BackquoteEnd(s, i + |body|)
    decreases |body|
  {
    if body != "" {
      CharsOf(body, s, i);
      assert s[i + 0] == body[0];
      assert s[i + 1..i + |body|] == s[i..i + |body|][1..];
      BackquotePassed(s, i + 1, body[1..]);
    }
  }

  /** A substitution is part of a word up to the parenthesis or backquote that closes it, whatever blanks and
      operators are inside, one substitution inside another included. */
  lemma SubstitutionsAreWhole(a: string, b: string, c: string)
    requires Harmless(a) && Harmless(b) && Harmless(c)
    ensures (var w := "$(" + (a + ("$(" + (b + (")" + (c + ")")))));
             Tokenize(w, None) == [AToken("", w, None, false, false)])
    ensures (var w := "`" + a + "`"; Tokenize(w, None) == [AToken("", w, None, false, false)])
  {
    var w := "$(" + (a + ("$(" + (b + (")" + (c + ")")))));
    var v := "`" + a + "`";
    hide Tokenize, WordEnd, Harmless;
    DollarWord(w, a, b, c);
    BackquoteWord(v, a);
    OneWord(w);
    OneWord(v);
  }

  lemma OneWord(w: string)
    requires w != "" && '\\' !in w && w[0] in {'$', '`'} && WordEnd(w, 0, '\0') == |w|
    ensures Tokenize(w, None) == [AToken("", w, None, false, false)]
  {
    DollarIsNoOperator(w);
    hide WordEnd, TokensFrom, OperatorLen, SpaceEnd, Collapse;
    NothingToCollapse(w, 0, '\0');
    assert w[0..] == w && w[0..0] == "" && w[0..|w|] == w;
    TokensStep(w, 0, None);
    TokensEnd(w, |w|, None);
  }

  lemma DollarIsNoOperator(w: string)
    requires w != "" && w[0] in {'$', '`'}
    ensures OperatorLen(w, 0) == 0 && SpaceEnd(w, 0) == 0 && SpaceEnd(w, |w|) == |w|
  {
    SpaceEndIs(w, 0, 0);
    SpaceEndIs(w, |w|, |w|);
  }

  lemma TextAtConcat(s: string, i: nat, u: string, v: string)
    requires TextAt(u + v, s, i)
    ensures TextAt(u, s, i) && TextAt(v, s, i + |u|)
  {
    assert s[i..i + |u|] == (u + v)[..|u|];
    assert s[i + |u|..i + |u| + |v|] == (u + v)[|u|..];
  }

  /** Where the pieces of a substitution stand. */
  lemma DollarPieces(w: string, a: string, b: string, c: string)
    requires w == "$(" + (a + ("$(" + (b + (")" + (c + ")")))))
    ensures (var i, j := 2 + |a|, 4 + |a| + |b|;
             && TextAt("$(", w, 0) && TextAt(a, w, 2) && TextAt("$(", w, i) && TextAt(b, w, i + 2) && TextAt(")", w, j)
             && TextAt(c, w, j + 1) && TextAt(")", w, j + 1 + |c|) && |w| == j + 2 + |c|)
  {
    var i, j := 2 + |a|, 4 + |a| + |b|;
    assert TextAt(w, w, 0) by {
      assert w[0..0 + |w|] == w;
    }
    hide TextAt;
    TextAtConcat(w, 0, "$(", a + ("$(" + (b + (")" + (c + ")")))));
    TextAtConcat(w, 2, a, "$(" + (b + (")" + (c + ")"))));
    TextAtConcat(w, i, "$(", b + (")" + (c + ")")));
    TextAtConcat(w, i + 2, b, ")" + (c + ")"));
    TextAtConcat(w, j, ")", c + ")");
    TextAtConcat(w, j + 1, c, ")");
  }

  lemma DollarWord(w: string, a: string, b: string, c: string)
    requires Harmless(a) && Harmless(b) && Harmless(c) && w == "$(" + (a + ("$(" + (b + (")" + (c + ")")))))
    ensures '\\' !in w && |w| > 0 && w[0] == '$' && WordEnd(w, 0, '\0') == |w|
  {
    hide WordEnd, Harmless, TextAt, SubstEnd, SpanEnd;
    var i, j := 2 + |a|, 4 + |a| + |b|;
    var k := j + 1 + |c|;
    DollarPieces(w, a, b, c);
    CharsOf("$(", w, 0);
    CharsOf("$(", w, i);
    CharsOf(")", w, j);
    CharsOf(")", w, k);
    DollarChars(w, i, j, k);
    BodyPassed(w, 2, a, 1);
    BodyPassed(w, i + 2, b, 2);
    BodyPassed(w, j + 1, c, 1);
    SubstSteps(w, i, j, k);
    SubstIsSpan(w, k);
    SpanIsWord(w, k);
    NoBackslash(a);
    NoBackslash(b);
    NoBackslash(c);
  }

  lemma DollarChars(w: string, i: nat, j: nat, k: nat)
    requires i + 1 < |w| && j < |w| && k < |w| && 1 < |w|
    requires forall n :: 0 <= n < 2 ==> w[0 + n] == "$("[n]
    requires forall n :: 0 <= n < 2 ==> w[i + n] == "$("[n]
    requires forall n :: 0 <= n < 1 ==> w[j + n] == ")"[n]
    requires forall n :: 0 <= n < 1 ==> w[k + n] == ")"[n]
    ensures w[0] == '$' && w[1] == '(' && w[i] == '$' && w[i + 1] == '(' && w[j] == ')' && w[k] == ')'
  {
    assert w[0 + 0] == "$("[0] && w[0 + 1] == "$("[1] && w[i + 0] == "$("[0] && w[i + 1] == "$("[1];
    assert w[j + 0] == ")"[0] && w[k + 0] == ")"[0];
  }

  lemma SubstIsSpan(w: string, k: nat)
    requires |w| > 1 && w[0] == '$' && w[1] == '(' && SubstEnd(w, 2, 1, '\0') == Some(k)
    ensures SpanEnd(w, 0, false) == Some(k)
  {
    hide SubstEnd;
  }

  lemma NoBackslash(a: string)
    requires Harmless(a)
    ensures '\\' !in a
  {
  }

  lemma SubstSteps(w: string, i: nat, j: nat, k: nat)
    requires i + 1 < j < k < |w| && w[i] == '$' && w[i + 1] == '(' && w[j] == ')' && w[k] == ')'
    ensures SubstEnd(w, i, 1, '\0') == SubstEnd(w, i + 2, 2, '\0')
    ensures SubstEnd(w, j, 2, '\0') == SubstEnd(w, j + 1, 1, '\0')
    ensures SubstEnd(w, k, 1, '\0') == Some(k)
  {
  }

  lemma SpanIsWord(w: string, k: nat)
    requires |w| == k + 1 && SpanEnd(w, 0, false) == Some(k) && w[0] in {'$', '`'}
    ensures WordEnd(w, 0, '\0') == |w|
  {
    assert OperatorLen(w, 0) == 0;
    hide SpanEnd, OperatorLen;
  }

  lemma BackquoteWord(v: string, a: string)
    requires Harmless(a) && v == "`" + a + "`"
    ensures '\\' !in v && |v| > 0 && v[0] == '`' && WordEnd(v, 0, '\0') == |v|
  {
    assert TextAt(a, v, 1);
    var k := |a| + 1;
    assert v[0] == '`' && v[k] == '`' && |v| == k + 1;
    hide WordEnd;
    BackquotePassed(v, 1, a);
    assert BackquoteEnd(v, k) == Some(k);
    SpanIsWord(v, k);
    NoBackslash(a);
  }
}
