/** The token list of alias expansion: splitting a command text, and putting it together again. */
module AliasTokens {
  import opened Common
  import opened Text

  /** `chain` holds the names of the aliases the token came out of, oldest first, one to a line. */
  datatype AToken = AToken(ws: string, text: string, chain: Option<string>, force: bool, isOp: bool)

  // ---------- line continuations ----------

  /** Drops each backslash-newline outside single quotes; `quote` is the quote the position is in, or NUL. */
  function Collapse(s: string, i: nat, quote: char): string
    requires i <= |s|
    decreases |s| - i
  {
    if i == |s| then ""
    else if quote == '\'' then
      [s[i]] + Collapse(s, i + 1, if s[i] == '\'' then '\0' else quote)
    else if s[i] == '\\' && At(s, i + 1) == '\n' then Collapse(s, i + 2, quote)
    else if s[i] == '\\' && i + 1 < |s| then [s[i], s[i + 1]] + Collapse(s, i + 2, quote)
    else if quote == '"' then
      [s[i]] + Collapse(s, i + 1, if s[i] == '"' then '\0' else quote)
    else
      [s[i]] + Collapse(s, i + 1, if s[i] == '\'' || s[i] == '"' then s[i] else quote)
  }

  // ---------- operators ----------

  predicate BangBefore(c: char) {
    IsSpace(c) || c in {';', '&', '|', '(', ')', '{', '}', '<', '>'}
  }

  predicate BangAfter(c: char) {
    c == '\0' || IsSpace(c) || c in {';', '&', '|', '(', ')', '{', '}'}
  }

  function OperatorLen(s: string, i: nat): (n: nat)
    requires i < |s|
    ensures n <= 3 && i + n <= |s|
    ensures n > 0 ==> !IsSpace(s[i])
  {
    var a, b, c := s[i], At(s, i + 1), At(s, i + 2);
    if a == '!' then
      if (i == 0 || BangBefore(s[i - 1])) && BangAfter(b) then 1 else 0
    else if a == '<' && b == '<' && c == '-' then 3
    else if a == b && a in {'&', '|', ';', '<', '>'} then 2
    else if (a == '<' && b in {'&', '>'}) || (a == '>' && b == '&') then 2
    else if a in {';', '|', '&', '(', ')', '{', '}', '<', '>'} then 1
    else 0
  }

  // ---------- quoted parts of words ----------

  function BackquoteEnd(s: string, i: nat): (r: Option<nat>)
    requires i <= |s|
    ensures r.Some? ==> i <= r.value < |s|
    decreases |s| - i
  {
    if i == |s| then None
    else if s[i] == '\\' && i + 1 < |s| then BackquoteEnd(s, i + 2)
    else if s[i] == '`' then Some(i)
    else BackquoteEnd(s, i + 1)
  }

  function DollarQuoteEnd(s: string, i: nat): (r: Option<nat>)
    requires i <= |s|
    ensures r.Some? ==> i <= r.value < |s|
    decreases |s| - i
  {
    if i == |s| then None
    else if s[i] == '\\' && i + 1 < |s| then DollarQuoteEnd(s, i + 2)
    else if s[i] == '\'' then Some(i)
    else DollarQuoteEnd(s, i + 1)
  }

  /** The parenthesis that closes a command substitution, from inside it. */
  function SubstEnd(s: string, i: nat, depth: nat, quote: char): (r: Option<nat>)
    requires i <= |s| && depth > 0
    ensures r.Some? ==> i <= r.value < |s|
    decreases |s| - i
  {
    if i == |s| then None
    else if quote == '\'' then SubstEnd(s, i + 1, depth, if s[i] == '\'' then '\0' else quote)
    else if s[i] == '\\' && i + 1 < |s| then SubstEnd(s, i + 2, depth, quote)
    else if quote == '"' then SubstEnd(s, i + 1, depth, if s[i] == '"' then '\0' else quote)
    else if s[i] == '\'' || s[i] == '"' then SubstEnd(s, i + 1, depth, s[i])
    else if s[i] == '$' && At(s, i + 1) == '(' then SubstEnd(s, i + 2, depth + 1, quote)
    else if s[i] == '(' then SubstEnd(s, i + 1, depth + 1, quote)
    else if s[i] == ')' then if depth == 1 then Some(i) else SubstEnd(s, i + 1, depth - 1, quote)
    else SubstEnd(s, i + 1, depth, quote)
  }

  /** Where a substitution or `$'` that starts at `i` ends, if it is closed. */
  function SpanEnd(s: string, i: nat, quoted: bool): (r: Option<nat>)
    requires i < |s|
    ensures r.Some? ==> i < r.value < |s| && s[i] in {'$', '`'}
  {
    if s[i] == '$' && At(s, i + 1) == '(' then SubstEnd(s, i + 2, 1, '\0')
    else if quoted then None
    else if s[i] == '$' && At(s, i + 1) == '\'' then DollarQuoteEnd(s, i + 2)
    else if s[i] == '`' then BackquoteEnd(s, i + 1)
    else None
  }

  // ---------- words ----------

  /** A character that is part of quoting: no plain word contains one. */
  predicate Quoting(c: char) {
    c in {'\'', '"', '\\', '$', '`'}
  }

  /** The end of the word that goes on at `i`. */
  function WordEnd(s: string, i: nat, quote: char): (e: nat)
    requires i <= |s|
    ensures i <= e <= |s|
    ensures quote == '\0' && i < |s| && !IsSpace(s[i]) && OperatorLen(s, i) == 0 ==> i < e
    ensures quote == '\0' && (forall k :: i <= k < e ==> !Quoting(s[k])) ==> forall k :: i <= k < e ==> !IsSpace(s[k])
    decreases |s| - i
  {
    if i == |s| then i
    else if quote == '\0' then
      if OperatorLen(s, i) > 0 || IsSpace(s[i]) then i
      else if s[i] == '\'' || s[i] == '"' then WordEnd(s, i + 1, s[i])
      else if s[i] == '\\' && i + 1 < |s| then WordEnd(s, i + 2, quote)
      else if SpanEnd(s, i, false).Some? then WordEnd(s, SpanEnd(s, i, false).value + 1, quote)
      else WordEnd(s, i + 1, quote)
    else if quote == '\'' then WordEnd(s, i + 1, if s[i] == '\'' then '\0' else quote)
    else if s[i] == '\\' && i + 1 < |s| then WordEnd(s, i + 2, quote)
    else if SpanEnd(s, i, true).Some? then WordEnd(s, SpanEnd(s, i, true).value + 1, quote)
    else WordEnd(s, i + 1, if s[i] == '"' then '\0' else quote)
  }

  // ---------- tokens ----------

  /** The token whose leading white space begins at `i`, and the position behind it. */
  function TokenAt(s: string, i: nat, chain: Option<string>): (r: (AToken, nat))
    requires i <= |s| && SpaceEnd(s, i) < |s|
    ensures SpaceEnd(s, i) < r.1 <= |s|
    ensures r.0.ws + r.0.text == s[i..r.1] && r.0.chain == chain && !r.0.force
  {
    var j := SpaceEnd(s, i);
    var n := OperatorLen(s, j);
    var e := if n > 0 then j + n else WordEnd(s, j, '\0');
    (AToken(s[i..j], s[j..e], chain, false, n > 0), e)
  }

  function TokensFrom(s: string, i: nat, chain: Option<string>): (ts: seq<AToken>)
    requires i <= |s|
    ensures |ts| <= |s| - i
    decreases |s| - i
  {
    if SpaceEnd(s, i) == |s| then []
    else
      var (t, e) := TokenAt(s, i, chain);
      [t] + TokensFrom(s, e, chain)
  }

  function Tokenize(text: string, chain: Option<string>): seq<AToken> {
    TokensFrom(Collapse(text, 0, '\0'), 0, chain)
  }

  method SkipBlanks(s: string, i: nat) returns (j: nat)
    requires i <= |s|
    ensures j == SpaceEnd(s, i)
  {
    j := i;
    while j < |s| && IsSpace(s[j])
      invariant i <= j <= |s|
      invariant SpaceEnd(s, j) == SpaceEnd(s, i)
    {
      j := j + 1;
    }
  }

  lemma TokensStep(s: string, i: nat, chain: Option<string>)
    requires i <= |s| && SpaceEnd(s, i) < |s|
    ensures var (t, e) := TokenAt(s, i, chain);
            && TokensFrom(s, i, chain) == [t] + TokensFrom(s, e, chain)
            && t.ws + t.text == s[i..e]
  {
  }

  lemma TokensEnd(s: string, i: nat, chain: Option<string>)
    requires i <= |s| && SpaceEnd(s, i) == |s|
    ensures TokensFrom(s, i, chain) == []
  {
  }

  lemma Appended(front: seq<AToken>, t: AToken, rest: seq<AToken>)
    ensures front + ([t] + rest) == (front + [t]) + rest
  {
  }

  method TokenizeWithSuppress(text: string, chain: Option<string>) returns (out: seq<AToken>)
    ensures out == Tokenize(text, chain)
  {
    hide Collapse, OperatorLen, WordEnd, SpaceEnd, TokensFrom, IsSpace;
    var input := Collapse(text, 0, '\0');
    out := [];
    var i := 0;
    while i < |input|
      invariant i <= |input|
      invariant out + TokensFrom(input, i, chain) == TokensFrom(input, 0, chain)
      decreases |input| - i
    {
      var j := SkipBlanks(input, i);
      if j == |input| {
        break;
      }
      TokensStep(input, i, chain);
      var n := OperatorLen(input, j);
      var e := if n > 0 then j + n else WordEnd(input, j, '\0');
      ghost var t := AToken(input[i..j], input[j..e], chain, false, n > 0);
      Appended(out, t, TokensFrom(input, e, chain));
      out := out + [AToken(input[i..j], input[j..e], chain, false, n > 0)];
      i := e;
    }
    TokensEnd(input, i, chain);
  }

  function Render(ts: seq<AToken>): string {
    if ts == [] then "" else ts[0].ws + ts[0].text + Render(ts[1..])
  }

  method RenderTokens(ts: seq<AToken>) returns (out: string)
    ensures out == Render(ts)
  {
    out := "";
    for i := 0 to |ts|
      invariant out + Render(ts[i..]) == Render(ts)
    {
      assert Render(ts[i..]) == ts[i].ws + ts[i].text + Render(ts[i + 1..]);
      assert out + (ts[i].ws + ts[i].text + Render(ts[i + 1..]))
          == (out + ts[i].ws + ts[i].text) + Render(ts[i + 1..]);
      out := out + ts[i].ws + ts[i].text;
    }
  }

  /** The white space behind the last token. */
  function Tail(s: string, i: nat): (t: string)
    requires i <= |s|
    ensures forall k :: 0 <= k < |t| ==> IsSpace(t[k])
    decreases |s| - i
  {
    if SpaceEnd(s, i) == |s| then s[i..] else Tail(s, TokenAt(s, i, None).1)
  }

  lemma RenderFirst(t: AToken, rest: seq<AToken>)
    ensures Render([t] + rest) == (t.ws + t.text) + Render(rest)
  {
    assert ([t] + rest)[1..] == rest;
  }

  /** Putting the tokens of a text together again gives the text, up to white space behind the last token. */
  lemma {:induction false} RenderUndoesTokens(s: string, i: nat, chain: Option<string>)
    requires i <= |s|
    ensures s[i..] == Render(TokensFrom(s, i, chain)) + Tail(s, i)
    decreases |s| - i
  {
    hide TokenAt, Render, TokensFrom, Tail;
    if SpaceEnd(s, i) == |s| {
      TokensEnd(s, i, chain);
      NothingLeft(s, i);
    } else {
      var (t, e) := TokenAt(s, i, chain);
      TokensStep(s, i, chain);
      TailStep(s, i, chain);
      RenderFirst(t, TokensFrom(s, e, chain));
      RenderUndoesTokens(s, e, chain);
      assert s[i..] == s[i..e] + s[e..];
    }
  }

  lemma TailStep(s: string, i: nat, chain: Option<string>)
    requires i <= |s| && SpaceEnd(s, i) < |s|
    ensures Tail(s, i) == Tail(s, TokenAt(s, i, chain).1)
  {
  }

  lemma NothingLeft(s: string, i: nat)
    requires i <= |s| && SpaceEnd(s, i) == |s|
    ensures Render([]) == "" && Tail(s, i) == s[i..]
  {
  }
}
