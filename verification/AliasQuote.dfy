/** Printing an alias so that the shell can read it back: quoting, splitting a line into words, and
    removing quotes again. */
module AliasQuote {
  import opened Common
  import opened Text
  import F = FieldSplit

  // ---------- quoting ----------

  function QuotedChar(c: char): (s: string)
    ensures |s| > 0
  {
    if c == '\'' then "'\\''" else [c]
  }

  function QuoteRest(v: string): (s: string)
    ensures |s| > 0
  {
    if v == "" then "'" else QuotedChar(v[0]) + QuoteRest(v[1..])
  }

  function Quote(v: string): string {
    "'" + QuoteRest(v)
  }

  /** The length is computed first, then the buffer is filled exactly. */
  method AliasQuoteValue(value: string) returns (out: array<char>)
    ensures fresh(out) && out[..] == Quote(value)
  {
    var outLen := 2;
    assert value[0..] == value;
    for i := 0 to |value|
      invariant outLen + |QuoteRest(value[i..])| == |Quote(value)| + 1
    {
      QuoteTurn(value, i);
      if value[i] == '\'' {
        outLen := outLen + 4;
      } else {
        outLen := outLen + 1;
      }
    }
    out := new char[outLen];
    ghost var done := "'";
    var pos := 1;
    out[0] := '\'';
    for i := 0 to |value|
      invariant pos == |done| && done + QuoteRest(value[i..]) == Quote(value)
      invariant outLen == |Quote(value)| && pos < outLen
      invariant forall k :: 0 <= k < pos ==> out[k] == done[k]
    {
      QuoteTurn(value, i);
      QuoteGrows(done, QuotedChar(value[i]), QuoteRest(value[i + 1..]));
      done := done + QuotedChar(value[i]);
      if value[i] == '\'' {
        out[pos], out[pos + 1], out[pos + 2], out[pos + 3] := '\'', '\\', '\'', '\'';
        pos := pos + 4;
      } else {
        out[pos] := value[i];
        pos := pos + 1;
      }
    }
    out[pos] := '\'';
    assert done + "'" == Quote(value);
    assert out[..] == Quote(value);
  }

  lemma QuoteTurn(v: string, i: nat)
    requires i < |v|
    ensures QuoteRest(v[i..]) == QuotedChar(v[i]) + QuoteRest(v[i + 1..])
  {
    assert v[i..][1..] == v[i + 1..];
  }

  lemma QuoteGrows(done: string, c: string, rest: string)
    ensures done + (c + rest) == (done + c) + rest
  {
  }

  // ---------- splitting a line into words ----------

  function CommandSubstEnd(s: string, i: nat, depth: int, quote: char): (r: Option<nat>)
    requires i <= |s|
    ensures r.Some? ==> i < r.value <= |s|
    decreases |s| - i
  {
    if i == |s| then None
    else if quote == '\'' then CommandSubstEnd(s, i + 1, depth, if s[i] == '\'' then '\0' else quote)
    else if s[i] == '\\' && i + 1 < |s| then CommandSubstEnd(s, i + 2, depth, quote)
    else if quote == '"' then CommandSubstEnd(s, i + 1, depth, if s[i] == '"' then '\0' else quote)
    else if s[i] == '\'' || s[i] == '"' then CommandSubstEnd(s, i + 1, depth, s[i])
    else if s[i] == '(' then CommandSubstEnd(s, i + 1, depth + 1, quote)
    else if s[i] == ')' then if depth == 1 then Some(i + 1) else CommandSubstEnd(s, i + 1, depth - 1, quote)
    else CommandSubstEnd(s, i + 1, depth, quote)
  }

  /** The end of a backquoted command or a `$'` string, from inside it. */
  function EscapedEnd(s: string, i: nat, close: char): (r: Option<nat>)
    requires i <= |s|
    ensures r.Some? ==> i < r.value <= |s|
    decreases |s| - i
  {
    if i == |s| then None
    else if s[i] == '\\' && i + 1 < |s| then EscapedEnd(s, i + 2, close)
    else if s[i] == close then Some(i + 1)
    else EscapedEnd(s, i + 1, close)
  }

  function BracedEnd(s: string, i: nat, depth: int, quote: char, inDquote: bool): (r: Option<nat>)
    requires i <= |s|
    ensures r.Some? ==> i < r.value <= |s|
    decreases |s| - i
  {
    if i == |s| then None
    else if quote == '\'' then BracedEnd(s, i + 1, depth, if s[i] == '\'' then '\0' else quote, inDquote)
    else if s[i] == '\\' && i + 1 < |s| then BracedEnd(s, i + 2, depth, quote, inDquote)
    else if quote == '"' then BracedEnd(s, i + 1, depth, if s[i] == '"' then '\0' else quote, inDquote)
    else if s[i] == '"' || (!inDquote && s[i] == '\'') then BracedEnd(s, i + 1, depth, s[i], inDquote)
    else if s[i] == '{' then BracedEnd(s, i + 1, depth + 1, quote, inDquote)
    else if s[i] == '}' then if depth == 1 then Some(i + 1) else BracedEnd(s, i + 1, depth - 1, quote, inDquote)
    else BracedEnd(s, i + 1, depth, quote, inDquote)
  }

  /** What the scanner of a word does at a position: stop, fail, or take some text and go on. */
  datatype LexStep = Stop | Fail | Take(text: string, next: nat, quote: char, starts: bool)

  function Verbatim(s: string, i: nat, end: Option<nat>, quote: char): (r: LexStep)
    requires i < |s| && (end.Some? ==> i < end.value <= |s|)
    ensures r.Take? ==> i < r.next <= |s|
  {
    if end.None? then Fail else Take(s[i..end.value], end.value, quote, true)
  }

  function LexAt(s: string, i: nat, quote: char): (r: LexStep)
    requires i < |s|
    ensures r.Take? ==> i < r.next <= |s|
    ensures r.Stop? ==> quote == '\0' && IsSpace(s[i])
  {
    var c, n := s[i], At(s, i + 1);
    if quote == '\0' && IsSpace(c) then Stop
    else if quote == '\'' then Take([c], i + 1, if c == '\'' then '\0' else quote, c != '\'')
    else if c == '$' && n == '(' then Verbatim(s, i, CommandSubstEnd(s, i, 0, '\0'), quote)
    else if c == '$' && n == '\'' then Verbatim(s, i, EscapedEnd(s, i + 2, '\''), quote)
    else if c == '$' && n == '{' then Verbatim(s, i, BracedEnd(s, i, 0, '\0', quote == '"'), quote)
    else if c == '`' then Verbatim(s, i, EscapedEnd(s, i + 1, '`'), quote)
    else if quote == '\0' && (c == '\'' || c == '"') then Take([c], i + 1, c, true)
    else if quote == '"' && c == '"' then Take([c], i + 1, '\0', false)
    else if c == '\\' && n == '\n' then Take("", i + 2, quote, false)
    else if c == '\\' then if i + 1 == |s| then Fail else Take([c, s[i + 1]], i + 2, quote, true)
    else Take([c], i + 1, quote, true)
  }

  datatype Word = Word(text: string, started: bool, end: nat)

  /** The rest of a word of which `buf` has been taken. */
  function LexWord(s: string, i: nat, quote: char, buf: string, started: bool): (r: Option<Word>)
    requires i <= |s|
    ensures r.Some? ==> i <= r.value.end <= |s|
    decreases |s| - i
  {
    if i == |s| then if quote == '\0' then Some(Word(buf, started, i)) else None
    else
      var step := LexAt(s, i, quote);
      match step
      case Stop => Some(Word(buf, started, i))
      case Fail => None
      case Take(text, next, quote', starts) => LexWord(s, next, quote', buf + text, started || starts)
  }

  lemma {:induction false} WordMoves(s: string, i: nat)
    requires i < |s| && !IsSpace(s[i]) && LexWord(s, i, '\0', "", false).Some?
    ensures LexWord(s, i, '\0', "", false).value.end > i
  {
    hide IsSpace, CommandSubstEnd, BracedEnd, EscapedEnd;
  }

  function Lex(s: string, i: nat): Option<seq<string>>
    requires i <= |s|
    decreases |s| - i
  {
    var start := SpaceEnd(s, i);
    if start == |s| then Some([])
    else
      var word := LexWord(s, start, '\0', "", false);
      if word.None? then None
      else
        WordMoves(s, start);
        var rest := Lex(s, word.value.end);
        if rest.None? then None
        else if word.value.started then Some([word.value.text] + rest.value)
        else rest
  }

  /** One word, from its first character. */
  method LexOneWord(line: string, start: nat) returns (word: Option<Word>)
    requires start <= |line|
    ensures word == LexWord(line, start, '\0', "", false)
  {
    hide CommandSubstEnd, BracedEnd, EscapedEnd, LexWord;
    var p := start;
    var quote, buf, started := '\0', "", false;
    while p < |line|
      invariant start <= p <= |line|
      invariant LexWord(line, p, quote, buf, started) == LexWord(line, start, '\0', "", false)
      decreases |line| - p
    {
      WordTurn(line, p, quote, buf, started);
      var step := LexOnce(line, p, quote);
      if step.Stop? {
        return Some(Word(buf, started, p));
      }
      if step.Fail? {
        return None;
      }
      buf := buf + step.text;
      started := started || step.starts;
      quote := step.quote;
      p := step.next;
    }
    LineEnds(line, quote, buf, started);
    if quote != '\0' {
      return None;
    }
    return Some(Word(buf, started, p));
  }

  lemma LineEnds(s: string, quote: char, buf: string, started: bool)
    ensures LexWord(s, |s|, quote, buf, started) == if quote == '\0' then Some(Word(buf, started, |s|)) else None
  {
  }

  lemma WordTurn(s: string, i: nat, quote: char, buf: string, started: bool)
    requires i < |s|
    ensures (var t := LexAt(s, i, quote);
             LexWord(s, i, quote, buf, started) ==
             if t.Stop? then Some(Word(buf, started, i))
             else if t.Fail? then None
             else LexWord(s, t.next, t.quote, buf + t.text, started || t.starts))
  {
    hide LexAt;
  }

  method LexOnce(line: string, p: nat, quote: char) returns (step: LexStep)
    requires p < |line|
    ensures step == LexAt(line, p, quote)
  {
    hide CommandSubstEnd, BracedEnd, EscapedEnd, IsSpace;
    var ch := line[p];
    if quote == '\0' && IsSpace(ch) {
      return Stop;
    }
    if quote != '\'' && ch == '$' && At(line, p + 1) == '(' {
      return Verbatim(line, p, CommandSubstEnd(line, p, 0, '\0'), quote);
    }
    if quote != '\'' && ch == '$' && At(line, p + 1) == '\'' {
      return Verbatim(line, p, EscapedEnd(line, p + 2, '\''), quote);
    }
    if quote != '\'' && ch == '$' && At(line, p + 1) == '{' {
      return Verbatim(line, p, BracedEnd(line, p, 0, '\0', quote == '"'), quote);
    }
    if quote != '\'' && ch == '`' {
      return Verbatim(line, p, EscapedEnd(line, p + 1, '`'), quote);
    }
    if quote == '\0' && ch == '\'' {
      return Take([ch], p + 1, '\'', true);
    }
    if quote == '\'' && ch == '\'' {
      return Take([ch], p + 1, '\0', false);
    }
    if quote == '\0' && ch == '"' {
      return Take([ch], p + 1, '"', true);
    }
    if quote == '"' && ch == '"' {
      return Take([ch], p + 1, '\0', false);
    }
    if ch == '\\' && quote != '\'' && At(line, p + 1) == '\n' {
      return Take("", p + 2, quote, false);
    }
    if ch == '\\' && quote != '\'' {
      if p + 1 == |line| {
        return Fail;
      }
      return Take([ch, line[p + 1]], p + 2, quote, true);
    }
    return Take([ch], p + 1, quote, true);
  }

  /** Splits a line into words, quotes and expansions left in place. */
  method LexerSplitWords(line: string) returns (out: Option<seq<string>>)
    ensures out == Lex(line, 0)
  {
    hide LexWord, SpaceEnd;
    var words: seq<string> := [];
    var p := 0;
    NoWords(Lex(line, 0));
    while p < |line|
      invariant p <= |line|
      invariant Lex(line, 0) == WordsThen(words, Lex(line, p))
      decreases |line| - p
    {
      LexTurn(line, p, words);
      var start := SkipSpaces(line, p);
      if start == |line| {
        return Some(words);
      }
      var word := LexOneWord(line, start);
      if word.None? {
        return None;
      }
      WordMoves(line, start);
      if word.value.started {
        words := words + [word.value.text];
      }
      p := word.value.end;
    }
    NothingToLex(line, words);
    return Some(words);
  }

  method SkipSpaces(s: string, start: nat) returns (p: nat)
    requires start <= |s|
    ensures p == SpaceEnd(s, start)
  {
    p := start;
    while p < |s| && IsSpace(s[p])
      invariant start <= p <= |s| && SpaceEnd(s, p) == SpaceEnd(s, start)
    {
      p := p + 1;
    }
  }

  function WordsThen(words: seq<string>, rest: Option<seq<string>>): Option<seq<string>> {
    if rest.None? then None else Some(words + rest.value)
  }

  lemma NoWords(rest: Option<seq<string>>)
    ensures WordsThen([], rest) == rest
  {
    if rest.Some? {
      assert [] + rest.value == rest.value;
    }
  }

  lemma NothingToLex(s: string, words: seq<string>)
    ensures WordsThen(words, Lex(s, |s|)) == Some(words)
  {
    assert words + [] == words;
  }

  lemma LexTurn(s: string, i: nat, words: seq<string>)
    requires i <= |s|
    ensures (var start := SpaceEnd(s, i);
             var whole := WordsThen(words, Lex(s, i));
             if start == |s| then whole == Some(words)
             else
               var word := LexWord(s, start, '\0', "", false);
               if word.None? then whole == None
               else
                 whole == WordsThen(if word.value.started then words + [word.value.text] else words,
                                    Lex(s, word.value.end)))
  {
    hide LexWord, SpaceEnd;
    var start := SpaceEnd(s, i);
    if start == |s| {
      assert words + [] == words;
    } else {
      var word := LexWord(s, start, '\0', "", false);
      if word.Some? {
        WordMoves(s, start);
        var rest := Lex(s, word.value.end);
        if rest.Some? && word.value.started {
          assert words + ([word.value.text] + rest.value) == (words + [word.value.text]) + rest.value;
        }
      }
    }
  }

  // ---------- removing quotes ----------

  /** Outside: the token has an expansion in it, which is not modelled. */
  datatype Removal = Encoded(text: string) | TrailingBackslash | Outside

  datatype ExpandStep = Emit(text: string, next: nat, quote: char) | Bad | Expansion

  function ExpandAt(s: string, i: nat, quote: char, tilde: bool): (r: ExpandStep)
    requires i < |s|
    ensures r.Emit? ==> i < r.next <= |s|
  {
    var c, n := s[i], At(s, i + 1);
    if quote == '\0' && tilde && c == '~' then Expansion
    else if quote == '\'' then
      if c == '\'' then Emit([F.EMPTY_MARK], i + 1, '\0') else Emit(F.EncodeQuoted(c), i + 1, quote)
    else if quote == '"' && c == '"' then Emit([F.EMPTY_MARK], i + 1, '\0')
    else if quote == '"' && c == '\\' && n in {'$', '`', '"', '\\'} then Emit(F.EncodeQuoted(n), i + 2, quote)
    else if quote == '"' && c == '\\' && n == '\n' then Emit("", i + 2, quote)
    else if quote == '\0' && (c == '\'' || c == '"') then Emit([F.EMPTY_MARK], i + 1, c)
    else if quote == '\0' && c == '\\' then
      if n == '\0' then Bad
      else if n == '\n' then Emit("", i + 2, quote)
      else Emit(F.EncodeQuoted(n), i + 2, quote)
    else if c == '$' || c == '`' then Expansion
    else if quote == '"' then Emit(F.EncodeQuoted(c), i + 1, quote)
    else Emit([c], i + 1, quote)
  }

  /** `tilde`: nothing of the word has been taken yet.  Words that look like assignments are left out. */
  function ExpandFrom(s: string, i: nat, quote: char, tilde: bool): Removal
    requires i <= |s|
    decreases |s| - i
  {
    if i == |s| then Encoded("")
    else
      match ExpandAt(s, i, quote, tilde)
      case Bad => TrailingBackslash
      case Expansion => Outside
      case Emit(text, next, quote') =>
        var rest := ExpandFrom(s, next, quote', false);
        if rest.Encoded? then Encoded(text + rest.text) else rest
  }

  predicate HasRuntimeExpansion(s: string) {
    if s == "" then false
    else if s[0] == '\\' && |s| > 1 then HasRuntimeExpansion(s[2..])
    else s[0] == '$' || s[0] == '`' || HasRuntimeExpansion(s[1..])
  }

  /** The words one quoted token becomes. */
  function ExpandQuoted(ifs: string, splitFields: bool, token: string): Option<seq<string>> {
    if token == "" || token[0] != '\'' then None
    else
      var expanded := ExpandFrom(token, 0, '\0', true);
      if !expanded.Encoded? || F.AT_SPLIT in expanded.text then None
      else if splitFields && HasRuntimeExpansion(token) && expanded.text == "" then Some([])
      else if splitFields && HasRuntimeExpansion(token) && ifs != "" && F.HasDelimiter(ifs, expanded.text) then
        Some(F.SplitFrom(ifs, expanded.text))
      else Some([F.Restore(expanded.text)])
  }

  // ---------- reading back ----------

  lemma TakeTurn(s: string, i: nat, quote: char, buf: string, started: bool)
    requires i < |s| && LexAt(s, i, quote).Take?
    ensures (var t := LexAt(s, i, quote);
             LexWord(s, i, quote, buf, started) == LexWord(s, t.next, t.quote, buf + t.text, started || t.starts))
  {
    hide LexAt;
  }

  /** In single quotes every character is taken as it is. */
  lemma InSingleQuotes(s: string, i: nat, buf: string)
    requires i < |s|
    ensures LexWord(s, i, '\'', buf, true) == LexWord(s, i + 1, if s[i] == '\'' then '\0' else '\'', buf + [s[i]], true)
  {
    hide LexWord, CommandSubstEnd, BracedEnd, EscapedEnd;
    TakeTurn(s, i, '\'', buf, true);
  }

  lemma {:induction false} LexQuoteRest(s: string, i: nat, v: string, buf: string)
    requires i <= |s| && s[i..] == QuoteRest(v)
    ensures LexWord(s, i, '\'', buf, true) == Some(Word(buf + QuoteRest(v), true, |s|))
    decreases |v|
  {
    hide LexWord, QuotedChar, CommandSubstEnd, BracedEnd, EscapedEnd;
    InSingleQuotes(s, i, buf);
    assert s[i] == QuoteRest(v)[0];
    if v == "" {
      WordEnds(s, buf + "'");
    } else {
      var c := QuotedChar(v[0]);
      QuoteCases(v[0]);
      assert s[i + |c|..] == s[i..][|c|..] == QuoteRest(v[1..]);
      assert forall k :: 0 <= k < |c| ==> s[i + k] == s[i..][k] == c[k];
      QuoteGrows(buf, c, QuoteRest(v[1..]));
      if v[0] == '\'' {
        BetweenQuotes(s, i, buf);
        LexQuoteRest(s, i + 4, v[1..], buf + c);
      } else {
        LexQuoteRest(s, i + 1, v[1..], buf + c);
      }
    }
  }

  lemma QuoteCases(c: char)
    ensures QuotedChar(c) == if c == '\'' then ['\'', '\\', '\'', '\''] else [c]
  {
    assert "'\\''" == ['\'', '\\', '\'', '\''];
  }

  lemma WordEnds(s: string, buf: string)
    ensures LexWord(s, |s|, '\0', buf, true) == Some(Word(buf, true, |s|))
  {
  }

  lemma BetweenQuotes(s: string, i: nat, buf: string)
    requires i + 4 <= |s| && s[i] == '\'' && s[i + 1] == '\\' && s[i + 2] == '\'' && s[i + 3] == '\''
    ensures LexWord(s, i, '\'', buf, true) == LexWord(s, i + 4, '\'', buf + ['\'', '\\', '\'', '\''], true)
  {
    hide LexWord, CommandSubstEnd, BracedEnd, EscapedEnd;
    InSingleQuotes(s, i, buf);
    TakeTurn(s, i + 1, '\0', buf + ['\''], true);
    TakeTurn(s, i + 3, '\0', (buf + ['\'']) + ['\\', '\''], true);
    assert ((buf + ['\'']) + ['\\', '\'']) + ['\''] == buf + ['\'', '\\', '\'', '\''];
  }

  /** The quoted value is one word of the line. */
  lemma QuotedIsOneWord(v: string)
    ensures Lex(Quote(v), 0) == Some([Quote(v)])
  {
    hide LexWord, LexAt, QuoteRest;
    var s := Quote(v);
    SpaceEndIs(s, 0, 0);
    OpenQuote(s);
    assert s[1..] == QuoteRest(v);
    LexQuoteRest(s, 1, v, "'");
    SpaceEndIs(s, |s|, |s|);
    assert Lex(s, |s|) == Some([]);
    assert [s] + [] == [s];
  }

  lemma OpenQuote(s: string)
    requires s != "" && s[0] == '\''
    ensures LexWord(s, 0, '\0', "", false) == LexWord(s, 1, '\'', "'", true)
  {
    hide LexWord, CommandSubstEnd, BracedEnd, EscapedEnd;
    TakeTurn(s, 0, '\0', "", false);
    assert "" + ['\''] == "'";
  }

  /** The marked characters a quoted value stands for. */
  function Marked(v: string): seq<F.Element> {
    if v == "" then [F.QuotedNothing]
    else if v[0] == '\'' then [F.QuotedNothing, F.Char('\'', true), F.QuotedNothing] + Marked(v[1..])
    else [F.Char(v[0], true)] + Marked(v[1..])
  }

  lemma EmitTurn(s: string, i: nat, quote: char, tilde: bool)
    requires i < |s| && ExpandAt(s, i, quote, tilde).Emit?
    ensures (var t := ExpandAt(s, i, quote, tilde);
             var rest := ExpandFrom(s, t.next, t.quote, false);
             ExpandFrom(s, i, quote, tilde) == if rest.Encoded? then Encoded(t.text + rest.text) else rest)
  {
    hide ExpandAt;
  }

  lemma EncodeThree(es: seq<F.Element>)
    ensures F.Encode([F.QuotedNothing, F.Char('\'', true), F.QuotedNothing] + es) ==
            [F.EMPTY_MARK] + (F.EncodeQuoted('\'') + ([F.EMPTY_MARK] + F.Encode(es)))
  {
    hide F.EncodeQuoted;
    assert [F.QuotedNothing, F.Char('\'', true), F.QuotedNothing] + es ==
           [F.QuotedNothing] + ([F.Char('\'', true)] + ([F.QuotedNothing] + es));
    F.EncodeFirst(F.QuotedNothing, [F.Char('\'', true)] + ([F.QuotedNothing] + es));
    F.EncodeFirst(F.Char('\'', true), [F.QuotedNothing] + es);
    F.EncodeFirst(F.QuotedNothing, es);
  }

  lemma {:induction false} ExpandQuoteRest(s: string, i: nat, v: string)
    requires i <= |s| && s[i..] == QuoteRest(v)
    ensures ExpandFrom(s, i, '\'', false) == Encoded(F.Encode(Marked(v)))
    decreases |v|
  {
    hide ExpandFrom, QuotedChar, F.EncodeQuoted, F.Encode;
    assert s[i] == QuoteRest(v)[0];
    if v == "" {
      EmitTurn(s, i, '\'', false);
      ExpandEnds(s);
      F.EncodeFirst(F.QuotedNothing, []);
      F.EncodeNothing();
      assert [F.QuotedNothing] + [] == [F.QuotedNothing];
      assert [F.EMPTY_MARK] + "" == [F.EMPTY_MARK];
    } else {
      var c := QuotedChar(v[0]);
      QuoteCases(v[0]);
      assert s[i + |c|..] == s[i..][|c|..] == QuoteRest(v[1..]);
      assert forall k :: 0 <= k < |c| ==> s[i + k] == s[i..][k] == c[k];
      EmitTurn(s, i, '\'', false);
      if v[0] == '\'' {
        ExpandQuoteRest(s, i + 4, v[1..]);
        EmitTurn(s, i + 1, '\0', false);
        EmitTurn(s, i + 3, '\0', false);
        EncodeThree(Marked(v[1..]));
      } else {
        ExpandQuoteRest(s, i + 1, v[1..]);
        F.EncodeFirst(F.Char(v[0], true), Marked(v[1..]));
      }
    }
  }

  lemma ExpandEnds(s: string)
    ensures ExpandFrom(s, |s|, '\0', false) == Encoded("")
  {
  }

  ghost predicate AllQuoted(es: seq<F.Element>, c: char) {
    forall k :: 0 <= k < |es| && es[k].Char? ==> es[k].quoted && es[k].c != '\0' && es[k].c != c
  }

  lemma {:induction false} MarkedIs(v: string, c: char)
    requires c != '\'' && forall k :: 0 <= k < |v| ==> v[k] != '\0' && v[k] != c
    ensures F.TextOf(Marked(v)) == v && AllQuoted(Marked(v), c)
  {
    if v != "" {
      MarkedIs(v[1..], c);
      var rest := Marked(v[1..]);
      if v[0] == '\'' {
        TextThree(rest);
        assert forall k :: 3 <= k < |Marked(v)| ==> Marked(v)[k] == rest[k - 3];
      } else {
        assert Marked(v)[1..] == rest;
        assert forall k :: 1 <= k < |Marked(v)| ==> Marked(v)[k] == rest[k - 1];
      }
    }
  }

  lemma TextThree(es: seq<F.Element>)
    ensures F.TextOf([F.QuotedNothing, F.Char('\'', true), F.QuotedNothing] + es) == "'" + F.TextOf(es)
  {
    var three := [F.QuotedNothing, F.Char('\'', true), F.QuotedNothing] + es;
    var two := [F.Char('\'', true), F.QuotedNothing] + es;
    var one := [F.QuotedNothing] + es;
    assert three[1..] == two && two[1..] == one && one[1..] == es;
    assert F.TextOf(one) == F.TextOf(es);
    assert F.TextOf(two) == "'" + F.TextOf(one);
  }

  lemma {:induction false} NotEncoded(es: seq<F.Element>)
    requires AllQuoted(es, F.AT_SPLIT)
    ensures F.AT_SPLIT !in F.Encode(es)
  {
    if es != [] {
      var rest := es[1..];
      assert forall k :: 0 <= k < |rest| ==> rest[k] == es[k + 1];
      NotEncoded(rest);
      assert F.AT_SPLIT !in F.EncodeOne(es[0]);
    }
  }

  lemma QuotedNeverSplits(ifs: string, es: seq<F.Element>, c: char)
    requires AllQuoted(es, c)
    ensures F.Encodable(es) && !F.Splits(ifs, es)
  {
  }

  lemma ExpandQuote(v: string)
    ensures ExpandFrom(Quote(v), 0, '\0', true) == Encoded(F.Encode([F.QuotedNothing] + Marked(v)))
  {
    hide ExpandFrom, QuoteRest, F.Encode;
    var s := Quote(v);
    EmitTurn(s, 0, '\0', true);
    assert s[1..] == QuoteRest(v);
    ExpandQuoteRest(s, 1, v);
    F.EncodeFirst(F.QuotedNothing, Marked(v));
  }

  /** What `alias` prints for a value is one word of a line, and that word expands to the value, exactly
      and as one field, whether fields are split or not and whatever IFS is. */
  lemma QuotedReadsBack(ifs: string, splitFields: bool, v: string)
    requires F.PlainIfs(ifs) && forall k :: 0 <= k < |v| ==> v[k] != '\0' && v[k] != F.AT_SPLIT
    ensures Lex(Quote(v), 0) == Some([Quote(v)])
    ensures ExpandQuoted(ifs, splitFields, Quote(v)) == Some([v])
  {
    hide ExpandFrom, QuoteRest, Lex, F.Encode, HasRuntimeExpansion, F.HasDelimiter, F.Restore, F.TextOf, Marked;
    QuotedIsOneWord(v);
    MarkedIs(v, F.AT_SPLIT);
    var es := [F.QuotedNothing] + Marked(v);
    assert es[1..] == Marked(v);
    NotEncoded(es);
    QuotedNeverSplits(ifs, es, F.AT_SPLIT);
    ExpandQuote(v);
    F.DelimitersAgree(ifs, es);
    F.RestoreUndoesEncode(es);
    TextOfMarked(v);
    F.FirstBytes(ifs, es);
  }

  lemma TextOfMarked(v: string)
    ensures F.TextOf([F.QuotedNothing] + Marked(v)) == F.TextOf(Marked(v))
  {
    assert ([F.QuotedNothing] + Marked(v))[1..] == Marked(v);
  }

  // ---------- the words of a line ----------

  /** A character that is nothing but itself. */
  predicate Ordinary(c: char) {
    !IsSpace(c) && c !in {'\'', '"', '\\', '$', '`'}
  }

  /** From `k` on, the word goes on to its end, with every quote closed; inside double quotes nothing is special. */
  predicate Closed(w: string, k: nat, quote: char)
    requires k <= |w|
    decreases |w| - k
  {
    if k == |w| then quote == '\0'
    else if quote == '\0' then
      if w[k] == '\'' || w[k] == '"' then Closed(w, k + 1, w[k]) else Ordinary(w[k]) && Closed(w, k + 1, quote)
    else
      && (quote == '"' ==> w[k] !in {'\\', '$', '`'})
      && Closed(w, k + 1, if w[k] == quote then '\0' else quote)
  }

  /** The word stands at `j`, with white space or the end of the line behind it. */
  predicate WordAt(w: string, s: string, j: nat) {
    && w != "" && Closed(w, 0, '\0') && j + |w| <= |s|
    && (forall k :: 0 <= k < |w| ==> s[j + k] == w[k])
    && (j + |w| < |s| ==> IsSpace(s[j + |w|]))
  }

  predicate Spaces(s: string, i: nat, j: nat) {
    i <= j <= |s| && forall k :: i <= k < j ==> IsSpace(s[k])
  }

  /** From `i` on, the line is these words, with any white space around them. */
  ghost predicate SpelledLine(words: seq<string>, s: string, i: nat)
    decreases |words|
  {
    if words == [] then Spaces(s, i, |s|)
    else exists j: nat :: Spaces(s, i, j) && WordAt(words[0], s, j) && SpelledLine(words[1..], s, j + |words[0]|)
  }

  lemma CharLexed(s: string, i: nat, quote: char)
    requires i < |s| && quote in {'\0', '\'', '"'}
    requires if quote == '\0' then Ordinary(s[i]) || s[i] == '\'' || s[i] == '"'
             else quote == '"' ==> s[i] !in {'\\', '$', '`'}
    ensures (var step := LexAt(s, i, quote);
             && step.Take? && step.text == [s[i]] && step.next == i + 1
             && step.quote == (if quote == '\0' then if Ordinary(s[i]) then quote else s[i]
                               else if s[i] == quote then '\0' else quote)
             && (quote == '\0' ==> step.starts))
  {
    hide CommandSubstEnd, BracedEnd, EscapedEnd;
  }

  lemma {:induction false} WordLexed(s: string, j: nat, w: string, k: nat, quote: char, started: bool)
    requires WordAt(w, s, j) && k <= |w| && quote in {'\0', '\'', '"'} && Closed(w, k, quote)
    requires if k == 0 then !started && quote == '\0' else started
    ensures LexWord(s, j + k, quote, w[..k], started) == Some(Word(w, true, j + |w|))
    decreases |w| - k
  {
    hide LexWord, LexAt, IsSpace, Ordinary;
    if k == |w| {
      assert w[..k] == w;
      WordStops(s, j + k, w);
    } else {
      assert s[j + k] == w[k];
      QuotesAreSpecial();
      CharLexed(s, j + k, quote);
      var step := LexAt(s, j + k, quote);
      TakeTurn(s, j + k, quote, w[..k], started);
      assert w[..k] + [w[k]] == w[..k + 1];
      WordLexed(s, j, w, k + 1, step.quote, true);
    }
  }

  lemma QuotesAreSpecial()
    ensures !Ordinary('\'') && !Ordinary('"')
  {
  }

  lemma WordStops(s: string, i: nat, buf: string)
    requires i <= |s| && (i < |s| ==> IsSpace(s[i]))
    ensures LexWord(s, i, '\0', buf, true) == Some(Word(buf, true, i))
  {
    hide CommandSubstEnd, BracedEnd, EscapedEnd;
  }

  lemma WordBegins(w: string, s: string, j: nat)
    requires WordAt(w, s, j)
    ensures j < |s| && !IsSpace(s[j])
  {
    assert s[j + 0] == w[0];
  }

  /** A line is split at its white space, quoted parts of words aside, and nothing is lost. */
  lemma {:induction false} LineSplit(words: seq<string>, s: string, i: nat)
    requires i <= |s| && SpelledLine(words, s, i)
    ensures Lex(s, i) == Some(words)
    decreases |words|
  {
    hide LexWord, WordAt, IsSpace;
    if words == [] {
      AllBlank(s, i);
    } else {
      var j: nat :| Spaces(s, i, j) && WordAt(words[0], s, j) && SpelledLine(words[1..], s, j + |words[0]|);
      WordBegins(words[0], s, j);
      SpaceEndAt(s, i, j);
      WholeWordLexed(s, j, words[0]);
      LineSplit(words[1..], s, j + |words[0]|);
      assert [words[0]] + words[1..] == words;
    }
  }

  lemma SpaceEndAt(s: string, i: nat, j: nat)
    requires Spaces(s, i, j) && j < |s| && !IsSpace(s[j])
    ensures SpaceEnd(s, i) == j
  {
    SpaceEndIs(s, i, j);
  }

  lemma AllBlank(s: string, i: nat)
    requires Spaces(s, i, |s|)
    ensures Lex(s, i) == Some([])
  {
    SpaceEndIs(s, i, |s|);
  }

  lemma WholeWordLexed(s: string, j: nat, w: string)
    requires WordAt(w, s, j)
    ensures j + |w| <= |s| && LexWord(s, j, '\0', "", false) == Some(Word(w, true, j + |w|))
  {
    hide LexWord;
    assert w[..0] == "";
    WordLexed(s, j, w, 0, '\0', false);
  }
}
