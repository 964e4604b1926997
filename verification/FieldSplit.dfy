/** Field splitting on text in which quoted characters are marked in band, and the splitting of marked
    characters it stands for. */
module FieldSplit {
  import opened Common

  const QUOTED_SPACE: char := 0x81 as char
  const QUOTED_TAB: char := 0x82 as char
  const QUOTED_NEWLINE: char := 0x83 as char
  const QUOTED_STAR: char := 0x84 as char
  const QUOTED_QMARK: char := 0x85 as char
  const QUOTED_LBRACK: char := 0x86 as char
  const EMPTY_MARK: char := 0x87 as char
  const LITERAL_PREFIX: char := 0x88 as char
  const AT_SPLIT: char := 0x89 as char

  predicate Marker(c: char) {
    0x81 as char <= c <= 0x89 as char
  }

  // ---------- splitting marked characters ----------

  /** A character with its quoting, or the mark a pair of quotes with nothing in it leaves. */
  datatype Element = Char(c: char, quoted: bool) | QuotedNothing

  predicate Ends(ifs: string, e: Element) {
    e.Char? && !e.quoted && e.c in ifs
  }

  predicate Blank(ifs: string, e: Element) {
    Ends(ifs, e) && e.c in {' ', '\t', '\n'}
  }

  function DropBlanks(ifs: string, es: seq<Element>): (r: seq<Element>)
    ensures |r| <= |es|
  {
    if es != [] && Blank(ifs, es[0]) then DropBlanks(ifs, es[1..]) else es
  }

  /** How many elements the first field has. */
  function FirstField(ifs: string, es: seq<Element>): (n: nat)
    ensures n <= |es|
    ensures n < |es| ==> Ends(ifs, es[n])
    ensures forall k :: 0 <= k < n ==> !Ends(ifs, es[k])
  {
    if es == [] || Ends(ifs, es[0]) then 0 else 1 + FirstField(ifs, es[1..])
  }

  /** Drops what separates two fields: blanks, with at most one other IFS character among them. */
  function DropSeparator(ifs: string, es: seq<Element>): (r: seq<Element>)
    ensures |r| <= |es|
    ensures es != [] && Ends(ifs, es[0]) ==> |r| < |es|
  {
    if es == [] || !Ends(ifs, es[0]) then es
    else if !Blank(ifs, es[0]) then DropBlanks(ifs, es[1..])
    else DropSeparator(ifs, es[1..])
  }

  function Fields(ifs: string, es: seq<Element>): seq<seq<Element>>
    decreases |es|
  {
    var rest := DropBlanks(ifs, es);
    if rest == [] then []
    else
      var n := FirstField(ifs, rest);
      [rest[..n]] + if n == |rest| then [] else Fields(ifs, DropSeparator(ifs, rest[n..]))
  }

  predicate Splits(ifs: string, es: seq<Element>) {
    exists k :: 0 <= k < |es| && Ends(ifs, es[k])
  }

  /** A piece of an expansion: itself where nothing splits it, or splitting is off, however little it is. */
  function Pieces(split: bool, ifs: string, es: seq<Element>): seq<seq<Element>> {
    if split && Splits(ifs, es) then Fields(ifs, es) else [es]
  }

  function TextOf(es: seq<Element>): string {
    if es == [] then "" else (if es[0].Char? then [es[0].c] else "") + TextOf(es[1..])
  }

  function Texts(fields: seq<seq<Element>>): seq<string> {
    if fields == [] then [] else [TextOf(fields[0])] + Texts(fields[1..])
  }

  // ---------- the encoding ----------

  function EncodeQuoted(c: char): (s: string)
    ensures |s| > 0
  {
    if c == ' ' then [QUOTED_SPACE]
    else if c == '\t' then [QUOTED_TAB]
    else if c == '\n' then [QUOTED_NEWLINE]
    else if c == '*' then [QUOTED_STAR]
    else if c == '?' then [QUOTED_QMARK]
    else if c == '[' then [QUOTED_LBRACK]
    else [LITERAL_PREFIX, c]
  }

  function EncodeOne(e: Element): (s: string)
    ensures |s| > 0
  {
    if e.QuotedNothing? then [EMPTY_MARK]
    else if e.quoted then EncodeQuoted(e.c)
    else [e.c]
  }

  function Encode(es: seq<Element>): string {
    if es == [] then "" else EncodeOne(es[0]) + Encode(es[1..])
  }

  /** No unquoted character looks like a marker, and no character ends the string. */
  predicate Encodable(es: seq<Element>) {
    forall k :: 0 <= k < |es| ==> es[k].Char? ==> es[k].c != '\0' && (!es[k].quoted ==> !Marker(es[k].c))
  }

  predicate PlainIfs(ifs: string) {
    forall c :: c in ifs ==> !Marker(c)
  }

  // ---------- splitting encoded text ----------

  predicate IsIfs(ifs: string, c: char) {
    c in ifs
  }

  predicate IsIfsBlank(ifs: string, c: char) {
    c in {' ', '\t', '\n'} && IsIfs(ifs, c)
  }

  predicate IsDelimiter(ifs: string, c: char) {
    c !in {QUOTED_SPACE, QUOTED_TAB, QUOTED_NEWLINE} && IsIfs(ifs, c)
  }

  /** A prefix that quotes the character behind it. */
  predicate Literal(s: string) {
    |s| > 1 && s[0] == LITERAL_PREFIX
  }

  function Restored(c: char): string {
    if c == EMPTY_MARK then ""
    else if c == QUOTED_SPACE then " "
    else if c == QUOTED_TAB then "\t"
    else if c == QUOTED_NEWLINE then "\n"
    else if c == QUOTED_STAR then "*"
    else if c == QUOTED_QMARK then "?"
    else if c == QUOTED_LBRACK then "["
    else [c]
  }

  function Restore(s: string): (r: string)
    ensures |r| <= |s|
  {
    if s == "" then ""
    else if Literal(s) then [s[1]] + Restore(s[2..])
    else Restored(s[0]) + Restore(s[1..])
  }

  predicate HasDelimiter(ifs: string, s: string) {
    if s == "" then false
    else if Literal(s) then HasDelimiter(ifs, s[2..])
    else IsDelimiter(ifs, s[0]) || HasDelimiter(ifs, s[1..])
  }

  function SkipBlanks(ifs: string, s: string): (r: string)
    ensures |r| <= |s|
  {
    if s != "" && IsIfsBlank(ifs, s[0]) then SkipBlanks(ifs, s[1..]) else s
  }

  function FieldLength(ifs: string, s: string): (n: nat)
    ensures n <= |s|
    ensures n < |s| ==> IsDelimiter(ifs, s[n]) && !Literal(s[n..])
  {
    if s == "" then 0
    else if Literal(s) then
      assert s[2..][FieldLength(ifs, s[2..])..] == s[2 + FieldLength(ifs, s[2..])..];
      2 + FieldLength(ifs, s[2..])
    else if IsDelimiter(ifs, s[0]) then 0
    else
      assert s[1..][FieldLength(ifs, s[1..])..] == s[1 + FieldLength(ifs, s[1..])..];
      1 + FieldLength(ifs, s[1..])
  }

  function SkipSeparator(ifs: string, s: string): (r: string)
    ensures |r| <= |s|
    ensures s != "" && !Literal(s) && IsDelimiter(ifs, s[0]) ==> |r| < |s|
  {
    if s == "" || Literal(s) || !IsDelimiter(ifs, s[0]) then s
    else if !IsIfsBlank(ifs, s[0]) then SkipBlanks(ifs, s[1..])
    else SkipSeparator(ifs, s[1..])
  }

  function SplitFrom(ifs: string, s: string): seq<string>
    decreases |s|
  {
    var t := SkipBlanks(ifs, s);
    if t == "" then []
    else
      var n := FieldLength(ifs, t);
      [Restore(t[..n])] + if n == |t| then [] else SplitFrom(ifs, SkipSeparator(ifs, t[n..]))
  }

  function Split(ifs: string, s: string): seq<string> {
    if ifs == "" || !HasDelimiter(ifs, s) then [] else SplitFrom(ifs, s)
  }

  /** What a piece of an expansion adds to the words of the command. */
  function AppendPiece(split: bool, ifs: string, s: string): seq<string> {
    if split && ifs != "" && HasDelimiter(ifs, s) then SplitFrom(ifs, s) else [Restore(s)]
  }

  // ---------- the scanners ----------

  lemma Suffix(s: string, i: nat, k: nat)
    requires i + k <= |s|
    ensures s[i..][k..] == s[i + k..]
  {
  }

  /** One step of restoring, on a text whose front has become `done`. */
  lemma RestoreTurn(text: string, i: nat, done: string)
    requires i < |text|
    ensures (var (back, next) := if text[i] == LITERAL_PREFIX && i + 1 < |text| then ([text[i + 1]], i + 2)
                                 else (Restored(text[i]), i + 1);
             done + Restore(text[i..]) == (done + back) + Restore(text[next..]))
  {
    Suffix(text, i, 1);
    if i + 1 < |text| {
      Suffix(text, i, 2);
    }
  }

  /** Rewrites the buffer in place; the answer is the new length. */
  method RestoreQuotedMarkers(s: array<char>, n: nat) returns (j: nat)
    requires n <= s.Length
    modifies s
    ensures j <= n && s[..j] == Restore(old(s[..n]))
  {
    hide Restore, Restored;
    ghost var text := s[..n];
    ghost var done := "";
    j := 0;
    var i := 0;
    assert done + Restore(text[0..]) == Restore(text) by {
      assert text[0..] == text;
    }
    while i < n
      invariant j <= i <= n && |done| == j
      invariant forall k :: 0 <= k < j ==> s[k] == done[k]
      invariant forall k :: i <= k < n ==> s[k] == text[k]
      invariant done + Restore(text[i..]) == Restore(text)
      decreases n - i
    {
      var ch := s[i];
      RestoreTurn(text, i, done);
      if ch == LITERAL_PREFIX && i + 1 < n {
        done := done + [s[i + 1]];
        s[j] := s[i + 1];
        j := j + 1;
        i := i + 2;
      } else {
        var back := RestoredChar(ch);
        if back.Some? {
          done := done + [back.value];
          s[j] := back.value;
          j := j + 1;
        } else {
          assert done + "" == done;
        }
        i := i + 1;
      }
    }
    RestoreEnds();
    assert s[..j] == done;
  }

  lemma RestoreEnds()
    ensures Restore("") == ""
  {
  }

  method RestoredChar(ch: char) returns (r: Option<char>)
    ensures Restored(ch) == if r.Some? then [r.value] else ""
  {
    if ch == EMPTY_MARK {
      return None;
    }
    if ch == QUOTED_SPACE {
      return Some(' ');
    } else if ch == QUOTED_TAB {
      return Some('\t');
    } else if ch == QUOTED_NEWLINE {
      return Some('\n');
    } else if ch == QUOTED_STAR {
      return Some('*');
    } else if ch == QUOTED_QMARK {
      return Some('?');
    } else if ch == QUOTED_LBRACK {
      return Some('[');
    }
    return Some(ch);
  }

  method FieldSplitHasDelimiter(ifs: string, s: string) returns (b: bool)
    ensures b <==> ifs != "" && HasDelimiter(ifs, s)
  {
    hide IsDelimiter;
    if ifs == "" {
      return false;
    }
    var pos := 0;
    assert s[0..] == s;
    while pos < |s|
      invariant pos <= |s|
      invariant HasDelimiter(ifs, s) <==> HasDelimiter(ifs, s[pos..])
      decreases |s| - pos
    {
      Suffix(s, pos, 1);
      if s[pos] == LITERAL_PREFIX && pos + 1 < |s| {
        Suffix(s, pos, 2);
        pos := pos + 2;
      } else {
        if IsDelimiter(ifs, s[pos]) {
          return true;
        }
        pos := pos + 1;
      }
    }
    return false;
  }

  method SkipBlanksAt(ifs: string, s: string, start: nat) returns (pos: nat)
    requires start <= |s|
    ensures start <= pos <= |s| && s[pos..] == SkipBlanks(ifs, s[start..])
  {
    hide IsIfsBlank;
    pos := start;
    while pos < |s| && IsIfsBlank(ifs, s[pos])
      invariant start <= pos <= |s|
      invariant SkipBlanks(ifs, s[pos..]) == SkipBlanks(ifs, s[start..])
    {
      Suffix(s, pos, 1);
      pos := pos + 1;
    }
  }

  lemma FieldLengthStep(ifs: string, s: string, pos: nat)
    requires pos < |s|
    ensures s[pos] == LITERAL_PREFIX && pos + 1 < |s| ==>
              FieldLength(ifs, s[pos..]) == 2 + FieldLength(ifs, s[pos + 2..])
    ensures !(s[pos] == LITERAL_PREFIX && pos + 1 < |s|) ==>
              FieldLength(ifs, s[pos..]) == if IsDelimiter(ifs, s[pos]) then 0 else 1 + FieldLength(ifs, s[pos + 1..])
  {
    hide IsDelimiter;
    Suffix(s, pos, 1);
    if pos + 1 < |s| {
      Suffix(s, pos, 2);
    }
  }

  method FieldEnd(ifs: string, s: string, start: nat) returns (pos: nat)
    requires start <= |s|
    ensures pos == start + FieldLength(ifs, s[start..]) <= |s|
  {
    hide IsDelimiter, FieldLength;
    pos := start;
    while pos < |s|
      invariant start <= pos <= |s|
      invariant FieldLength(ifs, s[start..]) == pos - start + FieldLength(ifs, s[pos..])
      decreases |s| - pos
    {
      FieldLengthStep(ifs, s, pos);
      if s[pos] == LITERAL_PREFIX && pos + 1 < |s| {
        pos := pos + 2;
      } else {
        if IsDelimiter(ifs, s[pos]) {
          return;
        }
        pos := pos + 1;
      }
    }
  }

  method SkipSeparatorAt(ifs: string, s: string, start: nat) returns (pos: nat)
    requires start <= |s|
    ensures start <= pos <= |s| && s[pos..] == SkipSeparator(ifs, s[start..])
    ensures start < |s| && !Literal(s[start..]) && IsDelimiter(ifs, s[start]) ==> start < pos
  {
    hide IsDelimiter, IsIfsBlank;
    pos := start;
    while pos < |s|
      invariant start <= pos <= |s|
      invariant SkipSeparator(ifs, s[start..]) == SkipSeparator(ifs, s[pos..])
      decreases |s| - pos
    {
      Suffix(s, pos, 1);
      if s[pos] == LITERAL_PREFIX && pos + 1 < |s| {
        return;
      }
      if !IsDelimiter(ifs, s[pos]) {
        return;
      }
      if !IsIfsBlank(ifs, s[pos]) {
        pos := SkipBlanksAt(ifs, s, pos + 1);
        return;
      }
      pos := pos + 1;
    }
  }

  method FieldSplitSplit(ifs: string, s: string, out: seq<string>) returns (items: seq<string>, appended: nat)
    ensures items == out + Split(ifs, s) && appended == |Split(ifs, s)|
  {
    hide FieldLength, SkipSeparator, SkipBlanks, IsDelimiter, HasDelimiter, Restore, IsIfsBlank, SplitFrom, Literal;
    items, appended := out, 0;
    assert out + [] == out;
    var splits := FieldSplitHasDelimiter(ifs, s);
    if !splits {
      return;
    }
    var pos := 0;
    assert s[0..] == s;
    while pos < |s|
      invariant pos <= |s|
      invariant items + SplitFrom(ifs, s[pos..]) == out + SplitFrom(ifs, s)
      invariant appended == |items| - |out| && |items| >= |out|
      decreases |s| - pos
    {
      var from := pos;
      pos := SkipBlanksAt(ifs, s, pos);
      var start := pos;
      SplitTurn(ifs, s, from, start);
      if pos == |s| {
        break;
      }
      pos := FieldEnd(ifs, s, start);
      var end := pos;
      var field := RestoreSlice(s[start..end]);
      assert (items + [field]) + SplitFrom(ifs, SkipSeparator(ifs, s[end..]))
          == items + ([field] + SplitFrom(ifs, SkipSeparator(ifs, s[end..])));
      items := items + [field];
      appended := appended + 1;
      if pos == |s| {
        break;
      }
      pos := SkipSeparatorAt(ifs, s, pos);
    }
    if pos == |s| {
      SplitEnds(ifs, s);
    }
  }

  lemma SplitEnds(ifs: string, s: string)
    ensures SplitFrom(ifs, s[|s|..]) == []
  {
  }

  /** One field of the scan: where it begins, where it ends, and what is left. */
  lemma SplitTurn(ifs: string, s: string, from: nat, start: nat)
    requires from <= start <= |s| && s[start..] == SkipBlanks(ifs, s[from..])
    ensures start == |s| ==> SplitFrom(ifs, s[from..]) == []
    ensures start < |s| ==>
              (var end := start + FieldLength(ifs, s[start..]);
               && start <= end <= |s|
               && (end < |s| ==> IsDelimiter(ifs, s[end]) && !Literal(s[end..]))
               && SplitFrom(ifs, s[from..]) ==
                  [Restore(s[start..end])] + if end == |s| then [] else SplitFrom(ifs, SkipSeparator(ifs, s[end..])))
  {
    hide FieldLength, SkipSeparator, SkipBlanks, IsDelimiter, Restore, Literal;
    if start < |s| {
      var n := FieldLength(ifs, s[start..]);
      Suffix(s, start, n);
      assert s[start..][..n] == s[start..start + n];
    }
  }

  method RestoreSlice(s: string) returns (field: string)
    ensures field == Restore(s)
  {
    hide Restore;
    var buffer := new char[|s|];
    for i := 0 to |s|
      invariant buffer[..i] == s[..i]
    {
      buffer[i] := s[i];
    }
    assert buffer[..|s|] == s;
    var n := RestoreQuotedMarkers(buffer, |s|);
    field := buffer[..n];
  }

  method FieldSplitAppendPiece(split: bool, ifs: string, piece: string, out: seq<string>) returns (items: seq<string>)
    ensures items == out + AppendPiece(split, ifs, piece)
  {
    hide SplitFrom, HasDelimiter, Restore;
    if split {
      var hadDelimiter := FieldSplitHasDelimiter(ifs, piece);
      var appended;
      items, appended := FieldSplitSplit(ifs, piece, out);
      if appended > 0 {
        return;
      }
      if hadDelimiter {
        return;
      }
    }
    var text := RestoreSlice(piece);
    items := out + [text];
  }

  // ---------- splitting encoded text is splitting marked characters ----------

  lemma EncodeConcat(a: seq<Element>, b: seq<Element>)
    ensures Encode(a + b) == Encode(a) + Encode(b)
  {
    if a == [] {
      assert a + b == b;
    } else {
      assert (a + b)[1..] == a[1..] + b;
      EncodeConcat(a[1..], b);
    }
  }

  predicate EncodableOne(e: Element) {
    e.Char? ==> e.c != '\0' && (!e.quoted ==> !Marker(e.c))
  }

  /** What the scanners see in the bytes of one element. */
  lemma BytesOf(ifs: string, e: Element)
    requires EncodableOne(e) && PlainIfs(ifs)
    ensures (var s := EncodeOne(e);
             if |s| == 2 then s[0] == LITERAL_PREFIX && !Ends(ifs, e) && e.Char? && s[1] == e.c
             else
               && |s| == 1 && s[0] != LITERAL_PREFIX
               && (Ends(ifs, e) <==> IsDelimiter(ifs, s[0]))
               && (Blank(ifs, e) <==> IsIfsBlank(ifs, s[0]))
               && Restored(s[0]) == (if e.Char? then [e.c] else ""))
  {
  }

  lemma PrefixIsNoBlank(ifs: string)
    ensures !IsIfsBlank(ifs, LITERAL_PREFIX)
    requires PlainIfs(ifs)
  {
  }

  /** The same at the front of an encoded text. */
  lemma FirstBytes(ifs: string, es: seq<Element>)
    requires es != [] && Encodable(es) && PlainIfs(ifs)
    ensures (var s := Encode(es);
             var e := EncodeOne(es[0]);
             && s == e + Encode(es[1..]) && |s| >= |e| && s[|e|..] == Encode(es[1..]) && Encodable(es[1..])
             && (if |e| == 2 then
                   Literal(s) && s[1] == e[1] && es[0].Char? && e[1] == es[0].c
                   && !Ends(ifs, es[0]) && !IsIfsBlank(ifs, s[0])
                 else
                   && |e| == 1 && !Literal(s) && s[0] == e[0]
                   && (Ends(ifs, es[0]) <==> IsDelimiter(ifs, s[0]))
                   && (Blank(ifs, es[0]) <==> IsIfsBlank(ifs, s[0]))
                   && Restored(s[0]) == if es[0].Char? then [es[0].c] else ""))
  {
    hide EncodeOne, IsDelimiter, IsIfsBlank, Ends, Blank, Restored;
    assert EncodableOne(es[0]);
    BytesOf(ifs, es[0]);
    PrefixIsNoBlank(ifs);
    assert (EncodeOne(es[0]) + Encode(es[1..]))[|EncodeOne(es[0])|..] == Encode(es[1..]);
  }

  lemma {:induction false} BlanksAgree(ifs: string, es: seq<Element>)
    requires Encodable(es) && PlainIfs(ifs)
    ensures SkipBlanks(ifs, Encode(es)) == Encode(DropBlanks(ifs, es)) && Encodable(DropBlanks(ifs, es))
  {
    hide Encode, EncodeOne, IsDelimiter, IsIfsBlank, Blank, Ends, Literal, Restored;
    EncodeNothing();
    if es != [] {
      FirstBytes(ifs, es);
      if Blank(ifs, es[0]) {
        BlankEnds(ifs, es[0]);
        BlankIsOne(ifs, es[0]);
        BlanksAgree(ifs, es[1..]);
      }
    }
  }

  lemma BlankIsOne(ifs: string, e: Element)
    requires Ends(ifs, e)
    ensures |EncodeOne(e)| == 1
  {
  }

  lemma BlankEnds(ifs: string, e: Element)
    requires Blank(ifs, e)
    ensures Ends(ifs, e)
  {
  }

  lemma {:induction false} SeparatorsAgree(ifs: string, es: seq<Element>)
    requires Encodable(es) && PlainIfs(ifs)
    ensures SkipSeparator(ifs, Encode(es)) == Encode(DropSeparator(ifs, es)) && Encodable(DropSeparator(ifs, es))
  {
    hide Encode, EncodeOne, IsDelimiter, IsIfsBlank, Blank, Ends, Literal, Restored;
    EncodeNothing();
    if es != [] {
      FirstBytes(ifs, es);
      if Ends(ifs, es[0]) {
        BlankIsOne(ifs, es[0]);
        if Blank(ifs, es[0]) {
          SeparatorsAgree(ifs, es[1..]);
        } else {
          BlanksAgree(ifs, es[1..]);
        }
      }
    }
  }

  lemma {:induction false} FieldsAgree(ifs: string, es: seq<Element>)
    requires Encodable(es) && PlainIfs(ifs)
    ensures (var n := FirstField(ifs, es);
             && FieldLength(ifs, Encode(es)) == |Encode(es[..n])| <= |Encode(es)|
             && Encode(es)[..|Encode(es[..n])|] == Encode(es[..n])
             && Encode(es)[|Encode(es[..n])|..] == Encode(es[n..])
             && Encodable(es[..n]) && Encodable(es[n..]))
  {
    hide EncodeOne, IsDelimiter, IsIfsBlank, Blank, Ends, Literal, Restored;
    var n := FirstField(ifs, es);
    assert es == es[..n] + es[n..];
    EncodeConcat(es[..n], es[n..]);
    LengthsAgree(ifs, es);
  }

  lemma {:induction false} LengthsAgree(ifs: string, es: seq<Element>)
    requires Encodable(es) && PlainIfs(ifs)
    ensures FieldLength(ifs, Encode(es)) == |Encode(es[..FirstField(ifs, es)])|
  {
    hide Encode, EncodeOne, IsDelimiter, IsIfsBlank, Blank, Ends, Literal, Restored;
    EncodeNothing();
    if es != [] {
      FirstBytes(ifs, es);
      if Ends(ifs, es[0]) {
        BlankIsOne(ifs, es[0]);
        assert es[..0] == [];
      } else {
        LengthsAgree(ifs, es[1..]);
        var n := FirstField(ifs, es[1..]);
        assert es[..n + 1] == [es[0]] + es[1..][..n];
        EncodeFirst(es[0], es[1..][..n]);
      }
    }
  }

  lemma EncodeFirst(e: Element, es: seq<Element>)
    ensures Encode([e] + es) == EncodeOne(e) + Encode(es)
  {
    assert ([e] + es)[1..] == es;
  }

  lemma {:induction false} RestoreUndoesEncode(es: seq<Element>)
    requires Encodable(es)
    ensures Restore(Encode(es)) == TextOf(es)
  {
    hide Encode, EncodeOne, Literal, Restored, IsDelimiter, IsIfsBlank, Blank, Ends;
    EncodeNothing();
    if es != [] {
      FirstBytes("", es);
      RestoreUndoesEncode(es[1..]);
    }
  }

  lemma {:induction false} DelimitersAgree(ifs: string, es: seq<Element>)
    requires Encodable(es) && PlainIfs(ifs)
    ensures HasDelimiter(ifs, Encode(es)) <==> Splits(ifs, es)
  {
    hide Encode, EncodeOne, IsDelimiter, IsIfsBlank, Blank, Ends, Literal, Restored;
    EncodeNothing();
    if es != [] {
      FirstBytes(ifs, es);
      DelimitersAgree(ifs, es[1..]);
      if Splits(ifs, es) && !Ends(ifs, es[0]) {
        var k :| 0 <= k < |es| && Ends(ifs, es[k]);
        assert es[1..][k - 1] == es[k];
      }
      if Splits(ifs, es[1..]) {
        var k :| 0 <= k < |es[1..]| && Ends(ifs, es[1..][k]);
        assert es[k + 1] == es[1..][k];
      }
      if Ends(ifs, es[0]) {
        BlankIsOne(ifs, es[0]);
      }
    }
  }

  lemma TextsFirst(field: seq<Element>, rest: seq<seq<Element>>)
    ensures Texts([field] + rest) == [TextOf(field)] + Texts(rest)
  {
    assert ([field] + rest)[1..] == rest;
  }

  lemma {:induction false} SplitAgrees(ifs: string, es: seq<Element>)
    requires Encodable(es) && PlainIfs(ifs)
    ensures SplitFrom(ifs, Encode(es)) == Texts(Fields(ifs, es))
    decreases |es|
  {
    hide Encode, DropBlanks, FirstField, FieldLength, SkipSeparator, SkipBlanks, DropSeparator, TextOf, Restore, Texts;
    var rest := DropBlanks(ifs, es);
    BlanksAgree(ifs, es);
    EncodeNothing();
    NoTexts();
    if rest != [] {
      FirstBytes(ifs, rest);
      var n := FirstField(ifs, rest);
      FieldsAgree(ifs, rest);
      RestoreUndoesEncode(rest[..n]);
      if n < |rest| {
        FirstBytes(ifs, rest[n..]);
        SeparatorsAgree(ifs, rest[n..]);
        SplitAgrees(ifs, DropSeparator(ifs, rest[n..]));
        TextsFirst(rest[..n], Fields(ifs, DropSeparator(ifs, rest[n..])));
      } else {
        assert rest[..n] == rest;
        TextsFirst(rest[..n], []);
      }
    }
  }

  lemma NoTexts()
    ensures Texts([]) == []
  {
  }

  /** Splitting the encoded text gives the texts of the fields that splitting the marked characters gives. */
  lemma PieceAgrees(split: bool, ifs: string, es: seq<Element>)
    requires Encodable(es) && PlainIfs(ifs)
    ensures AppendPiece(split, ifs, Encode(es)) == Texts(Pieces(split, ifs, es))
  {
    hide Encode, Fields, SplitFrom, HasDelimiter, Restore, Texts, TextOf;
    DelimitersAgree(ifs, es);
    if split && Splits(ifs, es) {
      SplitAgrees(ifs, es);
    } else {
      RestoreUndoesEncode(es);
      TextsFirst(es, []);
      NoTexts();
      assert [es] + [] == [es];
    }
    if ifs == "" {
      NothingSplits(es);
    }
  }

  lemma NothingSplits(es: seq<Element>)
    ensures !Splits("", es)
  {
  }

  lemma EncodeNothing()
    ensures Encode([]) == ""
  {
  }

  // ---------- quoted text ----------

  function QuotedAll(value: string): seq<Element> {
    if value == "" then [] else [Char(value[0], true)] + QuotedAll(value[1..])
  }

  /** Appends text so that no character of it is ever split or globbed. */
  method AppendLiteral(buf: string, value: string) returns (out: string)
    ensures out == buf + Encode(QuotedAll(value))
  {
    out := buf;
    assert value[0..] == value;
    for i := 0 to |value|
      invariant out + Encode(QuotedAll(value[i..])) == buf + Encode(QuotedAll(value))
    {
      LiteralTurn(out, value, i);
      var ch := value[i];
      if ch == ' ' {
        out := out + [QUOTED_SPACE];
      } else if ch == '\t' {
        out := out + [QUOTED_TAB];
      } else if ch == '\n' {
        out := out + [QUOTED_NEWLINE];
      } else if ch == '*' {
        out := out + [QUOTED_STAR];
      } else if ch == '?' {
        out := out + [QUOTED_QMARK];
      } else if ch == '[' {
        out := out + [QUOTED_LBRACK];
      } else {
        out := out + [LITERAL_PREFIX, ch];
      }
    }
    EncodeNothing();
  }

  lemma LiteralTurn(out: string, value: string, i: nat)
    requires i < |value|
    ensures out + Encode(QuotedAll(value[i..])) == (out + EncodeQuoted(value[i])) + Encode(QuotedAll(value[i + 1..]))
  {
    hide EncodeQuoted;
    assert value[i..][1..] == value[i + 1..];
    EncodeFirst(Char(value[i], true), QuotedAll(value[i + 1..]));
  }

  lemma {:induction false} QuotedAllIs(value: string)
    ensures |QuotedAll(value)| == |value|
    ensures forall k :: 0 <= k < |value| ==> QuotedAll(value)[k] == Char(value[k], true)
    ensures TextOf(QuotedAll(value)) == value
  {
    if value != "" {
      QuotedAllIs(value[1..]);
    }
  }

  /** Quoted text comes through splitting as one field that is that very text, whatever IFS is. */
  lemma QuotedIsOneField(split: bool, ifs: string, value: string)
    requires PlainIfs(ifs) && forall k :: 0 <= k < |value| ==> value[k] != '\0'
    ensures AppendPiece(split, ifs, Encode(QuotedAll(value))) == [value]
  {
    hide AppendPiece, Encode, QuotedAll, TextOf;
    QuotedAllIs(value);
    PieceAgrees(split, ifs, QuotedAll(value));
    TextsFirst(QuotedAll(value), []);
    NoTexts();
    assert [QuotedAll(value)] + [] == [QuotedAll(value)];
  }

  // ---------- the separators of positional parameters ----------

  function AtIndex(s: string): (k: nat)
    ensures k <= |s| && (k < |s| ==> s[k] == AT_SPLIT)
    ensures forall j :: 0 <= j < k ==> s[j] != AT_SPLIT
  {
    if s == "" || s[0] == AT_SPLIT then 0 else 1 + AtIndex(s[1..])
  }

  /** Each part between separators is a piece of its own. */
  function AtPieces(split: bool, ifs: string, s: string): seq<string>
    decreases |s|
  {
    var k := AtIndex(s);
    AppendPiece(split, ifs, s[..k]) + if k == |s| then [] else AtPieces(split, ifs, s[k + 1..])
  }

  method FieldSplitAppendAtExpansion(split: bool, ifs: string, expanded: string, out: seq<string>)
    returns (items: seq<string>)
    ensures items == out + AtPieces(split, ifs, expanded)
  {
    hide AppendPiece, AtIndex, AtPieces;
    items := out;
    var start, i := 0, 0;
    assert expanded[0..] == expanded;
    while i <= |expanded|
      invariant 0 <= start <= i <= |expanded| + 1
      invariant i <= |expanded| ==> AtIndex(expanded[start..]) == i - start + AtIndex(expanded[i..])
      invariant i <= |expanded| ==>
                  items + AtPieces(split, ifs, expanded[start..]) == out + AtPieces(split, ifs, expanded)
      invariant i > |expanded| ==> items == out + AtPieces(split, ifs, expanded)
    {
      AtIndexTurn(expanded[i..]);
      if i < |expanded| && expanded[i] != AT_SPLIT {
        Suffix(expanded, i, 1);
        i := i + 1;
      } else {
        AtTurn(split, ifs, expanded, start, i, items);
        items := FieldSplitAppendPiece(split, ifs, expanded[start..i], items);
        i := i + 1;
        start := i;
      }
    }
  }

  lemma AtIndexTurn(s: string)
    ensures AtIndex(s) == if s == "" || s[0] == AT_SPLIT then 0 else 1 + AtIndex(s[1..])
  {
  }

  lemma AtTurn(split: bool, ifs: string, s: string, start: nat, i: nat, items: seq<string>)
    requires start <= i <= |s| && AtIndex(s[start..]) == i - start
    ensures items + AtPieces(split, ifs, s[start..]) ==
            (items + AppendPiece(split, ifs, s[start..i])) + if i == |s| then [] else AtPieces(split, ifs, s[i + 1..])
  {
    hide AppendPiece, AtIndex;
    Suffix(s, start, i - start);
    assert s[start..][..i - start] == s[start..i];
    if i < |s| {
      Suffix(s, start, i - start + 1);
    }
  }

  function EncodeParts(parts: seq<seq<Element>>): string {
    if parts == [] then ""
    else if |parts| == 1 then Encode(parts[0])
    else Encode(parts[0]) + ([AT_SPLIT] + EncodeParts(parts[1..]))
  }

  function PartPieces(split: bool, ifs: string, parts: seq<seq<Element>>): seq<string> {
    if parts == [] then [] else Texts(Pieces(split, ifs, parts[0])) + PartPieces(split, ifs, parts[1..])
  }

  predicate NoSeparator(es: seq<Element>) {
    forall k :: 0 <= k < |es| ==> es[k].Char? ==> es[k].c != AT_SPLIT
  }

  lemma {:induction false} SeparatorNotEncoded(es: seq<Element>)
    requires NoSeparator(es)
    ensures AT_SPLIT !in Encode(es)
  {
    if es != [] {
      SeparatorNotEncoded(es[1..]);
      assert AT_SPLIT !in EncodeOne(es[0]);
    }
  }

  lemma {:induction false} AtIndexIs(s: string, k: nat)
    requires k <= |s| && AT_SPLIT !in s[..k] && (k < |s| ==> s[k] == AT_SPLIT)
    ensures AtIndex(s) == k
  {
    if k > 0 {
      assert s[..k][0] == s[0];
      assert s[1..][..k - 1] == s[..k][1..];
      AtIndexIs(s[1..], k - 1);
    }
  }

  /** The words several encoded parts become are those of each part, in order: no field crosses a separator. */
  lemma {:induction false} PartsAgree(split: bool, ifs: string, parts: seq<seq<Element>>)
    requires parts != [] && PlainIfs(ifs)
    requires forall k :: 0 <= k < |parts| ==> Encodable(parts[k]) && NoSeparator(parts[k])
    ensures AtPieces(split, ifs, EncodeParts(parts)) == PartPieces(split, ifs, parts)
    decreases |parts|
  {
    hide Encode, AppendPiece, Texts, Pieces, AtIndex, Encodable, NoSeparator;
    var s, n := EncodeParts(parts), |Encode(parts[0])|;
    SeparatorNotEncoded(parts[0]);
    PieceAgrees(split, ifs, parts[0]);
    assert s[..n] == Encode(parts[0]);
    AtIndexIs(s, n);
    if |parts| > 1 {
      assert s[n + 1..] == EncodeParts(parts[1..]);
      PartsAgree(split, ifs, parts[1..]);
    } else {
      assert PartPieces(split, ifs, parts[1..]) == [];
    }
  }

  // ---------- what splitting promises ----------

  /** The elements that end no field. */
  function Kept(ifs: string, es: seq<Element>): seq<Element> {
    if es == [] then [] else (if Ends(ifs, es[0]) then [] else [es[0]]) + Kept(ifs, es[1..])
  }

  function Flatten(fields: seq<seq<Element>>): seq<Element> {
    if fields == [] then [] else fields[0] + Flatten(fields[1..])
  }

  lemma {:induction false} KeptConcat(ifs: string, a: seq<Element>, b: seq<Element>)
    ensures Kept(ifs, a + b) == Kept(ifs, a) + Kept(ifs, b)
  {
    hide Ends;
    if a == [] {
      assert a + b == b;
    } else {
      assert (a + b)[1..] == a[1..] + b;
      KeptConcat(ifs, a[1..], b);
    }
  }

  lemma {:induction false} KeptAll(ifs: string, es: seq<Element>)
    requires forall k :: 0 <= k < |es| ==> !Ends(ifs, es[k])
    ensures Kept(ifs, es) == es
  {
    hide Ends;
    if es != [] {
      KeptAll(ifs, es[1..]);
    }
  }

  lemma {:induction false} BlanksKeep(ifs: string, es: seq<Element>)
    ensures Kept(ifs, DropBlanks(ifs, es)) == Kept(ifs, es)
  {
    if es != [] && Blank(ifs, es[0]) {
      BlanksKeep(ifs, es[1..]);
    }
  }

  lemma {:induction false} SeparatorKeeps(ifs: string, es: seq<Element>)
    ensures Kept(ifs, DropSeparator(ifs, es)) == Kept(ifs, es)
  {
    if es != [] && Ends(ifs, es[0]) {
      if Blank(ifs, es[0]) {
        SeparatorKeeps(ifs, es[1..]);
      } else {
        BlanksKeep(ifs, es[1..]);
      }
    }
  }

  /** Splitting drops the unquoted IFS characters and nothing else: quoted characters and quoted nothings
      stay, in order. */
  lemma {:induction false} SplittingKeeps(ifs: string, es: seq<Element>)
    ensures Flatten(Fields(ifs, es)) == Kept(ifs, es)
    decreases |es|
  {
    hide Ends, Blank, DropBlanks, DropSeparator, FirstField, Kept;
    var rest := DropBlanks(ifs, es);
    BlanksKeep(ifs, es);
    NoneKept(ifs);
    if rest != [] {
      var n := FirstField(ifs, rest);
      assert rest == rest[..n] + rest[n..];
      KeptConcat(ifs, rest[..n], rest[n..]);
      KeptAll(ifs, rest[..n]);
      if n < |rest| {
        SeparatorKeeps(ifs, rest[n..]);
        SplittingKeeps(ifs, DropSeparator(ifs, rest[n..]));
        FlattenFirst(rest[..n], Fields(ifs, DropSeparator(ifs, rest[n..])));
      } else {
        FlattenFirst(rest[..n], []);
      }
    }
  }

  lemma FlattenFirst(field: seq<Element>, rest: seq<seq<Element>>)
    ensures Flatten([field] + rest) == field + Flatten(rest)
  {
    assert ([field] + rest)[1..] == rest;
  }

  lemma NoneKept(ifs: string)
    ensures Kept(ifs, []) == []
  {
  }

  /** The unquoted IFS characters that are not blanks. */
  function Marks(ifs: string, es: seq<Element>): nat {
    if es == [] then 0 else (if Ends(ifs, es[0]) && !Blank(ifs, es[0]) then 1 else 0) + Marks(ifs, es[1..])
  }

  /** Text stays one word where splitting is off, and where it has no unquoted IFS character: quotes are removed and
      nothing else changes. */
  lemma UnsplitStaysWhole(split: bool, ifs: string, es: seq<Element>)
    requires Encodable(es) && PlainIfs(ifs)
    requires !split || forall k :: 0 <= k < |es| && es[k].Char? ==> es[k].quoted || es[k].c !in ifs
    ensures AppendPiece(split, ifs, Encode(es)) == [TextOf(es)]
  {
    hide AppendPiece, Encode, Fields, TextOf;
    PieceAgrees(split, ifs, es);
    TextsFirst(es, []);
    NoTexts();
    assert [es] + [] == [es];
  }
}
